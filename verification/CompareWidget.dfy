/** A compare widget's own numbers: each side from its day totals, their ratio, and its change. */
module CompareWidget {
  import opened Common
  import opened DataEngine

  datatype Aggregation = SumOfDays | AverageOfDays | MinOfDays | MaxOfDays | LastDay

  datatype Granularity = ByDay | ByHour | ByInstant

  datatype Format = Percent | Ratio

  type Filters = seq<(string, string)>

  /** One side: its dataset, unit and aggregation, its filters by dimension, and the dataset's fields for them. */
  datatype Side = Side(datasetId: string, granularity: Granularity, unit: string, aggregation: Aggregation,
                       dimensions: Filters, dimensionFields: map<string, string>, currencyField: Option<string>)

  const TIME := "time"
  const VALUE := "value"

  // ---- A side over a span ----

  /** The row has every filtered dimension's value. */
  predicate Matches(row: Row, fields: map<string, string>, filters: Filters) {
    forall f <- filters :: f.0 in fields && fields[f.0] in row && row[fields[f.0]] == Text(f.1)
  }

  /** A matching row's value inside the span. */
  function SidePart(row: Row, fields: map<string, string>, filters: Filters, from: int, until: int): Option<real> {
    if Matches(row, fields, filters) && TIME in row && row[TIME].Date? && from <= row[TIME].day <= until
       && VALUE in row && row[VALUE].Num?
    then Some(row[VALUE].num) else None
  }

  function SideParts(rows: seq<Row>, fields: map<string, string>, filters: Filters, from: int, until: int)
    : (parts: seq<Option<real>>)
    ensures |parts| == |rows|
    ensures forall i :: 0 <= i < |rows| ==> parts[i] == SidePart(rows[i], fields, filters, from, until)
  {
    seq(|rows|, i requires 0 <= i < |rows| => SidePart(rows[i], fields, filters, from, until))
  }

  /** One day's total, when the day has a value. */
  function DayTotal(rows: seq<Row>, fields: map<string, string>, filters: Filters, day: int): Option<real> {
    Total(SideParts(rows, fields, filters, day, day), |rows|)
  }

  /** The totals of the days that have a value, in order. */
  function DayTotals(rows: seq<Row>, fields: map<string, string>, filters: Filters, from: int, until: int): seq<real>
    decreases until - from + 1
  {
    if until < from then []
    else
      var day := DayTotal(rows, fields, filters, until);
      DayTotals(rows, fields, filters, from, until - 1) + if day.Some? then [day.value] else []
  }

  function SumOf(values: seq<real>): real {
    if values == [] then 0.0 else SumOf(values[..|values| - 1]) + values[|values| - 1]
  }

  /** A side's number: the sum of its day totals or their mean; none without a value. */
  function Aggregate(aggregation: Aggregation, days: seq<real>): Option<real>
    requires aggregation.SumOfDays? || aggregation.AverageOfDays?
  {
    if days == [] then None
    else if aggregation.SumOfDays? then Some(SumOf(days))
    else Some(SumOf(days) / (|days| as real))
  }

  // ---- The ratio ----

  /** A over B, none when a side has no value or B is zero. */
  function RatioOf(a: Option<real>, b: Option<real>): Option<real> {
    if a.None? || b.None? || b.value == 0.0 then None else Some(a.value / b.value)
  }

  /** In percentage points, or relative to the size of the previous ratio. */
  function CompareChange(value: Option<real>, previous: Option<real>, format: Format): Option<real> {
    if value.None? || previous.None? then None
    else if format.Percent? then Some((value.value - previous.value) * 100.0)
    else if previous.value == 0.0 then None
    else Some((value.value - previous.value) / (if previous.value < 0.0 then -previous.value else previous.value))
  }

  // ---- The same numbers, straight from the rows ----

  predicate HasDimension(row: Row, s: Side, key: string, value: string) {
    key in s.dimensionFields && s.dimensionFields[key] in row && row[s.dimensionFields[key]] == Text(value)
  }

  /** A row counts when it has all the side's dimensions, and an amount per currency only in the widget's currency. */
  predicate Counts(row: Row, s: Side, pinned: Option<string>) {
    && (forall f <- s.dimensions :: HasDimension(row, s, f.0, f.1))
    && (s.unit == "currency_minor" && (forall f <- s.dimensions :: f.0 != "currency") ==>
          pinned.Some? && HasDimension(row, s, "currency", pinned.value))
  }

  /** The value of a row that counts and is of one of the dates. */
  function CountedValue(row: Row, s: Side, pinned: Option<string>, from: int, until: int): Option<real> {
    if Counts(row, s, pinned) && TIME in row && row[TIME].Date? && from <= row[TIME].day <= until
       && VALUE in row && row[VALUE].Num?
    then Some(row[VALUE].num) else None
  }

  function SumOfRows(rows: seq<Row>, s: Side, pinned: Option<string>, from: int, until: int, n: nat): real
    requires n <= |rows|
  {
    if n == 0 then 0.0
    else
      var value := CountedValue(rows[n - 1], s, pinned, from, until);
      SumOfRows(rows, s, pinned, from, until, n - 1) + if value.Some? then value.value else 0.0
  }

  function DatesOfRows(rows: seq<Row>, s: Side, pinned: Option<string>, from: int, until: int): set<int> {
    set row: Row | row in rows && CountedValue(row, s, pinned, from, until).Some? :: row[TIME].day
  }

  /** The side's sum over the dates, or its mean per date that has a value; none without a value. */
  function WidgetNumber(rows: seq<Row>, s: Side, pinned: Option<string>, from: int, until: int): Option<real> {
    var sum, dates := SumOfRows(rows, s, pinned, from, until, |rows|), DatesOfRows(rows, s, pinned, from, until);
    if dates == {} then None
    else if s.aggregation.AverageOfDays? then Some(sum / |dates| as real)
    else Some(sum)
  }

  /** The filters select the rows that count. */
  predicate Select(rows: seq<Row>, s: Side, pinned: Option<string>, filters: Filters) {
    forall row <- rows :: Matches(row, s.dimensionFields, filters) <==> Counts(row, s, pinned)
  }

  lemma {:induction false} TotalIsSum(rows: seq<Row>, s: Side, pinned: Option<string>, filters: Filters, from: int, until: int,
                                      n: nat)
    requires Select(rows, s, pinned, filters) && n <= |rows|
    ensures var total := Total(SideParts(rows, s.dimensionFields, filters, from, until), n);
      && (total.Some? <==> exists i :: 0 <= i < n && CountedValue(rows[i], s, pinned, from, until).Some?)
      && SumOfRows(rows, s, pinned, from, until, n) == if total.Some? then total.value else 0.0
  {
    if n > 0 {
      TotalIsSum(rows, s, pinned, filters, from, until, n - 1);
      assert rows[n - 1] in rows;
      assert SidePart(rows[n - 1], s.dimensionFields, filters, from, until)
          == CountedValue(rows[n - 1], s, pinned, from, until);
    }
  }

  lemma DatesHaveRows(rows: seq<Row>, s: Side, pinned: Option<string>, from: int, until: int)
    ensures DatesOfRows(rows, s, pinned, from, until) == {} <==>
      forall i :: 0 <= i < |rows| ==> CountedValue(rows[i], s, pinned, from, until).None?
  {
    if i :| 0 <= i < |rows| && CountedValue(rows[i], s, pinned, from, until).Some? {
      assert rows[i] in rows;
      assert rows[i][TIME].day in DatesOfRows(rows, s, pinned, from, until);
    }
  }

  lemma CountedDayHasTotal(rows: seq<Row>, s: Side, pinned: Option<string>, filters: Filters, from: int, until: int, d: int)
    requires Select(rows, s, pinned, filters) && d in DatesOfRows(rows, s, pinned, from, until)
    ensures from <= d <= until && DayTotal(rows, s.dimensionFields, filters, d).Some?
  {
    var row: Row :| row in rows && CountedValue(row, s, pinned, from, until).Some? && row[TIME].day == d;
    assert SidePart(row, s.dimensionFields, filters, d, d).Some?;
    DayHasTotal(rows, s.dimensionFields, filters, d);
  }

  lemma TotalDayIsCounted(rows: seq<Row>, s: Side, pinned: Option<string>, filters: Filters, from: int, until: int, d: int)
    requires Select(rows, s, pinned, filters) && from <= d <= until && DayTotal(rows, s.dimensionFields, filters, d).Some?
    ensures d in DatesOfRows(rows, s, pinned, from, until)
  {
    DayHasTotal(rows, s.dimensionFields, filters, d);
    var row: Row :| row in rows && SidePart(row, s.dimensionFields, filters, d, d).Some?;
    assert CountedValue(row, s, pinned, from, until).Some? && row[TIME].day == d;
  }

  /** The dates with a counted row are the days with a total. */
  lemma DatesAreDays(rows: seq<Row>, s: Side, pinned: Option<string>, filters: Filters, from: int, until: int)
    requires Select(rows, s, pinned, filters)
    ensures DatesOfRows(rows, s, pinned, from, until) == DaysWithValue(rows, s.dimensionFields, filters, from, until)
  {
    DaysWithValueAre(rows, s.dimensionFields, filters, from, until);
    forall d | d in DatesOfRows(rows, s, pinned, from, until)
      ensures d in DaysWithValue(rows, s.dimensionFields, filters, from, until)
    {
      CountedDayHasTotal(rows, s, pinned, filters, from, until, d);
    }
    forall d | d in DaysWithValue(rows, s.dimensionFields, filters, from, until)
      ensures d in DatesOfRows(rows, s, pinned, from, until)
    {
      TotalDayIsCounted(rows, s, pinned, filters, from, until, d);
    }
  }

  /** Adding day totals, or taking their mean, is the widget's number. */
  lemma AggregateIsNumber(rows: seq<Row>, s: Side, pinned: Option<string>, filters: Filters, from: int, until: int)
    requires Select(rows, s, pinned, filters) && (s.aggregation.SumOfDays? || s.aggregation.AverageOfDays?)
    ensures Aggregate(s.aggregation, DayTotals(rows, s.dimensionFields, filters, from, until))
         == WidgetNumber(rows, s, pinned, from, until)
  {
    TotalIsSum(rows, s, pinned, filters, from, until, |rows|);
    SpanTotalIsDayTotals(rows, s.dimensionFields, filters, from, until);
    DatesHaveRows(rows, s, pinned, from, until);
    DatesAreDays(rows, s, pinned, filters, from, until);
    DaysWithValueAre(rows, s.dimensionFields, filters, from, until);
  }

  // ---- Totals over a span are totals over its days ----

  lemma {:induction false} TotalSplits(a: seq<Option<real>>, b: seq<Option<real>>, c: seq<Option<real>>, n: nat)
    requires n <= |a| == |b| == |c|
    requires forall i :: 0 <= i < n ==> (a[i] == b[i] && c[i].None?) || (a[i] == c[i] && b[i].None?)
    ensures Total(a, n) == Plus(Total(b, n), Total(c, n))
  {
    if n > 0 { TotalSplits(a, b, c, n - 1); }
  }

  lemma {:induction false} TotalOfNone(a: seq<Option<real>>, n: nat)
    requires n <= |a| && forall i :: 0 <= i < n ==> a[i].None?
    ensures Total(a, n).None?
  {
    if n > 0 { TotalOfNone(a, n - 1); }
  }

  lemma {:induction false} TotalSome(a: seq<Option<real>>, n: nat)
    requires n <= |a|
    ensures Total(a, n).Some? <==> exists i :: 0 <= i < n && a[i].Some?
  {
    if n > 0 { TotalSome(a, n - 1); }
  }

  lemma SumOfAppend(days: seq<real>, x: real)
    ensures SumOf(days + [x]) == SumOf(days) + x
  {
    assert (days + [x])[..|days|] == days;
  }

  /** Adding all values of a span is adding its day totals. */
  lemma {:induction false} SpanTotalIsDayTotals(rows: seq<Row>, fields: map<string, string>, filters: Filters, from: int,
                                                until: int)
    ensures var days := DayTotals(rows, fields, filters, from, until);
      Total(SideParts(rows, fields, filters, from, until), |rows|) == if days == [] then None else Some(SumOf(days))
    decreases until - from + 1
  {
    var all := SideParts(rows, fields, filters, from, until);
    if until < from {
      TotalOfNone(all, |rows|);
    } else {
      var before, last := SideParts(rows, fields, filters, from, until - 1), SideParts(rows, fields, filters, until, until);
      SpanTotalIsDayTotals(rows, fields, filters, from, until - 1);
      TotalSplits(all, before, last, |rows|);
      var day := DayTotal(rows, fields, filters, until);
      var days := DayTotals(rows, fields, filters, from, until - 1);
      if day.Some? { SumOfAppend(days, day.value); } else { assert days + [] == days; }
    }
  }

  /** The days of the span that have a value. */
  function DaysWithValue(rows: seq<Row>, fields: map<string, string>, filters: Filters, from: int, until: int): set<int>
    decreases until - from + 1
  {
    if until < from then {}
    else
      DaysWithValue(rows, fields, filters, from, until - 1)
        + if DayTotal(rows, fields, filters, until).Some? then {until} else {}
  }

  lemma {:induction false} DaysWithValueAre(rows: seq<Row>, fields: map<string, string>, filters: Filters, from: int,
                                            until: int)
    ensures |DaysWithValue(rows, fields, filters, from, until)| == |DayTotals(rows, fields, filters, from, until)|
    ensures forall d :: d in DaysWithValue(rows, fields, filters, from, until) <==>
      from <= d <= until && DayTotal(rows, fields, filters, d).Some?
    decreases until - from + 1
  {
    if until >= from { DaysWithValueAre(rows, fields, filters, from, until - 1); }
  }

  /** A day has a total exactly when a matching row has a value on it. */
  lemma DayHasTotal(rows: seq<Row>, fields: map<string, string>, filters: Filters, day: int)
    ensures DayTotal(rows, fields, filters, day).Some? <==>
      exists r <- rows :: SidePart(r, fields, filters, day, day).Some?
  {
    var parts := SideParts(rows, fields, filters, day, day);
    TotalSome(parts, |rows|);
    if r :| r in rows && SidePart(r, fields, filters, day, day).Some? {
      var i :| 0 <= i < |rows| && rows[i] == r;
      assert parts[i].Some?;
    }
    if i :| 0 <= i < |rows| && parts[i].Some? {
      assert rows[i] in rows;
    }
  }
}
