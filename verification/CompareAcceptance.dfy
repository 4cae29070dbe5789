/** Which widgets the compiler accepts, what each refusal means, and which rows its filters select. */
module CompareAcceptance {
  import opened Common
  import opened DataEngine
  import opened CompareWidget
  import opened CompareMeasure

  // ---- Filters ----

  predicate HasCurrency(s: Side) { exists f <- s.dimensions :: f.0 == "currency" }

  lemma {:induction false} FilterIsFound(filters: Filters, key: string)
    ensures FilterOn(filters, key).Some? <==> exists f <- filters :: f.0 == key
    ensures FilterOn(filters, key).Some? ==>
      exists i :: 0 <= i < |filters| && filters[i] == (key, FilterOn(filters, key).value) && FirstAt(filters, key, i)
  {
    if filters != [] && filters[0].0 != key {
      FilterIsFound(filters[1..], key);
      if FilterOn(filters, key).Some? {
        var i :| 0 <= i < |filters[1..]| && filters[1..][i] == (key, FilterOn(filters, key).value)
                 && FirstAt(filters[1..], key, i);
        assert filters[i + 1] == (key, FilterOn(filters, key).value) && FirstAt(filters, key, i + 1);
      }
    } else if filters != [] {
      assert filters[0] == (key, FilterOn(filters, key).value) && FirstAt(filters, key, 0);
    }
  }

  predicate FirstAt(filters: Filters, key: string, i: nat)
    requires i < |filters|
  {
    filters[i].0 == key && forall j :: 0 <= j < i ==> filters[j].0 != key
  }

  /** The filters of an accepted side select exactly the rows that count for the widget. */
  lemma FiltersSelect(row: Row, s: Side, pinned: Option<string>)
    requires FiltersOf(s, pinned).Ok?
    ensures Matches(row, s.dimensionFields, FiltersOf(s, pinned).value) <==> Counts(row, s, pinned)
  {
    FilterIsFound(s.dimensions, CURRENCY);
    var filters := FiltersOf(s, pinned).value;
    if s.unit == "currency_minor" && !HasCurrency(s) {
      assert filters == s.dimensions + [("currency", pinned.value)];
      assert ("currency", pinned.value) in filters && forall f <- s.dimensions :: f in filters;
    } else {
      assert filters == s.dimensions;
    }
  }

  lemma FiltersSelectRows(rows: seq<Row>, s: Side, pinned: Option<string>)
    requires FiltersOf(s, pinned).Ok?
    ensures Select(rows, s, pinned, FiltersOf(s, pinned).value)
  {
    forall row | row in rows ensures Matches(row, s.dimensionFields, FiltersOf(s, pinned).value) <==> Counts(row, s, pinned) {
      FiltersSelect(row, s, pinned);
    }
  }

  // ---- Money ----

  /** The currency a per-currency amount is read in: its first currency dimension, or the pinned one. */
  predicate ReadIn(s: Side, pinned: Option<string>, c: string) {
    if HasCurrency(s)
    then exists i :: 0 <= i < |s.dimensions| && FirstAt(s.dimensions, "currency", i) && s.dimensions[i].1 == c
    else pinned == Some(c)
  }

  /** The currency of the side's amounts; none for other values, "*" for amounts whose currency is not known. */
  ghost predicate IsMoneyIn(s: Side, pinned: Option<string>, money: Option<string>) {
    match money
    case None => s.unit != "currency_minor" && forall c :: IsCode(c) ==> s.unit != c + "_minor"
    case Some(m) =>
      || (IsCode(m) && s.unit == m + "_minor")
      || (s.unit == "currency_minor"
          && if exists c :: ReadIn(s, pinned, c) && IsCode(c) then ReadIn(s, pinned, m) && IsCode(m) else m == "*")
  }

  /** How the side reads its currency once its filters are formed. */
  lemma CurrencyRead(s: Side, pinned: Option<string>)
    requires FiltersOf(s, pinned).Ok? && s.unit == "currency_minor"
    ensures FilterOn(FiltersOf(s, pinned).value, CURRENCY).Some?
    ensures forall c :: ReadIn(s, pinned, c) <==> FilterOn(FiltersOf(s, pinned).value, CURRENCY) == Some(c)
  {
    FilterIsFound(s.dimensions, CURRENCY);
    if !HasCurrency(s) { AppendedIsFound(s.dimensions, CURRENCY, pinned.value); }
  }

  lemma {:induction false} AppendedIsFound(filters: Filters, key: string, value: string)
    requires forall f <- filters :: f.0 != key
    ensures FilterOn(filters + [(key, value)], key) == Some(value)
  {
    if filters != [] {
      assert (filters + [(key, value)])[1..] == filters[1..] + [(key, value)];
      AppendedIsFound(filters[1..], key, value);
    }
  }

  lemma CodeUnit(unit: string)
    ensures (exists c :: IsCode(c) && unit == c + "_minor") <==> |unit| == 9 && unit[3..] == "_minor" && IsCode(unit[..3])
  {
    if |unit| == 9 && unit[3..] == "_minor" && IsCode(unit[..3]) { assert unit == unit[..3] + "_minor"; }
    if c :| IsCode(c) && unit == c + "_minor" { assert unit[..3] == c && unit[3..] == "_minor"; }
  }

  /** The compiler's currency of a side is the one its amounts are in. */
  lemma CurrencyIsMoney(s: Side, pinned: Option<string>, money: Option<string>)
    requires FiltersOf(s, pinned).Ok?
    ensures IsMoneyIn(s, pinned, money) <==> SideCurrency(s.unit, FiltersOf(s, pinned).value) == money
  {
    CodeUnit(s.unit);
    if s.unit == "currency_minor" {
      assert |s.unit| == 14;
      CurrencyRead(s, pinned);
    } else if c :| IsCode(c) && s.unit == c + "_minor" {
      assert s.unit[..3] == c;
      if money.Some? && IsCode(money.value) && s.unit == money.value + "_minor" { assert s.unit[..3] == money.value; }
    }
  }

  // ---- Acceptance ----

  predicate IsExactPeriod(p: Period) { p in {Today, Last7Days, Last30Days, Last90Days} }

  /** Every dimension the side is read by has a field, and an amount per currency a currency. */
  predicate IsReadable(s: Side, pinned: Option<string>) {
    && (forall f <- s.dimensions :: f.0 in s.dimensionFields)
    && (s.unit == "currency_minor" && !HasCurrency(s) ==> pinned.Some? && "currency" in s.dimensionFields)
  }

  lemma ReadableIff(s: Side, pinned: Option<string>)
    ensures FiltersOf(s, pinned).Ok? <==> IsReadable(s, pinned)
    ensures FiltersOf(s, pinned) == Err(CurrencyUnpinned) <==>
      s.unit == "currency_minor" && !HasCurrency(s) && pinned.None?
  {
    FilterIsFound(s.dimensions, CURRENCY);
    if s.unit == "currency_minor" && !HasCurrency(s) && pinned.Some? {
      var filters := s.dimensions + [("currency", pinned.value)];
      assert ("currency", pinned.value) in filters && forall f <- s.dimensions :: f in filters;
      assert forall f <- filters :: f in s.dimensions || f == ("currency", pinned.value);
    }
  }

  /** A numerator over a denominator: money only over the same money, and percentages of two values that are none. */
  predicate UnitsFit(a: Option<string>, b: Option<string>, format: Format) {
    match b
    case None => format.Ratio? || a == None
    case Some(_) => format.Ratio? && a == b
  }

  /** A widget is compiled exactly when its sides are daily sums or means over a period with an exact offset, both sides
   * can be read, and their units fit. */
  lemma AcceptedIff(input: Input, a: Option<string>, b: Option<string>)
    requires IsMoneyIn(input.numerator, input.currency, a) && IsMoneyIn(input.denominator, input.currency, b)
    ensures Compiled(input).Ok? <==>
      && input.numerator.granularity == input.denominator.granularity == ByDay && IsExactPeriod(input.period)
      && input.numerator.aggregation in {SumOfDays, AverageOfDays} && input.denominator.aggregation in {SumOfDays, AverageOfDays}
      && IsReadable(input.numerator, input.currency) && IsReadable(input.denominator, input.currency)
      && UnitsFit(a, b, input.format)
  {
    ReadableIff(input.numerator, input.currency);
    ReadableIff(input.denominator, input.currency);
    if FiltersOf(input.numerator, input.currency).Ok? { CurrencyIsMoney(input.numerator, input.currency, a); }
    if FiltersOf(input.denominator, input.currency).Ok? { CurrencyIsMoney(input.denominator, input.currency, b); }
  }

  /** A side that can be read has money of one kind. */
  lemma MoneyIsKnown(s: Side, pinned: Option<string>) returns (money: Option<string>)
    requires IsReadable(s, pinned)
    ensures IsMoneyIn(s, pinned, money) && forall m :: IsMoneyIn(s, pinned, m) ==> m == money
  {
    ReadableIff(s, pinned);
    money := SideCurrency(s.unit, FiltersOf(s, pinned).value);
    forall m ensures IsMoneyIn(s, pinned, m) <==> m == money {
      CurrencyIsMoney(s, pinned, m);
    }
  }

  /** Each refusal's reason is true of the widget. */
  lemma RefusalIsTrue(input: Input)
    requires Compiled(input).Err?
    ensures match Compiled(input).error
      case GranularityUnsupported => input.numerator.granularity != ByDay || input.denominator.granularity != ByDay
      case PeriodUnsupported => !IsExactPeriod(input.period)
      case AggregationUnsupported =>
        exists s <- [input.numerator, input.denominator] :: s.aggregation !in {SumOfDays, AverageOfDays}
      case CurrencyUnpinned =>
        exists s <- [input.numerator, input.denominator] ::
          s.unit == "currency_minor" && !HasCurrency(s) && input.currency.None?
      case DimensionUnknown => exists s <- [input.numerator, input.denominator] :: !IsReadable(s, input.currency)
      case UnitsIncompatible =>
        exists a, b :: IsMoneyIn(input.numerator, input.currency, a) && IsMoneyIn(input.denominator, input.currency, b)
          && !UnitsFit(a, b, input.format)
  {
    var sides := [input.numerator, input.denominator];
    assert input.numerator in sides && input.denominator in sides;
    ReadableIff(input.numerator, input.currency);
    ReadableIff(input.denominator, input.currency);
    if IsReadable(input.numerator, input.currency) && IsReadable(input.denominator, input.currency) {
      var a := MoneyIsKnown(input.numerator, input.currency);
      var b := MoneyIsKnown(input.denominator, input.currency);
      CurrencyIsMoney(input.numerator, input.currency, a);
      CurrencyIsMoney(input.denominator, input.currency, b);
    }
  }

  /** The numerator keeps its unit in the ratio exactly when it is money of a known currency over a value that is none. */
  lemma KeepsUnitIff(input: Input, a: Option<string>, b: Option<string>)
    requires Compiled(input).Ok?
    requires IsMoneyIn(input.numerator, input.currency, a) && IsMoneyIn(input.denominator, input.currency, b)
    ensures FiltersOf(input.numerator, input.currency).Ok? && FiltersOf(input.denominator, input.currency).Ok?
    ensures var amountPerUnit := AmountPerUnit(input, FiltersOf(input.numerator, input.currency).value,
                                               FiltersOf(input.denominator, input.currency).value);
      && (amountPerUnit <==> a.Some? && a.value != "*" && b.None?)
      && (Operand(Numerator, amountPerUnit) == FieldRef("numerator") <==> a.Some? && a.value != "*" && b.None?)
  {
    CurrencyIsMoney(input.numerator, input.currency, a);
    CurrencyIsMoney(input.denominator, input.currency, b);
    QueriedUnitIs(input.numerator, input.currency, a);
    QueriedUnitIs(input.denominator, input.currency, b);
  }

  /** The unit a side is queried in names its currency, when that is known. */
  lemma QueriedUnitIs(s: Side, pinned: Option<string>, money: Option<string>)
    requires FiltersOf(s, pinned).Ok? && SideCurrency(s.unit, FiltersOf(s, pinned).value) == money
    ensures var unit := QueriedUnit(s.unit, FiltersOf(s, pinned).value);
      AmountCurrency(unit, None) == if money == Some("*") then None else money
  {
    var c := AmountCurrency(s.unit, FilterOn(FiltersOf(s, pinned).value, CURRENCY));
    if c.Some? {
      assert (c.value + "_minor")[..3] == c.value && (c.value + "_minor")[3..] == "_minor";
    }
  }
}
