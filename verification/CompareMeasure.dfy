/**
 * The compiler from a compare widget to a preparation graph and a model, and its correctness: evaluating what it emits
 * gives the widget's own numbers.
 */
module CompareMeasure {
  import opened Common
  import opened DataEngine
  import opened CompareWidget

  datatype Period = Today | ThisWeek | Last7Days | ThisMonth | Last30Days | ThisQuarter | Last90Days | ThisYear
                  | Last12Months

  datatype Refusal = AggregationUnsupported | CurrencyUnpinned | GranularityUnsupported | PeriodUnsupported
                   | DimensionUnknown | UnitsIncompatible

  datatype Input = Input(period: Period, format: Format, numerator: Side, denominator: Side, currency: Option<string>)

  datatype Compilation = Compilation(nodes: seq<Node>, measures: seq<Measure>)

  datatype Role = Numerator | Denominator

  const ROLES := [Numerator, Denominator]

  const OUTPUT := "compare"
  const DATE := "date"
  const TAG := "compare_side"
  const CURRENCY := "currency"

  // ---- Names ----

  function NameOf(r: Role): string { if r.Numerator? then "numerator" else "denominator" }

  function SourceId(r: Role): string { if r.Numerator? then "numerator_source" else "denominator_source" }

  function ScopeId(r: Role): string { if r.Numerator? then "numerator_scope" else "denominator_scope" }

  function TagId(r: Role): string { if r.Numerator? then "numerator_tag" else "denominator_tag" }

  function ValueField(r: Role): string { if r.Numerator? then "numerator_value" else "denominator_value" }

  function CurrencyField(r: Role): string { if r.Numerator? then "numerator_currency" else "denominator_currency" }

  function TotalId(r: Role): string { if r.Numerator? then "numerator_total" else "denominator_total" }

  function DaysId(r: Role): string { if r.Numerator? then "numerator_days" else "denominator_days" }

  const RATIO := "ratio"
  const PREVIOUS := "ratio_previous"
  const CHANGE := "ratio_change"

  function SideOf(input: Input, r: Role): Side { if r.Numerator? then input.numerator else input.denominator }

  // ---- Units ----

  predicate IsCode(s: string) { |s| == 3 && forall c <- s :: 'A' <= c <= 'Z' }

  predicate IsPerCurrencyUnit(unit: string) { unit == "currency_minor" }

  /** The currency of an amount: its unit's, or the one a per-currency amount was filtered to. */
  function AmountCurrency(unit: string, currency: Option<string>): Option<string> {
    if |unit| == 9 && unit[3..] == "_minor" && IsCode(unit[..3]) then Some(unit[..3])
    else if IsPerCurrencyUnit(unit) && currency.Some? && IsCode(currency.value) then currency
    else None
  }

  function FilterOn(filters: Filters, key: string): Option<string> {
    if filters == [] then None
    else if filters[0].0 == key then Some(filters[0].1)
    else FilterOn(filters[1..], key)
  }

  /** The currency as far as it is known; "*" for a per-currency amount that none fixes. */
  function SideCurrency(unit: string, filters: Filters): Option<string> {
    var fixed := AmountCurrency(unit, FilterOn(filters, CURRENCY));
    if fixed.Some? then fixed else if IsPerCurrencyUnit(unit) then Some("*") else None
  }

  /** An amount divides only by the same currency, and a percentage is of two plain numbers. */
  predicate UnitsProblem(a: Option<string>, b: Option<string>, format: Format) {
    (b.Some? && a != b) || (format.Percent? && (a.Some? || b.Some?))
  }

  function QueriedUnit(unit: string, filters: Filters): string {
    var c := AmountCurrency(unit, FilterOn(filters, CURRENCY));
    if c.Some? then c.value + "_minor" else unit
  }

  predicate IsAmountPerUnit(numerator: string, denominator: string) {
    AmountCurrency(numerator, None).Some? && AmountCurrency(denominator, None).None?
  }

  // ---- Filters ----

  /** The side's filters, a pinned currency standing in for a missing currency filter. */
  function FiltersOf(s: Side, currency: Option<string>): Result<Filters, Refusal> {
    var unpinned := IsPerCurrencyUnit(s.unit) && FilterOn(s.dimensions, CURRENCY).None?;
    if unpinned && currency.None? then Err(CurrencyUnpinned)
    else
      var filters := if unpinned then s.dimensions + [(CURRENCY, currency.value)] else s.dimensions;
      if exists f <- filters :: f.0 !in s.dimensionFields then Err(DimensionUnknown) else Ok(filters)
  }

  /** Stands for the runtime's comparator sort by key. */
  function Inserted(s: Filters, f: (string, string)): Filters {
    if s == [] then [f]
    else if LexLess(f.0, s[|s| - 1].0) then Inserted(s[..|s| - 1], f) + [s[|s| - 1]]
    else s + [f]
  }

  function Sorted(s: Filters): Filters {
    if s == [] then [] else Inserted(Sorted(s[..|s| - 1]), s[|s| - 1])
  }

  lemma {:induction false} InsertedKeeps(s: Filters, f: (string, string))
    ensures forall x :: x in Inserted(s, f) <==> x in s || x == f
    ensures |Inserted(s, f)| == |s| + 1
  {
    if s != [] && LexLess(f.0, s[|s| - 1].0) {
      InsertedKeeps(s[..|s| - 1], f);
      assert s == s[..|s| - 1] + [s[|s| - 1]];
    }
  }

  lemma {:induction false} SortedKeeps(s: Filters)
    ensures forall x :: x in Sorted(s) <==> x in s
    ensures |Sorted(s)| == |s|
  {
    if s != [] {
      SortedKeeps(s[..|s| - 1]);
      InsertedKeeps(Sorted(s[..|s| - 1]), s[|s| - 1]);
      assert s == s[..|s| - 1] + [s[|s| - 1]];
    }
  }

  // ---- What the compiler emits ----

  function Condition(f: (string, string), fields: map<string, string>): Expr
    requires f.0 in fields
  {
    Call(Eq, FieldRef(fields[f.0]), Literal(Text(f.1)))
  }

  /** The conjunction of the first `n` conditions. */
  function AllOf(filters: Filters, fields: map<string, string>, n: nat): Expr
    requires 1 <= n <= |filters| && forall f <- filters :: f.0 in fields
  {
    if n == 1 then Condition(filters[0], fields)
    else Call(And, AllOf(filters, fields, n - 1), Condition(filters[n - 1], fields))
  }

  function SideNodes(r: Role, s: Side, filters: Filters): seq<Node>
    requires forall f <- filters :: f.0 in s.dimensionFields
  {
    SortedKeeps(filters);
    var scope := Sorted(filters);
    [Source(SourceId(r), s.datasetId)]
    + (if scope == [] then [] else [Filter(ScopeId(r), SourceId(r), AllOf(scope, s.dimensionFields, |scope|))])
    + [Calculate(TagId(r), if scope == [] then SourceId(r) else ScopeId(r), TAG, Literal(Text(NameOf(r))))]
  }

  function ColumnMapping(r: Role, s: Side): Mapping {
    [(TIME, DATE), (TAG, TAG), (VALUE, ValueField(r))]
    + if s.currencyField.Some? then [(s.currencyField.value, CurrencyField(r))] else []
  }

  function AppendNode(input: Input): Node {
    Append(OUTPUT, [TagId(Numerator), TagId(Denominator)],
           map[TagId(Numerator) := ColumnMapping(Numerator, input.numerator),
               TagId(Denominator) := ColumnMapping(Denominator, input.denominator)])
  }

  function Tagged(r: Role): Expr { Call(Eq, FieldRef(TAG), Literal(Text(NameOf(r)))) }

  function SideMeasures(r: Role, aggregation: Aggregation): seq<Measure> {
    if aggregation.SumOfDays? then [Measure.Sum(NameOf(r), ValueField(r), Tagged(r))]
    else [Measure.Sum(TotalId(r), ValueField(r), Tagged(r)), DistinctDays(DaysId(r), DATE, Tagged(r)),
          Formula(NameOf(r), Call(Divide, FieldRef(TotalId(r)), FieldRef(DaysId(r))))]
  }

  /** A numerator that keeps its unit is read as it is; any other operand is cast to a plain value. */
  function Operand(r: Role, amountPerUnit: bool): Expr {
    if amountPerUnit && r.Numerator? then FieldRef(NameOf(r)) else Plain(FieldRef(NameOf(r)))
  }

  function RatioMeasure(amountPerUnit: bool): Measure {
    Formula(RATIO, Call(Divide, Operand(Numerator, amountPerUnit), Operand(Denominator, amountPerUnit)))
  }

  function ChangeMeasure(format: Format): Measure {
    if format.Ratio? then RangeOffset(CHANGE, RATIO, PercentChange)
    else Formula(CHANGE, Call(Multiply, Call(Subtract, FieldRef(RATIO), FieldRef(PREVIOUS)), Literal(Num(100.0))))
  }

  function Measures(input: Input, amountPerUnit: bool): seq<Measure> {
    SideMeasures(Numerator, input.numerator.aggregation) + SideMeasures(Denominator, input.denominator.aggregation)
    + [RatioMeasure(amountPerUnit)] + [RangeOffset(PREVIOUS, RATIO, ValueOf)] + [ChangeMeasure(input.format)]
  }

  /** Only periods whose previous window is the dates just before have an offset. */
  predicate HasOffset(p: Period) { p.Today? || p.Last7Days? || p.Last30Days? || p.Last90Days? }

  predicate CanAggregate(s: Side) { s.aggregation.SumOfDays? || s.aggregation.AverageOfDays? }

  function AmountPerUnit(input: Input, fn: Filters, fd: Filters): bool {
    IsAmountPerUnit(QueriedUnit(input.numerator.unit, fn), QueriedUnit(input.denominator.unit, fd))
  }

  function Compiled(input: Input): Result<Compilation, Refusal> {
    var n, d := input.numerator, input.denominator;
    if !n.granularity.ByDay? || !d.granularity.ByDay? then Err(GranularityUnsupported)
    else if !HasOffset(input.period) then Err(PeriodUnsupported)
    else if !CanAggregate(n) || !CanAggregate(d) then Err(AggregationUnsupported)
    else match FiltersOf(n, input.currency)
      case Err(e) => Err(e)
      case Ok(fn) =>
        match FiltersOf(d, input.currency)
        case Err(e) => Err(e)
        case Ok(fd) =>
          if UnitsProblem(SideCurrency(n.unit, fn), SideCurrency(d.unit, fd), input.format) then Err(UnitsIncompatible)
          else Ok(Compilation(SideNodes(Numerator, n, fn) + SideNodes(Denominator, d, fd) + [AppendNode(input)],
                              Measures(input, AmountPerUnit(input, fn, fd))))
  }

  /** The compiler: loops over both sides that fill the filters, then the nodes, then the measures. */
  method CompileCompareMeasure(input: Input) returns (c: Result<Compilation, Refusal>)
    ensures c == Compiled(input)
  {
    if !input.numerator.granularity.ByDay? || !input.denominator.granularity.ByDay? { return Err(GranularityUnsupported); }
    if !HasOffset(input.period) { return Err(PeriodUnsupported); }
    if !CanAggregate(input.numerator) || !CanAggregate(input.denominator) { return Err(AggregationUnsupported); }
    var filters: map<Role, Filters>, i := map[], 0;
    while i < 2
      invariant 0 <= i <= 2
      invariant i > 0 ==> Numerator in filters && FiltersOf(input.numerator, input.currency) == Ok(filters[Numerator])
      invariant i > 1 ==> Denominator in filters && FiltersOf(input.denominator, input.currency) == Ok(filters[Denominator])
    {
      var side := SideOf(input, ROLES[i]);
      var scope := side.dimensions;
      if IsPerCurrencyUnit(side.unit) && FilterOn(side.dimensions, CURRENCY).None? {
        if input.currency.None? { return Err(CurrencyUnpinned); }
        scope := scope + [(CURRENCY, input.currency.value)];
      }
      if exists f <- scope :: f.0 !in side.dimensionFields { return Err(DimensionUnknown); }
      filters := filters[ROLES[i] := scope];
      i := i + 1;
    }
    var fn, fd := filters[Numerator], filters[Denominator];
    if UnitsProblem(SideCurrency(input.numerator.unit, fn), SideCurrency(input.denominator.unit, fd), input.format) {
      return Err(UnitsIncompatible);
    }
    var nodes := EmitNodes(input, fn, fd);
    var measures := EmitMeasures(input, AmountPerUnit(input, fn, fd));
    return Ok(Compilation(nodes, measures));
  }

  method EmitNodes(input: Input, fn: Filters, fd: Filters) returns (nodes: seq<Node>)
    requires forall f <- fn :: f.0 in input.numerator.dimensionFields
    requires forall f <- fd :: f.0 in input.denominator.dimensionFields
    ensures nodes == SideNodes(Numerator, input.numerator, fn) + SideNodes(Denominator, input.denominator, fd)
                     + [AppendNode(input)]
  {
    var mappings: map<string, Mapping>, i := map[], 0;
    nodes := [];
    while i < 2
      invariant 0 <= i <= 2
      invariant i == 0 ==> nodes == [] && mappings == map[]
      invariant i == 1 ==> nodes == SideNodes(Numerator, input.numerator, fn)
      invariant i == 1 ==> mappings == map[TagId(Numerator) := ColumnMapping(Numerator, input.numerator)]
      invariant i == 2 ==> nodes == SideNodes(Numerator, input.numerator, fn) + SideNodes(Denominator, input.denominator, fd)
      invariant i == 2 ==> mappings == AppendNode(input).mappings
    {
      var role := ROLES[i];
      var side := SideOf(input, role);
      var sideNodes := EmitSide(role, side, if role.Numerator? then fn else fd);
      nodes := nodes + sideNodes;
      mappings := mappings[TagId(role) := ColumnMapping(role, side)];
      i := i + 1;
    }
    nodes := nodes + [Append(OUTPUT, [TagId(Numerator), TagId(Denominator)], mappings)];
  }

  /** One side: its source, a filter when it has any, and its tag. */
  method EmitSide(role: Role, side: Side, filters: Filters) returns (nodes: seq<Node>)
    requires forall f <- filters :: f.0 in side.dimensionFields
    ensures nodes == SideNodes(role, side, filters)
  {
    SortedKeeps(filters);
    nodes := [Source(SourceId(role), side.datasetId)];
    var last, scope := SourceId(role), Sorted(filters);
    if scope != [] {
      nodes := nodes + [Filter(ScopeId(role), last, AllOf(scope, side.dimensionFields, |scope|))];
      last := ScopeId(role);
    }
    nodes := nodes + [Calculate(TagId(role), last, TAG, Literal(Text(NameOf(role))))];
  }

  method EmitMeasures(input: Input, amountPerUnit: bool) returns (measures: seq<Measure>)
    requires CanAggregate(input.numerator) && CanAggregate(input.denominator)
    ensures measures == Measures(input, amountPerUnit)
  {
    measures := [];
    var i := 0;
    while i < 2
      invariant 0 <= i <= 2
      invariant i == 0 ==> measures == []
      invariant i == 1 ==> measures == SideMeasures(Numerator, input.numerator.aggregation)
      invariant i == 2 ==> measures == SideMeasures(Numerator, input.numerator.aggregation)
                                     + SideMeasures(Denominator, input.denominator.aggregation)
    {
      var role := ROLES[i];
      if SideOf(input, role).aggregation.SumOfDays? {
        measures := measures + [Measure.Sum(NameOf(role), ValueField(role), Tagged(role))];
      } else {
        measures := measures
          + [Measure.Sum(TotalId(role), ValueField(role), Tagged(role)), DistinctDays(DaysId(role), DATE, Tagged(role)),
             Formula(NameOf(role), Call(Divide, FieldRef(TotalId(role)), FieldRef(DaysId(role))))];
      }
      i := i + 1;
    }
    measures := measures + [RatioMeasure(amountPerUnit)] + [RangeOffset(PREVIOUS, RATIO, ValueOf)]
      + [ChangeMeasure(input.format)];
  }
}
