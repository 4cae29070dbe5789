/** Evaluating a compiled compare measure over any fitting datasets gives the widget's own numbers. */
module CompareCorrectness {
  import opened Common
  import opened DataEngine
  import opened CompareWidget
  import opened CompareMeasure
  import opened CompareAcceptance

  // ---- The datasets a side reads ----

  predicate TextOrNull(c: Cell) { c.Text? || c.Null? }

  /** A row of an observation dataset: a date, a value, and texts or nulls in the side's dimensions. */
  predicate RowFitsSide(row: Row, fields: set<string>, s: Side) {
    && row.Keys == fields && TIME in row && row[TIME].Date? && VALUE in row && row[VALUE].Num?
    && forall k <- s.dimensionFields :: s.dimensionFields[k] in row && TextOrNull(row[s.dimensionFields[k]])
  }

  predicate FitsSide(t: Table, s: Side) {
    && TIME in t.fields && VALUE in t.fields && TAG !in t.fields
    && (forall k <- s.dimensionFields :: s.dimensionFields[k] in t.fields)
    && (s.currencyField.Some? ==> s.currencyField.value in t.fields && s.currencyField.value !in {TIME, VALUE, TAG})
    && forall r <- t.rows :: RowFitsSide(r, t.fields, s)
  }

  // ---- The scope condition ----

  predicate FiltersKnown(s: Side, filters: Filters) { forall f <- filters :: f.0 in s.dimensionFields }

  predicate Has(row: Row, s: Side, f: (string, string)) {
    f.0 in s.dimensionFields && s.dimensionFields[f.0] in row && row[s.dimensionFields[f.0]] == Text(f.1)
  }

  lemma ConditionDecides(row: Row, fields: set<string>, s: Side, f: (string, string))
    requires RowFitsSide(row, fields, s) && f.0 in s.dimensionFields
    ensures Decides(Condition(f, s.dimensionFields), row)
    ensures IsTrue(Condition(f, s.dimensionFields), row) <==> Has(row, s, f)
  {
    assert s.dimensionFields[f.0] in row && TextOrNull(row[s.dimensionFields[f.0]]);
  }

  lemma ConjunctionDecides(row: Row, a: Expr, b: Expr)
    requires Decides(a, row) && Decides(b, row)
    ensures Decides(Call(And, a, b), row)
    ensures IsTrue(Call(And, a, b), row) <==> IsTrue(a, row) && IsTrue(b, row)
  {
  }

  lemma {:induction false} ScopeDecides(row: Row, fields: set<string>, s: Side, filters: Filters, n: nat)
    requires RowFitsSide(row, fields, s) && FiltersKnown(s, filters) && 1 <= n <= |filters|
    ensures Decides(AllOf(filters, s.dimensionFields, n), row)
    ensures IsTrue(AllOf(filters, s.dimensionFields, n), row) <==> forall i :: 0 <= i < n ==> Has(row, s, filters[i])
  {
    var last := filters[n - 1];
    ConditionDecides(row, fields, s, last);
    if n > 1 {
      ScopeDecides(row, fields, s, filters, n - 1);
      ConjunctionDecides(row, AllOf(filters, s.dimensionFields, n - 1), Condition(last, s.dimensionFields));
    }
  }

  lemma {:induction false} ScopeRefs(s: Side, fields: set<string>, filters: Filters, n: nat)
    requires FiltersKnown(s, filters) && 1 <= n <= |filters|
    requires forall k <- s.dimensionFields :: s.dimensionFields[k] in fields
    ensures Refs(AllOf(filters, s.dimensionFields, n)) <= fields
  {
    var last := filters[n - 1];
    assert last in filters && Refs(Condition(last, s.dimensionFields)) == {s.dimensionFields[last.0]};
    if n > 1 { ScopeRefs(s, fields, filters, n - 1); }
  }

  /** The compiled scope keeps exactly the rows the widget's filters select. */
  lemma ScopeIsTheFilter(row: Row, fields: set<string>, s: Side, filters: Filters)
    requires RowFitsSide(row, fields, s) && FiltersKnown(s, filters) && filters != []
    ensures |Sorted(filters)| == |filters| && FiltersKnown(s, Sorted(filters))
    ensures Decides(AllOf(Sorted(filters), s.dimensionFields, |filters|), row)
    ensures IsTrue(AllOf(Sorted(filters), s.dimensionFields, |filters|), row) <==> Matches(row, s.dimensionFields, filters)
  {
    var scope := Sorted(filters);
    SortedKeeps(filters);
    ScopeDecides(row, fields, s, scope, |scope|);
    if forall i :: 0 <= i < |scope| ==> Has(row, s, scope[i]) {
      forall f | f in filters ensures Has(row, s, f) {
        assert f in scope;
      }
    }
    if Matches(row, s.dimensionFields, filters) {
      forall i | 0 <= i < |scope| ensures Has(row, s, scope[i]) {
        assert scope[i] in scope;
      }
    }
  }

  // ---- The rows of one tagged side ----

  /** The rows of the side's dataset that its filters select, in order. */
  function Selected(rows: seq<Row>, s: Side, filters: Filters, n: nat): seq<Row>
    requires n <= |rows|
  {
    if n == 0 then []
    else Selected(rows, s, filters, n - 1) + if Matches(rows[n - 1], s.dimensionFields, filters) then [rows[n - 1]] else []
  }

  lemma {:induction false} SelectedAreRows(rows: seq<Row>, s: Side, filters: Filters, n: nat)
    requires n <= |rows|
    ensures forall r :: r in Selected(rows, s, filters, n) <==>
      (Matches(r, s.dimensionFields, filters) && exists i :: 0 <= i < n && rows[i] == r)
  {
    if n > 0 { SelectedAreRows(rows, s, filters, n - 1); }
  }

  lemma {:induction false} KeptIsSelected(t: Table, s: Side, filters: Filters, n: nat)
    requires FitsSide(t, s) && FiltersKnown(s, filters) && filters != [] && n <= |t.rows|
    requires |Sorted(filters)| == |filters| && FiltersKnown(s, Sorted(filters))
    ensures KeptRows(t.rows, AllOf(Sorted(filters), s.dimensionFields, |filters|), n) == Selected(t.rows, s, filters, n)
  {
    if n > 0 {
      KeptIsSelected(t, s, filters, n - 1);
      assert t.rows[n - 1] in t.rows;
      ScopeIsTheFilter(t.rows[n - 1], t.fields, s, filters);
    }
  }

  lemma {:induction false} AllSelected(rows: seq<Row>, s: Side, n: nat)
    requires n <= |rows|
    ensures Selected(rows, s, [], n) == rows[..n]
  {
    if n > 0 {
      AllSelected(rows, s, n - 1);
      assert rows[..n] == rows[..n - 1] + [rows[n - 1]];
    }
  }

  function TagRow(row: Row, r: Role): Row { row[TAG := Text(NameOf(r))] }

  function TagRows(rows: seq<Row>, r: Role): (out: seq<Row>)
    ensures |out| == |rows| && forall i :: 0 <= i < |rows| ==> out[i] == TagRow(rows[i], r)
  {
    seq(|rows|, i requires 0 <= i < |rows| => TagRow(rows[i], r))
  }

  /** The side's selected rows, each with its tag. */
  function TaggedTable(t: Table, r: Role, s: Side, filters: Filters): Table {
    Table(t.fields + {TAG}, TagRows(Selected(t.rows, s, filters, |t.rows|), r))
  }

  lemma TagNodeTags(t: Table, r: Role, rows: seq<Row>, input: string, done: map<string, Table>, sources: map<string, Table>)
    requires TAG !in t.fields && input in done && done[input] == t.(rows := rows)
    ensures RunNode(Calculate(TagId(r), input, TAG, Literal(Text(NameOf(r)))), done, sources)
         == Some(Table(t.fields + {TAG}, TagRows(rows, r)))
  {
    assert CalculatedRows(rows, TAG, Literal(Text(NameOf(r)))) == TagRows(rows, r);
  }

  lemma ScopeNodeSelects(t: Table, s: Side, filters: Filters, id: string, input: string, done: map<string, Table>,
                         sources: map<string, Table>)
    requires FitsSide(t, s) && FiltersKnown(s, filters) && filters != [] && input in done && done[input] == t
    requires |Sorted(filters)| == |filters| && FiltersKnown(s, Sorted(filters))
    ensures RunNode(Filter(id, input, AllOf(Sorted(filters), s.dimensionFields, |filters|)), done, sources)
         == Some(t.(rows := Selected(t.rows, s, filters, |t.rows|)))
  {
    forall row | row in t.rows ensures Decides(AllOf(Sorted(filters), s.dimensionFields, |filters|), row) {
      ScopeIsTheFilter(row, t.fields, s, filters);
    }
    ScopeRefs(s, t.fields, Sorted(filters), |filters|);
    KeptIsSelected(t, s, filters, |t.rows|);
  }

  /** None of the side's node ids is taken. */
  predicate FreshSide(done: map<string, Table>, r: Role) {
    SourceId(r) !in done && ScopeId(r) !in done && TagId(r) !in done
  }

  /** What running a side's nodes leaves: its tagged table, and every earlier output. */
  predicate RanSide(done: map<string, Table>, after: map<string, Table>, r: Role, t: Table) {
    && TagId(r) in after && after[TagId(r)] == t
    && (forall id <- done :: id in after && after[id] == done[id])
    && after.Keys <= done.Keys + {SourceId(r), ScopeId(r), TagId(r)}
  }

  function SourceNode(r: Role, s: Side): Node { Source(SourceId(r), s.datasetId) }

  function ScopeNode(r: Role, s: Side, filters: Filters): Node
    requires FiltersKnown(s, filters) && filters != []
  {
    SortedKeeps(filters);
    Filter(ScopeId(r), SourceId(r), AllOf(Sorted(filters), s.dimensionFields, |filters|))
  }

  function TagNode(r: Role, input: string): Node { Calculate(TagId(r), input, TAG, Literal(Text(NameOf(r)))) }

  lemma SideNodesAre(nodes: seq<Node>, r: Role, s: Side, filters: Filters)
    requires FiltersKnown(s, filters)
    ensures nodes + SideNodes(r, s, filters)
         == if filters == [] then nodes + [SourceNode(r, s)] + [TagNode(r, SourceId(r))]
            else nodes + [SourceNode(r, s)] + [ScopeNode(r, s, filters)] + [TagNode(r, ScopeId(r))]
  {
    SortedKeeps(filters);
  }

  lemma SourceStep(nodes: seq<Node>, done: map<string, Table>, r: Role, s: Side, sources: map<string, Table>)
    requires RunGraph(nodes, sources) == Some(done) && SourceId(r) !in done && s.datasetId in sources
    ensures RunGraph(nodes + [SourceNode(r, s)], sources) == Some(done[SourceId(r) := sources[s.datasetId]])
  {
    StepAdds(nodes, done, SourceNode(r, s), sources[s.datasetId], sources);
  }

  lemma ScopeStep(nodes: seq<Node>, done: map<string, Table>, r: Role, s: Side, filters: Filters, t: Table,
                  sources: map<string, Table>)
    requires RunGraph(nodes, sources) == Some(done) && ScopeId(r) !in done && SourceId(r) in done && done[SourceId(r)] == t
    requires FitsSide(t, s) && FiltersKnown(s, filters) && filters != []
    ensures RunGraph(nodes + [ScopeNode(r, s, filters)], sources)
         == Some(done[ScopeId(r) := t.(rows := Selected(t.rows, s, filters, |t.rows|))])
  {
    SortedKeeps(filters);
    ScopeNodeSelects(t, s, filters, ScopeId(r), SourceId(r), done, sources);
    StepAdds(nodes, done, ScopeNode(r, s, filters), t.(rows := Selected(t.rows, s, filters, |t.rows|)), sources);
  }

  lemma TagStep(nodes: seq<Node>, done: map<string, Table>, r: Role, input: string, t: Table, rows: seq<Row>,
                sources: map<string, Table>)
    requires RunGraph(nodes, sources) == Some(done) && TagId(r) !in done && TAG !in t.fields
    requires input in done && done[input] == t.(rows := rows)
    ensures RunGraph(nodes + [TagNode(r, input)], sources)
         == Some(done[TagId(r) := Table(t.fields + {TAG}, TagRows(rows, r))])
  {
    TagNodeTags(t, r, rows, input, done, sources);
    StepAdds(nodes, done, TagNode(r, input), Table(t.fields + {TAG}, TagRows(rows, r)), sources);
  }

  lemma UnscopedSideRuns(nodes: seq<Node>, done: map<string, Table>, r: Role, s: Side, sources: map<string, Table>)
    returns (after: map<string, Table>)
    requires RunGraph(nodes, sources) == Some(done) && FreshSide(done, r)
    requires s.datasetId in sources && FitsSide(sources[s.datasetId], s)
    ensures RunGraph(nodes + [SourceNode(r, s)] + [TagNode(r, SourceId(r))], sources) == Some(after)
    ensures RanSide(done, after, r, TaggedTable(sources[s.datasetId], r, s, []))
  {
    var t := sources[s.datasetId];
    var first := done[SourceId(r) := t];
    SourceStep(nodes, done, r, s, sources);
    AllSelected(t.rows, s, |t.rows|);
    assert t.rows[..|t.rows|] == t.rows;
    TagStep(nodes + [SourceNode(r, s)], first, r, SourceId(r), t, t.rows, sources);
    after := first[TagId(r) := TaggedTable(t, r, s, [])];
  }

  lemma ScopedSideRuns(nodes: seq<Node>, done: map<string, Table>, r: Role, s: Side, filters: Filters,
                       sources: map<string, Table>) returns (after: map<string, Table>)
    requires RunGraph(nodes, sources) == Some(done) && FreshSide(done, r) && filters != []
    requires s.datasetId in sources && FitsSide(sources[s.datasetId], s) && FiltersKnown(s, filters)
    ensures RunGraph(nodes + [SourceNode(r, s)] + [ScopeNode(r, s, filters)] + [TagNode(r, ScopeId(r))], sources)
         == Some(after)
    ensures RanSide(done, after, r, TaggedTable(sources[s.datasetId], r, s, filters))
  {
    var t := sources[s.datasetId];
    var rows := Selected(t.rows, s, filters, |t.rows|);
    var first := done[SourceId(r) := t];
    var second := first[ScopeId(r) := t.(rows := rows)];
    SideIdsDiffer(r);
    SourceStep(nodes, done, r, s, sources);
    ScopeStep(nodes + [SourceNode(r, s)], first, r, s, filters, t, sources);
    TagStep(nodes + [SourceNode(r, s)] + [ScopeNode(r, s, filters)], second, r, ScopeId(r), t, rows, sources);
    after := second[TagId(r) := TaggedTable(t, r, s, filters)];
  }

  lemma SideIdsDiffer(r: Role)
    ensures SourceId(r) != ScopeId(r) && ScopeId(r) != TagId(r) && TagId(r) != SourceId(r)
  {
    assert |SourceId(Numerator)| == 16 && |ScopeId(Numerator)| == 15 && |TagId(Numerator)| == 13;
    assert |SourceId(Denominator)| == 18 && |ScopeId(Denominator)| == 17 && |TagId(Denominator)| == 15;
  }

  /** Running a side's nodes adds its tagged table and keeps every earlier output. */
  lemma SideRuns(nodes: seq<Node>, done: map<string, Table>, r: Role, s: Side, filters: Filters, sources: map<string, Table>)
    returns (after: map<string, Table>)
    requires RunGraph(nodes, sources) == Some(done) && FreshSide(done, r)
    requires s.datasetId in sources && FitsSide(sources[s.datasetId], s) && FiltersKnown(s, filters)
    ensures RunGraph(nodes + SideNodes(r, s, filters), sources) == Some(after)
    ensures RanSide(done, after, r, TaggedTable(sources[s.datasetId], r, s, filters))
  {
    SideNodesAre(nodes, r, s, filters);
    if filters == [] {
      after := UnscopedSideRuns(nodes, done, r, s, sources);
    } else {
      after := ScopedSideRuns(nodes, done, r, s, filters, sources);
    }
  }

  // ---- The appended output ----

  lemma {:induction false} TargetFound(row: Row, m: Mapping, i: nat)
    requires DistinctTargets(m) && i < |m| && m[i].0 in row
    ensures TargetValue(row, m, m[i].1) == row[m[i].0] && m[i].1 in Targets(m)
  {
    assert m[i] in m;
    if i > 0 {
      assert m[0].1 != m[i].1;
      assert m[1..][i - 1] == m[i];
      forall j, k | 0 <= j < k < |m[1..]| ensures m[1..][j].1 != m[1..][k].1 {
        assert m[1..][j] == m[j + 1] && m[1..][k] == m[k + 1];
      }
      TargetFound(row, m[1..], i - 1);
    }
  }

  lemma ColumnsAreMappable(r: Role, s: Side, t: Table)
    requires FitsSide(t, s)
    ensures CanMap(Table(t.fields + {TAG}, []), ColumnMapping(r, s))
    ensures {DATE, TAG, ValueField(r)} <= Targets(ColumnMapping(r, s))
    ensures Targets(ColumnMapping(r, s)) <= {DATE, TAG, ValueField(r), CurrencyField(r)}
  {
    var m := ColumnMapping(r, s);
    assert m[0] in m && m[1] in m && m[2] in m;
  }

  /** A role's row in the output: its date, its tag, and its value in its own field. */
  predicate IsOutputRow(out: Row, row: Row, r: Role) {
    && DATE in out && TIME in row && out[DATE] == row[TIME]
    && TAG in out && out[TAG] == Text(NameOf(r))
    && ValueField(r) in out && VALUE in row && out[ValueField(r)] == row[VALUE]
  }

  function AllTargets(input: Input): set<string> {
    Targets(ColumnMapping(Numerator, input.numerator)) + Targets(ColumnMapping(Denominator, input.denominator))
  }

  function OutputRow(row: Row, r: Role, input: Input): Row {
    MappedRow(TagRow(row, r), ColumnMapping(r, SideOf(input, r)), AllTargets(input))
  }

  lemma OutputRowIs(t: Table, row: Row, r: Role, input: Input)
    requires FitsSide(t, SideOf(input, r)) && RowFitsSide(row, t.fields, SideOf(input, r))
    ensures IsOutputRow(OutputRow(row, r, input), row, r)
  {
    var m, tagged := ColumnMapping(r, SideOf(input, r)), TagRow(row, r);
    ColumnsAreMappable(r, SideOf(input, r), t);
    TargetFound(tagged, m, 0);
    TargetFound(tagged, m, 1);
    TargetFound(tagged, m, 2);
  }

  /** Where a side's amounts have a currency, each of its rows keeps it in the side's own field. */
  lemma OutputKeepsCurrency(t: Table, row: Row, r: Role, input: Input)
    requires FitsSide(t, SideOf(input, r)) && RowFitsSide(row, t.fields, SideOf(input, r))
    requires SideOf(input, r).currencyField.Some?
    ensures SideOf(input, r).currencyField.value in row && CurrencyField(r) in OutputRow(row, r, input)
    ensures OutputRow(row, r, input)[CurrencyField(r)] == row[SideOf(input, r).currencyField.value]
  {
    ColumnsAreMappable(r, SideOf(input, r), t);
    var m := ColumnMapping(r, SideOf(input, r));
    assert m[3] in m;
    TargetFound(TagRow(row, r), m, 3);
  }

  /** The two sides' selected rows, mapped, one side after the other. */
  function OutputRows(rows: seq<Row>, r: Role, input: Input): (out: seq<Row>)
    ensures |out| == |rows| && forall i :: 0 <= i < |rows| ==> out[i] == OutputRow(rows[i], r, input)
  {
    seq(|rows|, i requires 0 <= i < |rows| => OutputRow(rows[i], r, input))
  }

  function RowsOf(sources: map<string, Table>, s: Side, filters: Filters): seq<Row>
    requires s.datasetId in sources
  {
    Selected(sources[s.datasetId].rows, s, filters, |sources[s.datasetId].rows|)
  }

  predicate SourcesFit(input: Input, sources: map<string, Table>) {
    && input.numerator.datasetId in sources && FitsSide(sources[input.numerator.datasetId], input.numerator)
    && input.denominator.datasetId in sources && FitsSide(sources[input.denominator.datasetId], input.denominator)
  }

  function Prepared(input: Input, sources: map<string, Table>, fn: Filters, fd: Filters): Table
    requires SourcesFit(input, sources)
  {
    Table(AllTargets(input), OutputRows(RowsOf(sources, input.numerator, fn), Numerator, input)
                           + OutputRows(RowsOf(sources, input.denominator, fd), Denominator, input))
  }

  lemma SideMapsTo(t: Table, r: Role, input: Input, filters: Filters)
    requires FitsSide(t, SideOf(input, r))
    ensures CanMap(TaggedTable(t, r, SideOf(input, r), filters), ColumnMapping(r, SideOf(input, r)))
    ensures MappedRows(TaggedTable(t, r, SideOf(input, r), filters).rows, ColumnMapping(r, SideOf(input, r)), AllTargets(input))
         == OutputRows(Selected(t.rows, SideOf(input, r), filters, |t.rows|), r, input)
  {
    ColumnsAreMappable(r, SideOf(input, r), t);
  }

  lemma AppendNodeAppends(input: Input, sources: map<string, Table>, fn: Filters, fd: Filters, done: map<string, Table>)
    requires SourcesFit(input, sources)
    requires TagId(Numerator) in done && TagId(Denominator) in done
    requires done[TagId(Numerator)] == TaggedTable(sources[input.numerator.datasetId], Numerator, input.numerator, fn)
    requires done[TagId(Denominator)] == TaggedTable(sources[input.denominator.datasetId], Denominator, input.denominator, fd)
    ensures RunNode(AppendNode(input), done, sources) == Some(Prepared(input, sources, fn, fd))
  {
    SideMapsTo(sources[input.numerator.datasetId], Numerator, input, fn);
    SideMapsTo(sources[input.denominator.datasetId], Denominator, input, fd);
    var n := AppendNode(input);
    assert n.inputs[0] == TagId(Numerator) && n.inputs[1] == TagId(Denominator);
    assert n.mappings.Keys == {n.inputs[0], n.inputs[1]} && Inputs(n) <= done.Keys;
  }

  lemma CompiledShape(input: Input, fn: Filters, fd: Filters)
    requires Compiled(input).Ok?
    requires FiltersOf(input.numerator, input.currency) == Ok(fn) && FiltersOf(input.denominator, input.currency) == Ok(fd)
    ensures FiltersKnown(input.numerator, fn) && FiltersKnown(input.denominator, fd)
    ensures CanAggregate(input.numerator) && CanAggregate(input.denominator)
    ensures Compiled(input).value
         == Compilation(SideNodes(Numerator, input.numerator, fn) + SideNodes(Denominator, input.denominator, fd)
                        + [AppendNode(input)], Measures(input, AmountPerUnit(input, fn, fd)))
  {
  }

  lemma SecondSideIsFresh(first: map<string, Table>, t: Table)
    requires RanSide(map[], first, Numerator, t)
    ensures FreshSide(first, Denominator) && OUTPUT !in first
  {
  }

  lemma GraphRuns(input: Input, sources: map<string, Table>, fn: Filters, fd: Filters)
    requires SourcesFit(input, sources) && FiltersKnown(input.numerator, fn) && FiltersKnown(input.denominator, fd)
    ensures var run := RunGraph(SideNodes(Numerator, input.numerator, fn) + SideNodes(Denominator, input.denominator, fd)
                                + [AppendNode(input)], sources);
      run.Some? && OUTPUT in run.value && run.value[OUTPUT] == Prepared(input, sources, fn, fd)
  {
    var nodes, empty: map<string, Table> := SideNodes(Numerator, input.numerator, fn), map[];
    var tn := TaggedTable(sources[input.numerator.datasetId], Numerator, input.numerator, fn);
    var first := SideRuns([], empty, Numerator, input.numerator, fn, sources);
    assert [] + nodes == nodes;
    SecondSideIsFresh(first, tn);
    var second := SideRuns(nodes, first, Denominator, input.denominator, fd, sources);
    OutputIsFresh(first, second, tn, TaggedTable(sources[input.denominator.datasetId], Denominator, input.denominator, fd));
    AppendNodeAppends(input, sources, fn, fd, second);
    StepAdds(nodes + SideNodes(Denominator, input.denominator, fd), second, AppendNode(input),
             Prepared(input, sources, fn, fd), sources);
  }

  lemma OutputIsFresh(first: map<string, Table>, second: map<string, Table>, tn: Table, td: Table)
    requires RanSide(map[], first, Numerator, tn) && RanSide(first, second, Denominator, td)
    ensures OUTPUT !in second && TagId(Numerator) in second && second[TagId(Numerator)] == tn
  {
  }

  /** The compiled preparation runs over every pair of fitting datasets, and its output is the tagged rows of both sides. */
  lemma PreparationRuns(input: Input, sources: map<string, Table>, fn: Filters, fd: Filters)
    requires SourcesFit(input, sources) && Compiled(input).Ok?
    requires FiltersOf(input.numerator, input.currency) == Ok(fn) && FiltersOf(input.denominator, input.currency) == Ok(fd)
    ensures var run := RunGraph(Compiled(input).value.nodes, sources);
      run.Some? && OUTPUT in run.value && run.value[OUTPUT] == Prepared(input, sources, fn, fd)
  {
    CompiledShape(input, fn, fd);
    GraphRuns(input, sources, fn, fd);
  }

  // ---- Aggregates over the output are the side's totals and days ----

  predicate HasTag(row: Row) { TAG in row && row[TAG].Text? }

  /** What the measures need of the output: its fields, and a tag in every row. */
  predicate OutputOk(t: Table) {
    && {DATE, TAG, ValueField(Numerator), ValueField(Denominator)} <= t.fields
    && forall row <- t.rows :: HasTag(row)
  }

  lemma SelectedFit(t: Table, s: Side, filters: Filters, row: Row)
    requires FitsSide(t, s) && row in Selected(t.rows, s, filters, |t.rows|)
    ensures row in t.rows && RowFitsSide(row, t.fields, s) && Matches(row, s.dimensionFields, filters)
  {
    SelectedAreRows(t.rows, s, filters, |t.rows|);
  }

  lemma SideOutputIs(t: Table, r: Role, input: Input, filters: Filters, i: nat)
    requires FitsSide(t, SideOf(input, r)) && i < |Selected(t.rows, SideOf(input, r), filters, |t.rows|)|
    ensures var rows := Selected(t.rows, SideOf(input, r), filters, |t.rows|);
      && rows[i] in t.rows && Matches(rows[i], SideOf(input, r).dimensionFields, filters)
      && IsOutputRow(OutputRows(rows, r, input)[i], rows[i], r)
  {
    var row := Selected(t.rows, SideOf(input, r), filters, |t.rows|)[i];
    SelectedFit(t, SideOf(input, r), filters, row);
    OutputRowIs(t, row, r, input);
  }

  lemma TaggedIsRole(out: Row, row: Row, r: Role, of: Role)
    requires IsOutputRow(out, row, r)
    ensures Decides(Tagged(of), out) && (IsTrue(Tagged(of), out) <==> r == of)
  {
    assert |NameOf(Numerator)| != |NameOf(Denominator)|;
  }

  /** A role's table, filters and output rows. */
  function SourceOf(input: Input, sources: map<string, Table>, r: Role): Table
    requires SourcesFit(input, sources)
  {
    sources[SideOf(input, r).datasetId]
  }

  function FiltersFor(r: Role, fn: Filters, fd: Filters): Filters { if r.Numerator? then fn else fd }

  function RoleRows(input: Input, sources: map<string, Table>, r: Role, filters: Filters): seq<Row>
    requires SourcesFit(input, sources)
  {
    var t := SourceOf(input, sources, r);
    OutputRows(Selected(t.rows, SideOf(input, r), filters, |t.rows|), r, input)
  }

  lemma OutputIsBothRoles(input: Input, sources: map<string, Table>, fn: Filters, fd: Filters)
    requires SourcesFit(input, sources)
    ensures Prepared(input, sources, fn, fd).rows
         == RoleRows(input, sources, Numerator, fn) + RoleRows(input, sources, Denominator, fd)
  {
  }

  /** Each output row is a role's row of a selected row of that role's dataset. */
  lemma OutputRowAt(input: Input, sources: map<string, Table>, fn: Filters, fd: Filters, o: Row)
    returns (r: Role, row: Row)
    requires SourcesFit(input, sources) && o in Prepared(input, sources, fn, fd).rows
    ensures row in SourceOf(input, sources, r).rows && IsOutputRow(o, row, r)
    ensures Matches(row, SideOf(input, r).dimensionFields, FiltersFor(r, fn, fd))
  {
    OutputIsBothRoles(input, sources, fn, fd);
    var first, second := RoleRows(input, sources, Numerator, fn), RoleRows(input, sources, Denominator, fd);
    var i :| 0 <= i < |first + second| && (first + second)[i] == o;
    r := if i < |first| then Numerator else Denominator;
    var t, k := SourceOf(input, sources, r), if i < |first| then i else i - |first|;
    SideOutputIs(t, r, input, FiltersFor(r, fn, fd), k);
    row := Selected(t.rows, SideOf(input, r), FiltersFor(r, fn, fd), |t.rows|)[k];
  }

  lemma OutputIsOk(input: Input, sources: map<string, Table>, fn: Filters, fd: Filters)
    requires SourcesFit(input, sources)
    ensures OutputOk(Prepared(input, sources, fn, fd))
  {
    ColumnsAreMappable(Numerator, input.numerator, SourceOf(input, sources, Numerator));
    ColumnsAreMappable(Denominator, input.denominator, SourceOf(input, sources, Denominator));
    forall o | o in Prepared(input, sources, fn, fd).rows ensures HasTag(o) {
      var r, row := OutputRowAt(input, sources, fn, fd, o);
    }
  }

  lemma OwnPart(out: Row, row: Row, r: Role, s: Side, filters: Filters, span: Span)
    requires IsOutputRow(out, row, r) && Matches(row, s.dimensionFields, filters)
    ensures Part(out, DATE, span, ValueField(r), Tagged(r)) == SidePart(row, s.dimensionFields, filters, span.from, span.to)
  {
    TaggedIsRole(out, row, r, r);
  }

  lemma {:induction false} TotalConcat(a: seq<Option<real>>, b: seq<Option<real>>, n: nat)
    requires n <= |b|
    ensures Total(a + b, |a| + n) == Plus(Total(a, |a|), Total(b, n))
  {
    if n == 0 { TotalPrefix(a, b, |a|); } else { TotalConcat(a, b, n - 1); }
  }

  lemma {:induction false} TotalPrefix(a: seq<Option<real>>, b: seq<Option<real>>, n: nat)
    requires n <= |a|
    ensures Total(a + b, n) == Total(a, n)
  {
    if n > 0 { TotalPrefix(a, b, n - 1); }
  }

  lemma PartsConcat(a: seq<Row>, b: seq<Row>, span: Span, r: Role)
    ensures Parts(a + b, DATE, span, ValueField(r), Tagged(r))
         == Parts(a, DATE, span, ValueField(r), Tagged(r)) + Parts(b, DATE, span, ValueField(r), Tagged(r))
  {
  }

  /** The parts of the matching rows. */
  function MatchingParts(rows: seq<Row>, s: Side, filters: Filters, span: Span, n: nat): seq<Option<real>>
    requires n <= |rows|
  {
    if n == 0 then []
    else
      MatchingParts(rows, s, filters, span, n - 1)
        + if Matches(rows[n - 1], s.dimensionFields, filters)
          then [SidePart(rows[n - 1], s.dimensionFields, filters, span.from, span.to)] else []
  }

  /** Rows that do not match add nothing anyway. */
  lemma {:induction false} MatchingTotal(rows: seq<Row>, s: Side, filters: Filters, span: Span, n: nat)
    requires n <= |rows|
    ensures var parts := MatchingParts(rows, s, filters, span, n);
      Total(parts, |parts|) == Total(SideParts(rows, s.dimensionFields, filters, span.from, span.to), n)
  {
    if n > 0 {
      MatchingTotal(rows, s, filters, span, n - 1);
      var parts := MatchingParts(rows, s, filters, span, n - 1);
      var part := SidePart(rows[n - 1], s.dimensionFields, filters, span.from, span.to);
      if Matches(rows[n - 1], s.dimensionFields, filters) {
        TotalConcat(parts, [part], 1);
        assert Total([part], 1) == Plus(None, part);
      } else {
        assert parts + [] == parts;
      }
    }
  }

  lemma {:induction false} OwnParts(t: Table, r: Role, input: Input, filters: Filters, span: Span, n: nat)
    requires FitsSide(t, SideOf(input, r)) && n <= |t.rows|
    ensures Parts(OutputRows(Selected(t.rows, SideOf(input, r), filters, n), r, input), DATE, span, ValueField(r), Tagged(r))
         == MatchingParts(t.rows, SideOf(input, r), filters, span, n)
  {
    if n > 0 {
      var row, before := t.rows[n - 1], Selected(t.rows, SideOf(input, r), filters, n - 1);
      OwnParts(t, r, input, filters, span, n - 1);
      if Matches(row, SideOf(input, r).dimensionFields, filters) {
        OneMoreOwnPart(t, r, input, filters, span, before, row);
      } else {
        assert before + [] == before;
      }
    }
  }

  lemma OneMoreOwnPart(t: Table, r: Role, input: Input, filters: Filters, span: Span, before: seq<Row>, row: Row)
    requires FitsSide(t, SideOf(input, r)) && row in t.rows && Matches(row, SideOf(input, r).dimensionFields, filters)
    ensures Parts(OutputRows(before + [row], r, input), DATE, span, ValueField(r), Tagged(r))
         == Parts(OutputRows(before, r, input), DATE, span, ValueField(r), Tagged(r))
            + [SidePart(row, SideOf(input, r).dimensionFields, filters, span.from, span.to)]
  {
    OutputRowIs(t, row, r, input);
    OwnPart(OutputRow(row, r, input), row, r, SideOf(input, r), filters, span);
    assert OutputRows(before + [row], r, input) == OutputRows(before, r, input) + [OutputRow(row, r, input)];
    PartsConcat(OutputRows(before, r, input), [OutputRow(row, r, input)], span, r);
  }

  /** The other side's rows add nothing. */
  lemma OtherTotal(t: Table, r: Role, of: Role, input: Input, filters: Filters, span: Span)
    requires FitsSide(t, SideOf(input, r)) && of != r
    ensures var rows := OutputRows(Selected(t.rows, SideOf(input, r), filters, |t.rows|), r, input);
      Total(Parts(rows, DATE, span, ValueField(of), Tagged(of)), |rows|) == None
  {
    var selected := Selected(t.rows, SideOf(input, r), filters, |t.rows|);
    var rows := OutputRows(selected, r, input);
    var parts := Parts(rows, DATE, span, ValueField(of), Tagged(of));
    forall i | 0 <= i < |rows| ensures parts[i].None? {
      SideOutputIs(t, r, input, filters, i);
      TaggedIsRole(rows[i], selected[i], r, of);
    }
    TotalOfNone(parts, |rows|);
  }

  /** What the role's tagged sum makes of some output rows. */
  function TaggedTotal(rows: seq<Row>, span: Span, r: Role): Option<real> {
    Total(Parts(rows, DATE, span, ValueField(r), Tagged(r)), |rows|)
  }

  /** The side's total over its own dataset. */
  function SideTotal(input: Input, sources: map<string, Table>, r: Role, filters: Filters, span: Span): Option<real>
    requires SourcesFit(input, sources)
  {
    var rows := SourceOf(input, sources, r).rows;
    Total(SideParts(rows, SideOf(input, r).dimensionFields, filters, span.from, span.to), |rows|)
  }

  lemma RolePartsTotal(input: Input, sources: map<string, Table>, of: Role, filters: Filters, r: Role, span: Span)
    requires SourcesFit(input, sources)
    ensures TaggedTotal(RoleRows(input, sources, of, filters), span, r)
         == if of == r then SideTotal(input, sources, r, filters, span) else None
  {
    var t := SourceOf(input, sources, of);
    if of == r {
      OwnParts(t, r, input, filters, span, |t.rows|);
      MatchingTotal(t.rows, SideOf(input, r), filters, span, |t.rows|);
    } else {
      OtherTotal(t, of, r, input, filters, span);
    }
  }

  lemma TaggedTotalConcat(a: seq<Row>, b: seq<Row>, span: Span, r: Role)
    ensures TaggedTotal(a + b, span, r) == Plus(TaggedTotal(a, span, r), TaggedTotal(b, span, r))
  {
    PartsConcat(a, b, span, r);
    TotalConcat(Parts(a, DATE, span, ValueField(r), Tagged(r)), Parts(b, DATE, span, ValueField(r), Tagged(r)), |b|);
  }

  /** The tagged sum over the output is the side's total over its own dataset. */
  lemma RoleTotal(input: Input, sources: map<string, Table>, fn: Filters, fd: Filters, r: Role, span: Span)
    requires SourcesFit(input, sources)
    ensures TaggedTotal(Prepared(input, sources, fn, fd).rows, span, r)
         == SideTotal(input, sources, r, FiltersFor(r, fn, fd), span)
  {
    OutputIsBothRoles(input, sources, fn, fd);
    TaggedTotalConcat(RoleRows(input, sources, Numerator, fn), RoleRows(input, sources, Denominator, fd), span, r);
    RolePartsTotal(input, sources, Numerator, fn, r, span);
    RolePartsTotal(input, sources, Denominator, fd, r, span);
  }

  /** An output row of the role on the day comes from a selected row with a value on it. */
  lemma RoleDayHasTotal(input: Input, sources: map<string, Table>, fn: Filters, fd: Filters, r: Role, span: Span, day: int)
    requires SourcesFit(input, sources) && day in DaysOf(Prepared(input, sources, fn, fd).rows, DATE, span, Tagged(r))
    ensures span.from <= day <= span.to
    ensures DayTotal(SourceOf(input, sources, r).rows, SideOf(input, r).dimensionFields, FiltersFor(r, fn, fd), day).Some?
  {
    var s, filters := SideOf(input, r), FiltersFor(r, fn, fd);
    var o :| o in Prepared(input, sources, fn, fd).rows && InSpan(o, DATE, span) && IsTrue(Tagged(r), o) && DayOf(o, DATE) == day;
    var row := SelectedOrigin(input, sources, fn, fd, r, o);
    assert SidePart(row, s.dimensionFields, filters, day, day).Some?;
    DayHasTotal(SourceOf(input, sources, r).rows, s.dimensionFields, filters, day);
  }

  /** A selected row with a value on the day is an output row of the role. */
  lemma TotalHasRoleDay(input: Input, sources: map<string, Table>, fn: Filters, fd: Filters, r: Role, span: Span, day: int)
    requires SourcesFit(input, sources) && span.from <= day <= span.to
    requires DayTotal(SourceOf(input, sources, r).rows, SideOf(input, r).dimensionFields, FiltersFor(r, fn, fd), day).Some?
    ensures day in DaysOf(Prepared(input, sources, fn, fd).rows, DATE, span, Tagged(r))
  {
    var t, s, filters := SourceOf(input, sources, r), SideOf(input, r), FiltersFor(r, fn, fd);
    DayHasTotal(t.rows, s.dimensionFields, filters, day);
    var row :| row in t.rows && SidePart(row, s.dimensionFields, filters, day, day).Some?;
    var o := SelectedOutput(input, sources, fn, fd, r, row);
    TaggedIsRole(o, row, r, r);
    assert InSpan(o, DATE, span) && DayOf(o, DATE) == day;
  }

  lemma RoleDay(input: Input, sources: map<string, Table>, fn: Filters, fd: Filters, r: Role, span: Span, day: int)
    requires SourcesFit(input, sources)
    ensures var out, t := Prepared(input, sources, fn, fd), SourceOf(input, sources, r);
      day in DaysOf(out.rows, DATE, span, Tagged(r)) <==>
        span.from <= day <= span.to
        && DayTotal(t.rows, SideOf(input, r).dimensionFields, FiltersFor(r, fn, fd), day).Some?
  {
    if day in DaysOf(Prepared(input, sources, fn, fd).rows, DATE, span, Tagged(r)) {
      RoleDayHasTotal(input, sources, fn, fd, r, span, day);
    }
    if && span.from <= day <= span.to
       && DayTotal(SourceOf(input, sources, r).rows, SideOf(input, r).dimensionFields, FiltersFor(r, fn, fd), day).Some? {
      TotalHasRoleDay(input, sources, fn, fd, r, span, day);
    }
  }

  lemma SelectedOrigin(input: Input, sources: map<string, Table>, fn: Filters, fd: Filters, r: Role, o: Row)
    returns (row: Row)
    requires SourcesFit(input, sources) && o in Prepared(input, sources, fn, fd).rows && IsTrue(Tagged(r), o)
    ensures row in SourceOf(input, sources, r).rows && IsOutputRow(o, row, r)
    ensures Matches(row, SideOf(input, r).dimensionFields, FiltersFor(r, fn, fd))
  {
    var of;
    of, row := OutputRowAt(input, sources, fn, fd, o);
    TaggedIsRole(o, row, of, r);
  }

  lemma SelectedOutput(input: Input, sources: map<string, Table>, fn: Filters, fd: Filters, r: Role, row: Row)
    returns (o: Row)
    requires SourcesFit(input, sources) && row in SourceOf(input, sources, r).rows
    requires Matches(row, SideOf(input, r).dimensionFields, FiltersFor(r, fn, fd))
    ensures o in Prepared(input, sources, fn, fd).rows && IsOutputRow(o, row, r)
  {
    var t, s, filters := SourceOf(input, sources, r), SideOf(input, r), FiltersFor(r, fn, fd);
    var j :| 0 <= j < |t.rows| && t.rows[j] == row;
    SelectedAreRows(t.rows, s, filters, |t.rows|);
    var k :| 0 <= k < |Selected(t.rows, s, filters, |t.rows|)| && Selected(t.rows, s, filters, |t.rows|)[k] == row;
    SideOutputIs(t, r, input, filters, k);
    o := RoleRows(input, sources, r, filters)[k];
    assert o in RoleRows(input, sources, r, filters);
    OutputIsBothRoles(input, sources, fn, fd);
  }

  /** The tagged count of dates is the number of days the side has a value on. */
  lemma RoleDays(input: Input, sources: map<string, Table>, fn: Filters, fd: Filters, r: Role, span: Span)
    requires SourcesFit(input, sources)
    ensures |DaysOf(Prepared(input, sources, fn, fd).rows, DATE, span, Tagged(r))|
         == |DayTotals(SourceOf(input, sources, r).rows, SideOf(input, r).dimensionFields, FiltersFor(r, fn, fd), span.from, span.to)|
  {
    var t, fields, filters := SourceOf(input, sources, r), SideOf(input, r).dimensionFields, FiltersFor(r, fn, fd);
    var days := DaysWithValue(t.rows, fields, filters, span.from, span.to);
    DaysWithValueAre(t.rows, fields, filters, span.from, span.to);
    forall d ensures d in DaysOf(Prepared(input, sources, fn, fd).rows, DATE, span, Tagged(r)) <==> d in days {
      RoleDay(input, sources, fn, fd, r, span, d);
    }
    assert DaysOf(Prepared(input, sources, fn, fd).rows, DATE, span, Tagged(r)) == days;
  }

  // ---- The measures ----

  /** The tagged total is the sum of the side's day totals, and the tagged days are the days that have one. */
  lemma RoleAggregates(input: Input, sources: map<string, Table>, fn: Filters, fd: Filters, r: Role, span: Span)
    returns (days: seq<real>)
    requires SourcesFit(input, sources)
    ensures days == DayTotals(SourceOf(input, sources, r).rows, SideOf(input, r).dimensionFields, FiltersFor(r, fn, fd),
                              span.from, span.to)
    ensures TaggedTotal(Prepared(input, sources, fn, fd).rows, span, r) == TotalOf(days)
    ensures |DaysOf(Prepared(input, sources, fn, fd).rows, DATE, span, Tagged(r))| == |days|
  {
    var t, fields, filters := SourceOf(input, sources, r), SideOf(input, r).dimensionFields, FiltersFor(r, fn, fd);
    days := DayTotals(t.rows, fields, filters, span.from, span.to);
    RoleTotal(input, sources, fn, fd, r, span);
    SpanTotalIsDayTotals(t.rows, fields, filters, span.from, span.to);
    RoleDays(input, sources, fn, fd, r, span);
  }

  lemma TagDecides(t: Table, r: Role)
    requires OutputOk(t)
    ensures Refs(Tagged(r)) <= t.fields && forall row <- t.rows :: Decides(Tagged(r), row)
  {
    forall row | row in t.rows ensures Decides(Tagged(r), row) {
      assert HasTag(row);
    }
  }

  lemma TotalMeasure(t: Table, id: string, r: Role, span: Span, here: Row, earlier: Row)
    requires OutputOk(t)
    ensures MeasureValue(Measure.Sum(id, ValueField(r), Tagged(r)), t, DATE, span, here, earlier)
         == Some(CellOf(TaggedTotal(t.rows, span, r)))
  {
    TagDecides(t, r);
  }

  lemma DaysMeasure(t: Table, id: string, r: Role, span: Span, here: Row, earlier: Row)
    requires OutputOk(t)
    ensures MeasureValue(DistinctDays(id, DATE, Tagged(r)), t, DATE, span, here, earlier)
         == Some(Num(|DaysOf(t.rows, DATE, span, Tagged(r))| as real))
  {
    TagDecides(t, r);
  }

  // ---- What every measure should give ----

  /** An accepted widget over fitting datasets. */
  datatype Setting = Setting(input: Input, sources: map<string, Table>, fn: Filters, fd: Filters) {
    predicate Valid() {
      SourcesFit(input, sources) && CanAggregate(input.numerator) && CanAggregate(input.denominator)
    }

    function Out(): Table
      requires Valid()
    {
      Prepared(input, sources, fn, fd)
    }

    function Days(r: Role, span: Span): seq<real>
      requires Valid()
    {
      DayTotals(SourceOf(input, sources, r).rows, SideOf(input, r).dimensionFields, FiltersFor(r, fn, fd), span.from, span.to)
    }

    /** The side's number as the widget forms it. */
    function Number(r: Role, span: Span): Option<real>
      requires Valid()
    {
      Aggregate(SideOf(input, r).aggregation, Days(r, span))
    }

    function RatioAt(span: Span): Option<real>
      requires Valid()
    {
      RatioOf(Number(Numerator, span), Number(Denominator, span))
    }

    function ChangeAt(span: Span): Option<real>
      requires Valid()
    {
      CompareChange(RatioAt(span), RatioAt(Shifted(span)), input.format)
    }

    /** The value a measure of the model should have, by its id. */
    function Expected(id: string, span: Span): Cell
      requires Valid()
    {
      if id == NameOf(Numerator) then CellOf(Number(Numerator, span))
      else if id == NameOf(Denominator) then CellOf(Number(Denominator, span))
      else if id == TotalId(Numerator) then CellOf(TotalOf(Days(Numerator, span)))
      else if id == TotalId(Denominator) then CellOf(TotalOf(Days(Denominator, span)))
      else if id == DaysId(Numerator) then Num(|Days(Numerator, span)| as real)
      else if id == DaysId(Denominator) then Num(|Days(Denominator, span)| as real)
      else if id == RATIO then CellOf(RatioAt(span))
      else if id == PREVIOUS then CellOf(RatioAt(Shifted(span)))
      else CellOf(ChangeAt(span))
    }

    function ExpectedRow(ids: set<string>, span: Span): Row
      requires Valid()
    {
      map id <- ids :: Expected(id, span)
    }
  }

  function TotalOf(days: seq<real>): Option<real> { if days == [] then None else Some(SumOf(days)) }

  function Ids(ms: seq<Measure>): set<string> {
    if ms == [] then {} else Ids(ms[..|ms| - 1]) + {ms[|ms| - 1].id}
  }

  lemma OneMoreId(ms: seq<Measure>, m: Measure)
    ensures Ids(ms + [m]) == Ids(ms) + {m.id}
  {
    assert (ms + [m])[..|ms|] == ms;
  }

  /** The measures have their expected values over every span. */
  ghost predicate AsExpected(c: Setting, ms: seq<Measure>)
    requires c.Valid()
  {
    forall span: Span :: Values(ms, c.Out(), DATE, span) == Some(c.ExpectedRow(Ids(ms), span))
  }

  /** The next measure gives its expected value from those of the measures before it. */
  ghost predicate Right(c: Setting, ids: set<string>, m: Measure)
    requires c.Valid()
  {
    forall span: Span ::
      MeasureValue(m, c.Out(), DATE, span, c.ExpectedRow(ids, span), c.ExpectedRow(ids, Shifted(span)))
        == Some(c.Expected(m.id, span))
  }

  lemma RowOneMore(c: Setting, ids: set<string>, id: string, span: Span)
    requires c.Valid()
    ensures c.ExpectedRow(ids, span)[id := c.Expected(id, span)] == c.ExpectedRow(ids + {id}, span)
  {
  }

  lemma ExtendsOver(c: Setting, ms: seq<Measure>, m: Measure, span: Span)
    requires c.Valid() && m.id !in Ids(ms)
    requires Values(ms, c.Out(), DATE, span) == Some(c.ExpectedRow(Ids(ms), span))
    requires Values(ms, c.Out(), DATE, Shifted(span)) == Some(c.ExpectedRow(Ids(ms), Shifted(span)))
    requires MeasureValue(m, c.Out(), DATE, span, c.ExpectedRow(Ids(ms), span), c.ExpectedRow(Ids(ms), Shifted(span)))
          == Some(c.Expected(m.id, span))
    ensures Values(ms + [m], c.Out(), DATE, span) == Some(c.ExpectedRow(Ids(ms) + {m.id}, span))
  {
    OneMoreMeasure(ms, m, c.Out(), DATE, span, c.ExpectedRow(Ids(ms), span), c.ExpectedRow(Ids(ms), Shifted(span)));
    RowOneMore(c, Ids(ms), m.id, span);
  }

  lemma Extends(c: Setting, ms: seq<Measure>, m: Measure)
    requires c.Valid() && AsExpected(c, ms) && m.id !in Ids(ms) && Right(c, Ids(ms), m)
    ensures AsExpected(c, ms + [m]) && Ids(ms + [m]) == Ids(ms) + {m.id}
  {
    OneMoreId(ms, m);
    forall span: Span ensures Values(ms + [m], c.Out(), DATE, span) == Some(c.ExpectedRow(Ids(ms + [m]), span)) {
      ExtendsOver(c, ms, m, span);
    }
  }

  lemma RoleNames(r: Role)
    ensures NameOf(Numerator) != NameOf(Denominator) && TotalId(Numerator) != TotalId(Denominator)
    ensures DaysId(Numerator) != DaysId(Denominator)
    ensures {NameOf(r)} !! {TotalId(Numerator), TotalId(Denominator), DaysId(Numerator), DaysId(Denominator), RATIO, PREVIOUS, CHANGE}
    ensures {TotalId(r)} !! {DaysId(Numerator), DaysId(Denominator), RATIO, PREVIOUS, CHANGE}
    ensures {DaysId(r)} !! {RATIO, PREVIOUS, CHANGE}
    ensures RATIO != PREVIOUS && RATIO != CHANGE && PREVIOUS != CHANGE
  {
    assert NameOf(Numerator)[0] == 'n' && NameOf(Denominator)[0] == 'd';
    assert |TotalId(Numerator)| == 15 && |TotalId(Denominator)| == 17;
    assert |DaysId(Numerator)| == 14 && |DaysId(Denominator)| == 16;
    assert |PREVIOUS| == 14 && PREVIOUS[0] == 'r' && DaysId(Numerator)[0] == 'n';
  }

  lemma ExpectedOfRole(c: Setting, r: Role, span: Span)
    requires c.Valid()
    ensures c.Expected(NameOf(r), span) == CellOf(c.Number(r, span))
    ensures c.Expected(TotalId(r), span) == CellOf(TotalOf(c.Days(r, span)))
    ensures c.Expected(DaysId(r), span) == Num(|c.Days(r, span)| as real)
  {
    RoleNames(Numerator);
    RoleNames(Denominator);
  }

  lemma ExpectedOfRatio(c: Setting, span: Span)
    requires c.Valid()
    ensures c.Expected(RATIO, span) == CellOf(c.RatioAt(span))
    ensures c.Expected(PREVIOUS, span) == CellOf(c.RatioAt(Shifted(span)))
    ensures c.Expected(CHANGE, span) == CellOf(c.ChangeAt(span))
  {
    RoleNames(Numerator);
    RoleNames(Denominator);
  }

  lemma ExpectedByName(c: Setting, r: Role, span: Span)
    requires c.Valid()
    ensures c.Expected(NameOf(r), span) == CellOf(c.Number(r, span))
    ensures c.Expected(TotalId(r), span) == CellOf(TotalOf(c.Days(r, span)))
    ensures c.Expected(DaysId(r), span) == Num(|c.Days(r, span)| as real)
    ensures c.Expected(RATIO, span) == CellOf(c.RatioAt(span))
    ensures c.Expected(PREVIOUS, span) == CellOf(c.RatioAt(Shifted(span)))
    ensures c.Expected(CHANGE, span) == CellOf(c.ChangeAt(span))
  {
    ExpectedOfRole(c, r, span);
    ExpectedOfRatio(c, span);
  }

  lemma TotalIsRight(c: Setting, ids: set<string>, r: Role, id: string)
    requires c.Valid() && (id == TotalId(r) || (id == NameOf(r) && SideOf(c.input, r).aggregation.SumOfDays?))
    ensures Right(c, ids, Measure.Sum(id, ValueField(r), Tagged(r)))
  {
    OutputIsOk(c.input, c.sources, c.fn, c.fd);
    forall span: Span
      ensures MeasureValue(Measure.Sum(id, ValueField(r), Tagged(r)), c.Out(), DATE, span, c.ExpectedRow(ids, span),
                           c.ExpectedRow(ids, Shifted(span))) == Some(c.Expected(id, span))
    {
      var days := RoleAggregates(c.input, c.sources, c.fn, c.fd, r, span);
      TotalMeasure(c.Out(), id, r, span, c.ExpectedRow(ids, span), c.ExpectedRow(ids, Shifted(span)));
      ExpectedByName(c, r, span);
    }
  }

  lemma DaysAreRight(c: Setting, ids: set<string>, r: Role)
    requires c.Valid()
    ensures Right(c, ids, DistinctDays(DaysId(r), DATE, Tagged(r)))
  {
    OutputIsOk(c.input, c.sources, c.fn, c.fd);
    forall span: Span
      ensures MeasureValue(DistinctDays(DaysId(r), DATE, Tagged(r)), c.Out(), DATE, span, c.ExpectedRow(ids, span),
                           c.ExpectedRow(ids, Shifted(span))) == Some(c.Expected(DaysId(r), span))
    {
      var days := RoleAggregates(c.input, c.sources, c.fn, c.fd, r, span);
      DaysMeasure(c.Out(), DaysId(r), r, span, c.ExpectedRow(ids, span), c.ExpectedRow(ids, Shifted(span)));
      ExpectedByName(c, r, span);
    }
  }

  /** Total divided by days is the mean of the day totals. */
  lemma MeanOfDays(days: seq<real>, row: Row, r: Role)
    requires TotalId(r) in row && row[TotalId(r)] == CellOf(TotalOf(days))
    requires DaysId(r) in row && row[DaysId(r)] == Num(|days| as real)
    ensures Eval(Call(Divide, FieldRef(TotalId(r)), FieldRef(DaysId(r))), row) == Some(CellOf(Aggregate(AverageOfDays, days)))
  {
  }

  /** A formula is right when its references are there and it evaluates to what is expected. */
  lemma FormulaIsRight(c: Setting, ids: set<string>, id: string, e: Expr)
    requires c.Valid() && Refs(e) <= ids
    requires forall span: Span :: Eval(e, c.ExpectedRow(ids, span)) == Some(c.Expected(id, span))
    ensures Right(c, ids, Formula(id, e))
  {
    forall span: Span
      ensures MeasureValue(Formula(id, e), c.Out(), DATE, span, c.ExpectedRow(ids, span), c.ExpectedRow(ids, Shifted(span)))
           == Some(c.Expected(id, span))
    {
      FormulaValue(id, e, c.Out(), span, c.ExpectedRow(ids, span), c.ExpectedRow(ids, Shifted(span)));
    }
  }

  lemma FormulaValue(id: string, e: Expr, t: Table, span: Span, here: Row, earlier: Row)
    requires Refs(e) <= here.Keys && Refs(e) <= earlier.Keys
    ensures MeasureValue(Formula(id, e), t, DATE, span, here, earlier) == Eval(e, here)
  {
  }

  lemma RefsOfCall(fn: Fn, a: Expr, b: Expr)
    ensures Refs(Call(fn, a, b)) == Refs(a) + Refs(b)
  {
  }

  lemma MeanIsRight(c: Setting, ids: set<string>, r: Role)
    requires c.Valid() && SideOf(c.input, r).aggregation.AverageOfDays? && {TotalId(r), DaysId(r)} <= ids
    ensures Right(c, ids, Formula(NameOf(r), Call(Divide, FieldRef(TotalId(r)), FieldRef(DaysId(r)))))
  {
    var e := Call(Divide, FieldRef(TotalId(r)), FieldRef(DaysId(r)));
    RefsOfCall(Divide, FieldRef(TotalId(r)), FieldRef(DaysId(r)));
    forall span: Span ensures Eval(e, c.ExpectedRow(ids, span)) == Some(c.Expected(NameOf(r), span)) {
      ExpectedByName(c, r, span);
      MeanOfDays(c.Days(r, span), c.ExpectedRow(ids, span), r);
    }
    FormulaIsRight(c, ids, NameOf(r), e);
  }

  lemma OperandRefs(r: Role, amountPerUnit: bool)
    ensures Refs(Operand(r, amountPerUnit)) == {NameOf(r)}
  {
  }

  lemma OperandReads(r: Role, amountPerUnit: bool, row: Row, v: Option<real>)
    requires NameOf(r) in row && row[NameOf(r)] == CellOf(v)
    ensures Eval(Operand(r, amountPerUnit), row) == Some(CellOf(v))
  {
  }

  lemma QuotientIsTheRatio(a: Expr, b: Expr, row: Row, x: Option<real>, y: Option<real>)
    requires Eval(a, row) == Some(CellOf(x)) && Eval(b, row) == Some(CellOf(y))
    ensures Eval(Call(Divide, a, b), row) == Some(CellOf(RatioOf(x, y)))
  {
  }

  lemma RatioIsRight(c: Setting, ids: set<string>, amountPerUnit: bool)
    requires c.Valid() && {NameOf(Numerator), NameOf(Denominator)} <= ids
    ensures Right(c, ids, RatioMeasure(amountPerUnit))
  {
    var a, b := Operand(Numerator, amountPerUnit), Operand(Denominator, amountPerUnit);
    OperandRefs(Numerator, amountPerUnit);
    OperandRefs(Denominator, amountPerUnit);
    RefsOfCall(Divide, a, b);
    forall span: Span ensures Eval(Call(Divide, a, b), c.ExpectedRow(ids, span)) == Some(c.Expected(RATIO, span)) {
      ExpectedByName(c, Numerator, span);
      ExpectedByName(c, Denominator, span);
      OperandReads(Numerator, amountPerUnit, c.ExpectedRow(ids, span), c.Number(Numerator, span));
      OperandReads(Denominator, amountPerUnit, c.ExpectedRow(ids, span), c.Number(Denominator, span));
      QuotientIsTheRatio(a, b, c.ExpectedRow(ids, span), c.Number(Numerator, span), c.Number(Denominator, span));
    }
    FormulaIsRight(c, ids, RATIO, Call(Divide, a, b));
  }

  lemma PreviousIsRight(c: Setting, ids: set<string>)
    requires c.Valid() && RATIO in ids
    ensures Right(c, ids, RangeOffset(PREVIOUS, RATIO, ValueOf))
  {
    forall span: Span
      ensures MeasureValue(RangeOffset(PREVIOUS, RATIO, ValueOf), c.Out(), DATE, span, c.ExpectedRow(ids, span),
                           c.ExpectedRow(ids, Shifted(span))) == Some(c.Expected(PREVIOUS, span))
    {
      ExpectedOfRatio(c, span);
      ExpectedOfRatio(c, Shifted(span));
      OffsetValue(c.Out(), span, c.ExpectedRow(ids, span), c.ExpectedRow(ids, Shifted(span)));
    }
  }

  lemma OffsetValue(t: Table, span: Span, here: Row, earlier: Row)
    requires RATIO in here && RATIO in earlier
    ensures MeasureValue(RangeOffset(PREVIOUS, RATIO, ValueOf), t, DATE, span, here, earlier) == Some(earlier[RATIO])
  {
  }

  lemma PointsOf(row: Row, value: Option<real>, previous: Option<real>)
    requires RATIO in row && row[RATIO] == CellOf(value) && PREVIOUS in row && row[PREVIOUS] == CellOf(previous)
    ensures Eval(ChangeMeasure(Percent).e, row) == Some(CellOf(CompareChange(value, previous, Percent)))
  {
    var difference := Call(Subtract, FieldRef(RATIO), FieldRef(PREVIOUS));
    assert Eval(difference, row) == Some(if value.None? || previous.None? then Null else Num(value.value - previous.value));
  }

  lemma PointsAreRight(c: Setting, ids: set<string>)
    requires c.Valid() && {RATIO, PREVIOUS} <= ids && c.input.format.Percent?
    ensures Right(c, ids, ChangeMeasure(Percent))
  {
    var difference, e := Call(Subtract, FieldRef(RATIO), FieldRef(PREVIOUS)), ChangeMeasure(Percent).e;
    RefsOfCall(Subtract, FieldRef(RATIO), FieldRef(PREVIOUS));
    RefsOfCall(Multiply, difference, Literal(Num(100.0)));
    forall span: Span ensures Eval(e, c.ExpectedRow(ids, span)) == Some(c.Expected(CHANGE, span)) {
      ExpectedByName(c, Numerator, span);
      PointsOf(c.ExpectedRow(ids, span), c.RatioAt(span), c.RatioAt(Shifted(span)));
    }
    FormulaIsRight(c, ids, CHANGE, e);
  }

  lemma RelativeOf(value: Option<real>, previous: Option<real>)
    ensures Change(CellOf(value), CellOf(previous)) == Some(CellOf(CompareChange(value, previous, Format.Ratio)))
  {
  }

  lemma OffsetReads(t: Table, span: Span, here: Row, earlier: Row)
    requires RATIO in here && RATIO in earlier
    ensures MeasureValue(RangeOffset(CHANGE, RATIO, PercentChange), t, DATE, span, here, earlier)
         == Change(here[RATIO], earlier[RATIO])
  {
  }

  lemma RelativeIsRight(c: Setting, ids: set<string>)
    requires c.Valid() && RATIO in ids && c.input.format.Ratio?
    ensures Right(c, ids, ChangeMeasure(Format.Ratio))
  {
    forall span: Span
      ensures MeasureValue(ChangeMeasure(Format.Ratio), c.Out(), DATE, span, c.ExpectedRow(ids, span),
                           c.ExpectedRow(ids, Shifted(span))) == Some(c.Expected(CHANGE, span))
    {
      ExpectedByName(c, Numerator, span);
      ExpectedByName(c, Numerator, Shifted(span));
      OffsetReads(c.Out(), span, c.ExpectedRow(ids, span), c.ExpectedRow(ids, Shifted(span)));
      RelativeOf(c.RatioAt(span), c.RatioAt(Shifted(span)));
    }
  }

  // ---- The whole model ----

  function SideIds(r: Role): set<string> { {NameOf(r), TotalId(r), DaysId(r)} }

  lemma SumSideExtends(c: Setting, ms: seq<Measure>, r: Role)
    requires c.Valid() && AsExpected(c, ms) && SideIds(r) !! Ids(ms) && SideOf(c.input, r).aggregation.SumOfDays?
    ensures AsExpected(c, ms + SideMeasures(r, SumOfDays))
    ensures Ids(ms + SideMeasures(r, SumOfDays)) == Ids(ms) + {NameOf(r)}
  {
    TotalIsRight(c, Ids(ms), r, NameOf(r));
    Extends(c, ms, Measure.Sum(NameOf(r), ValueField(r), Tagged(r)));
  }

  lemma TotalAndDaysExtend(c: Setting, ms: seq<Measure>, r: Role, total: Measure, days: Measure)
    requires c.Valid() && AsExpected(c, ms) && SideIds(r) !! Ids(ms)
    requires total == Measure.Sum(TotalId(r), ValueField(r), Tagged(r)) && days == DistinctDays(DaysId(r), DATE, Tagged(r))
    ensures AsExpected(c, ms + [total] + [days]) && Ids(ms + [total] + [days]) == Ids(ms) + {TotalId(r)} + {DaysId(r)}
  {
    RoleNames(r);
    TotalIsRight(c, Ids(ms), r, TotalId(r));
    Extends(c, ms, total);
    DaysAreRight(c, Ids(ms + [total]), r);
    Extends(c, ms + [total], days);
  }

  lemma MeanExtends(c: Setting, ms: seq<Measure>, r: Role, mean: Measure)
    requires c.Valid() && AsExpected(c, ms) && {TotalId(r), DaysId(r)} <= Ids(ms) && NameOf(r) !in Ids(ms)
    requires SideOf(c.input, r).aggregation.AverageOfDays?
    requires mean == Formula(NameOf(r), Call(Divide, FieldRef(TotalId(r)), FieldRef(DaysId(r))))
    ensures AsExpected(c, ms + [mean]) && Ids(ms + [mean]) == Ids(ms) + {NameOf(r)}
  {
    MeanIsRight(c, Ids(ms), r);
    Extends(c, ms, mean);
  }

  lemma MeanMeasuresAre(ms: seq<Measure>, r: Role, total: Measure, days: Measure, mean: Measure)
    requires total == Measure.Sum(TotalId(r), ValueField(r), Tagged(r)) && days == DistinctDays(DaysId(r), DATE, Tagged(r))
    requires mean == Formula(NameOf(r), Call(Divide, FieldRef(TotalId(r)), FieldRef(DaysId(r))))
    ensures ms + SideMeasures(r, AverageOfDays) == ms + [total] + [days] + [mean]
  {
  }

  lemma MeanListExtends(c: Setting, ms: seq<Measure>, r: Role, total: Measure, days: Measure, mean: Measure)
    requires c.Valid() && AsExpected(c, ms) && SideIds(r) !! Ids(ms) && SideOf(c.input, r).aggregation.AverageOfDays?
    requires total == Measure.Sum(TotalId(r), ValueField(r), Tagged(r)) && days == DistinctDays(DaysId(r), DATE, Tagged(r))
    requires mean == Formula(NameOf(r), Call(Divide, FieldRef(TotalId(r)), FieldRef(DaysId(r))))
    ensures AsExpected(c, ms + [total] + [days] + [mean])
    ensures Ids(ms + [total] + [days] + [mean]) == Ids(ms) + SideIds(r)
  {
    RoleNames(r);
    TotalAndDaysExtend(c, ms, r, total, days);
    MeanExtends(c, ms + [total] + [days], r, mean);
  }

  lemma MeanSideExtends(c: Setting, ms: seq<Measure>, r: Role)
    requires c.Valid() && AsExpected(c, ms) && SideIds(r) !! Ids(ms) && SideOf(c.input, r).aggregation.AverageOfDays?
    ensures AsExpected(c, ms + SideMeasures(r, AverageOfDays))
    ensures Ids(ms + SideMeasures(r, AverageOfDays)) == Ids(ms) + SideIds(r)
  {
    var total, days := Measure.Sum(TotalId(r), ValueField(r), Tagged(r)), DistinctDays(DaysId(r), DATE, Tagged(r));
    var mean := Formula(NameOf(r), Call(Divide, FieldRef(TotalId(r)), FieldRef(DaysId(r))));
    MeanListExtends(c, ms, r, total, days, mean);
    MeanMeasuresAre(ms, r, total, days, mean);
  }

  /** A side's measures extend an expected list whose ids they do not use. */
  lemma SideExtends(c: Setting, ms: seq<Measure>, r: Role)
    requires c.Valid() && AsExpected(c, ms) && SideIds(r) !! Ids(ms)
    ensures AsExpected(c, ms + SideMeasures(r, SideOf(c.input, r).aggregation))
    ensures var ids := Ids(ms + SideMeasures(r, SideOf(c.input, r).aggregation));
      Ids(ms) + {NameOf(r)} <= ids <= Ids(ms) + SideIds(r)
  {
    if SideOf(c.input, r).aggregation.SumOfDays? { SumSideExtends(c, ms, r); } else { MeanSideExtends(c, ms, r); }
  }

  lemma SideIdsAreApart()
    ensures SideIds(Numerator) !! SideIds(Denominator)
    ensures {RATIO, PREVIOUS, CHANGE} !! SideIds(Numerator) + SideIds(Denominator)
  {
    RoleNames(Numerator);
    RoleNames(Denominator);
  }

  lemma NothingIsExpected(c: Setting)
    requires c.Valid()
    ensures AsExpected(c, []) && Ids([]) == {}
  {
  }

  lemma SidesAreExpected(c: Setting)
    requires c.Valid()
    ensures var ms := SideMeasures(Numerator, c.input.numerator.aggregation) + SideMeasures(Denominator, c.input.denominator.aggregation);
      && AsExpected(c, ms) && {NameOf(Numerator), NameOf(Denominator)} <= Ids(ms) && {RATIO, PREVIOUS, CHANGE} !! Ids(ms)
  {
    var first := SideMeasures(Numerator, c.input.numerator.aggregation);
    NothingIsExpected(c);
    SideIdsAreApart();
    SideExtends(c, [], Numerator);
    assert [] + first == first;
    SideExtends(c, first, Denominator);
  }

  lemma RatioExtends(c: Setting, ms: seq<Measure>, amountPerUnit: bool)
    requires c.Valid() && AsExpected(c, ms) && {NameOf(Numerator), NameOf(Denominator)} <= Ids(ms) && RATIO !in Ids(ms)
    ensures AsExpected(c, ms + [RatioMeasure(amountPerUnit)])
    ensures Ids(ms + [RatioMeasure(amountPerUnit)]) == Ids(ms) + {RATIO}
  {
    RatioIsRight(c, Ids(ms), amountPerUnit);
    Extends(c, ms, RatioMeasure(amountPerUnit));
  }

  lemma PreviousExtends(c: Setting, ms: seq<Measure>, previous: Measure)
    requires c.Valid() && AsExpected(c, ms) && RATIO in Ids(ms) && PREVIOUS !in Ids(ms)
    requires previous == RangeOffset(PREVIOUS, RATIO, ValueOf)
    ensures AsExpected(c, ms + [previous]) && Ids(ms + [previous]) == Ids(ms) + {PREVIOUS}
  {
    PreviousIsRight(c, Ids(ms));
    Extends(c, ms, previous);
  }

  lemma ChangeExtends(c: Setting, ms: seq<Measure>)
    requires c.Valid() && AsExpected(c, ms) && {RATIO, PREVIOUS} <= Ids(ms) && CHANGE !in Ids(ms)
    ensures AsExpected(c, ms + [ChangeMeasure(c.input.format)])
    ensures Ids(ms + [ChangeMeasure(c.input.format)]) == Ids(ms) + {CHANGE}
  {
    if c.input.format.Percent? { PointsAreRight(c, Ids(ms)); } else { RelativeIsRight(c, Ids(ms)); }
    Extends(c, ms, ChangeMeasure(c.input.format));
  }

  lemma ModelIsExpected(c: Setting, amountPerUnit: bool)
    requires c.Valid()
    ensures AsExpected(c, Measures(c.input, amountPerUnit))
    ensures {NameOf(Numerator), NameOf(Denominator), RATIO, PREVIOUS, CHANGE} <= Ids(Measures(c.input, amountPerUnit))
  {
    var ms := SideMeasures(Numerator, c.input.numerator.aggregation) + SideMeasures(Denominator, c.input.denominator.aggregation);
    var ratio, previous := RatioMeasure(amountPerUnit), RangeOffset(PREVIOUS, RATIO, ValueOf);
    SidesAreExpected(c);
    RoleNames(Numerator);
    RatioExtends(c, ms, amountPerUnit);
    PreviousExtends(c, ms + [ratio], previous);
    ChangeExtends(c, ms + [ratio] + [previous]);
  }

  // ---- The theorems ----

  /** The inclusive dates of a period and, one range earlier, those just before it. */
  function PeriodSpan(from: int, until: int): Span { Span(from, until, until - from + 1) }

  /** A side's number over the dates, straight from the rows that count. */
  function NumberAt(input: Input, sources: map<string, Table>, r: Role, from: int, until: int): Option<real>
    requires SourcesFit(input, sources)
  {
    WidgetNumber(SourceOf(input, sources, r).rows, SideOf(input, r), input.currency, from, until)
  }

  function RatioIn(input: Input, sources: map<string, Table>, from: int, until: int): Option<real>
    requires SourcesFit(input, sources)
  {
    RatioOf(NumberAt(input, sources, Numerator, from, until), NumberAt(input, sources, Denominator, from, until))
  }

  lemma NumberIsWidgets(c: Setting, r: Role, span: Span)
    requires c.Valid() && FiltersOf(SideOf(c.input, r), c.input.currency) == Ok(FiltersFor(r, c.fn, c.fd))
    ensures c.Number(r, span) == NumberAt(c.input, c.sources, r, span.from, span.to)
  {
    var rows := SourceOf(c.input, c.sources, r).rows;
    FiltersSelectRows(rows, SideOf(c.input, r), c.input.currency);
    AggregateIsNumber(rows, SideOf(c.input, r), c.input.currency, FiltersFor(r, c.fn, c.fd), span.from, span.to);
  }

  lemma RatioIsWidgets(c: Setting, span: Span)
    requires c.Valid()
    requires FiltersOf(c.input.numerator, c.input.currency) == Ok(c.fn) && FiltersOf(c.input.denominator, c.input.currency) == Ok(c.fd)
    ensures c.RatioAt(span) == RatioIn(c.input, c.sources, span.from, span.to)
  {
    NumberIsWidgets(c, Numerator, span);
    NumberIsWidgets(c, Denominator, span);
  }

  /** The compiled model over the compiled preparation's output has these values over the span. */
  ghost predicate Evaluates(input: Input, sources: map<string, Table>, span: Span, values: Row)
    requires Compiled(input).Ok?
  {
    var out := RunGraph(Compiled(input).value.nodes, sources);
    out.Some? && OUTPUT in out.value && Values(Compiled(input).value.measures, out.value[OUTPUT], DATE, span) == Some(values)
  }

  /** The values of the compiled measures are these numbers, and the change of the ratio. */
  predicate Shows(values: Row, numerator: Option<real>, denominator: Option<real>, ratio: Option<real>, previous: Option<real>,
                  format: Format)
  {
    && {NameOf(Numerator), NameOf(Denominator), RATIO, PREVIOUS, CHANGE} <= values.Keys
    && values[NameOf(Numerator)] == CellOf(numerator) && values[NameOf(Denominator)] == CellOf(denominator)
    && values[RATIO] == CellOf(ratio) && values[PREVIOUS] == CellOf(previous)
    && values[CHANGE] == CellOf(CompareChange(ratio, previous, format))
  }

  /** The compiled model's values, in the terms of its filters. */
  lemma CompiledValues(input: Input, sources: map<string, Table>, span: Span) returns (c: Setting, values: Row)
    requires Compiled(input).Ok? && SourcesFit(input, sources)
    ensures c.Valid() && c.input == input && c.sources == sources
    ensures FiltersAre(c) && Evaluates(input, sources, span, values) && ShowsNumbers(c, span, values)
  {
    var fn, fd := FiltersOf(input.numerator, input.currency).value, FiltersOf(input.denominator, input.currency).value;
    c := Setting(input, sources, fn, fd);
    CompiledShape(input, fn, fd);
    PreparationRuns(input, sources, fn, fd);
    ModelIsExpected(c, AmountPerUnit(input, fn, fd));
    values := c.ExpectedRow(Ids(Measures(input, AmountPerUnit(input, fn, fd))), span);
    ExpectedByName(c, Numerator, span);
    ExpectedByName(c, Denominator, span);
  }

  /**
   * For every accepted widget and every pair of fitting datasets, the same one twice included, the compiled model over
   * the compiled preparation's output has the widget's numerator, denominator, ratio, previous ratio and change: sums or
   * daily means of the rows that have all the side's dimensions and, for an amount per currency without a currency
   * dimension, the widget's currency.
   */
  lemma CompiledMeasureIsTheWidget(input: Input, sources: map<string, Table>, from: int, until: int) returns (values: Row)
    requires Compiled(input).Ok? && SourcesFit(input, sources) && from <= until
    ensures Evaluates(input, sources, PeriodSpan(from, until), values)
    ensures ShowsWidgetNumbers(input, sources, values, PeriodSpan(from, until), Shifted(PeriodSpan(from, until)))
  {
    var c;
    c, values := CompiledValues(input, sources, PeriodSpan(from, until));
    ShowsWidget(c, PeriodSpan(from, until), values);
  }

  ghost predicate FiltersAre(c: Setting) {
    && FiltersOf(c.input.numerator, c.input.currency) == Ok(c.fn)
    && FiltersOf(c.input.denominator, c.input.currency) == Ok(c.fd)
  }

  predicate ShowsNumbers(c: Setting, span: Span, values: Row)
    requires c.Valid()
  {
    Shows(values, c.Number(Numerator, span), c.Number(Denominator, span), c.RatioAt(span), c.RatioAt(Shifted(span)),
          c.input.format)
  }

  predicate ShowsWidgetNumbers(input: Input, sources: map<string, Table>, values: Row, now: Span, before: Span)
    requires SourcesFit(input, sources)
  {
    Shows(values, NumberAt(input, sources, Numerator, now.from, now.to), NumberAt(input, sources, Denominator, now.from, now.to),
          RatioIn(input, sources, now.from, now.to), RatioIn(input, sources, before.from, before.to), input.format)
  }

  lemma ShowsWidget(c: Setting, span: Span, values: Row)
    requires c.Valid() && FiltersAre(c) && ShowsNumbers(c, span, values)
    ensures ShowsWidgetNumbers(c.input, c.sources, values, span, Shifted(span))
  {
    NumberIsWidgets(c, Numerator, span);
    NumberIsWidgets(c, Denominator, span);
    RatioIsWidgets(c, span);
    RatioIsWidgets(c, Shifted(span));
  }

  // ---- Every name resolves ----

  function NodeIds(nodes: seq<Node>): set<string> {
    if nodes == [] then {} else NodeIds(nodes[..|nodes| - 1]) + {nodes[|nodes| - 1].id}
  }

  /** Each node's id is new and its inputs are ids of nodes before it. */
  predicate InOrder(nodes: seq<Node>) {
    nodes == [] ||
      var before, n := nodes[..|nodes| - 1], nodes[|nodes| - 1];
      InOrder(before) && n.id !in NodeIds(before) && Inputs(n) <= NodeIds(before)
  }

  lemma AddNode(nodes: seq<Node>, n: Node)
    requires InOrder(nodes) && n.id !in NodeIds(nodes) && Inputs(n) <= NodeIds(nodes)
    ensures InOrder(nodes + [n]) && NodeIds(nodes + [n]) == NodeIds(nodes) + {n.id}
  {
    assert (nodes + [n])[..|nodes|] == nodes;
  }

  lemma {:induction false} NodeIdsAre(nodes: seq<Node>, id: string)
    ensures id in NodeIds(nodes) <==> exists i :: 0 <= i < |nodes| && nodes[i].id == id
  {
    if nodes != [] { NodeIdsAre(nodes[..|nodes| - 1], id); }
  }

  lemma {:induction false} OrderedGraphResolves(nodes: seq<Node>)
    requires InOrder(nodes)
    ensures GraphResolves(nodes)
  {
    if nodes != [] {
      var before, n := nodes[..|nodes| - 1], nodes[|nodes| - 1];
      OrderedGraphResolves(before);
      forall id ensures id in NodeIds(before) <==> exists i :: 0 <= i < |before| && before[i].id == id {
        NodeIdsAre(before, id);
      }
      forall j, input | 0 <= j < |nodes| && input in Inputs(nodes[j]) ensures exists i :: 0 <= i < j && nodes[i].id == input {
        if j < |before| { assert before[j] == nodes[j]; }
        var i :| 0 <= i < j && before[i].id == input;
        assert nodes[i].id == input;
      }
    }
  }

  function SideNodeIds(r: Role): set<string> { {SourceId(r), ScopeId(r), TagId(r)} }

  lemma NodeNames()
    ensures SideNodeIds(Numerator) !! SideNodeIds(Denominator)
    ensures OUTPUT !in SideNodeIds(Numerator) + SideNodeIds(Denominator)
    ensures forall r: Role :: SourceId(r) != ScopeId(r) && ScopeId(r) != TagId(r) && TagId(r) != SourceId(r)
  {
    SideIdsDiffer(Numerator);
    SideIdsDiffer(Denominator);
    assert SourceId(Numerator)[0] == ScopeId(Numerator)[0] == TagId(Numerator)[0] == 'n';
    assert SourceId(Denominator)[0] == ScopeId(Denominator)[0] == TagId(Denominator)[0] == 'd';
    assert OUTPUT[0] == 'c';
  }

  lemma SourceResolves(before: seq<Node>, r: Role, s: Side)
    requires InOrder(before) && SourceId(r) !in NodeIds(before)
    ensures InOrder(before + [SourceNode(r, s)]) && NodeIds(before + [SourceNode(r, s)]) == NodeIds(before) + {SourceId(r)}
  {
    AddNode(before, SourceNode(r, s));
  }

  lemma ScopeResolves(before: seq<Node>, r: Role, s: Side, filters: Filters)
    requires InOrder(before) && ScopeId(r) !in NodeIds(before) && SourceId(r) in NodeIds(before)
    requires FiltersKnown(s, filters) && filters != []
    ensures InOrder(before + [ScopeNode(r, s, filters)])
    ensures NodeIds(before + [ScopeNode(r, s, filters)]) == NodeIds(before) + {ScopeId(r)}
  {
    AddNode(before, ScopeNode(r, s, filters));
  }

  lemma TagResolves(before: seq<Node>, r: Role, input: string)
    requires InOrder(before) && TagId(r) !in NodeIds(before) && input in NodeIds(before)
    ensures InOrder(before + [TagNode(r, input)]) && NodeIds(before + [TagNode(r, input)]) == NodeIds(before) + {TagId(r)}
  {
    AddNode(before, TagNode(r, input));
  }

  lemma UnscopedSideResolves(before: seq<Node>, r: Role, s: Side)
    requires InOrder(before) && NodeIds(before) !! SideNodeIds(r)
    ensures var all := before + [SourceNode(r, s)] + [TagNode(r, SourceId(r))];
      InOrder(all) && NodeIds(all) == NodeIds(before) + {SourceId(r)} + {TagId(r)}
  {
    NodeNames();
    SourceResolves(before, r, s);
    TagResolves(before + [SourceNode(r, s)], r, SourceId(r));
  }

  lemma ScopedSideResolves(before: seq<Node>, r: Role, s: Side, filters: Filters)
    requires InOrder(before) && NodeIds(before) !! SideNodeIds(r) && FiltersKnown(s, filters) && filters != []
    ensures var all := before + [SourceNode(r, s)] + [ScopeNode(r, s, filters)] + [TagNode(r, ScopeId(r))];
      InOrder(all) && NodeIds(all) == NodeIds(before) + {SourceId(r)} + {ScopeId(r)} + {TagId(r)}
  {
    NodeNames();
    SourceResolves(before, r, s);
    ScopeResolves(before + [SourceNode(r, s)], r, s, filters);
    TagResolves(before + [SourceNode(r, s)] + [ScopeNode(r, s, filters)], r, ScopeId(r));
  }

  /** A side's nodes after `before`, as they are emitted. */
  lemma SideNodesResolve(before: seq<Node>, r: Role, s: Side, filters: Filters, all: seq<Node>)
    requires InOrder(before) && NodeIds(before) !! SideNodeIds(r) && FiltersKnown(s, filters)
    requires all == if filters == [] then before + [SourceNode(r, s)] + [TagNode(r, SourceId(r))]
                    else before + [SourceNode(r, s)] + [ScopeNode(r, s, filters)] + [TagNode(r, ScopeId(r))]
    ensures InOrder(all) && NodeIds(before) + {TagId(r)} <= NodeIds(all) <= NodeIds(before) + SideNodeIds(r)
  {
    if filters == [] { UnscopedSideResolves(before, r, s); } else { ScopedSideResolves(before, r, s, filters); }
  }

  /** Each measure's id is new and its references are ids of measures before it. */
  predicate Refer(ms: seq<Measure>) {
    ms == [] ||
      var before, m := ms[..|ms| - 1], ms[|ms| - 1];
      Refer(before) && m.id !in Ids(before) && References(m) <= Ids(before)
  }

  lemma AddMeasure(ms: seq<Measure>, m: Measure)
    requires Refer(ms) && m.id !in Ids(ms) && References(m) <= Ids(ms)
    ensures Refer(ms + [m]) && Ids(ms + [m]) == Ids(ms) + {m.id}
  {
    assert (ms + [m])[..|ms|] == ms;
    OneMoreId(ms, m);
  }

  lemma {:induction false} IdsAre(ms: seq<Measure>, id: string)
    ensures id in Ids(ms) <==> exists i :: 0 <= i < |ms| && ms[i].id == id
  {
    if ms != [] { IdsAre(ms[..|ms| - 1], id); }
  }

  lemma {:induction false} OrderedModelResolves(ms: seq<Measure>)
    requires Refer(ms)
    ensures ModelResolves(ms)
  {
    if ms != [] {
      var before, m := ms[..|ms| - 1], ms[|ms| - 1];
      OrderedModelResolves(before);
      forall id ensures id in Ids(before) <==> exists i :: 0 <= i < |before| && before[i].id == id {
        IdsAre(before, id);
      }
      forall j, id | 0 <= j < |ms| && id in References(ms[j]) ensures exists i :: 0 <= i < j && ms[i].id == id {
        if j < |before| { assert before[j] == ms[j]; }
        var i :| 0 <= i < j && before[i].id == id;
        assert ms[i].id == id;
      }
    }
  }

  lemma AddThree(ms: seq<Measure>, a: Measure, b: Measure, c: Measure)
    requires Refer(ms) && {a.id, b.id, c.id} !! Ids(ms) && a.id != b.id && b.id != c.id && c.id != a.id
    requires References(a) <= Ids(ms) && References(b) <= Ids(ms) + {a.id}
    requires References(c) <= Ids(ms) + {a.id} + {b.id}
    ensures Refer(ms + [a, b, c]) && Ids(ms + [a, b, c]) == Ids(ms) + {a.id} + {b.id} + {c.id}
  {
    AddMeasure(ms, a);
    AddMeasure(ms + [a], b);
    AddMeasure(ms + [a] + [b], c);
    assert ms + [a, b, c] == ms + [a] + [b] + [c];
  }

  lemma MeanMeasuresResolve(ms: seq<Measure>, r: Role)
    requires Refer(ms) && Ids(ms) !! SideIds(r)
    ensures Refer(ms + SideMeasures(r, AverageOfDays))
    ensures Ids(ms + SideMeasures(r, AverageOfDays)) == Ids(ms) + {TotalId(r)} + {DaysId(r)} + {NameOf(r)}
  {
    RoleNames(r);
    var e := Call(Divide, FieldRef(TotalId(r)), FieldRef(DaysId(r)));
    assert Refs(e) == {TotalId(r)} + {DaysId(r)};
    AddThree(ms, Measure.Sum(TotalId(r), ValueField(r), Tagged(r)), DistinctDays(DaysId(r), DATE, Tagged(r)),
             Formula(NameOf(r), e));
  }

  lemma SideMeasuresResolve(ms: seq<Measure>, r: Role, aggregation: Aggregation)
    requires Refer(ms) && Ids(ms) !! SideIds(r) && (aggregation.SumOfDays? || aggregation.AverageOfDays?)
    ensures var all := ms + SideMeasures(r, aggregation);
      Refer(all) && Ids(ms) + {NameOf(r)} <= Ids(all) <= Ids(ms) + SideIds(r)
  {
    if aggregation.SumOfDays? {
      AddMeasure(ms, Measure.Sum(NameOf(r), ValueField(r), Tagged(r)));
    } else {
      MeanMeasuresResolve(ms, r);
    }
  }

  lemma RatioMeasuresResolve(ms: seq<Measure>, format: Format, amountPerUnit: bool)
    requires Refer(ms) && {NameOf(Numerator), NameOf(Denominator)} <= Ids(ms) && {RATIO, PREVIOUS, CHANGE} !! Ids(ms)
    ensures Refer(ms + [RatioMeasure(amountPerUnit), RangeOffset(PREVIOUS, RATIO, ValueOf), ChangeMeasure(format)])
  {
    RoleNames(Numerator);
    assert References(RatioMeasure(amountPerUnit)) == {NameOf(Numerator)} + {NameOf(Denominator)};
    assert References(ChangeMeasure(format)) <= {RATIO} + {PREVIOUS};
    AddThree(ms, RatioMeasure(amountPerUnit), RangeOffset(PREVIOUS, RATIO, ValueOf), ChangeMeasure(format));
  }

  lemma MeasuresResolve(input: Input, amountPerUnit: bool)
    requires CanAggregate(input.numerator) && CanAggregate(input.denominator)
    ensures Refer(Measures(input, amountPerUnit))
  {
    SideIdsAreApart();
    var first, second := SideMeasures(Numerator, input.numerator.aggregation), SideMeasures(Denominator, input.denominator.aggregation);
    SideMeasuresResolve([], Numerator, input.numerator.aggregation);
    assert [] + first == first;
    SideMeasuresResolve(first, Denominator, input.denominator.aggregation);
    RatioMeasuresResolve(first + second, input.format, amountPerUnit);
    ThreeAppended(first + second, RatioMeasure(amountPerUnit), RangeOffset(PREVIOUS, RATIO, ValueOf), ChangeMeasure(input.format));
  }

  lemma ThreeAppended(ms: seq<Measure>, a: Measure, b: Measure, c: Measure)
    ensures ms + [a] + [b] + [c] == ms + [a, b, c]
  {
  }

  /** Every node input and measure reference resolves to an earlier, uniquely named one, whatever data there is. */
  lemma CompiledResolves(input: Input)
    requires Compiled(input).Ok?
    ensures GraphResolves(Compiled(input).value.nodes) && ModelResolves(Compiled(input).value.measures)
  {
    var fn, fd := FiltersOf(input.numerator, input.currency).value, FiltersOf(input.denominator, input.currency).value;
    CompiledShape(input, fn, fd);
    NodeNames();
    var first := SideNodes(Numerator, input.numerator, fn);
    assert [] + first == first;
    SideNodesAre([], Numerator, input.numerator, fn);
    SideNodesResolve([], Numerator, input.numerator, fn, first);
    var both := first + SideNodes(Denominator, input.denominator, fd);
    SideNodesAre(first, Denominator, input.denominator, fd);
    SideNodesResolve(first, Denominator, input.denominator, fd, both);
    AddNode(both, AppendNode(input));
    OrderedGraphResolves(Compiled(input).value.nodes);
    MeasuresResolve(input, AmountPerUnit(input, fn, fd));
    OrderedModelResolves(Compiled(input).value.measures);
  }
}
