/**
 * The forms of the preparation and model engines that a compare measure uses: expressions, source, filter, calculate and
 * append steps, and aggregate, formula and period-offset measures. Numbers are exact; a step or measure the engine
 * refuses has no value.
 */
module DataEngine {
  import opened Common

  /** A date is a day number. */
  datatype Cell = Null | Flag(flag: bool) | Text(text: string) | Num(num: real) | Date(day: int)

  type Row = map<string, Cell>

  datatype Fn = Eq | And | Divide | Multiply | Subtract

  datatype Expr = FieldRef(id: string) | Literal(value: Cell) | Plain(arg: Expr) | Call(fn: Fn, left: Expr, right: Expr)

  // ---- Expressions ----

  function Refs(e: Expr): set<string> {
    match e
    case FieldRef(id) => {id}
    case Literal(_) => {}
    case Plain(arg) => Refs(arg)
    case Call(_, left, right) => Refs(left) + Refs(right)
  }

  function Arithmetic(fn: Fn, a: real, b: real): Cell {
    match fn
    case Divide => if b == 0.0 then Null else Num(a / b)
    case Multiply => Num(a * b)
    case Subtract => Num(a - b)
    case _ => Null
  }

  /** Comparisons, logic and arithmetic over nulls are null, except that false decides a conjunction. */
  function Apply(fn: Fn, a: Cell, b: Cell): Option<Cell> {
    match fn
    case And =>
      if !(a.Flag? || a.Null?) || !(b.Flag? || b.Null?) then None
      else if a == Flag(false) || b == Flag(false) then Some(Flag(false))
      else if a.Null? || b.Null? then Some(Null)
      else Some(Flag(true))
    case Eq =>
      if a.Null? || b.Null? then Some(Null)
      else if (a.Text? && b.Text?) || (a.Num? && b.Num?) || (a.Date? && b.Date?) then Some(Flag(a == b))
      else None
    case _ =>
      if a.Null? || b.Null? then Some(Null)
      else if a.Num? && b.Num? then Some(Arithmetic(fn, a.num, b.num))
      else None
  }

  /** `Plain` casts a number to a plain value without a unit. */
  function Eval(e: Expr, row: Row): Option<Cell> {
    match e
    case FieldRef(id) => if id in row then Some(row[id]) else None
    case Literal(value) => Some(value)
    case Plain(arg) =>
      var a := Eval(arg, row);
      if a.Some? && (a.value.Num? || a.value.Null?) then a else None
    case Call(fn, left, right) =>
      var a, b := Eval(left, row), Eval(right, row);
      if a.None? || b.None? then None else Apply(fn, a.value, b.value)
  }

  predicate IsTrue(e: Expr, row: Row) { Eval(e, row) == Some(Flag(true)) }

  /** A condition gives a truth value or null on the row. */
  predicate Decides(e: Expr, row: Row) {
    var v := Eval(e, row);
    v.Some? && (v.value.Flag? || v.value.Null?)
  }

  // ---- Preparation ----

  datatype Table = Table(fields: set<string>, rows: seq<Row>)

  /** Which field becomes which, in order. */
  type Mapping = seq<(string, string)>

  datatype Node =
    | Source(id: string, datasetId: string)
    | Filter(id: string, input: string, condition: Expr)
    | Calculate(id: string, input: string, fieldId: string, value: Expr)
    | Append(id: string, inputs: seq<string>, mappings: map<string, Mapping>)

  function Inputs(n: Node): set<string> {
    match n
    case Source(_, _) => {}
    case Filter(_, input, _) => {input}
    case Calculate(_, input, _, _) => {input}
    case Append(_, inputs, _) => set i <- inputs
  }

  function KeptRows(rows: seq<Row>, e: Expr, n: nat): seq<Row>
    requires n <= |rows|
  {
    if n == 0 then [] else KeptRows(rows, e, n - 1) + if IsTrue(e, rows[n - 1]) then [rows[n - 1]] else []
  }

  predicate DistinctTargets(m: Mapping) { forall i, j :: 0 <= i < j < |m| ==> m[i].1 != m[j].1 }

  function Targets(m: Mapping): set<string> { set p <- m :: p.1 }

  /** The value of the target field of a mapped row, null when nothing maps to it. */
  function TargetValue(row: Row, m: Mapping, target: string): Cell {
    if m == [] then Null
    else if m[0].1 == target && m[0].0 in row then row[m[0].0]
    else TargetValue(row, m[1..], target)
  }

  function MappedRow(row: Row, m: Mapping, fields: set<string>): Row {
    map t <- fields :: if t in Targets(m) then TargetValue(row, m, t) else Null
  }

  function MappedRows(rows: seq<Row>, m: Mapping, fields: set<string>): (out: seq<Row>)
    ensures |out| == |rows| && forall i :: 0 <= i < |rows| ==> out[i] == MappedRow(rows[i], m, fields)
  {
    seq(|rows|, i requires 0 <= i < |rows| => MappedRow(rows[i], m, fields))
  }

  predicate CanMap(t: Table, m: Mapping) {
    DistinctTargets(m) && forall p <- m :: p.0 in t.fields
  }

  /** Two mapped inputs one after the other; fields of only one of them are null in the other's rows. */
  function Appended(a: Table, ma: Mapping, b: Table, mb: Mapping): Table {
    var fields := Targets(ma) + Targets(mb);
    Table(fields, MappedRows(a.rows, ma, fields) + MappedRows(b.rows, mb, fields))
  }

  function CalculatedRow(row: Row, fieldId: string, e: Expr): Row {
    var v := Eval(e, row);
    row[fieldId := if v.Some? then v.value else Null]
  }

  function CalculatedRows(rows: seq<Row>, fieldId: string, e: Expr): (out: seq<Row>)
    ensures |out| == |rows| && forall i :: 0 <= i < |rows| ==> out[i] == CalculatedRow(rows[i], fieldId, e)
  {
    seq(|rows|, i requires 0 <= i < |rows| => CalculatedRow(rows[i], fieldId, e))
  }

  /** The output of a node over the outputs of the nodes before it, or nothing when the engine refuses the node. */
  function RunNode(n: Node, done: map<string, Table>, sources: map<string, Table>): Option<Table> {
    if !(Inputs(n) <= done.Keys) then None
    else match n
      case Source(_, datasetId) => if datasetId in sources then Some(sources[datasetId]) else None
      case Filter(_, input, e) =>
        var t := done[input];
        if !(Refs(e) <= t.fields) || exists r <- t.rows :: !Decides(e, r) then None
        else Some(t.(rows := KeptRows(t.rows, e, |t.rows|)))
      case Calculate(_, input, fieldId, e) =>
        var t := done[input];
        if fieldId in t.fields || !(Refs(e) <= t.fields) || exists r <- t.rows :: Eval(e, r).None? then None
        else Some(Table(t.fields + {fieldId}, CalculatedRows(t.rows, fieldId, e)))
      case Append(_, inputs, mappings) =>
        if |inputs| != 2 || inputs[0] == inputs[1] || mappings.Keys != {inputs[0], inputs[1]} then None
        else
          var a, b := done[inputs[0]], done[inputs[1]];
          if !CanMap(a, mappings[inputs[0]]) || !CanMap(b, mappings[inputs[1]]) then None
          else Some(Appended(a, mappings[inputs[0]], b, mappings[inputs[1]]))
  }

  /** The outputs of a graph whose nodes each come after their inputs. */
  function RunGraph(nodes: seq<Node>, sources: map<string, Table>): Option<map<string, Table>> {
    if nodes == [] then Some(map[])
    else
      var done, n := RunGraph(nodes[..|nodes| - 1], sources), nodes[|nodes| - 1];
      if done.None? || n.id in done.value || RunNode(n, done.value, sources).None? then None
      else Some(done.value[n.id := RunNode(n, done.value, sources).value])
  }

  lemma RunOneMore(nodes: seq<Node>, n: Node, sources: map<string, Table>)
    ensures var done := RunGraph(nodes, sources);
      RunGraph(nodes + [n], sources) ==
        if done.None? || n.id in done.value || RunNode(n, done.value, sources).None? then None
        else Some(done.value[n.id := RunNode(n, done.value, sources).value])
  {
    assert (nodes + [n])[..|nodes|] == nodes;
  }

  lemma StepAdds(nodes: seq<Node>, done: map<string, Table>, n: Node, out: Table, sources: map<string, Table>)
    requires RunGraph(nodes, sources) == Some(done) && n.id !in done && RunNode(n, done, sources) == Some(out)
    ensures RunGraph(nodes + [n], sources) == Some(done[n.id := out])
  {
    RunOneMore(nodes, n, sources);
  }

  /** Every input of a node is the id of an earlier node, and no two nodes share an id. */
  ghost predicate GraphResolves(nodes: seq<Node>) {
    && (forall i, j :: 0 <= i < j < |nodes| ==> nodes[i].id != nodes[j].id)
    && (forall j, input :: 0 <= j < |nodes| && input in Inputs(nodes[j]) ==> exists i :: 0 <= i < j && nodes[i].id == input)
  }

  // ---- Measures ----

  datatype Output = ValueOf | PercentChange

  datatype Measure =
    | Sum(id: string, fieldId: string, condition: Expr)
    | DistinctDays(id: string, fieldId: string, condition: Expr)
    | Formula(id: string, e: Expr)
    | RangeOffset(id: string, base: string, output: Output)

  function References(m: Measure): set<string> {
    match m
    case Formula(_, e) => Refs(e)
    case RangeOffset(_, base, _) => {base}
    case _ => {}
  }

  /** An inclusive range of dates, and the number of days a range offset shifts by. */
  datatype Span = Span(from: int, to: int, shift: int)

  /** The span one range earlier. */
  function Shifted(s: Span): Span { Span(s.from - s.shift, s.to - s.shift, s.shift) }

  predicate InSpan(row: Row, dateField: string, s: Span) {
    dateField in row && row[dateField].Date? && s.from <= row[dateField].day <= s.to
  }

  /** The sum of the present values among the first `n`, or nothing without one. */
  function Total(values: seq<Option<real>>, n: nat): Option<real>
    requires n <= |values|
  {
    if n == 0 then None else Plus(Total(values, n - 1), values[n - 1])
  }

  function Plus(a: Option<real>, b: Option<real>): Option<real> {
    if a.None? then b else if b.None? then a else Some(a.value + b.value)
  }

  /** A row's part of a filtered sum. */
  function Part(row: Row, dateField: string, s: Span, fieldId: string, condition: Expr): Option<real> {
    if InSpan(row, dateField, s) && IsTrue(condition, row) && fieldId in row && row[fieldId].Num? then Some(row[fieldId].num)
    else None
  }

  function Parts(rows: seq<Row>, dateField: string, s: Span, fieldId: string, condition: Expr): (parts: seq<Option<real>>)
    ensures |parts| == |rows|
    ensures forall i :: 0 <= i < |rows| ==> parts[i] == Part(rows[i], dateField, s, fieldId, condition)
  {
    seq(|rows|, i requires 0 <= i < |rows| => Part(rows[i], dateField, s, fieldId, condition))
  }

  function CellOf(v: Option<real>): Cell { if v.Some? then Num(v.value) else Null }

  function DayOf(row: Row, dateField: string): int
    requires dateField in row && row[dateField].Date?
  {
    row[dateField].day
  }

  /** The dates of the rows that a filtered distinct count sees. */
  function DaysOf(rows: seq<Row>, dateField: string, s: Span, condition: Expr): set<int> {
    set r: Row | r in rows && InSpan(r, dateField, s) && IsTrue(condition, r) :: DayOf(r, dateField)
  }

  /** Current minus previous over the size of previous; null without both or against zero. */
  function Change(current: Cell, previous: Cell): Option<Cell> {
    if !(current.Num? || current.Null?) || !(previous.Num? || previous.Null?) then None
    else if current.Null? || previous.Null? || previous.num == 0.0 then Some(Null)
    else Some(Num((current.num - previous.num) / (if previous.num < 0.0 then -previous.num else previous.num)))
  }

  /** A measure over its references in the span, and those one range earlier. */
  function MeasureValue(m: Measure, t: Table, dateField: string, s: Span, here: Row, earlier: Row): Option<Cell> {
    if !(References(m) <= here.Keys) || !(References(m) <= earlier.Keys) then None
    else match m
      case Sum(_, fieldId, e) =>
        if fieldId !in t.fields || !(Refs(e) <= t.fields) || exists r <- t.rows :: !Decides(e, r) then None
        else Some(CellOf(Total(Parts(t.rows, dateField, s, fieldId, e), |t.rows|)))
      case DistinctDays(_, fieldId, e) =>
        if fieldId != dateField || !(Refs(e) <= t.fields) || exists r <- t.rows :: !Decides(e, r) then None
        else Some(Num(|DaysOf(t.rows, dateField, s, e)| as real))
      case Formula(_, e) => Eval(e, here)
      case RangeOffset(_, base, output) =>
        if output.ValueOf? then Some(earlier[base]) else Change(here[base], earlier[base])
  }

  /** The values of measures that each come after their references. */
  function Values(ms: seq<Measure>, t: Table, dateField: string, s: Span): Option<Row>
    decreases |ms|
  {
    if ms == [] then Some(map[])
    else
      var init, m := ms[..|ms| - 1], ms[|ms| - 1];
      var here, earlier := Values(init, t, dateField, s), Values(init, t, dateField, Shifted(s));
      if here.None? || earlier.None? || m.id in here.value then None
      else
        var v := MeasureValue(m, t, dateField, s, here.value, earlier.value);
        if v.None? then None else Some(here.value[m.id := v.value])
  }

  lemma OneMoreMeasure(ms: seq<Measure>, m: Measure, t: Table, dateField: string, s: Span, here: Row, earlier: Row)
    requires Values(ms, t, dateField, s) == Some(here) && Values(ms, t, dateField, Shifted(s)) == Some(earlier)
    requires m.id !in here && MeasureValue(m, t, dateField, s, here, earlier).Some?
    ensures Values(ms + [m], t, dateField, s)
         == Some(here[m.id := MeasureValue(m, t, dateField, s, here, earlier).value])
  {
    assert (ms + [m])[..|ms|] == ms;
  }

  /** Every reference of a measure is the id of an earlier one, and no two share an id. */
  ghost predicate ModelResolves(ms: seq<Measure>) {
    && (forall i, j :: 0 <= i < j < |ms| ==> ms[i].id != ms[j].id)
    && (forall j, id :: 0 <= j < |ms| && id in References(ms[j]) ==> exists i :: 0 <= i < j && ms[i].id == id)
  }
}
