/** Source dataset definitions, pages and records: which are valid, and when two records have the same key. */
module DatasetTypes {
  import opened Common
  import opened Digits
  import opened RecordKeys
  import opened Timestamps

  const MAX_SAFE := 9_007_199_254_740_991
  const PAGE_ROWS := 1_000

  datatype FieldType = StringField | BooleanField | IntegerField | NumberField | DecimalField | DateField | TimestampField
                     | JsonField

  datatype Classification = Public | Internal | Personal

  /** A field's own retention: that of its dataset, until deleted, or so many days. */
  datatype Retention = Inherit | Keep | Days(days: int)

  datatype Field = Field(id: string, name: string, kind: FieldType, nullable: bool, classification: Classification,
                         retention: Retention, unit: Option<string>, currencyField: Option<string>, scale: Option<nat>)

  datatype Mode = Upsert | Append | ReplaceWindow | Snapshot

  datatype Definition = Definition(key: string, name: string, version: int, fields: seq<Field>, keyFields: seq<string>,
                                   grain: string, mode: Mode, reportingField: Option<string>,
                                   reportingTimeZone: Option<string>, retentionDays: Option<int>)

  /** A JSON value; structured ones are compared whole. */
  datatype Value = Null | Flag(flag: bool) | Num(num: real) | Text(text: string) | Structured(json: string)

  type Values = map<string, Value>

  datatype Record = Record(values: Values, deleted: Option<bool>)

  datatype Window = Window(from: string, toExclusive: string, partition: Values)

  datatype Page = Page(datasetKey: string, schemaVersion: int, refreshKey: string, pageKey: string,
                       previousPageKey: Option<string>, staging: Option<(string, string)>, records: seq<Record>,
                       complete: bool, window: Option<Window>)

  // ---- Fields ----

  /** The position of a field, or the number of fields when there is none. */
  function FieldIndex(fields: seq<Field>, id: string): (i: nat)
    ensures i <= |fields| && (i < |fields| ==> fields[i].id == id)
    ensures forall k :: 0 <= k < i ==> fields[k].id != id
  {
    if fields == [] || fields[0].id == id then 0 else 1 + FieldIndex(fields[1..], id)
  }

  predicate HasField(d: Definition, id: string) { FieldIndex(d.fields, id) < |d.fields| }

  function FieldOf(d: Definition, id: string): (f: Field)
    requires HasField(d, id)
    ensures f in d.fields && f.id == id
  {
    d.fields[FieldIndex(d.fields, id)]
  }

  function FieldIds(d: Definition): set<string> { set f <- d.fields :: f.id }

  lemma FieldIdsAreFields(d: Definition, id: string)
    ensures id in FieldIds(d) <==> HasField(d, id)
  {
  }

  /** With unique ids a field is the one found under its id. */
  lemma FieldIsFound(d: Definition, f: Field)
    requires ValidDefinition(d) && f in d.fields
    ensures HasField(d, f.id) && FieldOf(d, f.id) == f
  {
    var k :| 0 <= k < |d.fields| && d.fields[k] == f;
    var i := FieldIndex(d.fields, f.id);
    assert i <= k;
    assert i == k;
  }

  // ---- Definitions ----

  predicate ScalarKey(f: Field) { !f.nullable && !f.kind.JsonField? }

  predicate IsExact(f: Field) { f.kind.DecimalField? || f.kind.IntegerField? }

  /** Money has exact values and a non-null text field for its currency. */
  predicate MoneyIsExact(d: Definition, f: Field) {
    f.currencyField.Some? || f.unit == Some("currency") || f.unit == Some("currency_minor") ==>
      && IsExact(f) && f.currencyField.Some? && HasField(d, f.currencyField.value)
      && var c := FieldOf(d, f.currencyField.value); c.kind.StringField? && !c.nullable
  }

  predicate ValidField(d: Definition, f: Field) {
    && MoneyIsExact(d, f)
    && (f.scale.Some? ==> IsExact(f) && f.scale.value <= 18)
    && (f.classification.Personal? ==> !f.retention.Inherit?)
    && (f.retention.Days? ==> 0 < f.retention.days <= MAX_SAFE)
  }

  predicate ValidDefinition(d: Definition) {
    && d.version > 0 && 1 <= |d.fields| <= 100 && 1 <= |d.keyFields| <= 10
    && (forall i, j :: 0 <= i < j < |d.fields| ==> d.fields[i].id != d.fields[j].id)
    && (forall i, j :: 0 <= i < j < |d.keyFields| ==> d.keyFields[i] != d.keyFields[j])
    && (forall k <- d.keyFields :: HasField(d, k) && ScalarKey(FieldOf(d, k)))
    && (d.reportingField.Some? ==>
          && HasField(d, d.reportingField.value)
          && var f := FieldOf(d, d.reportingField.value); !f.nullable && (f.kind.DateField? || f.kind.TimestampField?))
    && (d.mode.ReplaceWindow? ==> d.reportingField.Some?)
    && (forall f <- d.fields :: ValidField(d, f))
    && (d.retentionDays.Some? ==> 1 <= d.retentionDays.value <= MAX_SAFE)
  }

  /** The shortest retention of the dataset and its fields. */
  function ShortestRetention(fields: seq<Field>, days: Option<int>): (r: Option<int>)
    ensures r.Some? <==> days.Some? || exists f <- fields :: f.retention.Days?
    ensures r.Some? && days.Some? ==> r.value <= days.value
    ensures forall f <- fields :: f.retention.Days? ==> r.Some? && r.value <= f.retention.days
    ensures r.Some? ==> r == days || exists f <- fields :: f.retention.Days? && f.retention.days == r.value
  {
    if fields == [] then days
    else
      var rest, f := ShortestRetention(fields[1..], days), fields[0];
      assert fields == [f] + fields[1..];
      if f.retention.Days? && (rest.None? || f.retention.days < rest.value) then Some(f.retention.days) else rest
  }

  function DatasetRetentionDays(d: Definition): Option<int> { ShortestRetention(d.fields, d.retentionDays) }

  // ---- Values ----

  predicate IsInteger(x: real) { x == x.Floor as real && -(MAX_SAFE as real) <= x <= MAX_SAFE as real }

  /** A decimal of at most 38 digits, with no more fraction digits than the scale. */
  predicate FitsDecimal(s: string, scale: Option<nat>) {
    IsDecimal(s) && |Whole(s)| + |Fraction(s)| <= 38 && |Fraction(s)| <= (if scale.Some? then scale.value else 18)
  }

  predicate ValidValue(f: Field, v: Value) {
    if v.Null? then f.nullable
    else match f.kind
      case StringField => v.Text?
      case BooleanField => v.Flag?
      case IntegerField => v.Num? && IsInteger(v.num)
      case NumberField => v.Num?
      case DecimalField => v.Text? && FitsDecimal(v.text, f.scale)
      case DateField => v.Text? && IsDate(v.text)
      case TimestampField => v.Text? && IsTimestamp(v.text)
      case JsonField => true
  }

  // ---- Record keys ----

  function KindOf(d: Definition, id: string): Option<FieldType> {
    if HasField(d, id) then Some(FieldOf(d, id).kind) else None
  }

  /** The canonical form of a value in a key. */
  function Canonical(kind: Option<FieldType>, v: Value): Value {
    if kind == Some(DecimalField) && v.Text? then Text(CanonicalDecimal(v.text))
    else if kind == Some(TimestampField) && v.Text? then Text(TimeKey(v.text))
    else v
  }

  function ValueAt(values: Values, id: string): Value { if id in values then values[id] else Null }

  type Key = seq<(string, Value)>

  function Cell(d: Definition, values: Values, id: string): (string, Value) {
    (id, Canonical(KindOf(d, id), ValueAt(values, id)))
  }

  /** The text of this list is the key the source stores; serialization tells different lists apart. */
  function RecordKey(d: Definition, values: Values): (k: Key)
    ensures |k| == |d.keyFields|
    ensures forall i :: 0 <= i < |k| ==> k[i] == Cell(d, values, d.keyFields[i])
  {
    seq(|d.keyFields|, i requires 0 <= i < |d.keyFields| => Cell(d, values, d.keyFields[i]))
  }

  // ---- Windows ----

  predicate PartitionMatches(d: Definition, values: Values, partition: Values) {
    forall id <- partition :: Cell(d, values, id) == Cell(d, partition, id)
  }

  function TimeOf(d: Definition, text: string): string {
    if d.reportingField.Some? && KindOf(d, d.reportingField.value) == Some(TimestampField) then TimeKey(text) else text
  }

  function TextAt(values: Values, id: string): string {
    var v := ValueAt(values, id);
    if v.Text? then v.text else ""
  }

  /** Inside the half-open reporting interval and the partition. */
  predicate InWindow(d: Definition, values: Values, w: Window) {
    && d.reportingField.Some?
    && var time := TimeOf(d, TextAt(values, d.reportingField.value));
    && !LexLess(time, TimeOf(d, w.from)) && LexLess(time, TimeOf(d, w.toExclusive))
    && PartitionMatches(d, values, w.partition)
  }

  predicate ValidWindow(d: Definition, w: Window)
    requires ValidDefinition(d) && d.reportingField.Some?
  {
    var f := FieldOf(d, d.reportingField.value);
    && ValidValue(f, Text(w.from)) && ValidValue(f, Text(w.toExclusive))
    && LexLess(TimeOf(d, w.from), TimeOf(d, w.toExclusive))
    && forall id <- w.partition ::
         HasField(d, id) && Some(id) != d.reportingField && !FieldOf(d, id).kind.JsonField?
         && ValidValue(FieldOf(d, id), w.partition[id])
  }

  // ---- Pages ----

  predicate IsDeleted(r: Record) { r.deleted == Some(true) }

  predicate RowFits(d: Definition, values: Values) {
    values.Keys == FieldIds(d) && forall id <- values :: HasField(d, id) && ValidValue(FieldOf(d, id), values[id])
  }

  predicate IsCurrency(v: Value) { v.Text? && |v.text| == 3 && forall c <- v.text :: 'A' <= c <= 'Z' }

  predicate ValidRecord(d: Definition, r: Record, window: Option<Window>) {
    if IsDeleted(r) then
      && d.mode.Upsert?
      && r.values.Keys == (set k <- d.keyFields :: k)
      && forall id <- r.values :: HasField(d, id) && ValidValue(FieldOf(d, id), r.values[id])
    else
      && RowFits(d, r.values)
      && (forall f <- d.fields :: f.currencyField.Some? ==> IsCurrency(ValueAt(r.values, f.currencyField.value)))
      && (window.Some? ==> InWindow(d, r.values, window.value))
  }

  predicate ValidPage(d: Definition, p: Page)
    requires ValidDefinition(d)
  {
    && p.datasetKey == d.key && p.schemaVersion == d.version && |p.records| <= PAGE_ROWS
    && (d.mode.ReplaceWindow? <==> p.window.Some?)
    && (p.window.Some? ==> ValidWindow(d, p.window.value))
    && forall r <- p.records :: ValidRecord(d, r, p.window)
  }

  // ---- When keys agree ----

  /** The values denote the same thing: the same rational, the same instant written alike, or the same value. */
  ghost predicate SameMeaning(kind: FieldType, v: Value, w: Value) {
    if kind.DecimalField? && v.Text? && w.Text? && IsPlainDecimal(v.text) && IsPlainDecimal(w.text) then
      SameRational(v.text, w.text)
    else if kind.TimestampField? && v.Text? && w.Text? && IsTimestamp(v.text) && IsTimestamp(w.text) then
      SameStamp(StampOf(v.text), StampOf(w.text))
    else v == w
  }

  lemma DecimalCells(a: string, b: string)
    requires IsDecimal(a) && IsDecimal(b)
    ensures Canonical(Some(DecimalField), Text(a)) == Canonical(Some(DecimalField), Text(b))
      <==> SameMeaning(DecimalField, Text(a), Text(b))
  {
    CanonicalDecimalAgrees(a, b);
  }

  lemma TimestampCanonical(a: string)
    ensures Canonical(Some(TimestampField), Text(a)) == Text(TimeKey(a))
  {
  }

  lemma TimestampMeaning(a: string, b: string)
    requires IsTimestamp(a) && IsTimestamp(b)
    ensures SameMeaning(TimestampField, Text(a), Text(b)) == SameStamp(StampOf(a), StampOf(b))
  {
  }

  lemma TimestampCells(a: string, b: string)
    requires IsTimestamp(a) && IsTimestamp(b)
    ensures Canonical(Some(TimestampField), Text(a)) == Canonical(Some(TimestampField), Text(b))
      <==> SameMeaning(TimestampField, Text(a), Text(b))
  {
    TimestampCanonical(a);
    TimestampCanonical(b);
    TimestampMeaning(a, b);
    TimestampKeysAgree(a, b);
  }

  lemma CellsAgree(f: Field, v: Value, w: Value)
    requires ScalarKey(f) && ValidValue(f, v) && ValidValue(f, w)
    ensures Canonical(Some(f.kind), v) == Canonical(Some(f.kind), w) <==> SameMeaning(f.kind, v, w)
  {
    match f.kind
    case DecimalField => DecimalCells(v.text, w.text);
    case TimestampField => TimestampCells(v.text, w.text);
    case _ =>
  }

  /** The key fields of a row are present and fit. */
  predicate KeyFits(d: Definition, values: Values) {
    forall id <- d.keyFields :: id in values && HasField(d, id) && ValidValue(FieldOf(d, id), values[id])
  }

  /** Two records have the same key exactly when their key fields denote equal values. */
  lemma KeysAgree(d: Definition, v: Values, w: Values)
    requires ValidDefinition(d) && KeyFits(d, v) && KeyFits(d, w)
    ensures RecordKey(d, v) == RecordKey(d, w) <==>
      forall id <- d.keyFields :: SameMeaning(FieldOf(d, id).kind, v[id], w[id])
  {
    forall id | id in d.keyFields ensures Cell(d, v, id) == Cell(d, w, id) <==> SameMeaning(FieldOf(d, id).kind, v[id], w[id]) {
      CellsAgree(FieldOf(d, id), v[id], w[id]);
    }
    forall i | 0 <= i < |d.keyFields| ensures d.keyFields[i] in d.keyFields {
    }
    if RecordKey(d, v) == RecordKey(d, w) {
      forall id | id in d.keyFields ensures Cell(d, v, id) == Cell(d, w, id) {
        var i :| 0 <= i < |d.keyFields| && d.keyFields[i] == id;
        assert RecordKey(d, v)[i] == RecordKey(d, w)[i];
      }
    }
  }

  /** Every record of a valid page, a tombstone too, has a fitting key. */
  lemma RecordsHaveKeys(d: Definition, r: Record, window: Option<Window>)
    requires ValidDefinition(d) && ValidRecord(d, r, window)
    ensures KeyFits(d, r.values)
  {
    forall id | id in d.keyFields ensures id in r.values {
      FieldIdsAreFields(d, id);
      if IsDeleted(r) { assert id in (set k <- d.keyFields :: k); }
    }
  }
}
