/** When a schema version may follow another, and what that means for rows written under earlier versions. */
module DatasetSchemas {
  import opened Common
  import opened DatasetTypes
  import opened Digits
  import opened RecordKeys
  import opened Timestamps

  /** Fields both versions have keep their classification and retention. */
  predicate KeepsPolicy(before: Definition, after: Definition) {
    && before.retentionDays == after.retentionDays
    && forall f <- before.fields :: HasField(after, f.id) ==>
         var next := FieldOf(after, f.id); f.classification == next.classification && f.retention == next.retention
  }

  /** A later field can hold what an earlier one of its id held. */
  predicate Widens(was: Field, next: Field) {
    && next.kind == was.kind && next.unit == was.unit && next.scale == was.scale
    && next.currencyField == was.currencyField && (next.nullable || !was.nullable)
  }

  /** Rows of the earlier version can be carried into the later one. */
  predicate Carries(before: Definition, after: Definition) {
    && before.keyFields == after.keyFields && before.mode == after.mode
    && before.reportingField == after.reportingField && before.reportingTimeZone == after.reportingTimeZone
    && (forall f <- before.fields :: HasField(after, f.id) && Widens(f, FieldOf(after, f.id)))
    && (forall f <- after.fields :: HasField(before, f.id) || f.nullable)
  }

  predicate Compatible(before: Definition, after: Definition) {
    KeepsPolicy(before, after) && (after.mode.Snapshot? || Carries(before, after))
  }

  // ---- Chains ----

  lemma CarriesIsTransitive(a: Definition, b: Definition, c: Definition)
    requires ValidDefinition(a) && ValidDefinition(b) && ValidDefinition(c)
    requires Carries(a, b) && Carries(b, c)
    ensures Carries(a, c)
  {
    forall f | f in a.fields ensures HasField(c, f.id) && Widens(f, FieldOf(c, f.id)) {
      var g := FieldOf(b, f.id);
      assert Widens(f, g) && Widens(g, FieldOf(c, g.id));
    }
    forall f | f in c.fields ensures HasField(a, f.id) || f.nullable {
      FieldIsFound(c, f);
      if HasField(b, f.id) {
        var g := FieldOf(b, f.id);
        assert Widens(g, FieldOf(c, g.id)) && (HasField(a, g.id) || g.nullable);
      }
    }
  }

  lemma PolicyIsTransitive(a: Definition, b: Definition, c: Definition)
    requires KeepsPolicy(a, b) && KeepsPolicy(b, c) && Carries(a, b)
    ensures KeepsPolicy(a, c)
  {
    forall f | f in a.fields && HasField(c, f.id)
      ensures f.classification == FieldOf(c, f.id).classification && f.retention == FieldOf(c, f.id).retention
    {
      var g := FieldOf(b, f.id);
      assert g in b.fields && g.id == f.id;
    }
  }

  predicate Succeeds(versions: seq<Definition>, i: nat)
    requires 0 < i < |versions|
  {
    versions[i - 1].version < versions[i].version && Compatible(versions[i - 1], versions[i])
  }

  /** Each version is valid, newer than the one before it, and compatible with it. */
  ghost predicate IsChain(versions: seq<Definition>) {
    && (forall v <- versions :: ValidDefinition(v))
    && (forall i: nat :: 0 < i < |versions| ==> Succeeds(versions, i))
  }

  /**
   * Compatibility is transitive along every chain that ends in a version that is not a snapshot, whether or not the
   * versions in between were ever published.
   */
  lemma {:induction false} ChainIsCompatible(versions: seq<Definition>, i: nat, j: nat)
    requires IsChain(versions) && i < j < |versions| && !versions[j].mode.Snapshot?
    ensures Carries(versions[i], versions[j]) && Compatible(versions[i], versions[j])
    decreases j
  {
    var first, middle, last := versions[i], versions[j - 1], versions[j];
    assert Succeeds(versions, j);
    if i < j - 1 {
      ChainIsCompatible(versions, i, j - 1);
      CarriesIsTransitive(first, middle, last);
      PolicyIsTransitive(first, middle, last);
    }
  }

  lemma {:induction false} ChainVersionsGrow(versions: seq<Definition>, i: nat, j: nat)
    requires IsChain(versions) && i <= j < |versions|
    ensures versions[i].version <= versions[j].version && (i < j ==> versions[i].version < versions[j].version)
    decreases j
  {
    if i < j {
      ChainVersionsGrow(versions, i, j - 1);
      assert Succeeds(versions, j);
    }
  }

  function TextField(id: string, classification: Classification, retention: Retention): Field {
    Field(id, id, StringField, false, classification, retention, None, None, None)
  }

  function SnapshotOf(version: int, fields: seq<Field>): Definition
    requires |fields| > 0
  {
    Definition("d", "d", version, fields, [fields[0].id], "row", Snapshot, None, None, Some(30))
  }

  lemma OneField(k: Field)
    ensures FieldIndex([k], k.id) == 0
    ensures forall id :: id != k.id ==> FieldIndex([k], id) == 1
  {
    assert [k][1..] == [];
  }

  lemma TwoFields(k: Field, f: Field)
    requires k.id != f.id
    ensures FieldIndex([k, f], k.id) == 0 && FieldIndex([k, f], f.id) == 1
  {
    assert [k, f][1..] == [f];
    OneField(f);
  }

  lemma SnapshotIsValid(version: int, fields: seq<Field>)
    requires version > 0 && 1 <= |fields| <= 2 && (|fields| == 2 ==> fields[0].id != fields[1].id)
    requires forall f <- fields :: f == TextField(f.id, f.classification, f.retention)
    requires forall f <- fields :: !f.retention.Days? && (f.classification.Personal? ==> f.retention.Keep?)
    ensures ValidDefinition(SnapshotOf(version, fields))
  {
    assert FieldIndex(fields, fields[0].id) == 0;
  }

  lemma DroppedField(k: Field, f: Field)
    requires k == TextField(k.id, Internal, Inherit) && k.id != f.id && f == TextField(f.id, f.classification, f.retention)
    ensures Compatible(SnapshotOf(1, [k, f]), SnapshotOf(2, [k]))
  {
    OneField(k);
    TwoFields(k, f);
  }

  lemma ReturnedField(k: Field, g: Field)
    requires k == TextField(k.id, Internal, Inherit) && k.id != g.id && g == TextField(g.id, g.classification, g.retention)
    ensures Compatible(SnapshotOf(2, [k]), SnapshotOf(3, [k, g]))
  {
    OneField(k);
    TwoFields(k, g);
  }

  lemma ChangedField(k: Field, f: Field, g: Field)
    requires k.id != f.id && f.id == g.id && f.classification != g.classification
    ensures !Compatible(SnapshotOf(1, [k, f]), SnapshotOf(3, [k, g]))
  {
    var a, c := SnapshotOf(1, [k, f]), SnapshotOf(3, [k, g]);
    TwoFields(k, g);
    assert f in a.fields && HasField(c, f.id) && FieldOf(c, f.id) == g;
  }

  lemma ThreeVersions(a: Definition, b: Definition, c: Definition)
    requires ValidDefinition(a) && ValidDefinition(b) && ValidDefinition(c) && a.version < b.version < c.version
    requires Compatible(a, b) && Compatible(b, c)
    ensures IsChain([a, b, c])
  {
    assert Succeeds([a, b, c], 1) && Succeeds([a, b, c], 2);
  }

  /** Through a snapshot it is not: a field can be dropped and come back with another classification. */
  lemma SnapshotChainsForget(k: Field, f: Field, g: Field)
    requires k == TextField(k.id, Internal, Inherit) && k.id != f.id
    requires f == TextField(f.id, Public, Inherit) && g == TextField(f.id, Personal, Keep)
    ensures IsChain([SnapshotOf(1, [k, f]), SnapshotOf(2, [k]), SnapshotOf(3, [k, g])])
    ensures !Compatible(SnapshotOf(1, [k, f]), SnapshotOf(3, [k, g]))
  {
    SnapshotIsValid(1, [k, f]);
    SnapshotIsValid(2, [k]);
    SnapshotIsValid(3, [k, g]);
    DroppedField(k, f);
    ReturnedField(k, g);
    ThreeVersions(SnapshotOf(1, [k, f]), SnapshotOf(2, [k]), SnapshotOf(3, [k, g]));
    ChangedField(k, f, g);
  }

  /** The ends of every chain that ends in the mode are compatible. */
  ghost predicate ChainsRemember(m: Mode) {
    forall versions: seq<Definition>, i: nat, j: nat ::
      IsChain(versions) && i < j < |versions| && versions[j].mode == m ==> Compatible(versions[i], versions[j])
  }

  /** Compatibility is transitive along the chains that end in a mode exactly when that mode is not a snapshot. */
  lemma CompatibleAlongChainsIff(m: Mode)
    ensures ChainsRemember(m) <==> !m.Snapshot?
  {
    if m.Snapshot? {
      var k, f, g := TextField("k", Internal, Inherit), TextField("f", Public, Inherit), TextField("f", Personal, Keep);
      var versions := [SnapshotOf(1, [k, f]), SnapshotOf(2, [k]), SnapshotOf(3, [k, g])];
      SnapshotChainsForget(k, f, g);
      assert IsChain(versions) && versions[2].mode == m && !Compatible(versions[0], versions[2]);
    } else {
      forall versions: seq<Definition>, i: nat, j: nat | IsChain(versions) && i < j < |versions| && versions[j].mode == m
        ensures Compatible(versions[i], versions[j])
      {
        ChainIsCompatible(versions, i, j);
      }
    }
  }

  // ---- Rows carried over ----

  /** Missing fields that may be null become null. */
  function NullFilled(values: Values, d: Definition): Values {
    map id <- values.Keys + (set f <- d.fields | f.nullable :: f.id) :: if id in values then values[id] else Null
  }

  lemma WiderFieldHolds(was: Field, next: Field, v: Value)
    requires Widens(was, next) && ValidValue(was, v)
    ensures ValidValue(next, v)
  {
  }

  lemma CarriedFieldIds(before: Definition, after: Definition, values: Values)
    requires ValidDefinition(before) && ValidDefinition(after) && Carries(before, after) && RowFits(before, values)
    ensures NullFilled(values, after).Keys == FieldIds(after)
  {
    forall id ensures id in NullFilled(values, after) <==> id in FieldIds(after) {
      FieldIdsAreFields(before, id);
      FieldIdsAreFields(after, id);
      if HasField(after, id) { assert HasField(before, id) || FieldOf(after, id).nullable; }
      if HasField(before, id) { assert HasField(after, FieldOf(before, id).id); }
    }
  }

  lemma CarriedValueFits(before: Definition, after: Definition, values: Values, id: string)
    requires ValidDefinition(before) && ValidDefinition(after) && Carries(before, after) && RowFits(before, values)
    requires id in NullFilled(values, after) && HasField(after, id)
    ensures ValidValue(FieldOf(after, id), NullFilled(values, after)[id])
  {
    if id in values {
      assert Widens(FieldOf(before, id), FieldOf(after, FieldOf(before, id).id));
      WiderFieldHolds(FieldOf(before, id), FieldOf(after, id), values[id]);
    } else {
      var f :| f in after.fields && f.nullable && f.id == id;
      FieldIsFound(after, f);
    }
  }

  lemma CarriedValuesFit(before: Definition, after: Definition, values: Values)
    requires ValidDefinition(before) && ValidDefinition(after) && Carries(before, after) && RowFits(before, values)
    ensures RowFits(after, NullFilled(values, after))
  {
    var filled := NullFilled(values, after);
    CarriedFieldIds(before, after, values);
    forall id | id in filled ensures HasField(after, id) && ValidValue(FieldOf(after, id), filled[id]) {
      FieldIdsAreFields(after, id);
      CarriedValueFits(before, after, values, id);
    }
  }

  /** A key field has the same canonical value under both versions. */
  lemma CarriedCell(before: Definition, after: Definition, values: Values, id: string)
    requires Carries(before, after) && HasField(before, id) && id in values
    ensures Cell(after, NullFilled(values, after), id) == Cell(before, values, id)
  {
    assert Widens(FieldOf(before, id), FieldOf(after, FieldOf(before, id).id));
  }

  lemma CarriedKey(before: Definition, after: Definition, values: Values)
    requires Carries(before, after) && forall id <- before.keyFields :: HasField(before, id) && id in values
    ensures RecordKey(after, NullFilled(values, after)) == RecordKey(before, values)
  {
    var filled := NullFilled(values, after);
    forall i | 0 <= i < |before.keyFields| ensures RecordKey(after, filled)[i] == RecordKey(before, values)[i] {
      assert before.keyFields[i] in before.keyFields;
      CarriedCell(before, after, values, before.keyFields[i]);
    }
  }

  lemma KeyFieldsAreThere(d: Definition, values: Values)
    requires ValidDefinition(d) && RowFits(d, values)
    ensures forall id <- d.keyFields :: HasField(d, id) && id in values
  {
    forall id | id in d.keyFields ensures HasField(d, id) && id in values {
      KeyFieldIsThere(d, values, id);
    }
  }

  /** A row of an earlier version, null-filled, fits the later version and keeps its key. */
  lemma CarriedRowFits(before: Definition, after: Definition, values: Values)
    requires ValidDefinition(before) && ValidDefinition(after) && Carries(before, after) && RowFits(before, values)
    ensures RowFits(after, NullFilled(values, after))
    ensures RecordKey(after, NullFilled(values, after)) == RecordKey(before, values)
  {
    CarriedValuesFit(before, after, values);
    KeyFieldsAreThere(before, values);
    CarriedKey(before, after, values);
  }

  lemma KeyFieldIsThere(d: Definition, values: Values, id: string)
    requires ValidDefinition(d) && RowFits(d, values) && id in d.keyFields
    ensures HasField(d, id) && id in values
  {
    FieldIdsAreFields(d, id);
  }

  // ---- Which versions may follow ----

  /** A value for each type of field. */
  lemma SomeValue(f: Field) returns (v: Value)
    ensures ValidValue(f, v) && v != Null
  {
    match f.kind
    case StringField => v := Text("");
    case BooleanField => v := Flag(true);
    case IntegerField => v := Num(0.0);
    case NumberField => v := Num(0.0);
    case DecimalField =>
      ZeroIsADecimal();
      v := Text("0");
    case DateField =>
      NewYearIsADate();
      v := Text("2024-01-01");
    case TimestampField =>
      NewYearIsADate();
      v := Text(Stamp("2024-01-01", "00", "00", None, "").Text());
      StampReadsBack(Stamp("2024-01-01", "00", "00", None, ""));
    case JsonField => v := Structured("");
  }

  lemma ZeroIsADecimal()
    ensures IsDecimal("0") && Whole("0") == "0" && Fraction("0") == ""
  {
    assert Unsigned("0") == "0" && PointAt("0") == 1;
  }

  /** Null, where the field may be null. */
  ghost predicate IsSparse(d: Definition, id: string, v: Value) {
    HasField(d, id) && ValidValue(FieldOf(d, id), v) && (v == Null <==> FieldOf(d, id).nullable)
  }

  lemma SparseValue(d: Definition, id: string) returns (v: Value)
    requires id in FieldIds(d)
    ensures IsSparse(d, id, v)
  {
    FieldIdsAreFields(d, id);
    v := SomeValue(FieldOf(d, id));
    if FieldOf(d, id).nullable { v := Null; }
  }

  /** A row that has null wherever it may. */
  lemma {:induction false} SparsestRow(d: Definition, ids: set<string>) returns (values: Values)
    requires ids <= FieldIds(d)
    ensures values.Keys == ids && forall id <- ids :: IsSparse(d, id, values[id])
  {
    if ids == {} { values := map[]; } else {
      var id :| id in ids;
      values := SparsestRow(d, ids - {id});
      var v := SparseValue(d, id);
      values := values[id := v];
    }
  }

  /** Every row of the earlier version, null-filled, is a row of the later one. */
  ghost predicate RowsCarryOver(before: Definition, after: Definition) {
    forall values: Values :: RowFits(before, values) ==> RowFits(after, NullFilled(values, after))
  }

  /** What names and orders rows is the same, and every field keeps what its values mean. */
  ghost predicate KeepsMeaning(before: Definition, after: Definition) {
    && after.keyFields == before.keyFields && after.mode == before.mode
    && after.reportingField == before.reportingField && after.reportingTimeZone == before.reportingTimeZone
    && forall f <- before.fields :: exists g <- after.fields ::
         g.id == f.id && g.kind == f.kind && g.unit == f.unit && g.scale == f.scale && g.currencyField == f.currencyField
  }

  /** The dataset's retention, and the policy of every field in both versions, are the same. */
  ghost predicate SamePolicy(before: Definition, after: Definition) {
    && after.retentionDays == before.retentionDays
    && forall f <- before.fields, g <- after.fields :: f.id == g.id ==>
         f.classification == g.classification && f.retention == g.retention
  }

  lemma SamePolicyIff(before: Definition, after: Definition)
    requires ValidDefinition(before) && ValidDefinition(after)
    ensures KeepsPolicy(before, after) <==> SamePolicy(before, after)
  {
    forall g | g in after.fields ensures HasField(after, g.id) && FieldOf(after, g.id) == g {
      FieldIsFound(after, g);
    }
  }

  lemma CarriesKeepsMeaning(before: Definition, after: Definition)
    requires Carries(before, after)
    ensures KeepsMeaning(before, after)
  {
    forall f | f in before.fields
      ensures exists g <- after.fields ::
        g.id == f.id && g.kind == f.kind && g.unit == f.unit && g.scale == f.scale && g.currencyField == f.currencyField
    {
      assert HasField(after, f.id) && Widens(f, FieldOf(after, f.id));
      assert FieldOf(after, f.id) in after.fields;
    }
  }

  /** When rows carry over, a field stays nullable and a new one is. */
  lemma CarryOverWidens(before: Definition, after: Definition)
    requires ValidDefinition(before) && ValidDefinition(after) && RowsCarryOver(before, after)
    ensures forall f <- before.fields :: HasField(after, f.id) && (f.nullable ==> FieldOf(after, f.id).nullable)
    ensures forall g <- after.fields :: HasField(before, g.id) || g.nullable
  {
    var values := SparsestRow(before, FieldIds(before));
    var filled := NullFilled(values, after);
    forall id | id in values ensures HasField(before, id) && ValidValue(FieldOf(before, id), values[id]) {
      assert IsSparse(before, id, values[id]);
    }
    assert RowFits(before, values) && RowFits(after, filled);
    forall f | f in before.fields ensures HasField(after, f.id) && (f.nullable ==> FieldOf(after, f.id).nullable) {
      FieldIsFound(before, f);
      assert IsSparse(before, f.id, values[f.id]) && f.id in filled && filled[f.id] == values[f.id];
    }
    forall g | g in after.fields ensures HasField(before, g.id) || g.nullable {
      assert g.id in FieldIds(after) && g.id in filled;
      FieldIdsAreFields(before, g.id);
      if g.id !in values {
        var f :| f in after.fields && f.nullable && f.id == g.id;
        FieldIsFound(after, f);
        FieldIsFound(after, g);
      }
    }
  }

  lemma CarryOverIsWidening(before: Definition, after: Definition)
    requires ValidDefinition(before) && ValidDefinition(after) && RowsCarryOver(before, after) && KeepsMeaning(before, after)
    ensures Carries(before, after)
  {
    CarryOverWidens(before, after);
    forall f | f in before.fields ensures HasField(after, f.id) && Widens(f, FieldOf(after, f.id)) {
      var g :| g in after.fields
        && g.id == f.id && g.kind == f.kind && g.unit == f.unit && g.scale == f.scale && g.currencyField == f.currencyField;
      FieldIsFound(after, g);
    }
  }

  /** Of versions whose fields keep their meaning, one may follow the other exactly when its rows carry over. */
  lemma CarriesIff(before: Definition, after: Definition)
    requires ValidDefinition(before) && ValidDefinition(after)
    ensures Carries(before, after) <==> KeepsMeaning(before, after) && RowsCarryOver(before, after)
  {
    if Carries(before, after) {
      CarriesKeepsMeaning(before, after);
      forall values: Values | RowFits(before, values) ensures RowFits(after, NullFilled(values, after)) {
        CarriedRowFits(before, after, values);
      }
    }
    if KeepsMeaning(before, after) && RowsCarryOver(before, after) { CarryOverIsWidening(before, after); }
  }

  /** A version may follow another exactly when policies are kept and, but for a snapshot, rows carry over unchanged. */
  lemma CompatibleIff(before: Definition, after: Definition)
    requires ValidDefinition(before) && ValidDefinition(after)
    ensures Compatible(before, after) <==>
      && SamePolicy(before, after)
      && (after.mode == Snapshot || (KeepsMeaning(before, after) && RowsCarryOver(before, after)))
  {
    SamePolicyIff(before, after);
    CarriesIff(before, after);
  }
}
