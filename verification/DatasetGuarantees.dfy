/** What every record of a valid page guarantees to those who read the dataset. */
module DatasetGuarantees {
  import opened Common
  import opened Digits
  import opened RecordKeys
  import opened Timestamps
  import opened DatasetTypes

  // ---- Money ----

  predicate IsMoney(f: Field) { f.unit in {Some("currency"), Some("currency_minor")} || f.currencyField.Some? }

  /** An exact number: an integer, or a decimal text. */
  predicate IsExactValue(v: Value) { (v.Num? && v.num == v.num.Floor as real) || (v.Text? && IsDecimal(v.text)) }

  predicate IsLetters(c: string) { |c| == 3 && 'A' <= c[0] <= 'Z' && 'A' <= c[1] <= 'Z' && 'A' <= c[2] <= 'Z' }

  /** A field of money is exact and names a text field, never null, for its currency. */
  lemma MoneyFieldIs(d: Definition, f: Field)
    requires ValidDefinition(d) && f in d.fields && IsMoney(f)
    ensures f.kind in {IntegerField, DecimalField} && f.currencyField.Some?
    ensures exists c <- d.fields :: c.id == f.currencyField.value && c.kind == StringField && !c.nullable
  {
    assert ValidField(d, f) && MoneyIsExact(d, f);
    assert FieldOf(d, f.currencyField.value) in d.fields;
  }

  lemma ExactFieldHolds(f: Field, v: Value)
    requires f.kind in {IntegerField, DecimalField} && ValidValue(f, v)
    ensures IsExactValue(v) || (f.nullable && v == Null)
  {
  }

  lemma CurrencyIsLetters(values: Values, id: string)
    requires IsCurrency(ValueAt(values, id))
    ensures id in values && values[id].Text? && IsLetters(values[id].text)
  {
    var v := values[id];
    assert v.text[0] in v.text && v.text[1] in v.text && v.text[2] in v.text;
  }

  lemma RecordNamesCurrency(d: Definition, r: Record, window: Option<Window>, f: Field)
    requires ValidRecord(d, r, window) && r.deleted != Some(true) && f in d.fields && f.currencyField.Some?
    ensures IsCurrency(ValueAt(r.values, f.currencyField.value))
  {
  }

  /** Every amount of money is exact, or missing where it may be, and names its currency. */
  lemma MoneyHasCurrency(d: Definition, r: Record, window: Option<Window>, f: Field)
    requires ValidDefinition(d) && ValidRecord(d, r, window) && r.deleted != Some(true) && f in d.fields && IsMoney(f)
    ensures f.id in r.values && (IsExactValue(r.values[f.id]) || (f.nullable && r.values[f.id] == Null))
    ensures f.currencyField.Some? && f.currencyField.value in r.values
    ensures var c := r.values[f.currencyField.value]; c.Text? && IsLetters(c.text)
  {
    MoneyFieldIs(d, f);
    RowsAreComplete(d, r, window, f.id);
    ExactFieldHolds(f, r.values[f.id]);
    RecordNamesCurrency(d, r, window, f);
    CurrencyIsLetters(r.values, f.currencyField.value);
  }

  // ---- Numbers ----

  /** An integer field holds integers that a double holds exactly. */
  lemma IntegersAreExact(f: Field, v: Value)
    requires f.kind == IntegerField && ValidValue(f, v) && v != Null
    ensures v.Num? && v.num == v.num.Floor as real && -9_007_199_254_740_992 < v.num.Floor < 9_007_199_254_740_992
  {
  }

  /** A decimal field holds decimals of at most 38 digits, no more of them after the point than its scale or 18. */
  lemma DecimalsAreBounded(d: Definition, f: Field, v: Value)
    requires ValidDefinition(d) && f in d.fields && f.kind == DecimalField && ValidValue(f, v) && v != Null
    ensures v.Text? && IsPlainDecimal(v.text) && Units(v.text) < Pow10(38) && -Units(v.text) < Pow10(38)
    ensures |Fraction(v.text)| <= 18 && (f.scale.Some? ==> |Fraction(v.text)| <= f.scale.value)
  {
    assert ValidField(d, f);
    var digits := Whole(v.text) + Fraction(v.text);
    NumberBound(digits);
    Pow10Grows(|digits|, 38);
  }

  lemma {:induction false} Pow10Grows(a: nat, b: nat)
    requires a <= b
    ensures Pow10(a) <= Pow10(b)
    decreases b
  {
    if a < b { Pow10Grows(a, b - 1); }
  }

  // ---- Keys and reporting time ----

  /** No key field of any record, a tombstone included, is missing, null or structured, and each is named once. */
  lemma KeyValuesAreScalar(d: Definition, r: Record, window: Option<Window>)
    requires ValidDefinition(d) && ValidRecord(d, r, window)
    ensures d.keyFields != []
    ensures forall id <- d.keyFields :: id in r.values && (r.values[id].Flag? || r.values[id].Num? || r.values[id].Text?)
    ensures forall i, j :: 0 <= i < j < |d.keyFields| ==> RecordKey(d, r.values)[i].0 != RecordKey(d, r.values)[j].0
  {
    RecordsHaveKeys(d, r, window);
    forall id | id in d.keyFields ensures r.values[id].Flag? || r.values[id].Num? || r.values[id].Text? {
      assert HasField(d, id) && ScalarKey(FieldOf(d, id)) && ValidValue(FieldOf(d, id), r.values[id]);
    }
  }

  /** A tombstone is a key and nothing else, and only an upsert has one. */
  lemma TombstoneIsAKey(d: Definition, r: Record, window: Option<Window>)
    requires ValidDefinition(d) && ValidRecord(d, r, window) && r.deleted == Some(true)
    ensures d.mode == Upsert && forall id :: id in r.values <==> id in d.keyFields
  {
    assert forall id :: id in r.values <==> id in (set k <- d.keyFields :: k);
  }

  /** Where rows are reported by time, every row has one: a date, or a UTC timestamp. */
  lemma RowsHaveTime(d: Definition, r: Record, window: Option<Window>)
    requires ValidDefinition(d) && ValidRecord(d, r, window) && r.deleted != Some(true)
    requires d.reportingField.Some? || d.mode == ReplaceWindow
    ensures d.reportingField.Some? && d.reportingField.value in r.values
    ensures var v := r.values[d.reportingField.value]; v.Text? && (IsDate(v.text) || IsTimestamp(v.text))
  {
    FieldIdsAreFields(d, d.reportingField.value);
  }

  /** A row that is no tombstone has a valid value in every field, and no other. */
  lemma RowsAreComplete(d: Definition, r: Record, window: Option<Window>, id: string)
    requires ValidDefinition(d) && ValidRecord(d, r, window) && r.deleted != Some(true)
    ensures id in r.values <==> exists f <- d.fields :: f.id == id
    ensures forall f <- d.fields :: f.id in r.values && ValidValue(f, r.values[f.id]) && (r.values[f.id] == Null ==> f.nullable)
  {
    forall f | f in d.fields ensures f.id in r.values && ValidValue(f, r.values[f.id]) {
      FieldIsFound(d, f);
      FieldIdsAreFields(d, f.id);
    }
  }

  /** Rows of a window refresh lie inside its window. */
  lemma WindowRowsAreInside(d: Definition, p: Page, r: Record)
    requires ValidDefinition(d) && ValidPage(d, p) && r in p.records && d.mode == ReplaceWindow
    ensures p.window.Some? && r.deleted != Some(true) && InWindow(d, r.values, p.window.value)
  {
  }

  // ---- Retention ----

  /** Data are kept for at least a day, and personal data never only by their dataset's default. */
  lemma RetentionIsSound(d: Definition, f: Field)
    requires ValidDefinition(d) && f in d.fields
    ensures DatasetRetentionDays(d).Some? ==> 1 <= DatasetRetentionDays(d).value <= 9_007_199_254_740_991
    ensures f.classification == Personal ==> f.retention == Keep || (f.retention.Days? && f.retention.days >= 1)
  {
    assert forall g <- d.fields :: ValidField(d, g);
  }
}
