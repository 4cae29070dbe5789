/** The merge of a complete refresh into the previous generation's rows. */
module DatasetMerge {
  import opened Common
  import opened DatasetTypes
  import opened DatasetSchemas

  const DAY_MS := 86_400_000
  const LAST_TIME := 253_402_300_799_000

  datatype Row = Row(values: Values, collectedAt: int, expiresAt: Deadline)

  type Rows = map<Key, Row>

  /** What every row of a refresh shares, and the retention and clock of the final page. */
  datatype Header = Header(definition: Definition, window: Option<Window>, collectedAt: int, expiresAt: Deadline,
                           retentionDays: Option<int>, now: int)

  /** A time beyond the timestamp range is no expiry. */
  function RetentionExpiry(collectedAt: int, days: Option<int>): Deadline {
    if days.None? || collectedAt + days.value * DAY_MS > LAST_TIME then None else Some(collectedAt + days.value * DAY_MS)
  }

  // ---- Rows of the previous generation ----

  function Carried(row: Row, h: Header): Row {
    Row(NullFilled(row.values, h.definition), row.collectedAt,
        Earlier(row.expiresAt, RetentionExpiry(row.collectedAt, h.retentionDays)))
  }

  predicate Replaced(row: Row, h: Header) {
    h.window.Some? && InWindow(h.definition, Carried(row, h).values, h.window.value)
  }

  /** The rows of the previous generation the merge starts from. */
  function Base(previous: Rows, h: Header): Rows {
    if h.definition.mode.Snapshot? then map[]
    else map k <- previous | !Passed(previous[k].expiresAt, h.now) && !Passed(Carried(previous[k], h).expiresAt, h.now)
                          && !Replaced(previous[k], h) :: Carried(previous[k], h)
  }

  // ---- The records of the refresh, one by one ----

  datatype MergeError = IdentityConflict | AppendConflict

  datatype Merging = Merging(seen: map<Key, Record>, rows: Rows)

  function KeyOf(h: Header, r: Record): Key { RecordKey(h.definition, r.values) }

  function NewRow(h: Header, r: Record): Row { Row(r.values, h.collectedAt, h.expiresAt) }

  function MergeOne(m: Merging, h: Header, r: Record): Result<Merging, MergeError> {
    var key := KeyOf(h, r);
    if key in m.seen && m.seen[key] != r then Err(IdentityConflict)
    else if IsDeleted(r) then Ok(Merging(m.seen[key := r], m.rows - {key}))
    else if h.definition.mode.Append? && key in m.rows then
      if m.rows[key].values != r.values then Err(AppendConflict) else Ok(m.(seen := m.seen[key := r]))
    else Ok(Merging(m.seen[key := r], m.rows[key := NewRow(h, r)]))
  }

  function MergePage(m: Merging, h: Header, records: seq<Record>, n: nat): Result<Merging, MergeError>
    requires n <= |records|
  {
    if n == 0 then Ok(m)
    else
      var before := MergePage(m, h, records, n - 1);
      if before.Err? then before else MergeOne(before.value, h, records[n - 1])
  }

  function MergePages(base: Rows, h: Header, pages: seq<Page>, n: nat): Result<Merging, MergeError>
    requires n <= |pages|
  {
    if n == 0 then Ok(Merging(map[], base))
    else
      var before := MergePages(base, h, pages, n - 1);
      if before.Err? then before else MergePage(before.value, h, pages[n - 1].records, |pages[n - 1].records|)
  }

  /** The merged rows, or the conflict that refuses them. */
  function Merged(previous: Rows, h: Header, pages: seq<Page>): Result<Rows, MergeError> {
    match MergePages(Base(previous, h), h, pages, |pages|)
    case Ok(m) => Ok(m.rows)
    case Err(e) => Err(e)
  }

  /** Once a page conflicts, its later records do not matter. */
  lemma {:induction false} PageConflictStays(m: Merging, h: Header, records: seq<Record>, n: nat)
    requires n <= |records| && MergePage(m, h, records, n).Err?
    ensures MergePage(m, h, records, |records|) == MergePage(m, h, records, n)
    decreases |records| - n
  {
    if n < |records| { PageConflictStays(m, h, records, n + 1); }
  }

  lemma {:induction false} ConflictStays(base: Rows, h: Header, pages: seq<Page>, n: nat)
    requires n <= |pages| && MergePages(base, h, pages, n).Err?
    ensures MergePages(base, h, pages, |pages|) == MergePages(base, h, pages, n)
    decreases |pages| - n
  {
    if n < |pages| { ConflictStays(base, h, pages, n + 1); }
  }

  /** The loop over staged pages, with the two maps that the records fill. */
  method MergeStaged(previous: Rows, h: Header, pages: seq<Page>) returns (merged: Result<Rows, MergeError>)
    ensures merged == Merged(previous, h, pages)
  {
    var base := Base(previous, h);
    var rows, seen: map<Key, Record>, i := base, map[], 0;
    while i < |pages|
      invariant 0 <= i <= |pages|
      invariant MergePages(base, h, pages, i) == Ok(Merging(seen, rows))
    {
      var page := MergeRecords(seen, rows, h, pages[i].records);
      if page.Err? {
        ConflictStays(base, h, pages, i + 1);
        return Err(page.error);
      }
      seen, rows := page.value.seen, page.value.rows;
      i := i + 1;
    }
    return Ok(rows);
  }

  /** The loop over the records of a page. */
  method MergeRecords(seen: map<Key, Record>, rows: Rows, h: Header, records: seq<Record>)
    returns (merged: Result<Merging, MergeError>)
    ensures merged == MergePage(Merging(seen, rows), h, records, |records|)
  {
    var seen, rows, j := seen, rows, 0;
    ghost var before := Merging(seen, rows);
    while j < |records|
      invariant 0 <= j <= |records|
      invariant MergePage(before, h, records, j) == Ok(Merging(seen, rows))
    {
      var one := MergeRecord(seen, rows, h, records[j]);
      if one.Err? {
        PageConflictStays(before, h, records, j + 1);
        return one;
      }
      seen, rows := one.value.seen, one.value.rows;
      j := j + 1;
    }
    return Ok(Merging(seen, rows));
  }

  method MergeRecord(seen: map<Key, Record>, rows: Rows, h: Header, r: Record) returns (merged: Result<Merging, MergeError>)
    ensures merged == MergeOne(Merging(seen, rows), h, r)
  {
    var key := KeyOf(h, r);
    if key in seen && seen[key] != r { return Err(IdentityConflict); }
    var seen, rows := seen[key := r], rows;
    if IsDeleted(r) {
      rows := rows - {key};
    } else if h.definition.mode.Append? && key in rows {
      if rows[key].values != r.values { return Err(AppendConflict); }
    } else {
      rows := rows[key := NewRow(h, r)];
    }
    return Ok(Merging(seen, rows));
  }

  // ---- What the merge is, whatever the split and order ----

  function PageRecords(records: seq<Record>, n: nat): set<Record>
    requires n <= |records|
  {
    if n == 0 then {} else PageRecords(records, n - 1) + {records[n - 1]}
  }

  function RecordsOf(pages: seq<Page>, n: nat): set<Record>
    requires n <= |pages|
  {
    if n == 0 then {} else RecordsOf(pages, n - 1) + PageRecords(pages[n - 1].records, |pages[n - 1].records|)
  }

  /** The records a refresh carries, however they are split into pages, ordered or repeated. */
  function RecordSet(pages: seq<Page>): set<Record> { RecordsOf(pages, |pages|) }

  lemma {:induction false} PageRecordsAre(records: seq<Record>, n: nat, r: Record)
    requires n <= |records|
    ensures r in PageRecords(records, n) <==> exists j :: 0 <= j < n && records[j] == r
  {
    if n > 0 { PageRecordsAre(records, n - 1, r); }
  }

  lemma {:induction false} RecordsAre(pages: seq<Page>, n: nat, r: Record)
    requires n <= |pages|
    ensures r in RecordsOf(pages, n) <==> exists i :: 0 <= i < n && r in pages[i].records
  {
    if n > 0 {
      RecordsAre(pages, n - 1, r);
      PageRecordsAre(pages[n - 1].records, |pages[n - 1].records|, r);
    }
  }

  /** No two records have the same key, and appended ones repeat the rows they meet. */
  ghost predicate Acceptable(base: Rows, h: Header, s: set<Record>) {
    && (forall q <- s, r <- s :: KeyOf(h, q) == KeyOf(h, r) ==> q == r)
    && (h.definition.mode.Append? ==>
          forall r <- s :: !IsDeleted(r) && KeyOf(h, r) in base ==> base[KeyOf(h, r)].values == r.values)
  }

  /** `seen` is the set of records, indexed by key. */
  ghost predicate Indexes(seen: map<Key, Record>, h: Header, s: set<Record>) {
    && (forall r <- s :: KeyOf(h, r) in seen && seen[KeyOf(h, r)] == r)
    && (forall k <- seen :: seen[k] in s && KeyOf(h, seen[k]) == k)
  }

  /** A record wins over the row it meets, except in an append; a tombstone removes it; other rows stay. */
  function Overlay(base: Rows, h: Header, seen: map<Key, Record>): Rows {
    map k <- base.Keys + seen.Keys | !(k in seen && IsDeleted(seen[k])) ::
      if k in seen && !(h.definition.mode.Append? && k in base) then NewRow(h, seen[k]) else base[k]
  }

  ghost predicate MergedFrom(base: Rows, h: Header, s: set<Record>, m: Merging) {
    Acceptable(base, h, s) && Indexes(m.seen, h, s) && m.rows == Overlay(base, h, m.seen)
  }

  lemma OverlayDrops(base: Rows, h: Header, seen: map<Key, Record>, r: Record)
    requires IsDeleted(r)
    ensures Overlay(base, h, seen[KeyOf(h, r) := r]) == Overlay(base, h, seen) - {KeyOf(h, r)}
  {
  }

  lemma OverlayKeeps(base: Rows, h: Header, seen: map<Key, Record>, r: Record)
    requires !IsDeleted(r) && h.definition.mode.Append? && KeyOf(h, r) in Overlay(base, h, seen)
    requires KeyOf(h, r) in seen ==> seen[KeyOf(h, r)] == r
    ensures Overlay(base, h, seen[KeyOf(h, r) := r]) == Overlay(base, h, seen)
  {
    var key, next := KeyOf(h, r), seen[KeyOf(h, r) := r];
    if key in seen { assert next == seen; }
  }

  lemma OverlayAdds(base: Rows, h: Header, seen: map<Key, Record>, r: Record)
    requires !IsDeleted(r) && !(h.definition.mode.Append? && KeyOf(h, r) in base)
    ensures Overlay(base, h, seen[KeyOf(h, r) := r]) == Overlay(base, h, seen)[KeyOf(h, r) := NewRow(h, r)]
  {
  }

  lemma OverlayGrows(base: Rows, h: Header, m: Merging, r: Record)
    requires m.rows == Overlay(base, h, m.seen) && MergeOne(m, h, r).Ok?
    requires KeyOf(h, r) in m.seen ==> m.seen[KeyOf(h, r)] == r
    ensures MergeOne(m, h, r).value.seen == m.seen[KeyOf(h, r) := r]
    ensures MergeOne(m, h, r).value.rows == Overlay(base, h, m.seen[KeyOf(h, r) := r])
  {
    if IsDeleted(r) {
      OverlayDrops(base, h, m.seen, r);
    } else if h.definition.mode.Append? && KeyOf(h, r) in m.rows {
      OverlayKeeps(base, h, m.seen, r);
    } else {
      OverlayAdds(base, h, m.seen, r);
    }
  }

  lemma IndexGrows(h: Header, s: set<Record>, seen: map<Key, Record>, r: Record)
    requires Indexes(seen, h, s) && (KeyOf(h, r) in seen ==> seen[KeyOf(h, r)] == r)
    ensures Indexes(seen[KeyOf(h, r) := r], h, s + {r})
  {
  }

  lemma MergeOneFollows(base: Rows, h: Header, s: set<Record>, m: Merging, r: Record)
    requires MergedFrom(base, h, s, m)
    ensures match MergeOne(m, h, r)
      case Ok(next) => MergedFrom(base, h, s + {r}, next)
      case Err(_) => !Acceptable(base, h, s + {r})
  {
    var key := KeyOf(h, r);
    if key in m.seen && m.seen[key] != r {
      assert m.seen[key] in s && KeyOf(h, m.seen[key]) == KeyOf(h, r);
    } else if MergeOne(m, h, r).Err? {
      assert key in base && base[key].values != r.values;
    } else {
      OverlayGrows(base, h, m, r);
      IndexGrows(h, s, m.seen, r);
      assert Acceptable(base, h, s + {r}) by {
        forall q | q in s && KeyOf(h, q) == key ensures q == r {
          assert m.seen[key] == q;
        }
      }
    }
  }

  lemma MoreIsNotAcceptable(base: Rows, h: Header, s: set<Record>, t: set<Record>)
    requires s <= t && !Acceptable(base, h, s)
    ensures !Acceptable(base, h, t)
  {
  }

  /** A merge so far stands for the set of records it has read. */
  ghost predicate Stands(base: Rows, h: Header, s: set<Record>, merged: Result<Merging, MergeError>) {
    match merged
    case Ok(m) => MergedFrom(base, h, s, m)
    case Err(_) => !Acceptable(base, h, s)
  }

  lemma NextStands(base: Rows, h: Header, s: set<Record>, before: Result<Merging, MergeError>, r: Record)
    requires Stands(base, h, s, before)
    ensures Stands(base, h, s + {r}, if before.Err? then before else MergeOne(before.value, h, r))
  {
    if before.Ok? { MergeOneFollows(base, h, s, before.value, r); } else { MoreIsNotAcceptable(base, h, s, s + {r}); }
  }

  lemma {:induction false} MergePageFollows(base: Rows, h: Header, s: set<Record>, m: Merging, records: seq<Record>, n: nat)
    requires MergedFrom(base, h, s, m) && n <= |records|
    ensures Stands(base, h, s + PageRecords(records, n), MergePage(m, h, records, n))
  {
    if n == 0 { assert s + {} == s; } else {
      MergePageFollows(base, h, s, m, records, n - 1);
      NextStands(base, h, s + PageRecords(records, n - 1), MergePage(m, h, records, n - 1), records[n - 1]);
      assert s + PageRecords(records, n - 1) + {records[n - 1]} == s + PageRecords(records, n);
    }
  }

  lemma {:induction false} MergePagesFollow(base: Rows, h: Header, pages: seq<Page>, n: nat)
    requires n <= |pages|
    ensures Stands(base, h, RecordsOf(pages, n), MergePages(base, h, pages, n))
  {
    if n == 0 {
      assert Overlay(base, h, map[]) == base;
    } else {
      MergePagesFollow(base, h, pages, n - 1);
      var before, s := MergePages(base, h, pages, n - 1), RecordsOf(pages, n - 1);
      if before.Ok? {
        MergePageFollows(base, h, s, before.value, pages[n - 1].records, |pages[n - 1].records|);
      } else {
        MoreIsNotAcceptable(base, h, s, RecordsOf(pages, n));
      }
    }
  }

  /**
   * The merge is accepted exactly when the set of records is, and then it is the overlay of the base rows with those
   * records: neither depends on pages or order.
   */
  lemma MergeMeetsSpec(previous: Rows, h: Header, pages: seq<Page>) returns (seen: map<Key, Record>)
    ensures var base, s := Base(previous, h), RecordSet(pages);
      (Merged(previous, h, pages).Ok? <==> Acceptable(base, h, s))
      && (Merged(previous, h, pages).Ok? ==>
            Indexes(seen, h, s) && Merged(previous, h, pages) == Ok(Overlay(base, h, seen)))
  {
    var base := Base(previous, h);
    MergePagesFollow(base, h, pages, |pages|);
    var m := MergePages(base, h, pages, |pages|);
    seen := if m.Ok? then m.value.seen else map[];
  }

  /** Two ways to split and order the same records are both accepted or both refused, and publish the same rows. */
  lemma SplitDoesNotMatter(previous: Rows, h: Header, p: seq<Page>, q: seq<Page>)
    requires RecordSet(p) == RecordSet(q)
    ensures Merged(previous, h, p).Ok? == Merged(previous, h, q).Ok?
    ensures Merged(previous, h, p).Ok? ==> Merged(previous, h, p) == Merged(previous, h, q)
  {
    var x := MergeMeetsSpec(previous, h, p);
    var y := MergeMeetsSpec(previous, h, q);
    if Merged(previous, h, p).Ok? {
      forall k ensures k in x <==> k in y {
        if k in x { assert y[KeyOf(h, x[k])] == x[k]; }
        if k in y { assert x[KeyOf(h, y[k])] == y[k]; }
      }
      forall k | k in x ensures x[k] == y[k] {
        assert y[KeyOf(h, x[k])] == x[k];
      }
      assert x == y;
    }
  }

  // ---- Deadlines ----

  /** A row of the result comes from the refresh with its header's deadline, or is carried and expires no later. */
  predicate KeepsDeadline(previous: Rows, h: Header, k: Key, row: Row) {
    || (row.expiresAt == h.expiresAt && row.collectedAt == h.collectedAt)
    || (k in previous && NoLater(row.expiresAt, previous[k].expiresAt) && row.collectedAt == previous[k].collectedAt
        && NoLater(row.expiresAt, RetentionExpiry(row.collectedAt, h.retentionDays)))
  }

  lemma DeadlinesNeverLengthen(previous: Rows, h: Header, pages: seq<Page>, k: Key)
    requires Merged(previous, h, pages).Ok? && k in Merged(previous, h, pages).value
    ensures KeepsDeadline(previous, h, k, Merged(previous, h, pages).value[k])
    ensures (forall r <- RecordSet(pages) :: KeyOf(h, r) != k) ==>
      k in previous && Merged(previous, h, pages).value[k] == Carried(previous[k], h)
    ensures h.definition.mode.Append? && k in Base(previous, h) ==>
      Merged(previous, h, pages).value[k] == Carried(previous[k], h)
  {
    var seen := MergeMeetsSpec(previous, h, pages);
  }

  /** A record that is sent and not deleted is a row; under append an unexpired row it meets is carried instead. */
  lemma SentRecordIsRow(previous: Rows, h: Header, pages: seq<Page>, x: Record)
    requires Merged(previous, h, pages).Ok? && x in RecordSet(pages) && !IsDeleted(x)
    ensures var rows, base, k := Merged(previous, h, pages).value, Base(previous, h), KeyOf(h, x);
      k in rows && rows[k] == if h.definition.mode.Append? && k in base then base[k] else NewRow(h, x)
  {
    var seen := MergeMeetsSpec(previous, h, pages);
    assert KeyOf(h, x) in seen && seen[KeyOf(h, x)] == x;
  }

  /** Every other row is carried from the base. */
  lemma UnsentRowIsCarried(previous: Rows, h: Header, pages: seq<Page>, k: Key)
    requires Merged(previous, h, pages).Ok? && k in Merged(previous, h, pages).value
    requires forall x <- RecordSet(pages) :: KeyOf(h, x) != k
    ensures k in Base(previous, h) && Merged(previous, h, pages).value[k] == Base(previous, h)[k]
  {
    var seen := MergeMeetsSpec(previous, h, pages);
  }

  // ---- Which rows of the previous generation stay ----

  /** Data is kept while fewer whole days than the retention have passed since it was collected. */
  lemma RetentionCountsDays(collectedAt: int, days: int, now: int)
    requires collectedAt <= now && collectedAt + days * 86_400_000 <= 253_402_300_799_000
    ensures !Passed(RetentionExpiry(collectedAt, Some(days)), now) <==> (now - collectedAt) / 86_400_000 < days
  {
  }

  lemma NoRetention(collectedAt: int, days: Option<int>, now: int)
    requires days.None? || collectedAt + days.value * 86_400_000 > 253_402_300_799_000
    ensures !Passed(RetentionExpiry(collectedAt, days), now)
  {
  }

  /** A row that neither its own deadline nor the retention of the final page has ended. */
  predicate IsKept(row: Row, retentionDays: Option<int>, now: int) {
    && (row.expiresAt.None? || now < row.expiresAt.value)
    && (RetentionExpiry(row.collectedAt, retentionDays).None? || now < RetentionExpiry(row.collectedAt, retentionDays).value)
  }

  /** The row with nulls in fields it does not have yet, collected as before and kept no longer than before. */
  ghost predicate IsCarriedAs(row: Row, d: Definition, retentionDays: Option<int>, carried: Row) {
    && carried.collectedAt == row.collectedAt
    && NoLater(carried.expiresAt, row.expiresAt) && NoLater(carried.expiresAt, RetentionExpiry(row.collectedAt, retentionDays))
    && carried.expiresAt in {row.expiresAt, RetentionExpiry(row.collectedAt, retentionDays)}
    && (forall id :: id in carried.values <==> id in row.values || exists f <- d.fields :: f.id == id && f.nullable)
    && (forall id <- carried.values :: carried.values[id] == if id in row.values then row.values[id] else Null)
  }

  lemma CarriedIsCarriedAs(row: Row, h: Header)
    ensures IsCarriedAs(row, h.definition, h.retentionDays, Carried(row, h))
    ensures !Passed(row.expiresAt, h.now) && !Passed(Carried(row, h).expiresAt, h.now) <==> IsKept(row, h.retentionDays, h.now)
  {
  }

  /** Without a window, a row whose key no record sends stays exactly while it is kept; a snapshot keeps none. */
  lemma UnsentRowStaysIff(previous: Rows, h: Header, pages: seq<Page>, k: Key)
    requires Merged(previous, h, pages).Ok? && k in previous && h.window.None?
    requires forall x <- RecordSet(pages) :: RecordKey(h.definition, x.values) != k
    ensures var rows := Merged(previous, h, pages).value;
      && (k in rows <==> h.definition.mode != Snapshot && IsKept(previous[k], h.retentionDays, h.now))
      && (k in rows ==> IsCarriedAs(previous[k], h.definition, h.retentionDays, rows[k]))
  {
    CarriedIsCarriedAs(previous[k], h);
    var seen := MergeMeetsSpec(previous, h, pages);
    forall key | key in seen ensures key != k {
      assert RecordKey(h.definition, seen[key].values) == key;
    }
  }

  /** No row comes from nowhere: its key was sent, not as a tombstone, or is one of the previous generation. */
  lemma RowsComeFrom(previous: Rows, h: Header, pages: seq<Page>, k: Key)
    requires Merged(previous, h, pages).Ok? && k in Merged(previous, h, pages).value
    ensures (exists x <- RecordSet(pages) :: !IsDeleted(x) && RecordKey(h.definition, x.values) == k)
      || (k in previous && h.definition.mode != Snapshot && forall x <- RecordSet(pages) :: RecordKey(h.definition, x.values) != k)
  {
    var seen := MergeMeetsSpec(previous, h, pages);
    if k in seen {
      assert KeyOf(h, seen[k]) == RecordKey(h.definition, seen[k].values) && !IsDeleted(seen[k]);
    } else {
      forall x | x in RecordSet(pages) ensures RecordKey(h.definition, x.values) != k {
        assert KeyOf(h, x) in seen;
      }
    }
  }

  /** A tombstone's key is gone. */
  lemma DeletedIsGone(previous: Rows, h: Header, pages: seq<Page>, x: Record)
    requires Merged(previous, h, pages).Ok? && x in RecordSet(pages) && IsDeleted(x)
    ensures RecordKey(h.definition, x.values) !in Merged(previous, h, pages).value
  {
    var seen := MergeMeetsSpec(previous, h, pages);
    assert KeyOf(h, x) in seen && seen[KeyOf(h, x)] == x;
  }

  /** The row of a record that was sent is the record; under append it is the kept row it meets. */
  lemma SentRowIs(previous: Rows, h: Header, pages: seq<Page>, x: Record)
    requires Merged(previous, h, pages).Ok? && x in RecordSet(pages) && !IsDeleted(x)
    ensures var rows, k := Merged(previous, h, pages).value, RecordKey(h.definition, x.values);
      && k in rows && rows[k].values == x.values
      && if h.definition.mode == Append && h.window.None? && k in previous && IsKept(previous[k], h.retentionDays, h.now)
         then IsCarriedAs(previous[k], h.definition, h.retentionDays, rows[k])
         else h.window.None? ==> rows[k] == Row(x.values, h.collectedAt, h.expiresAt)
  {
    var k := RecordKey(h.definition, x.values);
    if k in previous { CarriedIsCarriedAs(previous[k], h); }
    var seen := MergeMeetsSpec(previous, h, pages);
    assert KeyOf(h, x) == k && k in seen && seen[k] == x;
    assert Acceptable(Base(previous, h), h, RecordSet(pages));
  }

  /** The record has the values of the kept row it meets, if there is one. */
  ghost predicate AgreesWithKept(previous: Rows, h: Header, x: Record) {
    var k := RecordKey(h.definition, x.values);
    k in previous && IsKept(previous[k], h.retentionDays, h.now) ==>
      forall carried: Row :: IsCarriedAs(previous[k], h.definition, h.retentionDays, carried) ==> carried.values == x.values
  }

  lemma AgreesIff(previous: Rows, h: Header, x: Record)
    requires h.definition.mode == Append && h.window.None?
    ensures AgreesWithKept(previous, h, x) <==>
      (KeyOf(h, x) in Base(previous, h) ==> Base(previous, h)[KeyOf(h, x)].values == x.values)
  {
    var k := KeyOf(h, x);
    if k in previous {
      CarriedIsCarriedAs(previous[k], h);
      forall carried: Row | IsCarriedAs(previous[k], h.definition, h.retentionDays, carried)
        ensures carried.values == Carried(previous[k], h).values
      {
        var other := Carried(previous[k], h);
        assert forall id :: id in carried.values <==> id in other.values;
      }
    }
  }

  /** Records of one key agree, and under append with the kept row they meet. */
  ghost predicate NoConflict(previous: Rows, h: Header, s: set<Record>) {
    && (forall x <- s, y <- s :: RecordKey(h.definition, x.values) == RecordKey(h.definition, y.values) ==> x == y)
    && (h.definition.mode == Append ==> forall x <- s :: !IsDeleted(x) ==> AgreesWithKept(previous, h, x))
  }

  /** Nothing else refuses a merge. */
  lemma AcceptedIff(previous: Rows, h: Header, pages: seq<Page>)
    requires h.definition.mode == Append ==> h.window.None?
    ensures Merged(previous, h, pages).Ok? <==> NoConflict(previous, h, RecordSet(pages))
  {
    var seen := MergeMeetsSpec(previous, h, pages);
    forall x | x in RecordSet(pages) ensures KeyOf(h, x) == RecordKey(h.definition, x.values) {
    }
    forall x | x in RecordSet(pages) && h.definition.mode == Append
      ensures AgreesWithKept(previous, h, x) <==>
        (KeyOf(h, x) in Base(previous, h) ==> Base(previous, h)[KeyOf(h, x)].values == x.values)
    {
      AgreesIff(previous, h, x);
    }
  }

  // ---- Window replacement ----

  /** The records of a window refresh: inside the window, none a tombstone. */
  ghost predicate InsideOnly(h: Header, s: set<Record>) {
    h.window.Some? && forall r <- s :: !IsDeleted(r) && InWindow(h.definition, r.values, h.window.value)
  }

  /** The rows inside the window are exactly the refresh's rows. */
  lemma WindowIsReplaced(previous: Rows, h: Header, pages: seq<Page>)
    requires h.definition.mode.ReplaceWindow? && InsideOnly(h, RecordSet(pages)) && Merged(previous, h, pages).Ok?
    ensures var rows, s := Merged(previous, h, pages).value, RecordSet(pages);
      && (forall r <- s :: KeyOf(h, r) in rows && rows[KeyOf(h, r)] == NewRow(h, r))
      && (forall k <- rows ::
            InWindow(h.definition, rows[k].values, h.window.value) <==> exists r <- s :: KeyOf(h, r) == k)
  {
    var seen := MergeMeetsSpec(previous, h, pages);
    var rows, s := Merged(previous, h, pages).value, RecordSet(pages);
    forall k | k in rows
      ensures InWindow(h.definition, rows[k].values, h.window.value) <==> exists r <- s :: KeyOf(h, r) == k
    {
      if k in seen {
        assert seen[k] in s && KeyOf(h, seen[k]) == k;
      } else {
        assert forall r <- s :: KeyOf(h, r) in seen;
      }
    }
  }

  /** Every unexpired previous row outside the window survives, null-filled, unless the refresh sends its key again. */
  lemma OutsideWindowSurvives(previous: Rows, h: Header, pages: seq<Page>, k: Key)
    requires h.definition.mode.ReplaceWindow? && InsideOnly(h, RecordSet(pages)) && Merged(previous, h, pages).Ok?
    requires k in previous && !Replaced(previous[k], h) && forall r <- RecordSet(pages) :: KeyOf(h, r) != k
    ensures var rows := Merged(previous, h, pages).value;
      k in rows <==> !Passed(Carried(previous[k], h).expiresAt, h.now)
    ensures var rows := Merged(previous, h, pages).value; k in rows ==> rows[k] == Carried(previous[k], h)
  {
    var seen := MergeMeetsSpec(previous, h, pages);
  }

  // ---- Rows fit their schema ----

  /** Every row has exactly the schema's fields, each of the right type, and is stored under its own key. */
  ghost predicate RowsFit(d: Definition, rows: Rows) {
    forall k <- rows :: RowFits(d, rows[k].values) && RecordKey(d, rows[k].values) == k
  }

  lemma BaseFits(previous: Rows, before: Definition, h: Header)
    requires ValidDefinition(before) && ValidDefinition(h.definition) && RowsFit(before, previous)
    requires h.definition.mode.Snapshot? || before == h.definition || Carries(before, h.definition)
    ensures RowsFit(h.definition, Base(previous, h))
  {
    var base := Base(previous, h);
    forall k | k in base ensures RowFits(h.definition, base[k].values) && RecordKey(h.definition, base[k].values) == k {
      assert RowFits(before, previous[k].values);
      if before == h.definition { CarriesItself(before); }
      CarriedRowFits(before, h.definition, previous[k].values);
    }
  }

  lemma CarriesItself(d: Definition)
    requires ValidDefinition(d)
    ensures Carries(d, d)
  {
    forall f | f in d.fields ensures HasField(d, f.id) && FieldOf(d, f.id) == f {
      FieldIsFound(d, f);
    }
  }

  lemma MergedFits(previous: Rows, before: Definition, h: Header, pages: seq<Page>)
    requires ValidDefinition(before) && ValidDefinition(h.definition) && RowsFit(before, previous)
    requires h.definition.mode.Snapshot? || before == h.definition || Carries(before, h.definition)
    requires forall r <- RecordSet(pages) :: IsDeleted(r) || RowFits(h.definition, r.values)
    requires Merged(previous, h, pages).Ok?
    ensures RowsFit(h.definition, Merged(previous, h, pages).value)
  {
    BaseFits(previous, before, h);
    var seen := MergeMeetsSpec(previous, h, pages);
  }
}
