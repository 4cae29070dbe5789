/** Review ingest: upsert the page, then delete what the provider no longer returns inside fully read windows. */
module AppReviews {
  import opened Common

  const DAY_MS := 86_400_000
  const INSERT_BATCH_ROWS := 2_000
  const TITLE_LIMIT := 300
  const BODY_LIMIT := 4_000
  const AUTHOR_LIMIT := 100

  /** One review as a connector reported it; `createdAt` is absent when it does not parse. */
  datatype Reported = Reported(id: string, resource: string, rating: int, title: Option<string>,
                               body: Option<string>, author: Option<string>, territory: Option<string>,
                               createdAt: Option<int>)

  /** A span [from, to) of one resource that was read completely. */
  datatype Window = Window(resource: string, from: int, to: int) {
    predicate Covers(r: Stored) { r.resource == resource && from <= r.createdAt < to }
  }

  datatype Stored = Stored(workspace: string, resource: string, rating: int, title: Option<string>,
                           body: Option<string>, author: Option<string>, territory: Option<string>,
                           createdAt: int, ingestedAt: int, hiddenAt: Option<int>)

  datatype Key = Key(connection: string, id: string)

  type Table = map<Key, Stored>

  datatype Page = Page(workspace: string, connection: string, reviews: seq<Reported>, windows: seq<Window>, now: int,
                       maxAgeDays: int)

  // ---- Capped text ----

  /** What `trim` removes. */
  predicate IsSpace(c: char) {
    c in {'\t', '\n', '\U{0B}', '\U{0C}', '\r', ' ', '\U{A0}', '\U{1680}', '\U{2028}', '\U{2029}', '\U{202F}',
          '\U{205F}', '\U{3000}', '\U{FEFF}'} || '\U{2000}' <= c <= '\U{200A}'
  }

  function TrimStart(s: string): string {
    if s != "" && IsSpace(s[0]) then TrimStart(s[1..]) else s
  }

  function TrimEnd(s: string): string {
    if s != "" && IsSpace(s[|s| - 1]) then TrimEnd(s[..|s| - 1]) else s
  }

  function Trim(s: string): string { TrimEnd(TrimStart(s)) }

  function CapText(value: Option<string>, max: nat): Option<string> {
    if value.None? || Trim(value.value) == "" then None
    else
      var trimmed := Trim(value.value);
      if |trimmed| > max then Some(TrimEnd(trimmed[..max])) else Some(trimmed)
  }

  lemma {:induction false} TrimEndIsPrefix(s: string)
    ensures TrimEnd(s) <= s
    ensures TrimEnd(s) != "" ==> !IsSpace(TrimEnd(s)[|TrimEnd(s)| - 1])
    ensures s != "" && !IsSpace(s[0]) ==> TrimEnd(s) != ""
  {
    if s != "" && IsSpace(s[|s| - 1]) { TrimEndIsPrefix(s[..|s| - 1]); }
  }

  lemma {:induction false} TrimStartTrims(s: string)
    ensures TrimStart(s) != "" ==> !IsSpace(TrimStart(s)[0])
  {
    if s != "" && IsSpace(s[0]) { TrimStartTrims(s[1..]); }
  }

  lemma CapTextShape(value: Option<string>, max: nat)
    requires CapText(value, max).Some?
    ensures var t := CapText(value, max).value;
      |t| <= max && (max > 0 ==> t != "" && !IsSpace(t[0]) && !IsSpace(t[|t| - 1]))
  {
    TrimStartTrims(value.value);
    TrimEndIsPrefix(TrimStart(value.value));
    var trimmed := Trim(value.value);
    if |trimmed| > max { TrimEndIsPrefix(trimmed[..max]); }
  }

  /** Capping again changes nothing exactly when the cap leaves room for a character or there is no text. */
  lemma CapTextIdempotent(value: Option<string>, max: nat)
    ensures CapText(CapText(value, max), max) == CapText(value, max) <==> max > 0 || CapText(value, max).None?
  {
    if CapText(value, max).Some? {
      CapTextShape(value, max);
    }
  }

  // ---- The page's rows ----

  predicate Accepted(r: Reported, page: Page) {
    r.createdAt.Some? && r.createdAt.value >= page.now - page.maxAgeDays * DAY_MS
  }

  /** A two-letter territory, or none. */
  function Territory(t: Option<string>): Option<string> {
    if t.Some? && |t.value| == 2 && 'A' <= t.value[0] <= 'Z' && 'A' <= t.value[1] <= 'Z' then t else None
  }

  function RowOf(r: Reported, page: Page, hiddenAt: Option<int>): Stored
    requires r.createdAt.Some?
  {
    Stored(page.workspace, r.resource, r.rating, CapText(r.title, TITLE_LIMIT), CapText(r.body, BODY_LIMIT),
           CapText(r.author, AUTHOR_LIMIT), Territory(r.territory), r.createdAt.value, page.now, hiddenAt)
  }

  /** The page's last accepted report of each id, as the map fills. */
  function Latest(reviews: seq<Reported>, page: Page): (rows: map<string, Reported>)
    ensures forall id <- rows :: rows[id] in reviews && rows[id].id == id && Accepted(rows[id], page)
  {
    if reviews == [] then map[]
    else
      var rest, r := Latest(reviews[..|reviews| - 1], page), reviews[|reviews| - 1];
      if Accepted(r, page) then rest[r.id := r] else rest
  }

  predicate Dated(rows: seq<Reported>) { forall r <- rows :: r.createdAt.Some? }

  predicate DistinctIds(rows: seq<Reported>) {
    forall i, j :: 0 <= i < j < |rows| ==> rows[i].id != rows[j].id
  }

  /** One row of an upsert; a row of another workspace under the same key is left alone. */
  function Upsert(table: Table, r: Reported, page: Page): Table
    requires r.createdAt.Some?
  {
    var key := Key(page.connection, r.id);
    if key !in table then table[key := RowOf(r, page, None)]
    else if table[key].workspace == page.workspace then table[key := RowOf(r, page, table[key].hiddenAt)]
    else table
  }

  /** The upsert of the first `n` rows. */
  function UpsertAll(table: Table, rows: seq<Reported>, n: nat, page: Page): Table
    requires n <= |rows| && Dated(rows)
  {
    if n == 0 then table else Upsert(UpsertAll(table, rows, n - 1, page), rows[n - 1], page)
  }

  predicate Writes(table: Table, r: Reported, page: Page) {
    var key := Key(page.connection, r.id);
    key in table ==> table[key].workspace == page.workspace
  }

  predicate ReturnedFor(page: Page, id: string, resource: string) {
    exists r <- page.reviews :: r.id == id && r.resource == resource
  }

  predicate Gone(table: Table, key: Key, page: Page, w: Window)
    requires key in table
  {
    && table[key].workspace == page.workspace && key.connection == page.connection && w.Covers(table[key])
    && !ReturnedFor(page, key.id, w.resource)
  }

  function Prune(table: Table, page: Page, w: Window): Table {
    map key <- table | !Gone(table, key, page, w) :: table[key]
  }

  function PruneAll(table: Table, page: Page, windows: seq<Window>): Table {
    if windows == [] then table else Prune(PruneAll(table, page, windows[..|windows| - 1]), page, windows[|windows| - 1])
  }

  /** The page's rows in some order, one per id. */
  predicate RowsOf(rows: seq<Reported>, page: Page) {
    var latest := Latest(page.reviews, page);
    && DistinctIds(rows)
    && (forall r <- rows :: r.id in latest && latest[r.id] == r)
    && (forall id <- latest :: latest[id] in rows)
  }

  /** The table after the upsert, said row by row. */
  function Upserted(table: Table, page: Page): Table {
    var latest := Latest(page.reviews, page);
    map key <- table.Keys + (set id <- latest :: Key(page.connection, id)) ::
      if key.connection == page.connection && key.id in latest
         && (key in table ==> table[key].workspace == page.workspace)
      then RowOf(latest[key.id], page, if key in table then table[key].hiddenAt else None)
      else table[key]
  }

  /** The table after the ingest: what is left of the upserted table outside the deletions. */
  function Ingested(table: Table, page: Page): Table {
    var upserted := Upserted(table, page);
    map key <- upserted | forall w <- page.windows :: !Gone(upserted, key, page, w) :: upserted[key]
  }

  /** Ids whose row the upsert writes. */
  function WrittenIds(table: Table, page: Page): set<string> {
    var latest := Latest(page.reviews, page);
    set id <- latest | Writes(table, latest[id], page)
  }

  function WrittenBy(table: Table, rows: seq<Reported>, n: nat, page: Page): set<string>
    requires n <= |rows|
  {
    if n == 0 then {}
    else WrittenBy(table, rows, n - 1, page) + if Writes(table, rows[n - 1], page) then {rows[n - 1].id} else {}
  }

  function WrittenCount(table: Table, rows: seq<Reported>, n: nat, page: Page): nat
    requires n <= |rows|
  {
    |WrittenBy(table, rows, n, page)|
  }

  /** The map's keys, each once. */
  ghost predicate Lists(order: seq<string>, unique: map<string, Reported>) {
    && (forall j, k :: 0 <= j < k < |order| ==> order[j] != order[k])
    && (forall id :: id in order <==> id in unique)
  }

  lemma ListedRows(order: seq<string>, unique: map<string, Reported>, rows: seq<Reported>, page: Page)
    requires Lists(order, unique) && unique == Latest(page.reviews, page) && |rows| == |order|
    requires forall i :: 0 <= i < |rows| ==> order[i] in unique && rows[i] == unique[order[i]]
    ensures RowsOf(rows, page)
  {
    forall id <- unique ensures unique[id] in rows {
      var j :| 0 <= j < |order| && order[j] == id;
      assert rows[j] == unique[id];
    }
  }

  class ReviewStore {
    var table: Table

    constructor ()
      ensures table == map[]
    {
      table := map[];
    }

    /** Stores a page and follows the provider inside its windows; returns counts only. */
    method Ingest(page: Page) returns (stored: nat, deleted: nat)
      modifies this
      ensures table == Ingested(old(table), page)
      ensures stored == |WrittenIds(old(table), page)|
      ensures deleted == |Upserted(old(table), page)| - |table|
    {
      var rows := Deduplicate(page);
      UpsertAllIsUpserted(table, rows, page);
      stored := UpsertInBatches(rows, page);
      WrittenIdsOfRows(old(table), rows, page);
      deleted := DeleteInWindows(page);
      PruneAllIsIngested(Upserted(old(table), page), page, page.windows);
    }

    /** One row per id: a statement may not update the same key twice. */
    method Deduplicate(page: Page) returns (rows: seq<Reported>)
      ensures RowsOf(rows, page)
    {
      var unique: map<string, Reported> := map[];
      var order: seq<string> := [];
      for i := 0 to |page.reviews|
        invariant unique == Latest(page.reviews[..i], page) && Lists(order, unique)
      {
        var review := page.reviews[i];
        assert page.reviews[..i + 1][..i] == page.reviews[..i];
        if Accepted(review, page) {
          if review.id !in unique { order := order + [review.id]; }
          unique := unique[review.id := review];
        }
      }
      assert page.reviews[..|page.reviews|] == page.reviews;
      rows := seq(|order|, i requires 0 <= i < |order| => assert order[i] in order; unique[order[i]]);
      ListedRows(order, unique, rows, page);
    }

    method UpsertInBatches(rows: seq<Reported>, page: Page) returns (stored: nat)
      requires Dated(rows) && DistinctIds(rows)
      modifies this
      ensures table == UpsertAll(old(table), rows, |rows|, page)
      ensures stored == WrittenCount(old(table), rows, |rows|, page)
    {
      stored := 0;
      var start := 0;
      while start < |rows|
        invariant 0 <= start <= |rows|
        invariant table == UpsertAll(old(table), rows, start, page)
        invariant stored == WrittenCount(old(table), rows, start, page)
      {
        var end := if start + INSERT_BATCH_ROWS < |rows| then start + INSERT_BATCH_ROWS else |rows|;
        var written := UpsertBatch(rows, start, end, page, old(table));
        stored := stored + written;
        start := end;
      }
    }

    /** One insert statement over `rows[start..end]`; `before` is the table before the first batch. */
    method UpsertBatch(rows: seq<Reported>, start: nat, end: nat, page: Page, ghost before: Table)
      returns (written: nat)
      requires Dated(rows) && DistinctIds(rows) && start <= end <= |rows|
      requires table == UpsertAll(before, rows, start, page)
      modifies this
      ensures table == UpsertAll(before, rows, end, page)
      ensures WrittenCount(before, rows, start, page) + written == WrittenCount(before, rows, end, page)
    {
      written := 0;
      for i := start to end
        invariant table == UpsertAll(before, rows, i, page)
        invariant WrittenCount(before, rows, start, page) + written == WrittenCount(before, rows, i, page)
      {
        var row := rows[i];
        WrittenGrows(before, rows, i, page);
        assert UpsertAll(before, rows, i + 1, page) == Upsert(table, row, page);
        if Writes(table, row, page) { written := written + 1; }
        table := Upsert(table, row, page);
      }
    }

    method DeleteInWindows(page: Page) returns (deleted: nat)
      modifies this
      ensures table == PruneAll(old(table), page, page.windows)
      ensures deleted == |old(table)| - |table|
    {
      deleted := 0;
      for i := 0 to |page.windows|
        invariant table == PruneAll(old(table), page, page.windows[..i])
        invariant deleted == |old(table)| - |table|
      {
        assert page.windows[..i + 1][..i] == page.windows[..i];
        var kept := Prune(table, page, page.windows[i]);
        PruneShrinks(table, page, page.windows[i]);
        deleted := deleted + (|table| - |kept|);
        table := kept;
      }
      assert page.windows[..|page.windows|] == page.windows;
    }

    /** Hides a review; hiding twice keeps the first time. */
    method Hide(workspace: string, key: Key, now: int) returns (hidden: Option<int>)
      modifies this
      ensures table == Hidden(old(table), workspace, key, now)
      ensures hidden == if key in old(table) && old(table)[key].workspace == workspace then table[key].hiddenAt else None
    {
      hidden := None;
      if key in table && table[key].workspace == workspace {
        var row := table[key];
        if row.hiddenAt.None? { table := table[key := row.(hiddenAt := Some(now))]; }
        hidden := table[key].hiddenAt;
      }
    }
  }

  function Hidden(table: Table, workspace: string, key: Key, now: int): Table {
    if key in table && table[key].workspace == workspace && table[key].hiddenAt.None?
    then table[key := table[key].(hiddenAt := Some(now))] else table
  }

  lemma PruneShrinks(table: Table, page: Page, w: Window)
    ensures |Prune(table, page, w)| <= |table|
  {
    var kept := Prune(table, page, w);
    assert kept.Keys <= table.Keys;
    SubsetSize(kept.Keys, table.Keys);
  }

  lemma {:induction false} SubsetSize(a: set<Key>, b: set<Key>)
    requires a <= b
    ensures |a| <= |b|
  {
    if a != {} {
      var x :| x in a;
      SubsetSize(a - {x}, b - {x});
    }
  }

  lemma {:induction false} UpsertAllElsewhere(table: Table, rows: seq<Reported>, n: nat, page: Page, key: Key)
    requires n <= |rows| && Dated(rows)
    requires forall i :: 0 <= i < n ==> key != Key(page.connection, rows[i].id)
    ensures var after := UpsertAll(table, rows, n, page);
      (key in after <==> key in table) && (key in table ==> after[key] == table[key])
  {
    if n > 0 { UpsertAllElsewhere(table, rows, n - 1, page, key); }
  }

  lemma {:induction false} UpsertAllAt(table: Table, rows: seq<Reported>, i: nat, n: nat, page: Page)
    requires i < n <= |rows| && Dated(rows) && DistinctIds(rows)
    ensures var key, after := Key(page.connection, rows[i].id), UpsertAll(table, rows, n, page);
      && key in after
      && after[key] == if Writes(table, rows[i], page)
                       then RowOf(rows[i], page, if key in table then table[key].hiddenAt else None)
                       else table[key]
  {
    if i < n - 1 {
      UpsertAllAt(table, rows, i, n - 1, page);
    } else {
      UpsertAllElsewhere(table, rows, i, page, Key(page.connection, rows[i].id));
    }
  }

  lemma {:induction false} WrittenMembers(table: Table, rows: seq<Reported>, n: nat, page: Page, id: string)
    requires n <= |rows|
    ensures id in WrittenBy(table, rows, n, page) <==>
      exists i :: 0 <= i < n && Writes(table, rows[i], page) && rows[i].id == id
  {
    if n > 0 { WrittenMembers(table, rows, n - 1, page, id); }
  }

  /** Whether a row is written depends only on the table before the statement: ids differ. */
  lemma WrittenGrows(table: Table, rows: seq<Reported>, i: nat, page: Page)
    requires i < |rows| && Dated(rows) && DistinctIds(rows)
    ensures WrittenCount(table, rows, i + 1, page) ==
      WrittenCount(table, rows, i, page) + if Writes(UpsertAll(table, rows, i, page), rows[i], page) then 1 else 0
  {
    UpsertAllElsewhere(table, rows, i, page, Key(page.connection, rows[i].id));
    WrittenMembers(table, rows, i, page, rows[i].id);
  }

  lemma WrittenIdsOfRows(table: Table, rows: seq<Reported>, page: Page)
    requires RowsOf(rows, page)
    ensures WrittenBy(table, rows, |rows|, page) == WrittenIds(table, page)
  {
    var latest := Latest(page.reviews, page);
    forall id ensures id in WrittenIds(table, page) <==> id in WrittenBy(table, rows, |rows|, page) {
      WrittenMembers(table, rows, |rows|, page, id);
      if id in latest { assert latest[id] in rows; }
    }
  }

  lemma UpsertAllIsUpserted(table: Table, rows: seq<Reported>, page: Page)
    requires RowsOf(rows, page)
    ensures UpsertAll(table, rows, |rows|, page) == Upserted(table, page)
  {
    var after, goal := UpsertAll(table, rows, |rows|, page), Upserted(table, page);
    forall key: Key
      ensures key in after <==> key in goal
      ensures key in goal ==> after[key] == goal[key]
    {
      UpsertedAt(table, rows, page, key);
    }
  }

  lemma UpsertedAt(table: Table, rows: seq<Reported>, page: Page, key: Key)
    requires RowsOf(rows, page)
    ensures var after, goal := UpsertAll(table, rows, |rows|, page), Upserted(table, page);
      (key in after <==> key in goal) && (key in goal ==> after[key] == goal[key])
  {
    var latest := Latest(page.reviews, page);
    if key.connection == page.connection && key.id in latest {
      assert latest[key.id] in rows;
      var i :| 0 <= i < |rows| && rows[i] == latest[key.id];
      UpsertAllAt(table, rows, i, |rows|, page);
    } else {
      UpsertAllElsewhere(table, rows, |rows|, page, key);
    }
  }

  lemma {:induction false} PruneAllIsIngested(table: Table, page: Page, windows: seq<Window>)
    ensures PruneAll(table, page, windows) ==
      map key <- table | forall w <- windows :: !Gone(table, key, page, w) :: table[key]
  {
    if windows != [] {
      var init, last := windows[..|windows| - 1], windows[|windows| - 1];
      PruneAllIsIngested(table, page, init);
      assert windows == init + [last];
      forall key <- table
        ensures (forall w <- windows :: !Gone(table, key, page, w)) <==>
                (forall w <- init :: !Gone(table, key, page, w)) && !Gone(table, key, page, last)
      {
      }
    }
  }

  // ---- What the ingest promises ----

  /** Afterwards every stored review inside a window was returned for that window's resource. */
  lemma WindowsHoldOnlyReturned(table: Table, page: Page, key: Key, w: Window)
    requires key in Ingested(table, page) && key.connection == page.connection
    requires Ingested(table, page)[key].workspace == page.workspace
    requires w in page.windows && w.Covers(Ingested(table, page)[key])
    ensures ReturnedFor(page, key.id, w.resource)
  {
  }

  /** No window deletes a review of the page: each id's last accepted report is stored, keeping its hidden time. */
  lemma ReportedReviewsSurvive(table: Table, page: Page, id: string)
    requires id in Latest(page.reviews, page)
    requires var key := Key(page.connection, id); key in table ==> table[key].workspace == page.workspace
    ensures var key := Key(page.connection, id);
      && key in Ingested(table, page)
      && Ingested(table, page)[key] ==
         RowOf(Latest(page.reviews, page)[id], page, if key in table then table[key].hiddenAt else None)
  {
    var key := Key(page.connection, id);
    var upserted := Upserted(table, page);
    assert key in upserted;
    forall w <- page.windows ensures !Gone(upserted, key, page, w) {
      var r := Latest(page.reviews, page)[id];
      assert r in page.reviews && r.id == id;
      assert upserted[key].resource == r.resource;
    }
  }

  /** A row the page does not name and no window covers stays exactly as it was. */
  lemma OthersUntouched(table: Table, page: Page, key: Key)
    requires key.connection != page.connection || key.id !in Latest(page.reviews, page)
    requires key in table ==> forall w <- page.windows :: !w.Covers(table[key])
    ensures key in Ingested(table, page) <==> key in table
    ensures key in table ==> Ingested(table, page)[key] == table[key]
  {
  }

  /** A surviving row keeps its hidden time. */
  lemma HiddenTimeKept(table: Table, page: Page, key: Key)
    requires key in table && key in Ingested(table, page)
    ensures Ingested(table, page)[key].hiddenAt == table[key].hiddenAt
  {
  }

  /** Ingesting the same page again changes nothing and deletes nothing. */
  lemma IngestIdempotent(table: Table, page: Page)
    ensures var once := Ingested(table, page);
      Upserted(once, page) == once && Ingested(once, page) == once
  {
    var once := Ingested(table, page);
    forall id <- Latest(page.reviews, page) ensures Key(page.connection, id) in once {
      NamedRowIsKept(table, page, id);
    }
    forall key <- once ensures Upserted(once, page)[key] == once[key] {
      SecondUpsertKeeps(table, page, key);
    }
    assert Upserted(once, page).Keys == once.Keys;
  }

  lemma NamedRowIsKept(table: Table, page: Page, id: string)
    requires id in Latest(page.reviews, page)
    ensures Key(page.connection, id) in Ingested(table, page)
  {
    var key := Key(page.connection, id);
    if key in table && table[key].workspace != page.workspace {
      assert forall w <- page.windows :: !Gone(Upserted(table, page), key, page, w);
    } else {
      ReportedReviewsSurvive(table, page, id);
    }
  }

  lemma SecondUpsertKeeps(table: Table, page: Page, key: Key)
    requires key in Ingested(table, page)
    ensures Upserted(Ingested(table, page), page)[key] == Ingested(table, page)[key]
  {
    if && key.connection == page.connection && key.id in Latest(page.reviews, page)
       && Ingested(table, page)[key].workspace == page.workspace {
      if key in table { HiddenTimeKept(table, page, key); }
      ReportedReviewsSurvive(table, page, key.id);
    }
  }

  // ---- Any sequence of ingests and hides ----

  datatype Change = IngestPage(page: Page) | HideReview(workspace: string, key: Key, now: int)

  function Changed(table: Table, c: Change): Table {
    match c
    case IngestPage(page) => Ingested(table, page)
    case HideReview(workspace, key, now) => Hidden(table, workspace, key, now)
  }

  ghost predicate IsHistory(run: seq<Table>, changes: seq<Change>) {
    && |run| == |changes| + 1
    && forall i {:trigger changes[i]} :: 0 <= i < |changes| ==> run[i + 1] == Changed(run[i], changes[i])
  }

  lemma ChangeKeepsHidden(table: Table, c: Change, key: Key)
    requires key in table && table[key].hiddenAt.Some? && key in Changed(table, c)
    ensures Changed(table, c)[key].hiddenAt == table[key].hiddenAt
    ensures Changed(table, c)[key].workspace == table[key].workspace
  {
    if c.IngestPage? { HiddenTimeKept(table, c.page, key); }
  }

  /**
   * Hiding is permanent: through any later ingests and hides, by any workspace, a hidden review keeps its first hidden
   * time as long as no ingest deletes it, and hiding it again changes nothing.
   */
  lemma {:induction false} HideIsPermanent(run: seq<Table>, changes: seq<Change>, n: nat, key: Key)
    requires IsHistory(run, changes) && n < |run| && forall m :: 0 <= m <= n ==> key in run[m]
    requires run[0][key].hiddenAt.Some?
    ensures run[n][key].hiddenAt == run[0][key].hiddenAt
    ensures forall workspace, now :: Hidden(run[n], workspace, key, now) == run[n]
  {
    if n > 0 {
      HideIsPermanent(run, changes, n - 1, key);
      assert key in run[n - 1] && key in run[n] && run[n] == Changed(run[n - 1], changes[n - 1]);
      ChangeKeepsHidden(run[n - 1], changes[n - 1], key);
    }
  }
}
