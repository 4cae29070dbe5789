/** Concrete deliveries that outlive their source: through a staged page, a replay, and an append. */
module DatasetExamples {
  import opened Common
  import opened DatasetTypes
  import opened DatasetSchemas
  import opened DatasetMerge
  import opened DatasetStore
  import opened DatasetRuns
  import opened DatasetDeadlines

  // An appended dataset of one text field, kept for thirty days, and data from a source that ends after a second.

  const FIELD := TextField("k", Internal, Inherit)
  const LOG := SnapshotOf(1, [FIELD]).(mode := Append)
  const ENV := Env(Some(Some(30)), Policy(None, None, None, true), Fits(true, true, true, true, true))
  const SHORT := Some(Provenance(0, Some(1_000)))
  const MONTH := Some(30 * DAY_MS)

  function PageOf(refresh: string, name: string, previous: Option<string>, records: seq<Record>, complete: bool): Page {
    Page("d", 1, refresh, name, previous, None, records, complete, None)
  }

  function Delivery(p: Page, retained: Option<Provenance>): Input { Input(LOG, p, 0, None, retained, ENV) }

  const ENTRY := Record(map["k" := Text("x")], None)

  function Opening(retained: Option<Provenance>): Refresh {
    Refresh(1, None, 0, if retained.Some? then Some(1_000) else MONTH, 0, [], 0, None, false)
  }

  lemma LogIsValid()
    ensures ValidDefinition(LOG) && FieldIndex(LOG.fields, "k") == 0
  {
    SnapshotIsValid(1, [FIELD]);
    OneField(FIELD);
    var d := SnapshotOf(1, [FIELD]);
    forall id ensures HasField(LOG, id) <==> HasField(d, id) {
    }
    forall f | f in LOG.fields ensures ValidField(LOG, f) {
      assert ValidField(d, f);
    }
  }

  lemma PagesAreValid(p: Page)
    requires p == PageOf(p.refreshKey, p.pageKey, p.previousPageKey, p.records, p.complete)
    requires p.records == [] || p.records == [ENTRY]
    ensures ValidDefinition(LOG) && ValidPage(LOG, p)
  {
    LogIsValid();
    if p.records == [ENTRY] {
      FieldIdsAreFields(LOG, "k");
      assert FieldIds(LOG) == {"k"} by { assert LOG.fields == [FIELD]; }
      assert RowFits(LOG, ENTRY.values);
      assert ValidRecord(LOG, ENTRY, None);
    }
  }

  /** The store has nothing but this dataset's one version, and a quiet last generation. */
  predicate Plain(s: Store) {
    && (s == EMPTY || (s.created && s.versions == [LOG]))
    && (s.generations != [] ==>
          var last := s.generations[|s.generations| - 1]; last.startedAt == 0 && last.schemaVersion == 1)
  }

  predicate PlainRefresh(r: Refresh) {
    r.schemaVersion == 1 && r.window == None && r.createdAt == 0 && (r.expiresAt == MONTH || r.expiresAt == Some(1_000))
  }

  lemma PlainAdmitted(s: Store, p: Page, retained: Option<Provenance>)
    requires Plain(s) && p == PageOf(p.refreshKey, p.pageKey, p.previousPageKey, p.records, p.complete)
    requires (p.records == [] || p.records == [ENTRY]) && (retained == None || retained == SHORT)
    requires p.refreshKey in s.refreshes ==> PlainRefresh(s.refreshes[p.refreshKey])
    ensures var q := Delivery(p, retained);
      && PlainRefresh(Opened(s, q)) && (p.refreshKey !in s.refreshes ==> Opened(s, q) == Opening(retained))
      && !Passed(Admission(s, q), 0)
      && Admit(s, q) == Ok(Store(true, [LOG], s.refreshes[p.refreshKey := Opened(s, q)], s.generations))
  {
    var q := Delivery(p, retained);
    PagesAreValid(p);
    assert [] + [LOG] == [LOG];
    assert Register(s, LOG, ENV.fits) == Ok(Store(true, [LOG], s.refreshes, s.generations));
    assert PageProblem(q) == None;
  }

  /** Such a page, when it is next in its refresh, is accepted and joins it; a final one publishes what it merges to. */
  lemma PlainPageJoins(s: Store, p: Page, retained: Option<Provenance>, r: Refresh, rows: Rows)
    requires Plain(s) && p == PageOf(p.refreshKey, p.pageKey, p.previousPageKey, p.records, p.complete)
    requires (p.records == [] || p.records == [ENTRY]) && (retained == None || retained == SHORT)
    requires p.refreshKey in s.refreshes ==> PlainRefresh(s.refreshes[p.refreshKey])
    requires r == if p.refreshKey in s.refreshes then s.refreshes[p.refreshKey] else Opening(retained)
    requires !HasPage(r, p.pageKey) && !r.complete && r.lastPageKey == p.previousPageKey
    requires p.complete ==>
      Merged(PreviousRows(s.generations), HeaderOf(r, Delivery(p, retained)), r.pages + [p]) == Ok(rows)
    ensures var q := Delivery(p, retained);
      && Ingest(s, q).answer == Ok(Answer(if p.complete then Some(|s.generations| + 1) else None, false))
      && Ingest(s, q).store == Store(true, [LOG], s.refreshes[p.refreshKey := Received(r, p)],
           if p.complete then s.generations + [NewGeneration(|s.generations|, r, q, rows)] else s.generations)
  {
    var q := Delivery(p, retained);
    PlainAdmitted(s, p, retained);
    var admitted := Admit(s, q).value;
    if p.complete { PlainPublished(s, q, r, rows); }
    PlainStaged(s, q, admitted, r, rows);
    NewPageIsStaged(s, q, admitted);
  }

  lemma NewPageIsStaged(s: Store, q: Input, admitted: Store)
    requires Admit(s, q) == Ok(admitted) && !HasPage(Opened(s, q), q.page.pageKey)
    ensures Ingest(s, q) == Staged(s, q, admitted, Opened(s, q))
  {
  }

  lemma PlainPublished(s: Store, q: Input, r: Refresh, rows: Rows)
    requires Plain(s) && PlainRefresh(r) && q.env == ENV && q.definition == LOG
    requires Merged(PreviousRows(s.generations), HeaderOf(r, q), r.pages + [q.page]) == Ok(rows)
    ensures Published(s.generations, r, q, r.pages + [q.page]) == Ok(rows)
  {
    assert MergeProblem(s.generations, r, q) == None;
  }

  lemma PlainStaged(s: Store, q: Input, admitted: Store, r: Refresh, rows: Rows)
    requires admitted == Store(true, [LOG], s.refreshes[q.page.refreshKey := r], s.generations)
    requires q.env == ENV && q.clocks == None && q.now == 0 && !Passed(Admission(s, q), 0)
    requires !r.complete && r.lastPageKey == q.page.previousPageKey
    requires q.page.complete ==> Published(s.generations, r, q, r.pages + [q.page]) == Ok(rows)
    ensures Staged(s, q, admitted, r) == Outcome(
      Store(true, [LOG], s.refreshes[q.page.refreshKey := Received(r, q.page)],
            if q.page.complete then s.generations + [NewGeneration(|s.generations|, r, q, rows)] else s.generations),
      Ok(Answer(if q.page.complete then Some(|s.generations| + 1) else None, false)))
  {
    var key := q.page.refreshKey;
    assert s.refreshes[key := r][key := Received(r, q.page)] == s.refreshes[key := Received(r, q.page)];
    assert ChainProblem(r, q) == None;
  }

  lemma {:induction false} EmptyPagesMerge(base: Rows, h: Header, pages: seq<Page>, n: nat)
    requires n <= |pages| && forall p <- pages :: p.records == []
    ensures MergePages(base, h, pages, n) == Ok(Merging(map[], base))
  {
    if n > 0 { EmptyPagesMerge(base, h, pages, n - 1); }
  }

  // ---- A staged page that joins a longer-lived refresh ----

  const FIRST := PageOf("r", "a", None, [], false)
  const LAST := PageOf("r", "b", Some("a"), [], true)
  const OPENED := Received(Opening(None), FIRST)
  const AFTER_FIRST := Store(true, [LOG], map["r" := OPENED], [])

  lemma FirstPageOpens()
    ensures Ingest(EMPTY, Delivery(FIRST, None)) == Outcome(AFTER_FIRST, Ok(Answer(None, false)))
  {
    PlainPageJoins(EMPTY, FIRST, None, Opening(None), map[]);
  }

  /** A refresh is opened for thirty days; its second page comes from a stage whose source ends in a second. */
  lemma StagedPageCanOutliveItsSource()
    ensures var s, q := Ingest(EMPTY, Delivery(FIRST, None)).store, Delivery(LAST, SHORT);
      && Effective(s, q) && "r" in Ingest(s, q).store.refreshes
      && !NoLater(Ingest(s, q).store.refreshes["r"].expiresAt, q.retained.value.expiresAt)
  {
    FirstPageOpens();
    var s, q := AFTER_FIRST, Delivery(LAST, SHORT);
    assert OPENED.pages == [FIRST];
    assert PageIndex([FIRST], "b") == 1 by { assert [FIRST][1..] == []; }
    EmptyPagesMerge(map[], HeaderOf(OPENED, q), OPENED.pages + [LAST], 2);
    PlainPageJoins(s, LAST, SHORT, OPENED, map[]);
  }

  // ---- A replay that joins a longer-lived refresh ----

  const SOURCE_FIRST := PageOf("s", "a", None, [], false)
  const SOURCE_LAST := PageOf("s", "b", Some("a"), [], true)
  const HALF_SOURCE := Received(Opening(SHORT), SOURCE_FIRST)
  const SOURCE := Received(HALF_SOURCE, SOURCE_LAST)

  lemma SourceOpens()
    ensures Ingest(AFTER_FIRST, Delivery(SOURCE_FIRST, SHORT)).store
         == Store(true, [LOG], map["r" := OPENED, "s" := HALF_SOURCE], [])
  {
    PlainPageJoins(AFTER_FIRST, SOURCE_FIRST, SHORT, Opening(SHORT), map[]);
    assert map["r" := OPENED]["s" := HALF_SOURCE] == map["r" := OPENED, "s" := HALF_SOURCE];
  }

  lemma SourceCompletes(half: Store)
    requires half == Store(true, [LOG], map["r" := OPENED, "s" := HALF_SOURCE], [])
    ensures var s := Ingest(half, Delivery(SOURCE_LAST, SHORT)).store;
      && s.created && s.versions == [LOG] && s.refreshes == map["r" := OPENED, "s" := SOURCE]
      && s.generations == [NewGeneration(0, HALF_SOURCE, Delivery(SOURCE_LAST, SHORT), map[])]
  {
    assert HALF_SOURCE.pages == [SOURCE_FIRST];
    assert PageIndex([SOURCE_FIRST], "b") == 1 by { assert [SOURCE_FIRST][1..] == []; }
    EmptyPagesMerge(map[], HeaderOf(HALF_SOURCE, Delivery(SOURCE_LAST, SHORT)), HALF_SOURCE.pages + [SOURCE_LAST], 2);
    PlainPageJoins(half, SOURCE_LAST, SHORT, HALF_SOURCE, map[]);
    assert half.refreshes["s" := SOURCE] == map["r" := OPENED, "s" := SOURCE];
  }

  /** Beside the opened refresh, a complete one whose data ends in a second. */
  lemma SourceArrives() returns (s: Store)
    ensures s == Ingest(Ingest(AFTER_FIRST, Delivery(SOURCE_FIRST, SHORT)).store, Delivery(SOURCE_LAST, SHORT)).store
    ensures Plain(s) && s.versions == [LOG] && s.refreshes == map["r" := OPENED, "s" := SOURCE]
    ensures s.generations != [] && PreviousRows(s.generations) == map[]
  {
    var half := Store(true, [LOG], map["r" := OPENED, "s" := HALF_SOURCE], []);
    SourceOpens();
    SourceCompletes(half);
    s := Ingest(half, Delivery(SOURCE_LAST, SHORT)).store;
  }

  /** A first page that is there already is accepted again without effect. */
  lemma FirstPageAgain(s: Store)
    requires Plain(s) && s != EMPTY && "r" in s.refreshes && s.refreshes["r"] == OPENED
    ensures Ingest(s, Delivery(FIRST, SHORT)).answer.Ok? && Ingest(s, Delivery(FIRST, SHORT)).store == s
  {
    PlainAdmitted(s, FIRST, SHORT);
    assert s.refreshes["r" := OPENED] == s.refreshes;
    assert OPENED.pages == [FIRST];
    assert PageIndex(OPENED.pages, "a") == 0;
  }

  lemma TwoDeliveries(deliver: (Store, Input) -> Outcome, s: Store, a: Input, b: Input)
    requires deliver(s, a).answer.Ok?
    ensures DeliverAll(deliver, s, [a, b]) == deliver(deliver(s, a).store, b)
  {
    var qs := [a, b];
    assert qs[..0] == [] && qs[..2] == qs;
    OneMoreDelivery(deliver, s, qs, 0);
    OneMoreDelivery(deliver, s, qs, 1);
  }

  lemma LastPageJoinsOpened(s: Store)
    requires Plain(s) && "r" in s.refreshes && s.refreshes["r"] == OPENED && PreviousRows(s.generations) == map[]
    ensures Ingest(s, Delivery(LAST, SHORT)).answer.Ok? && "r" in Ingest(s, Delivery(LAST, SHORT)).store.refreshes
    ensures Ingest(s, Delivery(LAST, SHORT)).store.refreshes["r"].expiresAt == MONTH
  {
    var q := Delivery(LAST, SHORT);
    assert OPENED.pages == [FIRST];
    assert PageIndex([FIRST], "b") == 1 by { assert [FIRST][1..] == []; }
    EmptyPagesMerge(map[], HeaderOf(OPENED, q), OPENED.pages + [LAST], 2);
    assert Base(map[], HeaderOf(OPENED, q)) == map[];
    PlainPageJoins(s, LAST, SHORT, OPENED, map[]);
  }

  lemma ReplayIsTwoDeliveries(s: Store)
    requires "s" in s.refreshes && s.refreshes["s"] == SOURCE && s.versions == [LOG]
    ensures |SOURCE.pages| == 2
    ensures DeliverAll(Ingest, s, [Delivery(FIRST, SHORT), Delivery(LAST, SHORT)]).answer.Ok? ==>
      Replayed(s, "s", "r", 0, [ENV, ENV]) == DeliverAll(Ingest, s, [Delivery(FIRST, SHORT), Delivery(LAST, SHORT)])
  {
    assert SOURCE.pages == [SOURCE_FIRST, SOURCE_LAST];
    assert ReplayInputs(SOURCE, LOG, "r", 0, [ENV, ENV]) == [Delivery(FIRST, SHORT), Delivery(LAST, SHORT)];
    assert VersionIndex(s.versions, 1) == 0;
  }

  /** Replaying the short-lived refresh under the key of the opened one is accepted, and the copy outlives its source. */
  lemma ReplayCanOutliveItsSource() returns (s: Store)
    ensures "s" in s.refreshes && |s.refreshes["s"].pages| == 2
    ensures s == Ingest(Ingest(AFTER_FIRST, Delivery(SOURCE_FIRST, SHORT)).store, Delivery(SOURCE_LAST, SHORT)).store
    ensures var replayed := Replayed(s, "s", "r", 0, [ENV, ENV]);
      && replayed.answer.Ok? && "r" in replayed.store.refreshes
      && !NoLater(replayed.store.refreshes["r"].expiresAt, s.refreshes["s"].expiresAt)
  {
    s := SourceArrives();
    FirstPageAgain(s);
    LastPageJoinsOpened(s);
    TwoDeliveries(Ingest, s, Delivery(FIRST, SHORT), Delivery(LAST, SHORT));
    ReplayIsTwoDeliveries(s);
  }

  // ---- An append that sends a longer-lived row again ----

  const LONG := PageOf("r", "a", None, [ENTRY], true)
  const STAGED := PageOf("s", "a", None, [ENTRY], true)

  lemma OneEntryMerges(base: Rows, h: Header, p: Page)
    requires p.records == [ENTRY]
    ensures MergePages(base, h, [p], 1) == MergeOne(Merging(map[], base), h, ENTRY)
  {
    assert MergePage(Merging(map[], base), h, [ENTRY], 0) == Ok(Merging(map[], base));
    assert MergePages(base, h, [p], 0) == Ok(Merging(map[], base));
    assert MergePage(Merging(map[], base), h, [ENTRY], 1) == MergeOne(Merging(map[], base), h, ENTRY);
  }

  function EntryKey(): Key { RecordKey(LOG, ENTRY.values) }

  function LongRows(): Rows { map[EntryKey() := Row(ENTRY.values, 0, MONTH)] }

  lemma LongRowsPublished() returns (s: Store)
    ensures s == Ingest(EMPTY, Delivery(LONG, None)).store && Plain(s) && s.versions == [LOG]
    ensures s.refreshes.Keys == {"r"} && PreviousRows(s.generations) == LongRows()
  {
    var r, q := Opening(None), Delivery(LONG, None);
    OneEntryMerges(map[], HeaderOf(r, q), LONG);
    assert [] + [LONG] == [LONG];
    PlainPageJoins(EMPTY, LONG, None, r, LongRows());
    s := Ingest(EMPTY, q).store;
  }

  /** A row kept for thirty days is sent again by a stage whose source ends in a second: it keeps its thirty days. */
  lemma AppendedRowCanOutliveItsSource()
    ensures var q := Delivery(STAGED, SHORT);
      var next := Ingest(Ingest(EMPTY, Delivery(LONG, None)).store, q).store;
      && |next.generations| == 2 && EntryKey() in next.generations[1].rows && "s" in next.refreshes
      && NoLater(next.refreshes["s"].expiresAt, q.retained.value.expiresAt)
      && !NoLater(next.generations[1].rows[EntryKey()].expiresAt, q.retained.value.expiresAt)
  {
    var s := LongRowsPublished();
    var r, q := Opening(SHORT), Delivery(STAGED, SHORT);
    LongRowsStay(HeaderOf(r, q));
    assert [] + [STAGED] == [STAGED];
    PlainPageJoins(s, STAGED, SHORT, r, LongRows());
  }

  lemma LongRowsStay(h: Header)
    requires h == HeaderOf(Opening(SHORT), Delivery(STAGED, SHORT))
    ensures Merged(LongRows(), h, [STAGED]) == Ok(LongRows())
  {
    LogIsValid();
    assert NullFilled(ENTRY.values, LOG) == ENTRY.values by { assert LOG.fields == [FIELD]; }
    assert Base(LongRows(), h) == LongRows();
    OneEntryMerges(LongRows(), h, STAGED);
  }
}
