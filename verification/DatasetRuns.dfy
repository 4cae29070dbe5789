/** What holds of a dataset after any deliveries of pages, in any order, any number of times. */
module DatasetRuns {
  import opened Common
  import opened DatasetTypes
  import opened DatasetSchemas
  import opened DatasetMerge
  import opened DatasetStore

  datatype Event = Deliver(q: Input) | Declare(definition: Definition, fits: Fits)

  /** An event, and what a delivery answered. */
  datatype Step = Step(event: Event, answer: Result<Answer, StoreError>)

  ghost function Declared(s: Store, d: Definition, fits: Fits): Store {
    if !ValidDefinition(d) then s
    else match Register(s, d, fits)
      case Ok(t) => t
      case Err(_) => s
  }

  ghost predicate Follows(s: Store, step: Step, next: Store) {
    match step.event
    case Deliver(q) => Ingest(s, q) == Outcome(next, step.answer)
    case Declare(d, fits) => next == Declared(s, d, fits)
  }

  ghost predicate IsRun(run: seq<Store>, steps: seq<Step>) {
    && |run| == |steps| + 1 && run[0] == EMPTY
    && forall i {:trigger steps[i]} :: 0 <= i < |steps| ==> Follows(run[i], steps[i], run[i + 1])
  }

  // ---- The invariant ----

  predicate IsRegistered(s: Store, version: int) { VersionIndex(s.versions, version) < |s.versions| }

  function VersionOf(s: Store, version: int): (d: Definition)
    requires IsRegistered(s, version)
    ensures d.version == version && d in s.versions
  {
    s.versions[VersionIndex(s.versions, version)]
  }

  ghost predicate VersionsOk(s: Store) {
    IsChain(s.versions) && (s.versions != [] ==> s.created)
  }

  /** A page follows the one before it, which is not the last of its refresh. */
  predicate LinkedAt(pages: seq<Page>, i: nat)
    requires i < |pages|
  {
    if i == 0 then pages[0].previousPageKey == None
    else pages[i].previousPageKey == Some(pages[i - 1].pageKey) && !pages[i - 1].complete
  }

  function RowCount(pages: seq<Page>, n: nat): nat
    requires n <= |pages|
  {
    if n == 0 then 0 else RowCount(pages, n - 1) + |pages[n - 1].records|
  }

  /** The pages of a refresh: linked, with different keys, and all of the refresh's key, window and version. */
  ghost predicate PagesOk(pages: seq<Page>, key: string, window: Option<Window>, d: Definition)
    requires ValidDefinition(d)
  {
    && (forall i: nat :: i < |pages| ==> LinkedAt(pages, i))
    && (forall i, j :: 0 <= i < j < |pages| ==> pages[i].pageKey != pages[j].pageKey)
    && (forall p <- pages :: p.refreshKey == key && p.window == window && ValidPage(d, p))
  }

  /** A refresh's counters describe its pages. */
  predicate CountersOk(r: Refresh) {
    && r.rowCount == RowCount(r.pages, |r.pages|)
    && if r.pages == [] then r.lastPageKey == None && !r.complete
       else r.lastPageKey == Some(r.pages[|r.pages| - 1].pageKey) && r.complete == r.pages[|r.pages| - 1].complete
  }

  ghost predicate RefreshOk(s: Store, key: string, r: Refresh)
    requires VersionsOk(s)
  {
    && IsRegistered(s, r.schemaVersion) && PagesOk(r.pages, key, r.window, VersionOf(s, r.schemaVersion))
    && |r.pages| > 0 && CountersOk(r)
  }

  ghost predicate RefreshesOk(s: Store)
    requires VersionsOk(s)
  {
    forall key <- s.refreshes :: RefreshOk(s, key, s.refreshes[key])
  }

  /** A generation's rows fit its schema version under their own keys, and none outlives it. */
  ghost predicate GenerationOk(s: Store, g: Generation) {
    && IsRegistered(s, g.schemaVersion) && RowsFit(VersionOf(s, g.schemaVersion), g.rows)
    && (forall k <- g.rows :: NoLater(g.rows[k].expiresAt, g.expiresAt))
    && g.refreshKey in s.refreshes && s.refreshes[g.refreshKey].complete
    && g.startedAt == s.refreshes[g.refreshKey].createdAt && g.schemaVersion == s.refreshes[g.refreshKey].schemaVersion
  }

  /** Consecutive numbers; neither the start of the source refresh nor the schema version ever goes back. */
  predicate InOrder(generations: seq<Generation>, i: nat)
    requires i < |generations|
  {
    && generations[i].sequence == i + 1
    && (i > 0 ==> generations[i - 1].startedAt <= generations[i].startedAt
                  && generations[i - 1].schemaVersion <= generations[i].schemaVersion)
  }

  ghost predicate GenerationsOk(s: Store) {
    && (forall g <- s.generations :: GenerationOk(s, g))
    && (forall i: nat :: i < |s.generations| ==> InOrder(s.generations, i))
    && (forall i, j :: 0 <= i < j < |s.generations| ==> s.generations[i].refreshKey != s.generations[j].refreshKey)
    && (forall key <- s.refreshes :: s.refreshes[key].complete ==> GenerationOf(s, key).Some?)
  }

  ghost predicate Inv(s: Store) {
    VersionsOk(s) && RefreshesOk(s) && GenerationsOk(s)
  }

  // ---- Registration ----

  lemma {:induction false} VersionIndexAppend(versions: seq<Definition>, d: Definition, v: int)
    ensures VersionIndex(versions, v) < |versions| ==> VersionIndex(versions + [d], v) == VersionIndex(versions, v)
    ensures VersionIndex(versions, d.version) == |versions| ==> VersionIndex(versions + [d], d.version) == |versions|
  {
    if versions == [] {
      assert versions + [d] == [d];
    } else {
      assert (versions + [d])[1..] == versions[1..] + [d];
      VersionIndexAppend(versions[1..], d, v);
    }
  }

  /** Everything registered in `s` is registered alike in `t`. */
  ghost predicate MoreVersions(s: Store, t: Store) {
    forall v :: IsRegistered(s, v) ==> IsRegistered(t, v) && VersionOf(t, v) == VersionOf(s, v)
  }

  lemma AppendedIsRegistered(s: Store, t: Store, d: Definition)
    requires t.versions == s.versions + [d]
    ensures MoreVersions(s, t)
    ensures !IsRegistered(s, d.version) ==> IsRegistered(t, d.version) && VersionOf(t, d.version) == d
  {
    VersionIndexAppend(s.versions, d, d.version);
    forall v | IsRegistered(s, v) ensures IsRegistered(t, v) && VersionOf(t, v) == VersionOf(s, v) {
      VersionIndexAppend(s.versions, d, v);
    }
  }

  lemma AppendedIsChain(versions: seq<Definition>, d: Definition)
    requires IsChain(versions) && ValidDefinition(d)
    requires versions != [] ==> versions[|versions| - 1].version < d.version && Compatible(versions[|versions| - 1], d)
    ensures IsChain(versions + [d])
  {
    forall i: nat | 0 < i < |versions + [d]| ensures Succeeds(versions + [d], i) {
      if i < |versions| { assert Succeeds(versions, i); }
    }
  }

  /** Registration only adds a newer, compatible version and changes nothing registered before. */
  lemma RegisterKeeps(s: Store, d: Definition, fits: Fits)
    requires VersionsOk(s) && ValidDefinition(d) && Register(s, d, fits).Ok?
    ensures var t := Register(s, d, fits).value;
      && VersionsOk(t) && t.created && t.refreshes == s.refreshes && t.generations == s.generations
      && IsRegistered(t, d.version) && VersionOf(t, d.version) == d
      && MoreVersions(s, t)
      && (IsRegistered(s, d.version) && s.created ==> t == s)
  {
    var t := Register(s, d, fits).value;
    if !IsRegistered(s, d.version) {
      AppendedIsRegistered(s, t, d);
      AppendedIsChain(s.versions, d);
    }
  }

  lemma MoreVersionsKeepRefreshes(s: Store, t: Store)
    requires VersionsOk(s) && RefreshesOk(s) && VersionsOk(t) && t.refreshes == s.refreshes && MoreVersions(s, t)
    ensures RefreshesOk(t)
  {
    forall key | key in t.refreshes ensures RefreshOk(t, key, t.refreshes[key]) {
      assert RefreshOk(s, key, s.refreshes[key]);
    }
  }

  lemma MoreVersionsKeepGenerations(s: Store, t: Store)
    requires GenerationsOk(s) && t.refreshes == s.refreshes && t.generations == s.generations && MoreVersions(s, t)
    ensures GenerationsOk(t)
  {
    forall g | g in t.generations ensures GenerationOk(t, g) {
      assert GenerationOk(s, g);
    }
    forall i: nat | i < |t.generations| ensures InOrder(t.generations, i) {
      assert InOrder(s.generations, i);
    }
    forall key | key in t.refreshes && t.refreshes[key].complete ensures GenerationOf(t, key).Some? {
      assert GenerationOf(s, key).Some?;
    }
  }

  lemma RegisterKeepsInv(s: Store, t: Store)
    requires Inv(s) && VersionsOk(t) && t.refreshes == s.refreshes && t.generations == s.generations && MoreVersions(s, t)
    ensures Inv(t)
  {
    MoreVersionsKeepRefreshes(s, t);
    MoreVersionsKeepGenerations(s, t);
  }

  // ---- One delivery ----

  /** The delivery added a page. */
  ghost predicate Effective(s: Store, q: Input) { Ingest(s, q).answer.Ok? && !Ingest(s, q).answer.value.replayed }

  lemma AdmittedFacts(s: Store, q: Input)
    requires Admit(s, q).Ok?
    ensures PageProblem(q).None? && ValidDefinition(q.definition) && ValidPage(q.definition, q.page)
    ensures Register(s, q.definition, q.env.fits).Ok?
    ensures var t, r := Register(s, q.definition, q.env.fits).value, Opened(s, q);
      && r.schemaVersion == q.definition.version && r.window == q.page.window
      && Admit(s, q).value == t.(refreshes := t.refreshes[q.page.refreshKey := r])
  {
  }

  /** Registering a known definition again changes nothing. */
  lemma KnownIsRegistered(s: Store, v: int, fits: Fits)
    requires VersionsOk(s) && IsRegistered(s, v) && fits.connection
    ensures Register(s, VersionOf(s, v), fits) == Ok(s)
  {
    assert s.created && s.(created := true) == s;
  }

  /** A refresh with pages is a stored one, of a registered version. */
  lemma OpenedIsStored(s: Store, q: Input)
    requires Inv(s) && Opened(s, q).pages != []
    ensures q.page.refreshKey in s.refreshes && IsRegistered(s, Opened(s, q).schemaVersion)
    ensures s.refreshes[q.page.refreshKey := Opened(s, q)] == s.refreshes
  {
    assert RefreshOk(s, q.page.refreshKey, s.refreshes[q.page.refreshKey]);
  }

  lemma RegisteredAgain(s: Store, d: Definition, fits: Fits)
    requires VersionsOk(s) && IsRegistered(s, d.version) && Register(s, d, fits).Ok?
    ensures Register(s, d, fits) == Ok(s)
  {
    assert s.created && s.(created := true) == s;
  }

  /** A page that its refresh already has finds everything registered and opened. */
  lemma ReplayIsAdmittedUnchanged(s: Store, q: Input)
    requires Inv(s) && Admit(s, q).Ok? && HasPage(Opened(s, q), q.page.pageKey)
    ensures Admit(s, q).value == s
  {
    AdmittedFacts(s, q);
    OpenedIsStored(s, q);
    RegisteredAgain(s, q.definition, q.env.fits);
  }

  lemma IneffectiveIsRefusedOrReplayed(s: Store, q: Input)
    requires !Effective(s, q)
    ensures Ingest(s, q).store == s
      || (Admit(s, q).Ok? && HasPage(Opened(s, q), q.page.pageKey) && Ingest(s, q).store == Admit(s, q).value)
  {
  }

  /** A delivery that adds no page, refused or replayed, leaves the store as it is. */
  lemma IneffectiveChangesNothing(s: Store, q: Input)
    requires Inv(s) && !Effective(s, q)
    ensures Ingest(s, q).store == s
  {
    IneffectiveIsRefusedOrReplayed(s, q);
    if Ingest(s, q).store != s { ReplayIsAdmittedUnchanged(s, q); }
  }

  lemma EffectiveIsStaged(s: Store, q: Input)
    requires Effective(s, q)
    ensures Admit(s, q).Ok? && !HasPage(Opened(s, q), q.page.pageKey)
    ensures Ingest(s, q) == Staged(s, q, Admit(s, q).value, Opened(s, q))
  {
  }

  lemma StagedShape(s: Store, q: Input, admitted: Store, r: Refresh) returns (rows: Rows)
    requires Staged(s, q, admitted, r).answer.Ok?
    ensures ChainProblem(r, q).None?
    ensures Staged(s, q, admitted, r).store == admitted.(
      refreshes := admitted.refreshes[q.page.refreshKey := Received(r, q.page)],
      generations := if q.page.complete then admitted.generations + [NewGeneration(|admitted.generations|, r, q, rows)]
                     else admitted.generations)
    ensures q.page.complete ==> Published(admitted.generations, r, q, Received(r, q.page).pages) == Ok(rows)
    ensures Staged(s, q, admitted, r).answer
         == Ok(Answer(if q.page.complete then Some(|admitted.generations| + 1) else None, false))
  {
    rows := if q.page.complete then Published(admitted.generations, r, q, Received(r, q.page).pages).value else map[];
  }

  /** What a delivery that adds a page does: the page joins its refresh, and a final one publishes a generation. */
  lemma EffectiveShape(s: Store, q: Input) returns (t: Store, r: Refresh, rows: Rows)
    requires Effective(s, q)
    ensures Admit(s, q).Ok? && Register(s, q.definition, q.env.fits) == Ok(t) && r == Opened(s, q)
    ensures !HasPage(r, q.page.pageKey) && ChainProblem(r, q).None?
    ensures Ingest(s, q).store == Store(t.created, t.versions, t.refreshes[q.page.refreshKey := Received(r, q.page)],
      if q.page.complete then t.generations + [NewGeneration(|t.generations|, r, q, rows)] else t.generations)
    ensures q.page.complete ==> Published(t.generations, r, q, Received(r, q.page).pages) == Ok(rows)
    ensures Ingest(s, q).answer == Ok(Answer(if q.page.complete then Some(|t.generations| + 1) else None, false))
  {
    EffectiveIsStaged(s, q);
    AdmittedFacts(s, q);
    t, r := Register(s, q.definition, q.env.fits).value, Opened(s, q);
    rows := StagedShape(s, q, Admit(s, q).value, r);
    assert t.refreshes[q.page.refreshKey := r][q.page.refreshKey := Received(r, q.page)]
        == t.refreshes[q.page.refreshKey := Received(r, q.page)];
  }

  lemma {:induction false} RowCountAppend(pages: seq<Page>, p: Page, n: nat)
    requires n <= |pages|
    ensures RowCount(pages + [p], n) == RowCount(pages, n)
  {
    if n > 0 { RowCountAppend(pages, p, n - 1); }
  }

  lemma {:induction false} PageIndexFinds(pages: seq<Page>, i: nat)
    requires i < |pages|
    ensures PageIndex(pages, pages[i].pageKey) < |pages|
  {
    if i > 0 && pages[0].pageKey != pages[i].pageKey { PageIndexFinds(pages[1..], i - 1); }
  }

  /** A refresh before the page: a stored one, or one just opened with no pages. */
  ghost predicate OpenRefresh(s: Store, key: string, r: Refresh)
    requires VersionsOk(s)
  {
    if r.pages == [] then CountersOk(r) && IsRegistered(s, r.schemaVersion) else RefreshOk(s, key, r)
  }

  lemma OneMoreLinked(pages: seq<Page>, p: Page)
    requires forall i: nat :: i < |pages| ==> LinkedAt(pages, i)
    requires if pages == [] then p.previousPageKey == None
             else !pages[|pages| - 1].complete && p.previousPageKey == Some(pages[|pages| - 1].pageKey)
    ensures forall i: nat :: i < |pages + [p]| ==> LinkedAt(pages + [p], i)
  {
    forall i: nat | i < |pages + [p]| ensures LinkedAt(pages + [p], i) {
      if i < |pages| { assert LinkedAt(pages, i); }
    }
  }

  lemma OneMoreKey(r: Refresh, p: Page)
    requires !HasPage(r, p.pageKey)
    ensures forall i :: 0 <= i < |r.pages| ==> r.pages[i].pageKey != p.pageKey
  {
    forall i | 0 <= i < |r.pages| ensures r.pages[i].pageKey != p.pageKey {
      PageIndexFinds(r.pages, i);
    }
  }

  lemma ReceivedPagesOk(r: Refresh, p: Page, key: string, d: Definition)
    requires ValidDefinition(d) && PagesOk(r.pages, key, r.window, d) && !HasPage(r, p.pageKey)
    requires if r.pages == [] then p.previousPageKey == None
             else !r.pages[|r.pages| - 1].complete && p.previousPageKey == Some(r.pages[|r.pages| - 1].pageKey)
    requires p.refreshKey == key && p.window == r.window && ValidPage(d, p)
    ensures PagesOk(r.pages + [p], key, r.window, d)
  {
    OneMoreLinked(r.pages, p);
    OneMoreKey(r, p);
  }

  lemma ReceivedCounts(r: Refresh, p: Page)
    requires CountersOk(r)
    ensures CountersOk(Received(r, p))
  {
    RowCountAppend(r.pages, p, |r.pages|);
  }

  lemma ReceivedRefreshOk(s: Store, key: string, r: Refresh, q: Input)
    requires VersionsOk(s) && OpenRefresh(s, key, r) && ChainProblem(r, q).None? && !HasPage(r, q.page.pageKey)
    requires VersionOf(s, r.schemaVersion) == q.definition && ValidDefinition(q.definition)
    requires q.page.refreshKey == key && r.window == q.page.window && ValidPage(q.definition, q.page)
    ensures RefreshOk(s, key, Received(r, q.page))
  {
    assert PagesOk(r.pages, key, r.window, q.definition);
    ReceivedPagesOk(r, q.page, key, q.definition);
    ReceivedCounts(r, q.page);
  }

  lemma ReceivedKeepsRefreshes(s: Store, key: string, r: Refresh)
    requires VersionsOk(s) && RefreshesOk(s) && RefreshOk(s, key, r)
    ensures RefreshesOk(s.(refreshes := s.refreshes[key := r]))
  {
    var t := s.(refreshes := s.refreshes[key := r]);
    forall k | k in t.refreshes ensures RefreshOk(t, k, t.refreshes[k]) {
      assert RefreshOk(s, k, t.refreshes[k]);
      SameVersionsKeepRefresh(s, t, k, t.refreshes[k]);
    }
  }

  // ---- A publication ----

  /** The version a generation was written under carries its rows to the version of the refresh. */
  lemma EarlierVersionCarries(s: Store, before: int, after: int)
    requires VersionsOk(s) && IsRegistered(s, before) && IsRegistered(s, after) && before <= after
    ensures var d := VersionOf(s, after); d.mode.Snapshot? || VersionOf(s, before) == d || Carries(VersionOf(s, before), d)
  {
    var i, j := VersionIndex(s.versions, before), VersionIndex(s.versions, after);
    if i > j { ChainVersionsGrow(s.versions, j, i); }
    if i < j && !VersionOf(s, after).mode.Snapshot? { ChainIsCompatible(s.versions, i, j); }
  }

  lemma PageRecordsFit(pages: seq<Page>, key: string, window: Option<Window>, d: Definition, r: Record)
    requires ValidDefinition(d) && PagesOk(pages, key, window, d) && r in RecordSet(pages)
    ensures ValidRecord(d, r, window)
  {
    RecordsAre(pages, |pages|, r);
    var i :| 0 <= i < |pages| && r in pages[i].records;
    assert pages[i] in pages;
  }

  /** The rows a refresh is merged into fit a version that the refresh's version carries. */
  lemma PreviousRowsFit(t: Store, d: Definition) returns (before: Definition)
    requires VersionsOk(t) && GenerationsOk(t) && IsRegistered(t, d.version) && VersionOf(t, d.version) == d && ValidDefinition(d)
    requires t.generations != [] ==> t.generations[|t.generations| - 1].schemaVersion <= d.version
    ensures ValidDefinition(before) && RowsFit(before, PreviousRows(t.generations))
    ensures d.mode.Snapshot? || before == d || Carries(before, d)
  {
    before := d;
    if t.generations != [] {
      var last := t.generations[|t.generations| - 1];
      assert GenerationOk(t, last);
      before := VersionOf(t, last.schemaVersion);
      EarlierVersionCarries(t, last.schemaVersion, d.version);
    }
  }

  lemma SentRowsFit(pages: seq<Page>, key: string, window: Option<Window>, d: Definition)
    requires ValidDefinition(d) && PagesOk(pages, key, window, d)
    ensures forall x <- RecordSet(pages) :: IsDeleted(x) || RowFits(d, x.values)
  {
    forall x | x in RecordSet(pages) ensures IsDeleted(x) || RowFits(d, x.values) {
      PageRecordsFit(pages, key, window, d, x);
    }
  }

  lemma PublishedIsInOrder(generations: seq<Generation>, r: Refresh, q: Input, pages: seq<Page>)
    requires Published(generations, r, q, pages).Ok? && generations != []
    ensures generations[|generations| - 1].schemaVersion <= q.definition.version
    ensures generations[|generations| - 1].startedAt <= r.createdAt
  {
  }

  lemma PublishedRowsFit(t: Store, r: Refresh, q: Input, pages: seq<Page>)
    requires VersionsOk(t) && GenerationsOk(t) && IsRegistered(t, q.definition.version)
    requires VersionOf(t, q.definition.version) == q.definition
    requires ValidDefinition(q.definition) && PagesOk(pages, q.page.refreshKey, r.window, q.definition)
    requires Published(t.generations, r, q, pages).Ok?
    ensures RowsFit(q.definition, Published(t.generations, r, q, pages).value)
  {
    if t.generations != [] { PublishedIsInOrder(t.generations, r, q, pages); }
    var before := PreviousRowsFit(t, q.definition);
    SentRowsFit(pages, q.page.refreshKey, r.window, q.definition);
    PublishedIsMerged(t.generations, r, q, pages, Published(t.generations, r, q, pages).value);
    MergedFits(PreviousRows(t.generations), before, HeaderOf(r, q), pages);
  }

  lemma {:induction false} GenerationIndexAppend(generations: seq<Generation>, g: Generation, key: string)
    ensures GenerationIndex(generations, key) < |generations| ==>
      GenerationIndex(generations + [g], key) == GenerationIndex(generations, key)
    ensures GenerationIndex(generations, key) == |generations| && g.refreshKey == key ==>
      GenerationIndex(generations + [g], key) == |generations|
  {
    if generations == [] {
      assert generations + [g] == [g];
    } else {
      assert (generations + [g])[1..] == generations[1..] + [g];
      GenerationIndexAppend(generations[1..], g, key);
    }
  }

  lemma {:induction false} GenerationIndexFinds(generations: seq<Generation>, i: nat)
    requires i < |generations|
    ensures GenerationIndex(generations, generations[i].refreshKey) < |generations|
  {
    if i > 0 && generations[0].refreshKey != generations[i].refreshKey { GenerationIndexFinds(generations[1..], i - 1); }
  }

  /** The refresh of a page that is not final changes nothing about generations. */
  lemma ReceivedKeepsGenerations(t: Store, key: string, r: Refresh)
    requires GenerationsOk(t) && !r.complete && (key in t.refreshes ==> !t.refreshes[key].complete)
    ensures GenerationsOk(t.(refreshes := t.refreshes[key := r]))
  {
    var u := t.(refreshes := t.refreshes[key := r]);
    forall g | g in u.generations ensures GenerationOk(u, g) {
      assert GenerationOk(t, g);
    }
    forall k | k in u.refreshes && u.refreshes[k].complete ensures GenerationOf(u, k).Some? {
      assert GenerationOf(t, k).Some?;
    }
  }

  lemma PublishedKeepsGenerations(t: Store, key: string, r: Refresh, g: Generation)
    requires GenerationsOk(t) && r.complete && (key in t.refreshes ==> !t.refreshes[key].complete)
    requires g.refreshKey == key && g.sequence == |t.generations| + 1
    requires t.generations != [] ==> var last := t.generations[|t.generations| - 1];
      last.startedAt <= g.startedAt && last.schemaVersion <= g.schemaVersion
    requires GenerationOk(t.(refreshes := t.refreshes[key := r]), g)
    ensures GenerationsOk(t.(refreshes := t.refreshes[key := r], generations := t.generations + [g]))
  {
    var u := t.(refreshes := t.refreshes[key := r], generations := t.generations + [g]);
    forall x | x in u.generations ensures GenerationOk(u, x) {
      if x in t.generations { assert GenerationOk(t, x); }
    }
    forall i: nat | i < |u.generations| ensures InOrder(u.generations, i) {
      if i < |t.generations| { assert InOrder(t.generations, i); }
    }
    forall i | 0 <= i < |t.generations| ensures t.generations[i].refreshKey != key {
      assert GenerationOk(t, t.generations[i]);
    }
    forall k | k in u.refreshes && u.refreshes[k].complete ensures GenerationOf(u, k).Some? {
      GenerationIndexAppend(t.generations, g, k);
      if k != key { assert GenerationOf(t, k).Some?; } else { GenerationIndexFinds(u.generations, |t.generations|); }
    }
  }

  /** The page may join the refresh `r` of the store `t`, in which its version is registered. */
  ghost predicate Joins(t: Store, r: Refresh, q: Input)
    requires VersionsOk(t)
  {
    && OpenRefresh(t, q.page.refreshKey, r) && ChainProblem(r, q).None? && !HasPage(r, q.page.pageKey)
    && IsRegistered(t, r.schemaVersion) && VersionOf(t, r.schemaVersion) == q.definition
    && ValidDefinition(q.definition) && ValidPage(q.definition, q.page) && r.window == q.page.window
    && (q.page.refreshKey in t.refreshes ==> t.refreshes[q.page.refreshKey] == r)
  }

  lemma EffectiveJoins(s: Store, q: Input, t: Store, r: Refresh)
    requires Inv(s) && Admit(s, q).Ok? && Register(s, q.definition, q.env.fits) == Ok(t) && r == Opened(s, q)
    requires !HasPage(r, q.page.pageKey) && ChainProblem(r, q).None?
    ensures Inv(t) && Joins(t, r, q)
  {
    AdmittedFacts(s, q);
    RegisterKeeps(s, q.definition, q.env.fits);
    RegisterKeepsInv(s, t);
    if q.page.refreshKey in t.refreshes { assert RefreshOk(t, q.page.refreshKey, t.refreshes[q.page.refreshKey]); }
  }

  lemma StagingKeepsInv(t: Store, r: Refresh, q: Input)
    requires Inv(t) && Joins(t, r, q) && !q.page.complete
    ensures Inv(t.(refreshes := t.refreshes[q.page.refreshKey := Received(r, q.page)]))
  {
    ReceivedRefreshOk(t, q.page.refreshKey, r, q);
    ReceivedKeepsRefreshes(t, q.page.refreshKey, Received(r, q.page));
    ReceivedKeepsGenerations(t, q.page.refreshKey, Received(r, q.page));
  }

  lemma NewGenerationOk(t: Store, r: Refresh, q: Input, rows: Rows)
    requires Inv(t) && Joins(t, r, q) && q.page.complete && RefreshOk(t, q.page.refreshKey, Received(r, q.page))
    requires Published(t.generations, r, q, Received(r, q.page).pages) == Ok(rows)
    ensures GenerationOk(t.(refreshes := t.refreshes[q.page.refreshKey := Received(r, q.page)]),
                         NewGeneration(|t.generations|, r, q, rows))
  {
    PublishedRowsFit(t, r, q, Received(r, q.page).pages);
  }

  lemma PublishingKeepsInv(t: Store, r: Refresh, q: Input, rows: Rows)
    requires Inv(t) && Joins(t, r, q) && q.page.complete
    requires Published(t.generations, r, q, Received(r, q.page).pages) == Ok(rows)
    ensures Inv(t.(refreshes := t.refreshes[q.page.refreshKey := Received(r, q.page)],
                   generations := t.generations + [NewGeneration(|t.generations|, r, q, rows)]))
  {
    var key, next, g := q.page.refreshKey, Received(r, q.page), NewGeneration(|t.generations|, r, q, rows);
    ReceivedRefreshOk(t, key, r, q);
    ReceivedKeepsRefreshes(t, key, next);
    NewGenerationOk(t, r, q, rows);
    PublishedKeepsGenerations(t, key, next, g);
    MoreGenerationsKeepRefreshes(t.(refreshes := t.refreshes[key := next]), t.generations + [g]);
  }

  lemma EffectiveKeepsInv(s: Store, q: Input)
    requires Inv(s) && Effective(s, q)
    ensures Inv(Ingest(s, q).store)
  {
    var t, r, rows := EffectiveShape(s, q);
    EffectiveJoins(s, q, t, r);
    if q.page.complete { PublishingKeepsInv(t, r, q, rows); } else { StagingKeepsInv(t, r, q); }
  }

  lemma SameVersionsKeepRefresh(u: Store, v: Store, key: string, r: Refresh)
    requires VersionsOk(u) && VersionsOk(v) && u.versions == v.versions && RefreshOk(u, key, r)
    ensures RefreshOk(v, key, r)
  {
  }

  lemma MoreGenerationsKeepRefreshes(u: Store, generations: seq<Generation>)
    requires VersionsOk(u) && RefreshesOk(u)
    ensures VersionsOk(u.(generations := generations)) && RefreshesOk(u.(generations := generations))
  {
    var v := u.(generations := generations);
    forall key | key in v.refreshes ensures RefreshOk(v, key, v.refreshes[key]) {
      assert RefreshOk(u, key, u.refreshes[key]);
      SameVersionsKeepRefresh(u, v, key, u.refreshes[key]);
    }
  }

  lemma DeclaredKeepsInv(s: Store, d: Definition, fits: Fits)
    requires Inv(s)
    ensures Inv(Declared(s, d, fits))
  {
    if ValidDefinition(d) && Register(s, d, fits).Ok? {
      RegisterKeeps(s, d, fits);
      RegisterKeepsInv(s, Register(s, d, fits).value);
    }
  }

  lemma StepKeepsInv(s: Store, step: Step, next: Store)
    requires Inv(s) && Follows(s, step, next)
    ensures Inv(next)
  {
    match step.event
    case Deliver(q) => if Effective(s, q) { EffectiveKeepsInv(s, q); } else { IneffectiveChangesNothing(s, q); }
    case Declare(d, fits) => DeclaredKeepsInv(s, d, fits);
  }

  /**
   * In every reachable store each record of each generation has exactly the fields of that generation's version, of the
   * right types, under its own key, and expires no later than its generation; generations are numbered consecutively
   * and never go back in source start or version; every refresh is a linked chain of valid pages and has a generation,
   * one only, exactly when it is complete.
   */
  lemma {:induction false} RunsKeepInv(run: seq<Store>, steps: seq<Step>, n: nat)
    requires IsRun(run, steps) && n < |run|
    ensures Inv(run[n])
  {
    if n > 0 {
      RunsKeepInv(run, steps, n - 1);
      StepKeepsInv(run[n - 1], steps[n - 1], run[n]);
    }
  }

  // ---- At least once is exactly once ----

  /** A step that may change the store: not a delivery that was refused or replayed. */
  predicate Counts(step: Step) { step.event.Declare? || (step.answer.Ok? && !step.answer.value.replayed) }

  function PagesIn(s: Store, key: string): seq<Page> { if key in s.refreshes then s.refreshes[key].pages else [] }

  predicate DeliversTo(step: Step, key: string) { step.event.Deliver? && step.event.q.page.refreshKey == key }

  /** The page a step adds to a refresh. */
  function Brought(step: Step, key: string): seq<Page> {
    if DeliversTo(step, key) && Counts(step) then [step.event.q.page] else []
  }

  /** The page goes on from where the refresh is. */
  predicate GoesOn(pages: seq<Page>, p: Page) {
    if pages == [] then p.previousPageKey == None
    else !pages[|pages| - 1].complete && p.previousPageKey == Some(pages[|pages| - 1].pageKey)
  }

  /** A step seen from outside, as far as one refresh and the generations go. */
  ghost predicate Tracks(s: Store, step: Step, next: Store, key: string) {
    && (!Counts(step) ==> next == s)
    && PagesIn(next, key) == PagesIn(s, key) + Brought(step, key)
    && (Brought(step, key) != [] ==> GoesOn(PagesIn(s, key), step.event.q.page))
    && s.generations <= next.generations
  }

  lemma RegisterKeepsPages(s: Store, d: Definition, fits: Fits)
    requires Register(s, d, fits).Ok?
    ensures Register(s, d, fits).value.refreshes == s.refreshes
    ensures Register(s, d, fits).value.generations == s.generations
  {
  }

  lemma JoinedPageTracks(s: Store, r: Refresh, q: Input, next: Store, answer: Result<Answer, StoreError>, key: string)
    requires r == Opened(s, q) && CountersOk(r) && ChainProblem(r, q).None? && answer.Ok? && !answer.value.replayed
    requires next.refreshes == s.refreshes[q.page.refreshKey := Received(r, q.page)] && s.generations <= next.generations
    ensures Tracks(s, Step(Deliver(q), answer), next, key)
  {
    assert r.pages == PagesIn(s, q.page.refreshKey);
  }

  lemma EffectiveTracks(s: Store, q: Input, key: string)
    requires Inv(s) && Effective(s, q)
    ensures Tracks(s, Step(Deliver(q), Ingest(s, q).answer), Ingest(s, q).store, key)
  {
    var t, r, rows := EffectiveShape(s, q);
    EffectiveJoins(s, q, t, r);
    RegisterKeepsPages(s, q.definition, q.env.fits);
    JoinedPageTracks(s, r, q, Ingest(s, q).store, Ingest(s, q).answer, key);
  }

  lemma StepTracks(s: Store, step: Step, next: Store, key: string)
    requires Inv(s) && Follows(s, step, next)
    ensures Tracks(s, step, next, key)
  {
    match step.event
    case Deliver(q) => DeliveryTracks(s, q, key);
    case Declare(d, fits) => DeclarationTracks(s, d, fits, step.answer, key);
  }

  lemma DeliveryTracks(s: Store, q: Input, key: string)
    requires Inv(s)
    ensures Tracks(s, Step(Deliver(q), Ingest(s, q).answer), Ingest(s, q).store, key)
  {
    if Effective(s, q) { EffectiveTracks(s, q, key); } else { IneffectiveChangesNothing(s, q); }
  }

  lemma DeclarationTracks(s: Store, d: Definition, fits: Fits, answer: Result<Answer, StoreError>, key: string)
    ensures Tracks(s, Step(Declare(d, fits), answer), Declared(s, d, fits), key)
  {
    if Register(s, d, fits).Ok? { RegisterKeepsPages(s, d, fits); }
  }

  ghost predicate IsTrack(run: seq<Store>, steps: seq<Step>, key: string) {
    && |run| == |steps| + 1 && run[0] == EMPTY
    && forall i {:trigger steps[i]} :: 0 <= i < |steps| ==> Tracks(run[i], steps[i], run[i + 1], key)
  }

  lemma RunsTrack(run: seq<Store>, steps: seq<Step>, key: string)
    requires IsRun(run, steps)
    ensures IsTrack(run, steps, key)
  {
    forall i | 0 <= i < |steps| ensures Tracks(run[i], steps[i], run[i + 1], key) {
      RunsKeepInv(run, steps, i);
      StepTracks(run[i], steps[i], run[i + 1], key);
    }
  }

  /** The first `n` steps without the deliveries that were refused or replayed. */
  function Kept(steps: seq<Step>, n: nat): seq<Step>
    requires n <= |steps|
  {
    if n == 0 then [] else Kept(steps, n - 1) + if Counts(steps[n - 1]) then [steps[n - 1]] else []
  }

  lemma IdleStep(run: seq<Store>, steps: seq<Step>, i: nat)
    requires IsRun(run, steps) && i < |steps| && !Counts(steps[i])
    ensures run[i + 1] == run[i]
  {
    RunsTrack(run, steps, "");
    assert Tracks(run[i], steps[i], run[i + 1], "");
  }

  /** Stores that follow each other from the empty one, whatever following means. */
  ghost predicate Chains(follows: (Store, Step, Store) -> bool, run: seq<Store>, steps: seq<Step>) {
    && |run| == |steps| + 1 && run[0] == EMPTY
    && forall i {:trigger steps[i]} :: 0 <= i < |steps| ==> follows(run[i], steps[i], run[i + 1])
  }

  lemma {:induction false} KeptChain(follows: (Store, Step, Store) -> bool, run: seq<Store>, steps: seq<Step>, n: nat)
    returns (kept: seq<Store>)
    requires Chains(follows, run, steps) && n < |run|
    requires forall i {:trigger steps[i]} :: 0 <= i < |steps| && !Counts(steps[i]) ==> run[i + 1] == run[i]
    ensures Chains(follows, kept, Kept(steps, n)) && kept[|Kept(steps, n)|] == run[n]
  {
    if n == 0 { kept := [EMPTY]; } else {
      kept := KeptChain(follows, run, steps, n - 1);
      if Counts(steps[n - 1]) { kept := kept + [run[n]]; }
    }
  }

  lemma RunsAreChains(run: seq<Store>, steps: seq<Step>)
    ensures IsRun(run, steps) <==> Chains(Follows, run, steps)
  {
  }

  /** Duplicates, stale retries and out-of-order attempts leave no trace: the other steps alone are a run to the same store. */
  lemma OnlyKeptStepsMatter(run: seq<Store>, steps: seq<Step>, n: nat) returns (kept: seq<Store>)
    requires IsRun(run, steps) && n < |run|
    ensures IsRun(kept, Kept(steps, n)) && kept[|Kept(steps, n)|] == run[n]
  {
    RunsAreChains(run, steps);
    forall i | 0 <= i < |steps| && !Counts(steps[i]) ensures run[i + 1] == run[i] {
      IdleStep(run, steps, i);
    }
    kept := KeptChain(Follows, run, steps, n);
    RunsAreChains(kept, Kept(steps, n));
  }

  /** The pages that the kept deliveries of a refresh brought, in their order. */
  function KeptPages(steps: seq<Step>, n: nat, key: string): seq<Page>
    requires n <= |steps|
  {
    if n == 0 then [] else KeptPages(steps, n - 1, key) + Brought(steps[n - 1], key)
  }

  /** The pages of one refresh over time. */
  ghost predicate IsPageHistory(pages: seq<seq<Page>>, steps: seq<Step>, key: string) {
    && |pages| == |steps| + 1 && pages[0] == []
    && forall i {:trigger steps[i]} :: 0 <= i < |steps| ==>
         && pages[i + 1] == pages[i] + Brought(steps[i], key)
         && (Brought(steps[i], key) != [] ==> GoesOn(pages[i], steps[i].event.q.page))
  }

  lemma PageHistory(run: seq<Store>, steps: seq<Step>, key: string) returns (pages: seq<seq<Page>>)
    requires IsTrack(run, steps, key)
    ensures IsPageHistory(pages, steps, key)
    ensures forall i :: 0 <= i < |run| ==> pages[i] == PagesIn(run[i], key)
  {
    pages := seq(|run|, i requires 0 <= i < |run| => PagesIn(run[i], key));
    forall i | 0 <= i < |steps|
      ensures pages[i + 1] == pages[i] + Brought(steps[i], key)
      ensures Brought(steps[i], key) != [] ==> GoesOn(pages[i], steps[i].event.q.page)
    {
      assert Tracks(run[i], steps[i], run[i + 1], key);
    }
  }

  lemma {:induction false} HistoryKeepsPages(pages: seq<seq<Page>>, steps: seq<Step>, n: nat, key: string)
    requires IsPageHistory(pages, steps, key) && n <= |steps|
    ensures pages[n] == KeptPages(steps, n, key)
  {
    if n > 0 { HistoryKeepsPages(pages, steps, n - 1, key); }
  }

  /** A refresh holds exactly the pages its kept deliveries brought, each once, in that order. */
  lemma PagesAreKeptOnce(run: seq<Store>, steps: seq<Step>, n: nat, key: string)
    requires IsRun(run, steps) && n < |run|
    ensures PagesIn(run[n], key) == KeptPages(steps, n, key)
  {
    RunsTrack(run, steps, key);
    var pages := PageHistory(run, steps, key);
    HistoryKeepsPages(pages, steps, n, key);
  }

  /** A refresh as its source sends it: linked pages with different keys, the last one complete. */
  ghost predicate WellLinked(pages: seq<Page>, key: string) {
    && |pages| > 0 && (forall i: nat :: i < |pages| ==> LinkedAt(pages, i))
    && (forall i, j :: 0 <= i < j < |pages| ==> pages[i].pageKey != pages[j].pageKey)
    && (forall p <- pages :: p.refreshKey == key) && pages[|pages| - 1].complete
  }

  /** Every delivery to the refresh among the first `n` steps is of a page of the list. */
  ghost predicate Delivers(steps: seq<Step>, n: nat, key: string, list: seq<Page>)
    requires n <= |steps|
  {
    forall i :: 0 <= i < n && DeliversTo(steps[i], key) ==> steps[i].event.q.page in list
  }

  /** Only the next page of the list goes on from a prefix of it. */
  lemma NextPageGoesOn(list: seq<Page>, key: string, pages: seq<Page>, p: Page)
    requires WellLinked(list, key) && pages <= list && p in list && GoesOn(pages, p)
    ensures pages + [p] <= list
  {
    var m :| 0 <= m < |list| && list[m] == p;
    assert LinkedAt(list, m);
    var k := |pages|;
    assert m == k;
  }

  lemma {:induction false} HistoryIsAPrefix(pages: seq<seq<Page>>, steps: seq<Step>, n: nat, key: string, list: seq<Page>)
    requires IsPageHistory(pages, steps, key) && n <= |steps| && WellLinked(list, key) && Delivers(steps, n, key, list)
    ensures pages[n] <= list
  {
    if n > 0 {
      HistoryIsAPrefix(pages, steps, n - 1, key, list);
      if Brought(steps[n - 1], key) != [] { NextPageGoesOn(list, key, pages[n - 1], steps[n - 1].event.q.page); }
    }
  }

  /**
   * For a well-linked list delivered in any order, any number of times, between any other deliveries, the refresh always
   * holds a prefix of the list.
   */
  lemma DeliveredPagesAreAPrefix(run: seq<Store>, steps: seq<Step>, n: nat, key: string, list: seq<Page>)
    requires IsRun(run, steps) && n < |run| && WellLinked(list, key) && Delivers(steps, n, key, list)
    ensures PagesIn(run[n], key) <= list
  {
    RunsTrack(run, steps, key);
    var pages := PageHistory(run, steps, key);
    HistoryIsAPrefix(pages, steps, n, key, list);
  }

  /** How many generations came from the refresh. */
  function Publications(generations: seq<Generation>, key: string, n: nat): nat
    requires n <= |generations|
  {
    if n == 0 then 0 else Publications(generations, key, n - 1) + if generations[n - 1].refreshKey == key then 1 else 0
  }

  lemma {:induction false} PublicationsOfDistinct(generations: seq<Generation>, key: string, n: nat)
    requires n <= |generations|
    requires forall i, j :: 0 <= i < j < |generations| ==> generations[i].refreshKey != generations[j].refreshKey
    ensures Publications(generations, key, n) <= 1
    ensures Publications(generations, key, n) == 1 <==> exists i :: 0 <= i < n && generations[i].refreshKey == key
  {
    if n > 0 { PublicationsOfDistinct(generations, key, n - 1); }
  }

  /** Its generation is published exactly once, when the whole list has arrived. */
  lemma PublishedExactlyOnce(run: seq<Store>, steps: seq<Step>, n: nat, key: string, list: seq<Page>)
    requires IsRun(run, steps) && n < |run| && WellLinked(list, key) && Delivers(steps, n, key, list)
    ensures Publications(run[n].generations, key, |run[n].generations|) == if PagesIn(run[n], key) == list then 1 else 0
  {
    RunsKeepInv(run, steps, n);
    DeliveredPagesAreAPrefix(run, steps, n, key, list);
    PublicationsOf(run[n], key, list);
  }

  lemma PublicationsOf(s: Store, key: string, list: seq<Page>)
    requires Inv(s) && WellLinked(list, key) && PagesIn(s, key) <= list
    ensures Publications(s.generations, key, |s.generations|) == if PagesIn(s, key) == list then 1 else 0
  {
    PublicationsOfDistinct(s.generations, key, |s.generations|);
    PublishedIffComplete(s, key);
    if key in s.refreshes {
      assert RefreshOk(s, key, s.refreshes[key]);
      PrefixIsCompleteAtTheEnd(s.refreshes[key].pages, list, key);
    }
  }

  lemma PublishedIffComplete(s: Store, key: string)
    requires Inv(s)
    ensures (exists i :: 0 <= i < |s.generations| && s.generations[i].refreshKey == key)
      <==> key in s.refreshes && s.refreshes[key].complete
  {
    if i :| 0 <= i < |s.generations| && s.generations[i].refreshKey == key {
      assert GenerationOk(s, s.generations[i]);
    }
    if key in s.refreshes && s.refreshes[key].complete {
      assert GenerationOf(s, key).Some?;
      assert s.generations[GenerationIndex(s.generations, key)].refreshKey == key;
    }
  }

  lemma PrefixIsCompleteAtTheEnd(pages: seq<Page>, list: seq<Page>, key: string)
    requires WellLinked(list, key) && 0 < |pages| && pages <= list
    ensures pages[|pages| - 1].complete <==> pages == list
  {
    if |pages| < |list| { assert LinkedAt(list, |pages|); }
  }

  /** A page of a known version that joins its refresh as it is stored is admitted without a change. */
  lemma AdmittedAsStored(s: Store, q: Input)
    requires PageProblem(q).None? && Register(s, q.definition, q.env.fits) == Ok(s) && !Passed(Admission(s, q), FirstClock(q))
    requires Opened(s, q).schemaVersion == q.definition.version && Opened(s, q).window == q.page.window
    requires s.refreshes[q.page.refreshKey := Opened(s, q)] == s.refreshes
    ensures Admit(s, q) == Ok(s)
  {
  }

  lemma StoredPageFits(s: Store, key: string, p: Page)
    requires Inv(s) && p in PagesIn(s, key)
    ensures key in s.refreshes && IsRegistered(s, s.refreshes[key].schemaVersion)
    ensures p.refreshKey == key && p.window == s.refreshes[key].window && CarriesPage(s.refreshes[key], p)
  {
    assert RefreshOk(s, key, s.refreshes[key]);
    StoredPageIsFound(s.refreshes[key], p);
  }

  /** The admission of a page that its refresh already holds finds nothing to do. */
  lemma AcceptedPageIsAdmitted(s: Store, q: Input)
    requires Inv(s) && PageProblem(q).None? && q.env.fits.connection && q.page in PagesIn(s, q.page.refreshKey)
    requires q.definition == VersionOfRefresh(s, q.page.refreshKey) && !Passed(Admission(s, q), FirstClock(q))
    ensures Admit(s, q) == Ok(s) && HasPage(Opened(s, q), q.page.pageKey) && q.page.refreshKey in s.refreshes
    ensures CarriesPage(s.refreshes[q.page.refreshKey], q.page)
  {
    StoredPageFits(s, q.page.refreshKey, q.page);
    OpenedIsStored(s, q);
    KnownIsRegistered(s, s.refreshes[q.page.refreshKey].schemaVersion, q.env.fits);
    AdmittedAsStored(s, q);
  }

  lemma StoredPageIsFound(r: Refresh, p: Page)
    requires p in r.pages && forall i, j :: 0 <= i < j < |r.pages| ==> r.pages[i].pageKey != r.pages[j].pageKey
    ensures CarriesPage(r, p)
  {
    var i :| 0 <= i < |r.pages| && r.pages[i] == p;
    OnePagePerKey(r.pages, i);
  }

  predicate CarriesPage(r: Refresh, p: Page) { HasPage(r, p.pageKey) && PageOf(r, p.pageKey) == p }

  /** A page already accepted, delivered again while its deadline lasts, changes nothing and is answered the same way. */
  lemma AcceptedPagesReplay(s: Store, q: Input)
    requires Inv(s) && PageProblem(q).None? && q.env.fits.connection && q.page in PagesIn(s, q.page.refreshKey)
    requires q.definition == VersionOfRefresh(s, q.page.refreshKey)
    requires !Passed(Admission(s, q), FirstClock(q)) && !Passed(Admission(s, q), LastClock(q))
    ensures Ingest(s, q) == Outcome(s, Ok(Answer(GenerationOf(s, q.page.refreshKey), true)))
  {
    AcceptedPageIsAdmitted(s, q);
  }

  lemma OnePagePerKey(pages: seq<Page>, i: nat)
    requires i < |pages| && forall i, j :: 0 <= i < j < |pages| ==> pages[i].pageKey != pages[j].pageKey
    ensures PageIndex(pages, pages[i].pageKey) == i
  {
    PageIndexFinds(pages, i);
  }

  function VersionOfRefresh(s: Store, key: string): Definition
    requires key in s.refreshes && IsRegistered(s, s.refreshes[key].schemaVersion)
  {
    VersionOf(s, s.refreshes[key].schemaVersion)
  }

  // ---- Window replacement ----

  lemma WindowPagesStayInside(pages: seq<Page>, key: string, d: Definition, h: Header)
    requires ValidDefinition(d) && d.mode.ReplaceWindow? && h.definition == d && h.window.Some?
    requires PagesOk(pages, key, h.window, d)
    ensures InsideOnly(h, RecordSet(pages))
  {
    forall r | r in RecordSet(pages) ensures !IsDeleted(r) && InWindow(d, r.values, h.window.value) {
      PageRecordsFit(pages, key, h.window, d, r);
    }
  }

  lemma PublishedIsMerged(generations: seq<Generation>, r: Refresh, q: Input, pages: seq<Page>, rows: Rows)
    requires Published(generations, r, q, pages) == Ok(rows)
    ensures Merged(PreviousRows(generations), HeaderOf(r, q), pages) == Ok(rows)
  {
  }

  /** A delivery that publishes merges its refresh's pages into the rows of the generation before. */
  lemma PublicationIsMerge(s: Store, q: Input) returns (rows: Rows)
    requires Effective(s, q) && q.page.complete
    ensures var next := Ingest(s, q).store;
      && q.page.refreshKey in next.refreshes && next.generations != []
      && next.generations[|next.generations| - 1].rows == rows
      && var r := next.refreshes[q.page.refreshKey];
         Merged(PreviousRows(s.generations), HeaderOf(r, q), r.pages) == Ok(rows)
  {
    var t, r;
    t, r, rows := EffectiveShape(s, q);
    RegisterKeepsPages(s, q.definition, q.env.fits);
    PublishedIsMerged(t.generations, r, q, Received(r, q.page).pages, rows);
    assert HeaderOf(Received(r, q.page), q) == HeaderOf(r, q);
  }

  /** What is known of a delivery that publishes a window. */
  lemma PublishedWindow(s: Store, q: Input) returns (rows: Rows)
    requires Inv(s) && Effective(s, q) && q.page.complete && q.definition.mode.ReplaceWindow? && q.page.window.Some?
    ensures var next := Ingest(s, q).store;
      && q.page.refreshKey in next.refreshes && next.generations != []
      && next.generations[|next.generations| - 1].rows == rows
      && var r := next.refreshes[q.page.refreshKey];
         && InsideOnly(HeaderOf(r, q), RecordSet(r.pages))
         && Merged(PreviousRows(s.generations), HeaderOf(r, q), r.pages) == Ok(rows)
  {
    rows := PublicationIsMerge(s, q);
    WindowPagesInside(s, q);
  }

  lemma WindowPagesInside(s: Store, q: Input)
    requires Inv(s) && Effective(s, q) && q.definition.mode.ReplaceWindow? && q.page.window.Some?
    ensures var r := Ingest(s, q).store.refreshes;
      q.page.refreshKey in r && InsideOnly(HeaderOf(r[q.page.refreshKey], q), RecordSet(r[q.page.refreshKey].pages))
  {
    var t, r, rows := EffectiveShape(s, q);
    EffectiveJoins(s, q, t, r);
    ReceivedRefreshOk(t, q.page.refreshKey, r, q);
    WindowPagesStayInside(Received(r, q.page).pages, q.page.refreshKey, q.definition, HeaderOf(Received(r, q.page), q));
  }

  /** A published window holds, inside it, exactly the refresh's rows: each record sent, and no other row. */
  lemma PublishedWindowIsTheRefresh(s: Store, q: Input, next: Store)
    requires Inv(s) && Effective(s, q) && q.page.complete && next == Ingest(s, q).store
    requires q.definition.mode.ReplaceWindow? && q.page.window.Some?
    ensures q.page.refreshKey in next.refreshes && next.generations != []
    ensures var rows, r := next.generations[|next.generations| - 1].rows, next.refreshes[q.page.refreshKey];
      && (forall x <- RecordSet(r.pages) :: RecordKey(q.definition, x.values) in rows
            && rows[RecordKey(q.definition, x.values)] == Row(x.values, r.collectedAt, r.expiresAt))
      && (forall k <- rows :: InWindow(q.definition, rows[k].values, q.page.window.value) <==>
            exists x <- RecordSet(r.pages) :: RecordKey(q.definition, x.values) == k)
  {
    var rows := PublishedWindow(s, q);
    var r := next.refreshes[q.page.refreshKey];
    WindowIsReplaced(PreviousRows(s.generations), HeaderOf(r, q), r.pages);
    forall x | x in RecordSet(r.pages)
      ensures RecordKey(q.definition, x.values) in rows
      ensures rows[RecordKey(q.definition, x.values)] == Row(x.values, r.collectedAt, r.expiresAt)
    {
      assert KeyOf(HeaderOf(r, q), x) == RecordKey(q.definition, x.values);
    }
    forall k | k in rows
      ensures InWindow(q.definition, rows[k].values, q.page.window.value) <==>
        exists x <- RecordSet(r.pages) :: RecordKey(q.definition, x.values) == k
    {
      if InWindow(q.definition, rows[k].values, q.page.window.value) {
        var x :| x in RecordSet(r.pages) && KeyOf(HeaderOf(r, q), x) == k;
        assert RecordKey(q.definition, x.values) == k;
      }
      if x :| x in RecordSet(r.pages) && RecordKey(q.definition, x.values) == k {
        assert KeyOf(HeaderOf(r, q), x) == k;
      }
    }
  }

  /**
   * Every row of the generation before that lies outside the window, null-filled, and is not sent again survives the
   * publication exactly when it is unexpired, changed only by null-filled fields and a shortened deadline.
   */
  lemma PublishedOutsideWindowSurvives(s: Store, q: Input, next: Store, k: Key)
    requires Inv(s) && Effective(s, q) && q.page.complete && next == Ingest(s, q).store
    requires q.definition.mode.ReplaceWindow? && q.page.window.Some? && k in PreviousRows(s.generations)
    requires !InWindow(q.definition, NullFilled(PreviousRows(s.generations)[k].values, q.definition), q.page.window.value)
    requires forall x <- RecordSet(PagesIn(next, q.page.refreshKey)) :: RecordKey(q.definition, x.values) != k
    ensures next.generations != [] && q.page.refreshKey in next.refreshes
    ensures var rows := next.generations[|next.generations| - 1].rows;
      var row := Carried(PreviousRows(s.generations)[k], HeaderOf(next.refreshes[q.page.refreshKey], q));
      (k in rows <==> !Passed(row.expiresAt, q.now)) && (k in rows ==> rows[k] == row)
  {
    var rows := PublishedWindow(s, q);
    var r := next.refreshes[q.page.refreshKey];
    forall x | x in RecordSet(r.pages) ensures KeyOf(HeaderOf(r, q), x) != k {
      assert KeyOf(HeaderOf(r, q), x) == RecordKey(q.definition, x.values);
    }
    OutsideWindowSurvives(PreviousRows(s.generations), HeaderOf(r, q), r.pages, k);
  }

  // ---- Deadlines ----

  /** No row of a published generation outlives what it came from: its refresh, or the row it was carried from. */
  lemma PublishedDeadlines(s: Store, q: Input, next: Store, k: Key)
    requires Inv(s) && Effective(s, q) && q.page.complete && next == Ingest(s, q).store && next.generations != []
    requires k in next.generations[|next.generations| - 1].rows
    ensures q.page.refreshKey in next.refreshes
    ensures KeepsDeadline(PreviousRows(s.generations), HeaderOf(next.refreshes[q.page.refreshKey], q), k,
                          next.generations[|next.generations| - 1].rows[k])
  {
    var t, r, rows := EffectiveShape(s, q);
    RegisterKeepsPages(s, q.definition, q.env.fits);
    assert HeaderOf(next.refreshes[q.page.refreshKey], q) == HeaderOf(r, q);
    DeadlinesNeverLengthen(PreviousRows(s.generations), HeaderOf(r, q), Received(r, q.page).pages, k);
  }

  /**
   * Replayed and staged data never outlive their source exactly when the delivery opens its refresh, or the refresh it
   * joins already ends by then: the deadline of a refresh is fixed by its first page.
   */
  lemma ProvenanceDeadlineIff(s: Store, q: Input, next: Store)
    requires Inv(s) && Effective(s, q) && q.retained.Some? && next == Ingest(s, q).store
    ensures q.page.refreshKey in next.refreshes
    ensures NoLater(next.refreshes[q.page.refreshKey].expiresAt, q.retained.value.expiresAt) <==>
      q.page.refreshKey !in s.refreshes || NoLater(s.refreshes[q.page.refreshKey].expiresAt, q.retained.value.expiresAt)
  {
    var t, r, rows := EffectiveShape(s, q);
  }

  /** A generation's own rows, or nothing when the wanted one is missing or expired. */
  function Preview(s: Store, wanted: Option<nat>, now: int): Option<Rows> {
    var n := Wanted(s, wanted);
    if n == 0 || n > |s.generations| || Passed(s.generations[n - 1].expiresAt, now) then None
    else Some(LiveRows(s.generations[n - 1].rows, now))
  }

  lemma ExpiredGenerationIsDead(g: Generation, now: int)
    requires (forall k <- g.rows :: NoLater(g.rows[k].expiresAt, g.expiresAt)) && Passed(g.expiresAt, now)
    ensures LiveRows(g.rows, now) == map[]
  {
    forall k | k in g.rows ensures Passed(g.rows[k].expiresAt, now) {
    }
  }

  lemma ExpiredHasNoLiveRow(s: Store, i: nat, now: int)
    requires GenerationsOk(s) && i < |s.generations| && Passed(s.generations[i].expiresAt, now)
    ensures LiveRows(s.generations[i].rows, now) == map[]
  {
    assert GenerationOk(s, s.generations[i]);
    ExpiredGenerationIsDead(s.generations[i], now);
  }

  function Wanted(s: Store, wanted: Option<nat>): nat { if wanted.Some? then wanted.value else |s.generations| }

  lemma RefusedIsExpired(s: Store, wanted: Option<nat>, now: int)
    requires Preview(s, wanted, now).None? && 0 < Wanted(s, wanted) <= |s.generations|
    ensures Passed(s.generations[Wanted(s, wanted) - 1].expiresAt, now)
  {
  }

  /** In every reachable store, refusing an expired generation hides no live row. */
  lemma PreviewHidesNothingLive(s: Store, wanted: Option<nat>, now: int)
    requires Inv(s) && Preview(s, wanted, now).None?
    ensures 0 < Wanted(s, wanted) <= |s.generations| ==> LiveRows(s.generations[Wanted(s, wanted) - 1].rows, now) == map[]
  {
    if 0 < Wanted(s, wanted) <= |s.generations| {
      RefusedIsExpired(s, wanted, now);
      ExpiredHasNoLiveRow(s, Wanted(s, wanted) - 1, now);
    }
  }

  // ---- Generations over a run ----

  predicate GrowsAt(history: seq<seq<Generation>>, i: nat)
    requires i + 1 < |history|
  {
    history[i] <= history[i + 1]
  }

  lemma {:induction false} HistoryGrows(history: seq<seq<Generation>>, m: nat, n: nat)
    requires (forall i: nat :: i + 1 < |history| ==> GrowsAt(history, i)) && m <= n < |history|
    ensures history[m] <= history[n]
    decreases n
  {
    if m < n {
      HistoryGrows(history, m, n - 1);
      assert GrowsAt(history, n - 1);
    }
  }

  /** Published generations are never changed or dropped by later deliveries. */
  lemma GenerationsOnlyGrow(run: seq<Store>, steps: seq<Step>, m: nat, n: nat)
    requires IsRun(run, steps) && m <= n < |run|
    ensures run[m].generations <= run[n].generations
  {
    RunsTrack(run, steps, "");
    var history := seq(|run|, i requires 0 <= i < |run| => run[i].generations);
    forall i: nat | i + 1 < |history| ensures GrowsAt(history, i) {
      assert Tracks(run[i], steps[i], run[i + 1], "");
    }
    HistoryGrows(history, m, n);
  }

  /** An older refresh that arrives late never replaces a newer one, nor an older schema a newer one. */
  lemma {:induction false} GenerationsNeverGoBack(s: Store, i: nat, j: nat)
    requires Inv(s) && i <= j < |s.generations|
    ensures var g, h := s.generations[i], s.generations[j];
      g.sequence == i + 1 && g.startedAt <= h.startedAt && g.schemaVersion <= h.schemaVersion
    decreases j
  {
    assert InOrder(s.generations, i);
    if i < j {
      GenerationsNeverGoBack(s, i, j - 1);
      assert InOrder(s.generations, j);
    }
  }
}
