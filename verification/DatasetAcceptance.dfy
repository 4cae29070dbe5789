/** When a schema version or a page is accepted, told from the store and the delivery alone. */
module DatasetAcceptance {
  import opened Common
  import opened DatasetTypes
  import opened DatasetSchemas
  import opened DatasetMerge
  import opened DatasetStore
  import opened DatasetRuns

  // ---- Registration ----

  /** Newer than every version, and of the same policy; but for a snapshot, rows of the last one carry over unchanged. */
  ghost predicate MayFollow(versions: seq<Definition>, d: Definition) {
    && (forall v <- versions :: v.version < d.version)
    && (versions != [] ==>
          var last := versions[|versions| - 1];
          SamePolicy(last, d) && (d.mode == Snapshot || (KeepsMeaning(last, d) && RowsCarryOver(last, d))))
  }

  ghost predicate MayRegister(s: Store, d: Definition, fits: Fits) {
    fits.connection && (s.created || fits.sources) && (d in s.versions || MayFollow(s.versions, d))
  }

  ghost predicate Increasing(versions: seq<Definition>) {
    forall i, j :: 0 <= i < j < |versions| ==> versions[i].version < versions[j].version
  }

  lemma ChainsIncrease(versions: seq<Definition>)
    requires IsChain(versions)
    ensures Increasing(versions)
  {
    forall i: nat, j: nat | i < j < |versions| ensures versions[i].version < versions[j].version {
      ChainVersionsGrow(versions, i, j);
    }
  }

  lemma LastIsNewest(versions: seq<Definition>, version: int)
    requires Increasing(versions) && versions != []
    ensures (forall v <- versions :: v.version < version) <==> versions[|versions| - 1].version < version
  {
  }

  lemma KnownIsFound(versions: seq<Definition>, d: Definition)
    requires Increasing(versions)
    ensures var i := VersionIndex(versions, d.version);
      && (d in versions <==> i < |versions| && versions[i] == d)
      && (i < |versions| <==> exists v <- versions :: v.version == d.version)
  {
    var i := VersionIndex(versions, d.version);
    if d in versions {
      var j: nat :| j < |versions| && versions[j] == d;
      assert i == j;
    }
  }

  lemma FollowsIff(versions: seq<Definition>, d: Definition)
    requires IsChain(versions) && ValidDefinition(d)
    ensures MayFollow(versions, d) <==>
      (versions != [] ==> versions[|versions| - 1].version < d.version && Compatible(versions[|versions| - 1], d))
  {
    if versions != [] {
      ChainsIncrease(versions);
      LastIsNewest(versions, d.version);
      CompatibleIff(versions[|versions| - 1], d);
    }
  }

  /** A version is accepted exactly when it is known or may follow the known ones, and then it is known and nothing else changes. */
  lemma RegistersIff(s: Store, d: Definition, fits: Fits)
    requires VersionsOk(s) && ValidDefinition(d)
    ensures Register(s, d, fits).Ok? <==> MayRegister(s, d, fits)
    ensures Register(s, d, fits).Ok? ==>
      Register(s, d, fits).value == Store(true, if d in s.versions then s.versions else s.versions + [d], s.refreshes, s.generations)
  {
    ChainsIncrease(s.versions);
    KnownIsFound(s.versions, d);
    FollowsIff(s.versions, d);
  }

  /** The reason given for refusing a version is true. */
  lemma RegistrationRefusalIsTrue(s: Store, d: Definition, fits: Fits)
    requires VersionsOk(s) && ValidDefinition(d) && Register(s, d, fits).Err?
    ensures match Register(s, d, fits).error
      case ConnectionNotFound => !fits.connection
      case SourceQuota => !s.created && !fits.sources
      case SchemaVersionConflict => d !in s.versions && exists v <- s.versions :: v.version == d.version
      case SchemaIncompatible => (forall v <- s.versions :: v.version != d.version) && !MayFollow(s.versions, d)
      case _ => false
  {
    ChainsIncrease(s.versions);
    KnownIsFound(s.versions, d);
    FollowsIff(s.versions, d);
  }

  // ---- Admission ----

  predicate InTime(e: Deadline, now: int) { e.None? || now < e.value }

  predicate Within(n: int, limit: Option<int>) { limit.None? || n <= limit.value }

  /** A page of its definition, made of data that is not from the future and still lasts. */
  ghost predicate Deliverable(q: Input) {
    && q.env.policy.quotaValid && ValidDefinition(q.definition) && ValidPage(q.definition, q.page) && q.env.fits.page
    && (q.retained.Some? ==> q.retained.value.collectedAt <= q.now)
    && InTime(ExpiresAt(q), q.now)
  }

  /** Neither the delivery nor the refresh it joins has ended. */
  ghost predicate AllInTime(s: Store, q: Input, now: int) {
    && InTime(ExpiresAt(q), now)
    && (q.page.refreshKey in s.refreshes ==> InTime(s.refreshes[q.page.refreshKey].expiresAt, now))
  }

  ghost predicate SameRefresh(s: Store, q: Input) {
    q.page.refreshKey in s.refreshes ==>
      var r := s.refreshes[q.page.refreshKey]; r.schemaVersion == q.definition.version && r.window == q.page.window
  }

  ghost predicate MayEnter(s: Store, q: Input) {
    && Deliverable(q) && MayRegister(s, q.definition, q.env.fits)
    && AllInTime(s, q, if q.clocks.Some? then q.clocks.value.0 else q.now) && SameRefresh(s, q)
  }

  lemma DeliverableIff(q: Input)
    ensures PageProblem(q).None? <==> Deliverable(q)
  {
  }

  lemma InTimeIff(s: Store, q: Input, now: int)
    ensures Passed(Admission(s, q), now) <==> !AllInTime(s, q, now)
  {
  }

  lemma EntersIff(s: Store, q: Input)
    requires Inv(s)
    ensures Admit(s, q).Ok? <==> MayEnter(s, q)
  {
    DeliverableIff(q);
    if PageProblem(q).None? {
      RegistersIff(s, q.definition, q.env.fits);
      InTimeIff(s, q, FirstClock(q));
    }
  }

  // ---- The page in its refresh ----

  /** The page of the key, if the refresh holds one. */
  ghost predicate Holds(s: Store, q: Input, p: Page) { p in PagesIn(s, q.page.refreshKey) && p.pageKey == q.page.pageKey }

  /** The next page of its refresh, and not too much of it. */
  ghost predicate MayJoin(s: Store, q: Input) {
    var pages := PagesIn(s, q.page.refreshKey);
    && GoesOn(pages, q.page)
    && Within(|pages| + 1, q.env.policy.maxRefreshPages)
    && Within(RowCount(pages, |pages|) + |q.page.records|, q.env.policy.generationRows)
  }

  lemma HoldsIff(s: Store, q: Input)
    requires Inv(s)
    ensures HasPage(Opened(s, q), q.page.pageKey) <==> exists p <- PagesIn(s, q.page.refreshKey) :: p.pageKey == q.page.pageKey
    ensures HasPage(Opened(s, q), q.page.pageKey) ==>
      (PageOf(Opened(s, q), q.page.pageKey) == q.page <==> q.page in PagesIn(s, q.page.refreshKey))
  {
    OpenedHasOwnKeys(s, q);
    PageIsFound(Opened(s, q).pages, q.page);
  }

  lemma OpenedHasOwnKeys(s: Store, q: Input)
    requires Inv(s)
    ensures Opened(s, q).pages == PagesIn(s, q.page.refreshKey)
    ensures var pages := Opened(s, q).pages; forall i, j :: 0 <= i < j < |pages| ==> pages[i].pageKey != pages[j].pageKey
  {
    if q.page.refreshKey in s.refreshes { assert RefreshOk(s, q.page.refreshKey, s.refreshes[q.page.refreshKey]); }
  }

  lemma PageIsFound(pages: seq<Page>, page: Page)
    requires forall i, j :: 0 <= i < j < |pages| ==> pages[i].pageKey != pages[j].pageKey
    ensures var i := PageIndex(pages, page.pageKey);
      && (i < |pages| <==> exists p <- pages :: p.pageKey == page.pageKey)
      && (i < |pages| ==> (pages[i] == page <==> page in pages))
  {
    forall i: nat | i < |pages| ensures PageIndex(pages, pages[i].pageKey) == i {
      OnePagePerKey(pages, i);
    }
  }

  lemma JoinsIff(s: Store, q: Input)
    requires Inv(s)
    ensures ChainProblem(Opened(s, q), q).None? <==> MayJoin(s, q)
  {
    OpenedCounts(s, q);
    JoinsWhen(s, q, Opened(s, q));
  }

  lemma JoinsWhen(s: Store, q: Input, r: Refresh)
    requires CountersOk(r) && r.pages == PagesIn(s, q.page.refreshKey)
    ensures ChainProblem(r, q).None? <==> MayJoin(s, q)
  {
    ChainProblemIff(r, q);
  }

  lemma OpenedCounts(s: Store, q: Input)
    requires Inv(s)
    ensures CountersOk(Opened(s, q)) && Opened(s, q).pages == PagesIn(s, q.page.refreshKey)
  {
    if q.page.refreshKey in s.refreshes { assert RefreshOk(s, q.page.refreshKey, Opened(s, q)); }
  }

  lemma ChainProblemIff(r: Refresh, q: Input)
    requires CountersOk(r)
    ensures ChainProblem(r, q).None? <==>
      && GoesOn(r.pages, q.page)
      && Within(|r.pages| + 1, q.env.policy.maxRefreshPages)
      && Within(RowCount(r.pages, |r.pages|) + |q.page.records|, q.env.policy.generationRows)
  {
  }

  // ---- Publication ----

  /** The start of the refresh: that of its first delivery. */
  function StartOf(s: Store, q: Input): int {
    if q.page.refreshKey in s.refreshes then s.refreshes[q.page.refreshKey].createdAt else q.now
  }

  /** No generation comes from a refresh begun later, or is of a later version. */
  ghost predicate IsLatestRefresh(s: Store, q: Input) {
    forall g <- s.generations :: g.startedAt <= StartOf(s, q) && g.schemaVersion <= q.definition.version
  }

  ghost function KeysInTime(rows: Rows, now: int): set<Key> { set k <- rows | InTime(rows[k].expiresAt, now) }

  /** Whether a final page may become a generation. */
  ghost predicate MayPublish(s: Store, q: Input) {
    var previous, h := PreviousRows(s.generations), HeaderOf(Opened(s, q), q);
    var pages := PagesIn(s, q.page.refreshKey) + [q.page];
    && IsLatestRefresh(s, q)
    && (s.generations != [] && q.definition.mode != Snapshot ==>
          Within(|KeysInTime(previous, q.now)|, q.env.policy.generationRows))
    && NoConflict(previous, h, RecordSet(pages))
    && (Merged(previous, h, pages).Ok? ==> Within(|Merged(previous, h, pages).value|, q.env.policy.generationRows))
    && q.env.fits.generation
  }

  lemma {:induction false} LastIsLatest(generations: seq<Generation>, i: nat, j: nat)
    requires i <= j < |generations| && forall k: nat :: k < |generations| ==> InOrder(generations, k)
    ensures generations[i].startedAt <= generations[j].startedAt
    ensures generations[i].schemaVersion <= generations[j].schemaVersion
    decreases j
  {
    if i < j {
      LastIsLatest(generations, i, j - 1);
      assert InOrder(generations, j);
    }
  }

  lemma LatestRefreshIff(s: Store, q: Input)
    requires s.generations != [] && forall i: nat :: i < |s.generations| ==> InOrder(s.generations, i)
    ensures var last := s.generations[|s.generations| - 1];
      IsLatestRefresh(s, q) <==> last.startedAt <= StartOf(s, q) && last.schemaVersion <= q.definition.version
  {
    forall i: nat | i < |s.generations|
      ensures s.generations[i].startedAt <= s.generations[|s.generations| - 1].startedAt
      ensures s.generations[i].schemaVersion <= s.generations[|s.generations| - 1].schemaVersion
    {
      LastIsLatest(s.generations, i, |s.generations| - 1);
    }
  }

  lemma LiveRowsCount(rows: Rows, now: int)
    ensures |LiveRows(rows, now)| == |KeysInTime(rows, now)|
  {
    assert LiveRows(rows, now).Keys == KeysInTime(rows, now);
  }

  lemma MergeProblemIff(generations: seq<Generation>, r: Refresh, q: Input)
    requires generations != []
    ensures MergeProblem(generations, r, q).None? <==>
      && generations[|generations| - 1].startedAt <= r.createdAt
      && generations[|generations| - 1].schemaVersion <= q.definition.version
      && (q.definition.mode != Snapshot ==> Within(|KeysInTime(PreviousRows(generations), q.now)|, q.env.policy.generationRows))
  {
    LiveRowsCount(PreviousRows(generations), q.now);
  }

  lemma MergesIff(s: Store, q: Input)
    requires forall i: nat :: i < |s.generations| ==> InOrder(s.generations, i)
    ensures MergeProblem(s.generations, Opened(s, q), q).None? <==>
      && IsLatestRefresh(s, q)
      && (s.generations != [] && q.definition.mode != Snapshot ==>
            Within(|KeysInTime(PreviousRows(s.generations), q.now)|, q.env.policy.generationRows))
  {
    if s.generations != [] {
      LatestRefreshIff(s, q);
      MergeProblemIff(s.generations, Opened(s, q), q);
    }
  }

  lemma PublishesIff(s: Store, q: Input)
    requires Inv(s) && ValidDefinition(q.definition) && ValidPage(q.definition, q.page)
    ensures Published(s.generations, Opened(s, q), q, PagesIn(s, q.page.refreshKey) + [q.page]).Ok? <==> MayPublish(s, q)
  {
    MergesIff(s, q);
    AcceptedIff(PreviousRows(s.generations), HeaderOf(Opened(s, q), q), PagesIn(s, q.page.refreshKey) + [q.page]);
  }

  // ---- The whole delivery ----

  lemma NewPageAcceptedIff(s: Store, q: Input)
    requires Inv(s) && MayEnter(s, q) && !HasPage(Opened(s, q), q.page.pageKey)
    ensures Ingest(s, q).answer.Ok? <==>
      && MayJoin(s, q) && (q.page.complete ==> MayPublish(s, q)) && q.env.fits.workspace
      && AllInTime(s, q, if q.clocks.Some? then q.clocks.value.1 else q.now)
  {
    EntersIff(s, q);
    AdmittedFacts(s, q);
    RegistersIff(s, q.definition, q.env.fits);
    JoinsIff(s, q);
    PublishesIff(s, q);
    InTimeIff(s, q, LastClock(q));
    StagedIff(s, q, Admit(s, q).value, Opened(s, q));
  }

  lemma StagedIff(s: Store, q: Input, admitted: Store, r: Refresh)
    ensures Staged(s, q, admitted, r).answer.Ok? <==>
      && ChainProblem(r, q).None? && (q.page.complete ==> Published(admitted.generations, r, q, r.pages + [q.page]).Ok?)
      && EndProblem(q, Admission(s, q)).None?
  {
  }

  /**
   * A delivery is accepted exactly when its page is valid and still lasts, its version may be registered, its refresh is
   * open to it, and the page is one the refresh holds already or the next one, which, when final, may be published.
   */
  lemma DeliveryAcceptedIff(s: Store, q: Input)
    requires Inv(s)
    ensures Ingest(s, q).answer.Ok? <==>
      && MayEnter(s, q) && AllInTime(s, q, if q.clocks.Some? then q.clocks.value.1 else q.now)
      && if exists p <- PagesIn(s, q.page.refreshKey) :: p.pageKey == q.page.pageKey
         then q.page in PagesIn(s, q.page.refreshKey)
         else MayJoin(s, q) && (q.page.complete ==> MayPublish(s, q)) && q.env.fits.workspace
  {
    EntersIff(s, q);
    HoldsIff(s, q);
    if MayEnter(s, q) {
      if HasPage(Opened(s, q), q.page.pageKey) {
        InTimeIff(s, q, LastClock(q));
      } else {
        NewPageAcceptedIff(s, q);
      }
    }
  }

  // ---- Why a delivery is refused ----

  /** What each refusal says of the store and the delivery. */
  ghost predicate IsReason(s: Store, q: Input, e: StoreError) {
    match e
    case QuotaInvalid => !q.env.policy.quotaValid
    case SchemaInvalid => !ValidDefinition(q.definition)
    case PageInvalid => ValidDefinition(q.definition) && (!ValidPage(q.definition, q.page) || !q.env.fits.page)
    case ReplayUnavailable =>
      !InTime(ExpiresAt(q), q.now) || (q.retained.Some? && q.retained.value.collectedAt > q.now)
    case ConnectionNotFound => !q.env.fits.connection
    case SourceQuota => !s.created && !q.env.fits.sources
    case SchemaVersionConflict =>
      q.definition !in s.versions && exists v <- s.versions :: v.version == q.definition.version
    case SchemaIncompatible =>
      (forall v <- s.versions :: v.version != q.definition.version) && !MayFollow(s.versions, q.definition)
    case RefreshExpired => exists now <- Clocks(q) :: !AllInTime(s, q, now)
    case RefreshConflict => !SameRefresh(s, q)
    case PageConflict =>
      q.page !in PagesIn(s, q.page.refreshKey) && exists p <- PagesIn(s, q.page.refreshKey) :: p.pageKey == q.page.pageKey
    case AlreadyComplete => exists p <- PagesIn(s, q.page.refreshKey) :: p.complete
    case OutOfOrder => !GoesOn(PagesIn(s, q.page.refreshKey), q.page)
    case RefreshLimit => !MayJoin(s, q) && GoesOn(PagesIn(s, q.page.refreshKey), q.page)
    case WorkspaceQuota => !q.env.fits.workspace
    case Superseded => q.page.complete && !IsLatestRefresh(s, q)
    case GenerationLimit => q.page.complete && !MayPublish(s, q) && IsLatestRefresh(s, q)
    case RecordConflict(_) =>
      && q.page.complete
      && !NoConflict(PreviousRows(s.generations), HeaderOf(Opened(s, q), q), RecordSet(PagesIn(s, q.page.refreshKey) + [q.page]))
    case ReplayKeyConflict => false
  }

  /** The readings of the clock after waiting for locks and at the end. */
  function Clocks(q: Input): set<int> { if q.clocks.Some? then {q.clocks.value.0, q.clocks.value.1} else {q.now} }

  lemma EntryRefusalIsTrue(s: Store, q: Input)
    requires Inv(s) && Admit(s, q).Err?
    ensures IsReason(s, q, Admit(s, q).error)
  {
    DeliverableIff(q);
    if PageProblem(q).None? {
      InTimeIff(s, q, FirstClock(q));
      assert FirstClock(q) in Clocks(q);
      if Register(s, q.definition, q.env.fits).Err? { RegistrationRefusalIsTrue(s, q.definition, q.env.fits); }
    }
  }

  lemma JoinRefusalIsTrue(s: Store, q: Input)
    requires Inv(s) && ChainProblem(Opened(s, q), q).Some?
    ensures IsReason(s, q, ChainProblem(Opened(s, q), q).value)
  {
    OpenedCounts(s, q);
    JoinReason(s, q, Opened(s, q));
  }

  lemma JoinReason(s: Store, q: Input, r: Refresh)
    requires CountersOk(r) && ChainProblem(r, q).Some? && r.pages == PagesIn(s, q.page.refreshKey)
    ensures IsReason(s, q, ChainProblem(r, q).value)
  {
    ChainRefusalIsTrue(r, q);
  }

  lemma ChainRefusalIsTrue(r: Refresh, q: Input)
    requires CountersOk(r) && ChainProblem(r, q).Some?
    ensures match ChainProblem(r, q).value
      case AlreadyComplete => exists p <- r.pages :: p.complete
      case OutOfOrder => !GoesOn(r.pages, q.page)
      case RefreshLimit =>
        && GoesOn(r.pages, q.page)
        && !(Within(|r.pages| + 1, q.env.policy.maxRefreshPages)
             && Within(RowCount(r.pages, |r.pages|) + |q.page.records|, q.env.policy.generationRows))
      case _ => false
  {
    if r.complete { assert r.pages[|r.pages| - 1] in r.pages; }
  }

  lemma PublishedError(generations: seq<Generation>, r: Refresh, q: Input, pages: seq<Page>)
    requires Published(generations, r, q, pages).Err?
    ensures match Published(generations, r, q, pages).error
      case Superseded => generations != [] && !(generations[|generations| - 1].startedAt <= r.createdAt
                                                && generations[|generations| - 1].schemaVersion <= q.definition.version)
      case GenerationLimit => generations != [] ==> generations[|generations| - 1].startedAt <= r.createdAt
                                                    && generations[|generations| - 1].schemaVersion <= q.definition.version
      case RecordConflict(_) => Merged(PreviousRows(generations), HeaderOf(r, q), pages).Err?
      case _ => false
  {
  }

  lemma PublicationRefusalIsTrue(s: Store, q: Input, pages: seq<Page>)
    requires Inv(s) && ValidDefinition(q.definition) && ValidPage(q.definition, q.page) && q.page.complete
    requires pages == PagesIn(s, q.page.refreshKey) + [q.page]
    requires Published(s.generations, Opened(s, q), q, pages).Err?
    ensures IsReason(s, q, Published(s.generations, Opened(s, q), q, pages).error)
  {
    PublishesIff(s, q);
    if s.generations != [] { LatestRefreshIff(s, q); }
    AcceptedIff(PreviousRows(s.generations), HeaderOf(Opened(s, q), q), pages);
    PublicationReason(s, q, pages);
  }

  lemma PublicationReason(s: Store, q: Input, pages: seq<Page>)
    requires q.page.complete && !MayPublish(s, q) && pages == PagesIn(s, q.page.refreshKey) + [q.page]
    requires Published(s.generations, Opened(s, q), q, pages).Err?
    requires var h := HeaderOf(Opened(s, q), q); var previous := PreviousRows(s.generations);
      Merged(previous, h, pages).Ok? <==> NoConflict(previous, h, RecordSet(pages))
    requires IsLatestRefresh(s, q) <==>
      (s.generations != [] ==> s.generations[|s.generations| - 1].startedAt <= StartOf(s, q)
                               && s.generations[|s.generations| - 1].schemaVersion <= q.definition.version)
    ensures IsReason(s, q, Published(s.generations, Opened(s, q), q, pages).error)
  {
    PublishedError(s.generations, Opened(s, q), q, pages);
  }

  lemma EndRefusalIsTrue(s: Store, q: Input)
    requires EndProblem(q, Admission(s, q)).Some?
    ensures IsReason(s, q, EndProblem(q, Admission(s, q)).value)
  {
    InTimeIff(s, q, LastClock(q));
    assert LastClock(q) in Clocks(q);
  }

  lemma HeldRefusalIsTrue(s: Store, q: Input)
    requires Inv(s) && Admit(s, q).Ok? && HasPage(Opened(s, q), q.page.pageKey) && Ingest(s, q).answer.Err?
    ensures IsReason(s, q, Ingest(s, q).answer.error)
  {
    HoldsIff(s, q);
    InTimeIff(s, q, LastClock(q));
    assert LastClock(q) in Clocks(q);
  }

  lemma NewPageRefusalIsTrue(s: Store, q: Input)
    requires Inv(s) && Admit(s, q).Ok? && !HasPage(Opened(s, q), q.page.pageKey) && Ingest(s, q).answer.Err?
    ensures IsReason(s, q, Ingest(s, q).answer.error)
  {
    AdmittedFacts(s, q);
    RegistersIff(s, q.definition, q.env.fits);
    var r := Opened(s, q);
    StagedError(s, q, Admit(s, q).value, r);
    if ChainProblem(r, q).Some? {
      JoinRefusalIsTrue(s, q);
    } else if q.page.complete && Published(s.generations, r, q, r.pages + [q.page]).Err? {
      PublicationRefusalIsTrue(s, q, r.pages + [q.page]);
    } else {
      EndRefusalIsTrue(s, q);
    }
  }

  lemma StagedError(s: Store, q: Input, admitted: Store, r: Refresh)
    requires Staged(s, q, admitted, r).answer.Err?
    ensures var published := Published(admitted.generations, r, q, r.pages + [q.page]);
      Some(Staged(s, q, admitted, r).answer.error) ==
        if ChainProblem(r, q).Some? then ChainProblem(r, q)
        else if q.page.complete && published.Err? then Some(published.error)
        else EndProblem(q, Admission(s, q))
  {
  }

  /** The reason given for refusing a delivery is true. */
  lemma DeliveryRefusalIsTrue(s: Store, q: Input)
    requires Inv(s) && Ingest(s, q).answer.Err?
    ensures IsReason(s, q, Ingest(s, q).answer.error)
  {
    if Admit(s, q).Err? {
      EntryRefusalIsTrue(s, q);
    } else if HasPage(Opened(s, q), q.page.pageKey) {
      HeldRefusalIsTrue(s, q);
    } else {
      NewPageRefusalIsTrue(s, q);
    }
  }

  // ---- What an accepted delivery answers ----

  /** A page its refresh holds already is a replay, answered with the refresh's generation once there is one. */
  lemma ReplayedAnswerIs(s: Store, q: Input)
    requires Inv(s) && Ingest(s, q).answer.Ok?
    ensures var a := Ingest(s, q).answer.value;
      && (a.replayed <==> q.page in PagesIn(s, q.page.refreshKey))
      && (a.replayed ==> Ingest(s, q).store == s && IsGenerationOf(s, q.page.refreshKey, a.generation))
  {
    HoldsIff(s, q);
    if Effective(s, q) {
      EffectiveIsStaged(s, q);
    } else {
      ReplayIsHeld(s, q);
      ReplayIsAdmittedUnchanged(s, q);
      GenerationOfIs(s, q.page.refreshKey);
    }
  }

  lemma ReplayIsHeld(s: Store, q: Input)
    requires Ingest(s, q).answer.Ok? && Ingest(s, q).answer.value.replayed
    ensures Admit(s, q).Ok? && HasPage(Opened(s, q), q.page.pageKey) && PageOf(Opened(s, q), q.page.pageKey) == q.page
    ensures Ingest(s, q) == Outcome(Admit(s, q).value, Ok(Answer(GenerationOf(Admit(s, q).value, q.page.refreshKey), true)))
  {
  }

  /** The number of the refresh's generation, which it has when it is complete. */
  ghost predicate IsGenerationOf(s: Store, key: string, n: Option<nat>) {
    if n.None? then forall p <- PagesIn(s, key) :: !p.complete
    else 0 < n.value <= |s.generations| && s.generations[n.value - 1].refreshKey == key
  }

  lemma GenerationOfIs(s: Store, key: string)
    requires Inv(s)
    ensures IsGenerationOf(s, key, GenerationOf(s, key))
  {
    if GenerationOf(s, key).Some? {
      assert InOrder(s.generations, GenerationIndex(s.generations, key));
    } else if key in s.refreshes {
      assert RefreshOk(s, key, s.refreshes[key]);
      assert !s.refreshes[key].complete;
      OnlyTheLastIsComplete(s.refreshes[key]);
    }
  }

  lemma OnlyTheLastIsComplete(r: Refresh)
    requires CountersOk(r) && !r.complete && forall i: nat :: i < |r.pages| ==> LinkedAt(r.pages, i)
    ensures forall p <- r.pages :: !p.complete
  {
    forall i: nat | i < |r.pages| ensures !r.pages[i].complete {
      if i + 1 < |r.pages| { assert LinkedAt(r.pages, i + 1); }
    }
  }

  // ---- Replaying a refresh ----

  /** Stores in which the deliveries are accepted one after the other. */
  ghost predicate AcceptedInTurn(deliver: (Store, Input) -> Outcome, run: seq<Store>, qs: seq<Input>) {
    && |run| == |qs| + 1
    && forall i {:trigger qs[i]} :: 0 <= i < |qs| ==>
         deliver(run[i], qs[i]).answer.Ok? && run[i + 1] == deliver(run[i], qs[i]).store
  }

  lemma {:induction false} AllDeliveredIff(deliver: (Store, Input) -> Outcome, s: Store, qs: seq<Input>) returns (run: seq<Store>)
    ensures DeliverAll(deliver, s, qs).answer.Ok? ==>
      AcceptedInTurn(deliver, run, qs) && run[0] == s && DeliverAll(deliver, s, qs).store == run[|qs|]
  {
    run := [s];
    if qs != [] {
      var init := qs[..|qs| - 1];
      run := AllDeliveredIff(deliver, s, init);
      if DeliverAll(deliver, s, qs).answer.Ok? {
        run := run + [DeliverAll(deliver, s, qs).store];
        forall i | 0 <= i < |qs| ensures deliver(run[i], qs[i]).answer.Ok? && run[i + 1] == deliver(run[i], qs[i]).store {
          if i < |init| { assert init[i] == qs[i]; }
        }
      }
    }
  }

  lemma {:induction false} InTurnIsDelivered(deliver: (Store, Input) -> Outcome, run: seq<Store>, qs: seq<Input>)
    requires AcceptedInTurn(deliver, run, qs)
    ensures DeliverAll(deliver, run[0], qs).answer.Ok? && DeliverAll(deliver, run[0], qs).store == run[|qs|]
  {
    if qs != [] {
      var init := qs[..|qs| - 1];
      forall i | 0 <= i < |init|
        ensures deliver(run[i], init[i]).answer.Ok? && run[i + 1] == deliver(run[i], init[i]).store
      {
        assert init[i] == qs[i];
      }
      InTurnIsDelivered(deliver, run[..|qs|], init);
      assert qs[|qs| - 1] == qs[|init|];
    }
  }

  ghost predicate CanDeliver(deliver: (Store, Input) -> Outcome, s: Store, qs: seq<Input>) {
    exists run: seq<Store> :: AcceptedInTurn(deliver, run, qs) && run[0] == s
  }

  /** The store after any stores in which the deliveries are accepted in turn. */
  ghost predicate EndsIn(deliver: (Store, Input) -> Outcome, s: Store, qs: seq<Input>, next: Store) {
    forall run: seq<Store> :: AcceptedInTurn(deliver, run, qs) && run[0] == s ==> run[|qs|] == next
  }

  lemma DeliveredIff(deliver: (Store, Input) -> Outcome, s: Store, qs: seq<Input>)
    ensures DeliverAll(deliver, s, qs).answer.Ok? <==> CanDeliver(deliver, s, qs)
    ensures EndsIn(deliver, s, qs, DeliverAll(deliver, s, qs).store) || !CanDeliver(deliver, s, qs)
  {
    var run := AllDeliveredIff(deliver, s, qs);
    forall run: seq<Store> | AcceptedInTurn(deliver, run, qs) && run[0] == s
      ensures DeliverAll(deliver, s, qs).answer.Ok? && DeliverAll(deliver, s, qs).store == run[|qs|]
    {
      InTurnIsDelivered(deliver, run, qs);
    }
  }

  /** The pages of a refresh again, under another key, each with the times of the source and its own limits. */
  ghost predicate AreCopies(qs: seq<Input>, source: Refresh, d: Definition, newKey: string, now: int, envs: seq<Env>) {
    && |qs| == |source.pages| == |envs|
    && forall i :: 0 <= i < |qs| ==>
         && qs[i].definition == d && qs[i].page == source.pages[i].(refreshKey := newKey) && qs[i].now == now
         && qs[i].clocks == None && qs[i].retained == Some(Provenance(source.collectedAt, source.expiresAt)) && qs[i].env == envs[i]
  }

  /** A complete refresh that still lasts. */
  ghost predicate MayBeReplayed(s: Store, key: string, now: int) {
    key in s.refreshes && (exists p <- s.refreshes[key].pages :: p.complete) && InTime(s.refreshes[key].expiresAt, now)
  }

  lemma ReplayableIff(s: Store, key: string, now: int)
    requires Inv(s)
    ensures CanReplay(s, key, now) <==> MayBeReplayed(s, key, now)
    ensures key in s.refreshes ==> IsRegistered(s, s.refreshes[key].schemaVersion)
  {
    if key in s.refreshes {
      var r := s.refreshes[key];
      assert RefreshOk(s, key, r);
      if r.complete { assert r.pages[|r.pages| - 1] in r.pages; } else { OnlyTheLastIsComplete(r); }
    }
  }

  /** A replay is refused without a delivery for its key, or when its source is not complete or no longer lasts. */
  lemma ReplayRefusedAtOnce(s: Store, sourceKey: string, newKey: string, now: int, envs: seq<Env>)
    requires Inv(s) && (sourceKey in s.refreshes ==> |envs| == |s.refreshes[sourceKey].pages|)
    ensures sourceKey == newKey ==> Replayed(s, sourceKey, newKey, now, envs) == Outcome(s, Err(ReplayKeyConflict))
    ensures sourceKey != newKey && !MayBeReplayed(s, sourceKey, now) ==>
      Replayed(s, sourceKey, newKey, now, envs) == Outcome(s, Err(ReplayUnavailable))
    ensures Replayed(s, sourceKey, newKey, now, envs).answer.Err? ==> Replayed(s, sourceKey, newKey, now, envs).store == s
  {
    ReplayableIff(s, sourceKey, now);
  }

  /** Otherwise it is accepted exactly when the copies of the source's pages are accepted in turn, and leaves what they do. */
  lemma ReplayAcceptedIff(s: Store, sourceKey: string, newKey: string, now: int, envs: seq<Env>, qs: seq<Input>)
    requires Inv(s) && sourceKey != newKey && MayBeReplayed(s, sourceKey, now)
    requires |envs| == |s.refreshes[sourceKey].pages| && IsRegistered(s, s.refreshes[sourceKey].schemaVersion)
    requires AreCopies(qs, s.refreshes[sourceKey], VersionOfRefresh(s, sourceKey), newKey, now, envs)
    ensures Replayed(s, sourceKey, newKey, now, envs).answer.Ok? <==> CanDeliver(Ingest, s, qs)
    ensures Replayed(s, sourceKey, newKey, now, envs).answer.Ok? ==>
      EndsIn(Ingest, s, qs, Replayed(s, sourceKey, newKey, now, envs).store)
  {
    ReplayableIff(s, sourceKey, now);
    CopiesAre(qs, s.refreshes[sourceKey], VersionOfRefresh(s, sourceKey), newKey, now, envs);
    ReplayedWhenDelivered(s, sourceKey, newKey, now, envs, qs);
  }

  lemma CopiesAre(qs: seq<Input>, source: Refresh, d: Definition, newKey: string, now: int, envs: seq<Env>)
    requires AreCopies(qs, source, d, newKey, now, envs)
    ensures qs == ReplayInputs(source, d, newKey, now, envs)
  {
  }

  lemma ReplayedWhenDelivered(s: Store, sourceKey: string, newKey: string, now: int, envs: seq<Env>, qs: seq<Input>)
    requires sourceKey != newKey && CanReplay(s, sourceKey, now) && |envs| == |s.refreshes[sourceKey].pages|
    requires qs == ReplayInputs(s.refreshes[sourceKey], VersionOfRefresh(s, sourceKey), newKey, now, envs)
    ensures Replayed(s, sourceKey, newKey, now, envs).answer.Ok? <==> CanDeliver(Ingest, s, qs)
    ensures Replayed(s, sourceKey, newKey, now, envs).answer.Ok? ==>
      EndsIn(Ingest, s, qs, Replayed(s, sourceKey, newKey, now, envs).store)
  {
    ReplayedIs(s, sourceKey, newKey, now, envs);
    DeliveredIff(Ingest, s, qs);
  }

  lemma ReplayedIs(s: Store, sourceKey: string, newKey: string, now: int, envs: seq<Env>)
    requires sourceKey != newKey && CanReplay(s, sourceKey, now) && |envs| == |s.refreshes[sourceKey].pages|
    ensures var d := s.versions[VersionIndex(s.versions, s.refreshes[sourceKey].schemaVersion)];
      var all := DeliverAll(Ingest, s, ReplayInputs(s.refreshes[sourceKey], d, newKey, now, envs));
      && (Replayed(s, sourceKey, newKey, now, envs).answer.Ok? <==> all.answer.Ok?)
      && (all.answer.Ok? ==> Replayed(s, sourceKey, newKey, now, envs).store == all.store)
  {
  }
}
