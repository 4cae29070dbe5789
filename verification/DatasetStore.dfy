/**
 * One dataset: its schema versions, refreshes with their staged pages, and generations. A delivery of a page is one
 * transaction; byte sizes, quotas and the caller's clock are parameters of the delivery.
 */
module DatasetStore {
  import opened Common
  import opened DatasetTypes
  import opened DatasetSchemas
  import opened DatasetMerge

  datatype Refresh = Refresh(schemaVersion: int, window: Option<Window>, collectedAt: int, expiresAt: Deadline,
                             createdAt: int, pages: seq<Page>, rowCount: nat, lastPageKey: Option<string>, complete: bool)

  datatype Generation = Generation(schemaVersion: int, refreshKey: string, sequence: nat, rows: Rows,
                                   expiresAt: Deadline, createdAt: int, startedAt: int)

  datatype Store = Store(created: bool, versions: seq<Definition>, refreshes: map<string, Refresh>,
                         generations: seq<Generation>)

  const EMPTY := Store(false, [], map[], [])

  /** The effective policy, and whether the sizes and counts that are not modelled stay within it. */
  datatype Policy = Policy(maxRetentionDays: Option<int>, maxRefreshPages: Option<int>, generationRows: Option<int>,
                           quotaValid: bool)

  datatype Fits = Fits(connection: bool, sources: bool, page: bool, generation: bool, workspace: bool)

  /** `choice` is the connection's own retention, where it has one; it replaces the declared one. */
  datatype Env = Env(choice: Option<Option<int>>, policy: Policy, fits: Fits)

  /** Where replayed or staged data came from. */
  datatype Provenance = Provenance(collectedAt: int, expiresAt: Deadline)

  /** `clocks` are later readings of the caller's clock, after lock waits and at the end. */
  datatype Input = Input(definition: Definition, page: Page, now: int, clocks: Option<(int, int)>,
                         retained: Option<Provenance>, env: Env)

  datatype Answer = Answer(generation: Option<nat>, replayed: bool)

  datatype StoreError =
    | QuotaInvalid | SchemaInvalid | PageInvalid | ReplayUnavailable | ConnectionNotFound | SourceQuota
    | SchemaVersionConflict | SchemaIncompatible | RefreshExpired | RefreshConflict | PageConflict | AlreadyComplete
    | OutOfOrder | RefreshLimit | WorkspaceQuota | Superseded | GenerationLimit | RecordConflict(conflict: MergeError)
    | ReplayKeyConflict

  predicate Exceeds(n: int, limit: Option<int>) { limit.Some? && n > limit.value }

  // ---- Versions ----

  /** The position of a version number, or the number of versions. */
  function VersionIndex(versions: seq<Definition>, version: int): (i: nat)
    ensures i <= |versions| && (i < |versions| ==> versions[i].version == version)
    ensures forall k :: 0 <= k < i ==> versions[k].version != version
  {
    if versions == [] || versions[0].version == version then 0 else 1 + VersionIndex(versions[1..], version)
  }

  function Register(s: Store, d: Definition, fits: Fits): Result<Store, StoreError> {
    var i := VersionIndex(s.versions, d.version);
    if !fits.connection then Err(ConnectionNotFound)
    else if !s.created && !fits.sources then Err(SourceQuota)
    else if i < |s.versions| then
      if s.versions[i] != d then Err(SchemaVersionConflict) else Ok(s.(created := true))
    else if s.versions != [] && (d.version <= s.versions[|s.versions| - 1].version
                                 || !Compatible(s.versions[|s.versions| - 1], d)) then Err(SchemaIncompatible)
    else Ok(s.(created := true, versions := s.versions + [d]))
  }

  // ---- Deadlines of a delivery ----

  /** The chosen or declared retention, capped by the policy. */
  function RetentionDays(q: Input): Option<int> {
    var requested := if q.env.choice.Some? then q.env.choice.value else DatasetRetentionDays(q.definition);
    var most := q.env.policy.maxRetentionDays;
    if most.None? then requested
    else if requested.None? || most.value < requested.value then most
    else requested
  }

  function CollectedAt(q: Input): int { if q.retained.Some? then q.retained.value.collectedAt else q.now }

  function ExpiresAt(q: Input): Deadline {
    Earlier(RetentionExpiry(CollectedAt(q), RetentionDays(q)), if q.retained.Some? then q.retained.value.expiresAt else None)
  }

  function FirstClock(q: Input): int { if q.clocks.Some? then q.clocks.value.0 else q.now }

  function LastClock(q: Input): int { if q.clocks.Some? then q.clocks.value.1 else q.now }

  /** The refresh the page belongs to; a new one has the deadlines of this delivery. */
  function Opened(s: Store, q: Input): Refresh {
    if q.page.refreshKey in s.refreshes then s.refreshes[q.page.refreshKey]
    else Refresh(q.definition.version, q.page.window, CollectedAt(q), ExpiresAt(q), q.now, [], 0, None, false)
  }

  /** Deliveries are admitted until the earlier of their own deadline and that of their refresh. */
  function Admission(s: Store, q: Input): Deadline { Earlier(ExpiresAt(q), Opened(s, q).expiresAt) }

  // ---- Admission ----

  function PageProblem(q: Input): Option<StoreError> {
    if !q.env.policy.quotaValid then Some(QuotaInvalid)
    else if !ValidDefinition(q.definition) then Some(SchemaInvalid)
    else if !ValidPage(q.definition, q.page) || !q.env.fits.page then Some(PageInvalid)
    else if Passed(ExpiresAt(q), q.now) || CollectedAt(q) > q.now then Some(ReplayUnavailable)
    else None
  }

  /** The store with the page's schema version registered, if the page may touch its refresh. */
  function Admit(s: Store, q: Input): Result<Store, StoreError> {
    if PageProblem(q).Some? then Err(PageProblem(q).value)
    else
      var r := Opened(s, q);
      match Register(s, q.definition, q.env.fits)
      case Err(e) => Err(e)
      case Ok(registered) =>
        if Passed(Admission(s, q), FirstClock(q)) then Err(RefreshExpired)
        else if r.schemaVersion != q.definition.version || r.window != q.page.window then Err(RefreshConflict)
        else Ok(registered.(refreshes := registered.refreshes[q.page.refreshKey := r]))
  }

  // ---- Pages ----

  function PageIndex(pages: seq<Page>, key: string): (i: nat)
    ensures i <= |pages| && (i < |pages| ==> pages[i].pageKey == key)
    ensures forall k :: 0 <= k < i ==> pages[k].pageKey != key
  {
    if pages == [] || pages[0].pageKey == key then 0 else 1 + PageIndex(pages[1..], key)
  }

  predicate HasPage(r: Refresh, key: string) { PageIndex(r.pages, key) < |r.pages| }

  function PageOf(r: Refresh, key: string): Page
    requires HasPage(r, key)
  {
    r.pages[PageIndex(r.pages, key)]
  }

  function Received(r: Refresh, p: Page): Refresh {
    r.(pages := r.pages + [p], rowCount := r.rowCount + |p.records|, lastPageKey := Some(p.pageKey), complete := p.complete)
  }

  function ChainProblem(r: Refresh, q: Input): Option<StoreError> {
    if r.complete then Some(AlreadyComplete)
    else if r.lastPageKey != q.page.previousPageKey then Some(OutOfOrder)
    else if Exceeds(|r.pages| + 1, q.env.policy.maxRefreshPages)
         || Exceeds(r.rowCount + |q.page.records|, q.env.policy.generationRows) then Some(RefreshLimit)
    else None
  }

  // ---- Publication ----

  lemma Inhabited(s: set<int>)
    ensures s == {} || exists x :: x in s
  {
    if forall x :: x !in s { assert s == {}; }
  }

  lemma {:induction false} SomeMaximum(s: set<int>)
    requires s != {}
    ensures exists m :: m in s && forall x <- s :: x <= m
  {
    Inhabited(s);
    var x :| x in s;
    if s == {x} {
    } else {
      var rest := s - {x};
      assert rest != {} && s == rest + {x};
      SomeMaximum(rest);
      var m :| m in rest && forall y <- rest :: y <= m;
      var most := if m < x then x else m;
      assert most in s && forall y <- s :: y <= most;
    }
  }

  ghost function Maximum(s: set<int>): (m: int)
    requires s != {}
    ensures m in s && forall x <- s :: x <= m
  {
    SomeMaximum(s);
    var m :| m in s && forall x <- s :: x <= m;
    m
  }

  /** The latest of a deadline and those of all rows; one row without a deadline leaves none. */
  ghost predicate IsLatest(e: Deadline, first: Deadline, rows: Rows) {
    && NoLater(first, e) && (forall k <- rows :: NoLater(rows[k].expiresAt, e))
    && (e == first || exists k <- rows :: rows[k].expiresAt == e)
  }

  function Expiries(rows: Rows): (all: set<int>)
    requires forall k <- rows :: rows[k].expiresAt.Some?
    ensures forall k <- rows :: rows[k].expiresAt.value in all
    ensures forall x <- all :: exists k <- rows :: rows[k].expiresAt.value == x
  {
    set k <- rows :: rows[k].expiresAt.value
  }

  ghost function Latest(first: Deadline, rows: Rows): (e: Deadline)
    ensures IsLatest(e, first, rows)
  {
    if first.None? || exists k <- rows :: rows[k].expiresAt.None? then None
    else Some(Maximum({first.value} + Expiries(rows)))
  }

  lemma LatestIsUnique(e: Deadline, first: Deadline, rows: Rows)
    requires IsLatest(e, first, rows)
    ensures e == Latest(first, rows)
  {
  }

  method LatestDeadline(first: Deadline, rows: Rows) returns (e: Deadline)
    ensures e == Latest(first, rows)
  {
    e := first;
    var keys := rows.Keys;
    while keys != {}
      invariant keys <= rows.Keys
      invariant NoLater(first, e) && forall k <- rows :: k in keys || NoLater(rows[k].expiresAt, e)
      invariant e == first || exists k <- rows :: rows[k].expiresAt == e
      decreases |keys|
    {
      var k :| k in keys;
      keys := keys - {k};
      if rows[k].expiresAt.None? || (e.Some? && rows[k].expiresAt.value > e.value) { e := rows[k].expiresAt; }
    }
    LatestIsUnique(e, first, rows);
  }

  function PreviousRows(generations: seq<Generation>): Rows {
    if generations == [] then map[] else generations[|generations| - 1].rows
  }

  function LiveRows(rows: Rows, now: int): Rows { map k <- rows | !Passed(rows[k].expiresAt, now) :: rows[k] }

  function HeaderOf(r: Refresh, q: Input): Header {
    Header(q.definition, q.page.window, r.collectedAt, r.expiresAt, RetentionDays(q), q.now)
  }

  /** Why a complete refresh is not merged: a later-started or later-versioned generation, or too many rows to read. */
  function MergeProblem(generations: seq<Generation>, r: Refresh, q: Input): Option<StoreError> {
    if generations == [] then None
    else
      var previous := generations[|generations| - 1];
      if previous.startedAt > r.createdAt || previous.schemaVersion > q.definition.version then Some(Superseded)
      else if !q.definition.mode.Snapshot? && Exceeds(|LiveRows(previous.rows, q.now)|, q.env.policy.generationRows)
      then Some(GenerationLimit)
      else None
  }

  /** The published rows of the refresh, its final page included. */
  function Published(generations: seq<Generation>, r: Refresh, q: Input, pages: seq<Page>): Result<Rows, StoreError> {
    if MergeProblem(generations, r, q).Some? then Err(MergeProblem(generations, r, q).value)
    else match Merged(PreviousRows(generations), HeaderOf(r, q), pages)
      case Err(e) => Err(RecordConflict(e))
      case Ok(rows) =>
        if Exceeds(|rows|, q.env.policy.generationRows) || !q.env.fits.generation then Err(GenerationLimit) else Ok(rows)
  }

  method Publish(generations: seq<Generation>, r: Refresh, q: Input, pages: seq<Page>)
    returns (published: Result<Rows, StoreError>)
    ensures published == Published(generations, r, q, pages)
  {
    var problem := MergeProblem(generations, r, q);
    if problem.Some? { return Err(problem.value); }
    var merged := MergeStaged(PreviousRows(generations), HeaderOf(r, q), pages);
    if merged.Err? { return Err(RecordConflict(merged.error)); }
    if Exceeds(|merged.value|, q.env.policy.generationRows) || !q.env.fits.generation { return Err(GenerationLimit); }
    return Ok(merged.value);
  }

  ghost function NewGeneration(n: nat, r: Refresh, q: Input, rows: Rows): Generation {
    Generation(q.definition.version, q.page.refreshKey, n + 1, rows, Latest(ExpiresAt(q), rows), q.now, r.createdAt)
  }

  function GenerationIndex(generations: seq<Generation>, refreshKey: string): (i: nat)
    ensures i <= |generations| && (i < |generations| ==> generations[i].refreshKey == refreshKey)
    ensures forall k :: 0 <= k < i ==> generations[k].refreshKey != refreshKey
  {
    if generations == [] || generations[0].refreshKey == refreshKey then 0
    else 1 + GenerationIndex(generations[1..], refreshKey)
  }

  function GenerationOf(s: Store, refreshKey: string): Option<nat> {
    var i := GenerationIndex(s.generations, refreshKey);
    if i < |s.generations| then Some(s.generations[i].sequence) else None
  }

  // ---- A delivery ----

  datatype Outcome = Outcome(store: Store, answer: Result<Answer, StoreError>)

  /** The generations after the page joined its refresh: one more when it is the final page. */
  ghost function NextGenerations(generations: seq<Generation>, r: Refresh, q: Input, pages: seq<Page>):
    Result<seq<Generation>, StoreError>
  {
    if !q.page.complete then Ok(generations)
    else match Published(generations, r, q, pages)
      case Err(e) => Err(e)
      case Ok(rows) => Ok(generations + [NewGeneration(|generations|, r, q, rows)])
  }

  /** What can still refuse a delivery at its end: the workspace's quota, or a deadline that passed meanwhile. */
  function EndProblem(q: Input, admission: Deadline): Option<StoreError> {
    if !q.env.fits.workspace then Some(WorkspaceQuota)
    else if Passed(admission, LastClock(q)) then Some(RefreshExpired)
    else None
  }

  /** A page that is new to its refresh. */
  ghost function Staged(s: Store, q: Input, admitted: Store, r: Refresh): Outcome {
    var next := Received(r, q.page);
    if ChainProblem(r, q).Some? then Outcome(s, Err(ChainProblem(r, q).value))
    else match NextGenerations(admitted.generations, r, q, next.pages)
      case Err(e) => Outcome(s, Err(e))
      case Ok(generations) =>
        if EndProblem(q, Admission(s, q)).Some? then Outcome(s, Err(EndProblem(q, Admission(s, q)).value))
        else Outcome(admitted.(refreshes := admitted.refreshes[q.page.refreshKey := next], generations := generations),
                     Ok(Answer(if q.page.complete then Some(|generations|) else None, false)))
  }

  /** Every error leaves the store as it was. */
  ghost function Ingest(s: Store, q: Input): Outcome {
    match Admit(s, q)
    case Err(e) => Outcome(s, Err(e))
    case Ok(admitted) =>
      var r := Opened(s, q);
      if HasPage(r, q.page.pageKey) then
        if PageOf(r, q.page.pageKey) != q.page then Outcome(s, Err(PageConflict))
        else if Passed(Admission(s, q), LastClock(q)) then Outcome(s, Err(RefreshExpired))
        else Outcome(admitted, Ok(Answer(GenerationOf(admitted, q.page.refreshKey), true)))
      else Staged(s, q, admitted, r)
  }

  // ---- Replaying a refresh ----

  function ReplayInput(source: Refresh, d: Definition, p: Page, newKey: string, now: int, env: Env): Input {
    Input(d, p.(refreshKey := newKey), now, None, Some(Provenance(source.collectedAt, source.expiresAt)), env)
  }

  function ReplayInputs(source: Refresh, d: Definition, newKey: string, now: int, envs: seq<Env>): (qs: seq<Input>)
    requires |envs| == |source.pages|
    ensures |qs| == |envs|
    ensures forall i :: 0 <= i < |qs| ==> qs[i] == ReplayInput(source, d, source.pages[i], newKey, now, envs[i])
  {
    seq(|envs|, i requires 0 <= i < |envs| => ReplayInput(source, d, source.pages[i], newKey, now, envs[i]))
  }

  /** Deliveries one after the other, up to the first that is refused. */
  ghost function DeliverAll(deliver: (Store, Input) -> Outcome, s: Store, qs: seq<Input>): Outcome {
    if qs == [] then Outcome(s, Ok(Answer(None, true)))
    else
      var before := DeliverAll(deliver, s, qs[..|qs| - 1]);
      if before.answer.Err? then before else deliver(before.store, qs[|qs| - 1])
  }

  /** Once a page is refused, the later ones are not delivered. */
  lemma {:induction false} RefusalEndsReplay(deliver: (Store, Input) -> Outcome, s: Store, qs: seq<Input>, n: nat)
    requires n <= |qs| && DeliverAll(deliver, s, qs[..n]).answer.Err?
    ensures DeliverAll(deliver, s, qs) == DeliverAll(deliver, s, qs[..n])
    decreases |qs| - n
  {
    if n < |qs| {
      assert qs[..n + 1][..n] == qs[..n];
      RefusalEndsReplay(deliver, s, qs, n + 1);
    } else {
      assert qs[..n] == qs;
    }
  }

  lemma OneMoreDelivery(deliver: (Store, Input) -> Outcome, s: Store, qs: seq<Input>, n: nat)
    requires n < |qs| && DeliverAll(deliver, s, qs[..n]).answer.Ok?
    ensures DeliverAll(deliver, s, qs[..n + 1]) == deliver(DeliverAll(deliver, s, qs[..n]).store, qs[n])
  {
    assert qs[..n + 1][..n] == qs[..n];
  }

  predicate CanReplay(s: Store, sourceKey: string, now: int) {
    && sourceKey in s.refreshes && s.refreshes[sourceKey].complete && !Passed(s.refreshes[sourceKey].expiresAt, now)
    && VersionIndex(s.versions, s.refreshes[sourceKey].schemaVersion) < |s.versions|
  }

  /** A replay is one transaction: all pages are accepted in turn, or nothing changes. */
  ghost function Replayed(s: Store, sourceKey: string, newKey: string, now: int, envs: seq<Env>): Outcome
    requires sourceKey in s.refreshes ==> |envs| == |s.refreshes[sourceKey].pages|
  {
    if sourceKey == newKey then Outcome(s, Err(ReplayKeyConflict))
    else if !CanReplay(s, sourceKey, now) then Outcome(s, Err(ReplayUnavailable))
    else
      var source := s.refreshes[sourceKey];
      var d := s.versions[VersionIndex(s.versions, source.schemaVersion)];
      var all := DeliverAll(Ingest, s, ReplayInputs(source, d, newKey, now, envs));
      if all.answer.Err? then Outcome(s, all.answer) else all
  }

  lemma AdmittedHasRefresh(s: Store, q: Input)
    requires Admit(s, q).Ok?
    ensures var t := Admit(s, q).value; q.page.refreshKey in t.refreshes && t.refreshes[q.page.refreshKey] == Opened(s, q)
  {
  }

  class Dataset {
    var created: bool
    var versions: seq<Definition>
    var refreshes: map<string, Refresh>
    var generations: seq<Generation>

    ghost function Contents(): Store
      reads this
    {
      Store(created, versions, refreshes, generations)
    }

    constructor ()
      ensures Contents() == EMPTY
    {
      created, versions, refreshes, generations := false, [], map[], [];
    }

    /** Registers a version, or finds it registered with the same definition. */
    method RegisterVersion(d: Definition, fits: Fits) returns (problem: Option<StoreError>)
      modifies this
      ensures match Register(old(Contents()), d, fits)
        case Ok(s) => problem == None && Contents() == s
        case Err(e) => problem == Some(e)
    {
      if !fits.connection { return Some(ConnectionNotFound); }
      if !created && !fits.sources { return Some(SourceQuota); }
      created := true;
      var i := VersionIndex(versions, d.version);
      if i < |versions| {
        return if versions[i] != d then Some(SchemaVersionConflict) else None;
      }
      if versions != [] {
        var latest := versions[|versions| - 1];
        if d.version <= latest.version || !Compatible(latest, d) { return Some(SchemaIncompatible); }
      }
      versions := versions + [d];
      return None;
    }

    /** Registers the version and finds or opens the refresh; nothing else of the delivery has happened yet. */
    method AdmitPage(q: Input) returns (problem: Option<StoreError>)
      modifies this
      ensures match Admit(old(Contents()), q)
        case Ok(admitted) => problem == None && Contents() == admitted
        case Err(e) => problem == Some(e)
    {
      ghost var s := Contents();
      if PageProblem(q).Some? { return PageProblem(q); }
      var expiresAt := ExpiresAt(q);
      problem := RegisterVersion(q.definition, q.env.fits);
      if problem.Some? { return; }
      var key := q.page.refreshKey;
      if key !in refreshes {
        refreshes := refreshes[key := Refresh(q.definition.version, q.page.window, CollectedAt(q), expiresAt, q.now, [], 0,
                                              None, false)];
      }
      var r := refreshes[key];
      assert r == Opened(s, q) && refreshes == refreshes[key := r];
      if Passed(Earlier(expiresAt, r.expiresAt), FirstClock(q)) { return Some(RefreshExpired); }
      if r.schemaVersion != q.definition.version || r.window != q.page.window { return Some(RefreshConflict); }
      return None;
    }

    /** The transaction's statements; after an error its changes are rolled back by the caller. */
    method IngestPage(q: Input) returns (answer: Result<Answer, StoreError>)
      modifies this
      ensures answer == Ingest(old(Contents()), q).answer
      ensures answer.Ok? ==> Contents() == Ingest(old(Contents()), q).store
    {
      ghost var s := Contents();
      var problem := AdmitPage(q);
      if problem.Some? { return Err(problem.value); }
      AdmittedHasRefresh(s, q);
      var r := refreshes[q.page.refreshKey];
      var admission := Earlier(ExpiresAt(q), r.expiresAt);
      if HasPage(r, q.page.pageKey) {
        if PageOf(r, q.page.pageKey) != q.page { return Err(PageConflict); }
        if Passed(admission, LastClock(q)) { return Err(RefreshExpired); }
        return Ok(Answer(GenerationOf(Store(created, versions, refreshes, generations), q.page.refreshKey), true));
      }
      answer := StagePage(q, r, admission, s);
    }

    method StagePage(q: Input, r: Refresh, admission: Deadline, ghost s: Store) returns (answer: Result<Answer, StoreError>)
      requires q.page.refreshKey in refreshes && refreshes[q.page.refreshKey] == r
      requires admission == Admission(s, q)
      modifies this
      ensures answer == Staged(s, q, old(Contents()), r).answer
      ensures answer.Ok? ==> Contents() == Staged(s, q, old(Contents()), r).store
    {
      var problem := ChainProblem(r, q);
      if problem.Some? { return Err(problem.value); }
      var next := Received(r, q.page);
      refreshes := refreshes[q.page.refreshKey := next];
      if q.page.complete {
        problem := PublishRefresh(q, r, next.pages);
        if problem.Some? { return Err(problem.value); }
      }
      problem := EndProblem(q, admission);
      if problem.Some? { return Err(problem.value); }
      return Ok(Answer(if q.page.complete then Some(|generations|) else None, false));
    }

    /** A complete refresh becomes the next generation. */
    method PublishRefresh(q: Input, r: Refresh, pages: seq<Page>) returns (problem: Option<StoreError>)
      requires q.page.complete
      modifies this`generations
      ensures match NextGenerations(old(generations), r, q, pages)
        case Ok(next) => problem == None && generations == next
        case Err(e) => problem == Some(e)
    {
      var published := Publish(generations, r, q, pages);
      if published.Err? { return Some(published.error); }
      var expiresAt := LatestDeadline(ExpiresAt(q), published.value);
      generations := generations + [Generation(q.definition.version, q.page.refreshKey, |generations| + 1, published.value,
                                               expiresAt, q.now, r.createdAt)];
      return None;
    }

    /** One delivery: an error leaves nothing behind. */
    method IngestDatasetPage(q: Input) returns (answer: Result<Answer, StoreError>)
      modifies this
      ensures Outcome(Contents(), answer) == Ingest(old(Contents()), q)
    {
      var before := (created, versions, refreshes, generations);
      answer := IngestPage(q);
      if answer.Err? { created, versions, refreshes, generations := before.0, before.1, before.2, before.3; }
    }

    /** Delivers a retained refresh again under another key, all of it or nothing. */
    method ReplayDatasetRefresh(sourceKey: string, newKey: string, now: int, envs: seq<Env>)
      returns (answer: Result<Answer, StoreError>)
      requires sourceKey in refreshes ==> |envs| == |refreshes[sourceKey].pages|
      modifies this
      ensures Outcome(Contents(), answer) == Replayed(old(Contents()), sourceKey, newKey, now, envs)
    {
      if sourceKey == newKey { return Err(ReplayKeyConflict); }
      if !CanReplay(Store(created, versions, refreshes, generations), sourceKey, now) { return Err(ReplayUnavailable); }
      var before := (created, versions, refreshes, generations);
      var source := refreshes[sourceKey];
      var d := versions[VersionIndex(versions, source.schemaVersion)];
      answer := DeliverInTurn(Ingest, ReplayInputs(source, d, newKey, now, envs));
      if answer.Err? { created, versions, refreshes, generations := before.0, before.1, before.2, before.3; }
    }

    method DeliverInTurn(ghost deliver: (Store, Input) -> Outcome, qs: seq<Input>) returns (answer: Result<Answer, StoreError>)
      requires deliver == Ingest
      modifies this
      ensures answer == DeliverAll(deliver, old(Contents()), qs).answer
      ensures answer.Ok? ==> Contents() == DeliverAll(deliver, old(Contents()), qs).store
    {
      answer := Ok(Answer(None, true));
      var n := 0;
      while n < |qs|
        invariant 0 <= n <= |qs| && answer.Ok?
        invariant Outcome(Contents(), answer) == DeliverAll(deliver, old(Contents()), qs[..n])
      {
        OneMoreDelivery(deliver, old(Contents()), qs, n);
        answer := DeliverOne(deliver, qs[n]);
        if answer.Err? {
          RefusalEndsReplay(deliver, old(Contents()), qs, n + 1);
          return;
        }
        n := n + 1;
      }
      assert qs[..n] == qs;
    }

    method DeliverOne(ghost deliver: (Store, Input) -> Outcome, q: Input) returns (answer: Result<Answer, StoreError>)
      requires deliver == Ingest
      modifies this
      ensures Outcome(Contents(), answer) == deliver(old(Contents()), q)
    {
      answer := IngestDatasetPage(q);
    }
  }
}
