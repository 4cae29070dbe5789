/** Disposable stages of connector pages: immutable, with deadlines fixed when they are stored. */
module ConnectorStages {
  import opened Common
  import opened DatasetTypes
  import opened DatasetMerge
  import opened DatasetStore
  import opened DatasetRuns
  import opened DatasetDeadlines

  type StageId = nat

  /** A stored stage. Digests compare whole contents, so content is kept and compared itself. */
  datatype Stage = Stage(id: StageId, datasetKey: string, schemaVersion: int, metadata: Value, pages: map<string, Page>,
                         collectedAt: int, sourceExpiresAt: Deadline, expiresAt: int)

  /** The stages of one connection by key, and the next unused id. */
  datatype Stages = Stages(byKey: map<string, Stage>, nextId: StageId)

  datatype StageError = StageInvalid | StageLimit | ConnectionNotFound | StageConflict | StageQuota | StageUnavailable
                      | ReferenceInvalid

  /** Limits and answers from outside: sizes, the connection, the staging budget, retention. */
  datatype StageEnv = StageEnv(sizes: bool, connection: bool, budget: bool, fits: bool, requestedRetention: Option<int>,
                               maxRetentionDays: Option<int>)

  datatype NewStage = NewStage(key: string, metadata: Value, pages: seq<Page>, definition: Definition)

  predicate IsKeyChar(c: char) { 'a' <= c <= 'z' || 'A' <= c <= 'Z' || '0' <= c <= '9' || c in {':', '_', '-'} }

  predicate IsStageKey(key: string) { 1 <= |key| <= 200 && forall c <- key :: IsKeyChar(c) }

  // ---- Lifetimes ----

  /** The source deadline under the policy of the reader. */
  function SourceDeadline(s: Stage, maxRetentionDays: Option<int>): Deadline {
    Earlier(s.sourceExpiresAt, RetentionExpiry(s.collectedAt, maxRetentionDays))
  }

  predicate Expired(s: Stage, source: Deadline, now: int) { s.expiresAt <= now || Passed(source, now) }

  predicate IsLive(s: Stage, maxRetentionDays: Option<int>, now: int) {
    !Expired(s, SourceDeadline(s, maxRetentionDays), now)
  }

  function LifetimeOf(now: int, source: Deadline): int {
    if source.Some? && source.value < now + DAY_MS then source.value else now + DAY_MS
  }

  function NewSourceDeadline(now: int, env: StageEnv): Deadline {
    Earlier(RetentionExpiry(now, env.requestedRetention), RetentionExpiry(now, env.maxRetentionDays))
  }

  // ---- Storing ----

  predicate CanStage(n: NewStage) {
    && IsStageKey(n.key) && n.pages != [] && ValidDefinition(n.definition)
    && (forall p <- n.pages :: IsStageKey(p.pageKey) && p.staging.None? && ValidPage(n.definition, p))
    && (forall i, j :: 0 <= i < j < |n.pages| ==> n.pages[i].pageKey != n.pages[j].pageKey)
  }

  function ByPageKey(pages: seq<Page>, n: nat): map<string, Page>
    requires n <= |pages|
  {
    if n == 0 then map[] else ByPageKey(pages, n - 1)[pages[n - 1].pageKey := pages[n - 1]]
  }

  function StageOf(id: StageId, n: NewStage, env: StageEnv, now: int): Stage {
    var source := NewSourceDeadline(now, env);
    Stage(id, n.definition.key, n.definition.version, n.metadata, ByPageKey(n.pages, |n.pages|), now, source,
          LifetimeOf(now, source))
  }

  predicate SameContent(s: Stage, n: NewStage) {
    && s.metadata == n.metadata && s.pages == ByPageKey(n.pages, |n.pages|)
    && s.datasetKey == n.definition.key && s.schemaVersion == n.definition.version
  }

  datatype Stored = Stored(stages: Stages, answer: Result<StageId, StageError>)

  /** One transaction; `last` is the caller's clock at its end. An error changes nothing. */
  function StoreStage(s: Stages, n: NewStage, env: StageEnv, now: int, last: int): Stored {
    if !CanStage(n) then Stored(s, Err(StageInvalid))
    else if !env.sizes then Stored(s, Err(StageLimit))
    else if !env.connection then Stored(s, Err(StageError.ConnectionNotFound))
    else if n.key in s.byKey && IsLive(s.byKey[n.key], env.maxRetentionDays, now) then
      if SameContent(s.byKey[n.key], n) then Stored(s, Ok(s.byKey[n.key].id)) else Stored(s, Err(StageConflict))
    else
      var stage := StageOf(s.nextId, n, env, now);
      if !env.budget || !env.fits then Stored(s, Err(StageQuota))
      else if Expired(stage, stage.sourceExpiresAt, last) then Stored(s, Err(StageUnavailable))
      else Stored(Stages(s.byKey[n.key := stage], s.nextId + 1), Ok(stage.id))
  }

  // ---- Reading ----

  /** Ids are unique, so at most one stage has it. */
  ghost predicate StagesOk(s: Stages) {
    && (forall k <- s.byKey :: s.byKey[k].id < s.nextId)
    && (forall j <- s.byKey, k <- s.byKey :: s.byKey[j].id == s.byKey[k].id ==> j == k)
  }

  /** What a page is compared by with its staged original. */
  predicate SameRows(p: Page, q: Page) {
    && p.datasetKey == q.datasetKey && p.schemaVersion == q.schemaVersion && p.records == q.records
    && p.window == q.window && p.complete == q.complete
  }

  class StageStore {
    var byKey: map<string, Stage>
    var nextId: StageId

    ghost function Contents(): Stages
      reads this
    {
      Stages(byKey, nextId)
    }

    constructor ()
      ensures Contents() == Stages(map[], 0) && StagesOk(Contents())
    {
      byKey, nextId := map[], 0;
    }

    /** Inserts the stage and its pages one by one; the caller rolls back after an error. */
    method StoreConnectorStage(n: NewStage, env: StageEnv, now: int, last: int) returns (answer: Result<StageId, StageError>)
      modifies this
      ensures Stored(Contents(), answer) == StoreStage(old(Contents()), n, env, now, last)
    {
      if !CanStage(n) { return Err(StageInvalid); }
      if !env.sizes { return Err(StageLimit); }
      if !env.connection { return Err(StageError.ConnectionNotFound); }
      var content := PagesByKey(n.pages);
      if n.key in byKey && IsLive(byKey[n.key], env.maxRetentionDays, now) {
        var existing := byKey[n.key];
        if existing.metadata != n.metadata || existing.pages != content || existing.datasetKey != n.definition.key
           || existing.schemaVersion != n.definition.version {
          return Err(StageConflict);
        }
        return Ok(existing.id);
      }
      if !env.budget { return Err(StageQuota); }
      var before := (byKey, nextId);
      var source := NewSourceDeadline(now, env);
      var stage := Stage(nextId, n.definition.key, n.definition.version, n.metadata, content, now, source,
                         LifetimeOf(now, source));
      byKey, nextId := byKey - {n.key}, nextId + 1;
      byKey := byKey[n.key := stage];
      if !env.fits {
        byKey, nextId := before.0, before.1;
        return Err(StageQuota);
      }
      if Expired(stage, source, last) {
        byKey, nextId := before.0, before.1;
        return Err(StageUnavailable);
      }
      assert (old(byKey) - {n.key})[n.key := stage] == old(byKey)[n.key := stage];
      return Ok(stage.id);
    }

    static method PagesByKey(pages: seq<Page>) returns (content: map<string, Page>)
      ensures content == ByPageKey(pages, |pages|)
    {
      content := map[];
      for i := 0 to |pages|
        invariant content == ByPageKey(pages, i)
      {
        content := content[pages[i].pageKey := pages[i]];
      }
    }

    /**
     * The provenance of a returned page: only for a live stage that holds a page with the same rows. `later` are the
     * clock readings after each wait.
     */
    method ProvenanceOf(p: Page, id: StageId, maxRetentionDays: Option<int>, now: int, later: int)
      returns (source: Result<Provenance, StageError>)
      requires StagesOk(Contents())
      ensures source.Ok? <==> p.staging.Some? && exists k <- byKey :: Proves(byKey[k], p, id, maxRetentionDays, now, later)
      ensures source.Ok? ==> forall k <- byKey :: byKey[k].id == id ==>
        source.value == Provenance(byKey[k].collectedAt, SourceDeadline(byKey[k], maxRetentionDays))
    {
      if p.staging.None? { return Err(ReferenceInvalid); }
      if k :| k in byKey && byKey[k].id == id {
        var stage := byKey[k];
        if !IsLive(stage, maxRetentionDays, now) { return Err(StageUnavailable); }
        if stage.datasetKey != p.datasetKey || stage.schemaVersion != p.schemaVersion { return Err(ReferenceInvalid); }
        if p.staging.value.1 !in stage.pages || !SameRows(stage.pages[p.staging.value.1], p) { return Err(ReferenceInvalid); }
        var deadline := SourceDeadline(stage, maxRetentionDays);
        if Expired(stage, deadline, later) { return Err(StageUnavailable); }
        assert Proves(byKey[k], p, id, maxRetentionDays, now, later);
        return Ok(Provenance(stage.collectedAt, deadline));
      }
      return Err(StageUnavailable);
    }
  }

  predicate Proves(s: Stage, p: Page, id: StageId, maxRetentionDays: Option<int>, now: int, later: int)
    requires p.staging.Some?
  {
    && s.id == id && IsLive(s, maxRetentionDays, now) && IsLive(s, maxRetentionDays, later)
    && s.datasetKey == p.datasetKey && s.schemaVersion == p.schemaVersion
    && p.staging.value.1 in s.pages && SameRows(s.pages[p.staging.value.1], p)
  }

  // ---- Runs ----

  /** A stage is stored, or pruning drops some. */
  datatype StageStep = StoreStep(n: NewStage, env: StageEnv, now: int, last: int) | DropStep(keys: set<string>)

  function AfterStep(s: Stages, e: StageStep): Stages {
    match e
    case StoreStep(n, env, now, last) => StoreStage(s, n, env, now, last).stages
    case DropStep(keys) => s.(byKey := s.byKey - keys)
  }

  ghost predicate IsStageRun(run: seq<Stages>, steps: seq<StageStep>) {
    && |run| == |steps| + 1 && run[0] == Stages(map[], 0)
    && forall i {:trigger steps[i]} :: 0 <= i < |steps| ==> run[i + 1] == AfterStep(run[i], steps[i])
  }

  /** A stage lives at most a day, never past its source, and knows when its data was collected. */
  predicate LifetimeOk(s: Stage) {
    s.expiresAt <= s.collectedAt + DAY_MS && (s.sourceExpiresAt.Some? ==> s.expiresAt <= s.sourceExpiresAt.value)
  }

  ghost predicate AllOk(s: Stages) { StagesOk(s) && forall k <- s.byKey :: LifetimeOk(s.byKey[k]) }

  lemma StepKeepsStagesOk(s: Stages, e: StageStep)
    requires AllOk(s)
    ensures AllOk(AfterStep(s, e))
  {
  }

  lemma {:induction false} StageRunsAreOk(run: seq<Stages>, steps: seq<StageStep>, n: nat)
    requires IsStageRun(run, steps) && n < |run|
    ensures AllOk(run[n])
  {
    if n > 0 {
      StageRunsAreOk(run, steps, n - 1);
      StepKeepsStagesOk(run[n - 1], steps[n - 1]);
    }
  }

  lemma {:induction false} StageIdsGrow(run: seq<Stages>, steps: seq<StageStep>, i: nat, k: nat)
    requires IsStageRun(run, steps) && i <= k < |run|
    ensures run[i].nextId <= run[k].nextId
    decreases k
  {
    if i < k {
      StageIdsGrow(run, steps, i, k - 1);
      assert run[k] == AfterStep(run[k - 1], steps[k - 1]);
    }
  }

  /** A stage that is gone never comes back under its id. */
  lemma OldIdWasThere(s: Stages, e: StageStep, k: string, id: StageId)
    requires StagesOk(s) && k in AfterStep(s, e).byKey && AfterStep(s, e).byKey[k].id == id < s.nextId
    ensures k in s.byKey && s.byKey[k] == AfterStep(s, e).byKey[k]
  {
  }

  /** Stages are immutable: as long as one is there, its contents and both deadlines are those it was stored with. */
  lemma {:induction false} StagesAreImmutable(run: seq<Stages>, steps: seq<StageStep>, i: nat, k: nat, a: string, b: string)
    requires IsStageRun(run, steps) && i <= k < |run| && a in run[i].byKey && b in run[k].byKey
    requires run[i].byKey[a].id == run[k].byKey[b].id
    ensures run[k].byKey[b] == run[i].byKey[a]
    decreases k
  {
    StageRunsAreOk(run, steps, i);
    if i < k {
      StageRunsAreOk(run, steps, k - 1);
      StageIdsGrow(run, steps, i, k - 1);
      assert run[k] == AfterStep(run[k - 1], steps[k - 1]);
      OldIdWasThere(run[k - 1], steps[k - 1], b, run[i].byKey[a].id);
      StagesAreImmutable(run, steps, i, k - 1, a, b);
    }
  }

  /** Storing the same content again while the stage is live changes nothing and gives the same id. */
  lemma RestoringIsIdempotent(s: Stages, n: NewStage, env: StageEnv, now: int, last: int, again: StageEnv, later: int, end: int)
    requires StoreStage(s, n, env, now, last).answer.Ok? && again.sizes && again.connection
    requires var t := StoreStage(s, n, env, now, last).stages; IsLive(t.byKey[n.key], again.maxRetentionDays, later)
    ensures var first := StoreStage(s, n, env, now, last); StoreStage(first.stages, n, again, later, end) == first
  {
  }

  /** No policy read later gives a stage a later source deadline than the one it was stored with. */
  lemma SourceDeadlineNeverLengthens(s: Stage, maxRetentionDays: Option<int>)
    ensures NoLater(SourceDeadline(s, maxRetentionDays), s.sourceExpiresAt)
    ensures NoLater(SourceDeadline(s, maxRetentionDays), RetentionExpiry(s.collectedAt, maxRetentionDays))
  {
  }

  /** A page with the stage's provenance opens its refresh. */
  ghost predicate OpensStaged(s: Store, q: Input, stage: Stage, maxRetentionDays: Option<int>) {
    && Effective(s, q) && q.page.refreshKey !in s.refreshes
    && q.retained == Some(Provenance(stage.collectedAt, SourceDeadline(stage, maxRetentionDays)))
  }

  /** A refresh that a page with a stage's provenance opens ends no later than the stage's source. */
  lemma StagedRefreshEndsBySource(s: Store, q: Input, next: Store, stage: Stage, maxRetentionDays: Option<int>)
    requires Inv(s) && OpensStaged(s, q, stage, maxRetentionDays) && next == Ingest(s, q).store
    ensures q.page.refreshKey in next.refreshes
    ensures NoLater(next.refreshes[q.page.refreshKey].expiresAt, stage.sourceExpiresAt)
    ensures next.refreshes[q.page.refreshKey].collectedAt == stage.collectedAt
  {
    ProvenanceDeadlineIff(s, q, next);
    SourceDeadlineNeverLengthens(stage, maxRetentionDays);
    var t, r, rows := EffectiveShape(s, q);
  }

  /**
   * Once a page with a stage's provenance has opened a refresh, every row that the refresh publishes, however many pages
   * later, ends no later than the stage's source, except for rows carried from the generation before; a row whose
   * record the refresh sent is carried only under append, where it keeps the deadline it had.
   */
  lemma StagedRowsDoNotOutlive(run: seq<Store>, steps: seq<Step>, m: nat, n: nat, i: nat, stage: Stage,
                               maxRetentionDays: Option<int>, k: Key)
    requires IsRun(run, steps) && m < n < |run| && steps[m].event.Deliver? && i < |run[n].generations|
    requires OpensStaged(run[m], steps[m].event.q, stage, maxRetentionDays)
    requires run[n].generations[i].refreshKey == steps[m].event.q.page.refreshKey
    requires k in run[n].generations[i].rows
    ensures GenerationDeadlines(run[n], i)
    ensures NoLater(run[n].generations[i].rows[k].expiresAt, stage.sourceExpiresAt) || CarriedOver(run[n], i, k)
  {
    StagedRefreshAt(run, steps, m, n, stage, maxRetentionDays);
    RunsKeepDeadlines(run, steps, n);
    RowsEndWithRefresh(run[n], i, k, stage.sourceExpiresAt);
  }

  /**
   * For the delivery that completes such a refresh, the row of a record it sent outlives the stage's source exactly when
   * the dataset is an append and the record meets a base row that does: an unexpired row of the generation before, with
   * the deadline it keeps under the retention of the final page. Otherwise it never does.
   */
  lemma StagedRowOutlivesIff(run: seq<Store>, steps: seq<Step>, m: nat, n: nat, stage: Stage, maxRetentionDays: Option<int>,
                             x: Record)
    requires IsRun(run, steps) && m <= n < |steps| && steps[m].event.Deliver? && steps[n].event.Deliver?
    requires OpensStaged(run[m], steps[m].event.q, stage, maxRetentionDays)
    requires var q := steps[n].event.q; Effective(run[n], q) && q.page.complete && q.page.refreshKey == steps[m].event.q.page.refreshKey
    requires x in RecordSet(PagesIn(run[n + 1], steps[n].event.q.page.refreshKey)) && !IsDeleted(x)
    ensures run[n + 1].generations != []
    ensures var q, generations := steps[n].event.q, run[n + 1].generations;
      var rows, k := generations[|generations| - 1].rows, RecordKey(q.definition, x.values);
      && k in rows
      && (!NoLater(rows[k].expiresAt, stage.sourceExpiresAt) <==>
            && q.definition.mode.Append? && k in BaseOf(run[n], q)
            && !NoLater(BaseOf(run[n], q)[k].expiresAt, stage.sourceExpiresAt))
  {
    StagedDeadline(run, steps, m, n, stage, maxRetentionDays);
    NextIsIngest(run, steps, n);
    SentRowEndsIff(run[n], steps[n].event.q, run[n + 1], x, stage.sourceExpiresAt);
  }

  lemma NextIsIngest(run: seq<Store>, steps: seq<Step>, n: nat)
    requires IsRun(run, steps) && n < |steps| && steps[n].event.Deliver?
    ensures run[n + 1] == Ingest(run[n], steps[n].event.q).store
  {
    assert Follows(run[n], steps[n], run[n + 1]);
  }

  lemma StagedOpens(run: seq<Store>, steps: seq<Step>, m: nat, stage: Stage, maxRetentionDays: Option<int>)
    requires IsRun(run, steps) && m < |steps| && steps[m].event.Deliver?
    requires OpensStaged(run[m], steps[m].event.q, stage, maxRetentionDays)
    ensures steps[m].event.q.page.refreshKey in run[m + 1].refreshes
    ensures NoLater(run[m + 1].refreshes[steps[m].event.q.page.refreshKey].expiresAt, stage.sourceExpiresAt)
  {
    RunsKeepInv(run, steps, m);
    NextIsIngest(run, steps, m);
    StagedRefreshEndsBySource(run[m], steps[m].event.q, run[m + 1], stage, maxRetentionDays);
  }

  /** The refresh ends by the stage's source ever after. */
  lemma StagedRefreshAt(run: seq<Store>, steps: seq<Step>, m: nat, n: nat, stage: Stage, maxRetentionDays: Option<int>)
    requires IsRun(run, steps) && m < n < |run| && steps[m].event.Deliver?
    requires OpensStaged(run[m], steps[m].event.q, stage, maxRetentionDays)
    ensures steps[m].event.q.page.refreshKey in run[n].refreshes
    ensures NoLater(run[n].refreshes[steps[m].event.q.page.refreshKey].expiresAt, stage.sourceExpiresAt)
  {
    StagedOpens(run, steps, m, stage, maxRetentionDays);
    RefreshTimesAreFixed(run, steps, m + 1, n, steps[m].event.q.page.refreshKey);
  }

  /** Whenever a later delivery finds that refresh, or the opening one makes it, it ends by the stage's source. */
  lemma StagedDeadline(run: seq<Store>, steps: seq<Step>, m: nat, n: nat, stage: Stage, maxRetentionDays: Option<int>)
    requires IsRun(run, steps) && m <= n < |steps| && steps[m].event.Deliver? && steps[n].event.Deliver?
    requires OpensStaged(run[m], steps[m].event.q, stage, maxRetentionDays)
    requires steps[n].event.q.page.refreshKey == steps[m].event.q.page.refreshKey
    ensures NoLater(Opened(run[n], steps[n].event.q).expiresAt, stage.sourceExpiresAt)
  {
    SourceDeadlineNeverLengthens(stage, maxRetentionDays);
    if m < n { StagedRefreshAt(run, steps, m, n, stage, maxRetentionDays); }
  }
}
