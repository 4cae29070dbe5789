/** When a stage is stored, refused or found again, and what a stored stage holds. */
module StageEffects {
  import opened Common
  import opened DatasetTypes
  import opened DatasetMerge
  import opened ConnectorStages

  /** Neither the stage nor its source has ended, the latter also under the reader's own retention. */
  predicate Lasts(s: Stage, maxRetentionDays: Option<int>, now: int) {
    && now < s.expiresAt && (s.sourceExpiresAt.Some? ==> now < s.sourceExpiresAt.value)
    && (RetentionExpiry(s.collectedAt, maxRetentionDays).Some? ==> now < RetentionExpiry(s.collectedAt, maxRetentionDays).value)
  }

  lemma LiveIff(s: Stage, maxRetentionDays: Option<int>, now: int)
    ensures IsLive(s, maxRetentionDays, now) <==> Lasts(s, maxRetentionDays, now)
  {
  }

  // ---- What a stage holds ----

  /** Each page under its key, and nothing else. */
  ghost predicate HoldsPages(content: map<string, Page>, pages: seq<Page>) {
    && (forall p <- pages :: p.pageKey in content && content[p.pageKey] == p)
    && (forall key <- content :: content[key] in pages && content[key].pageKey == key)
  }

  lemma {:induction false} PagesAreHeld(pages: seq<Page>, n: nat)
    requires n <= |pages| && forall i, j :: 0 <= i < j < |pages| ==> pages[i].pageKey != pages[j].pageKey
    ensures HoldsPages(ByPageKey(pages, n), pages[..n])
  {
    if n > 0 {
      PagesAreHeld(pages, n - 1);
      assert pages[..n] == pages[..n - 1] + [pages[n - 1]];
      forall p | p in pages[..n - 1] ensures p.pageKey != pages[n - 1].pageKey {
      }
    }
  }

  lemma StagedPagesAreHeld(n: NewStage)
    requires CanStage(n)
    ensures HoldsPages(ByPageKey(n.pages, |n.pages|), n.pages)
  {
    PagesAreHeld(n.pages, |n.pages|);
    assert n.pages[..|n.pages|] == n.pages;
  }

  /** Content under a key is determined by what it holds. */
  lemma HeldPagesAreEqual(a: map<string, Page>, b: map<string, Page>, pages: seq<Page>)
    requires HoldsPages(a, pages) && HoldsPages(b, pages)
    ensures a == b
  {
    forall key ensures key in a <==> key in b {
      if key in a { assert a[key] in pages; }
      if key in b { assert b[key] in pages; }
    }
  }

  /** The stage of an announced one: what it was given, and deadlines fixed by the clock. */
  ghost predicate IsStageOf(s: Stage, n: NewStage, env: StageEnv, now: int) {
    && s.datasetKey == n.definition.key && s.schemaVersion == n.definition.version && s.metadata == n.metadata
    && HoldsPages(s.pages, n.pages) && s.collectedAt == now
    && s.expiresAt <= now + 86_400_000 && NoLater(Some(s.expiresAt), s.sourceExpiresAt)
    && (s.expiresAt == now + 86_400_000 || Some(s.expiresAt) == s.sourceExpiresAt)
    && var requested, most := RetentionExpiry(now, env.requestedRetention), RetentionExpiry(now, env.maxRetentionDays);
       NoLater(s.sourceExpiresAt, requested) && NoLater(s.sourceExpiresAt, most) && s.sourceExpiresAt in {requested, most}
  }

  lemma NewStageIs(id: StageId, n: NewStage, env: StageEnv, now: int)
    requires CanStage(n)
    ensures StageOf(id, n, env, now).id == id && IsStageOf(StageOf(id, n, env, now), n, env, now)
  {
    StagedPagesAreHeld(n);
  }

  /** The live stage of the key holds the same. */
  ghost predicate IsSame(s: Stage, n: NewStage) {
    && s.datasetKey == n.definition.key && s.schemaVersion == n.definition.version && s.metadata == n.metadata
    && HoldsPages(s.pages, n.pages)
  }

  lemma SameIff(s: Stage, n: NewStage)
    requires CanStage(n)
    ensures SameContent(s, n) <==> IsSame(s, n)
  {
    StagedPagesAreHeld(n);
    if IsSame(s, n) { HeldPagesAreEqual(s.pages, ByPageKey(n.pages, |n.pages|), n.pages); }
  }

  // ---- Which stages are valid ----

  ghost predicate IsKey(key: string) { key != "" && |key| < 201 && !exists c <- key :: !IsKeyChar(c) }

  /** Its own key and those of its pages are well formed and differ, and each page is a valid one that is not staged. */
  lemma InvalidIff(n: NewStage)
    ensures !CanStage(n) <==>
      || !IsKey(n.key) || n.pages == [] || !ValidDefinition(n.definition)
      || (exists p <- n.pages :: !IsKey(p.pageKey) || p.staging.Some? || !ValidPage(n.definition, p))
      || (exists i, j :: 0 <= i < j < |n.pages| && n.pages[i].pageKey == n.pages[j].pageKey)
  {
  }

  // ---- Provenance ----

  /** The page is the staged one but for its place in the refresh and its reference to the stage. */
  predicate IsCopyOf(p: Page, staged: Page) {
    p == staged.(refreshKey := p.refreshKey, pageKey := p.pageKey, previousPageKey := p.previousPageKey, staging := p.staging)
  }

  /** A stage vouches for a page while it lasts, when the page refers to it and is a copy of the page it refers to. */
  lemma ProvesIff(s: Stage, p: Page, id: StageId, maxRetentionDays: Option<int>, now: int, later: int)
    requires p.staging.Some?
    ensures Proves(s, p, id, maxRetentionDays, now, later) <==>
      && id == s.id && Lasts(s, maxRetentionDays, now) && Lasts(s, maxRetentionDays, later)
      && (s.datasetKey, s.schemaVersion) == (p.datasetKey, p.schemaVersion)
      && exists key <- s.pages :: p.staging.value.1 == key && IsCopyOf(p, s.pages[key])
  {
    LiveIff(s, maxRetentionDays, now);
    LiveIff(s, maxRetentionDays, later);
  }

  // ---- Storing ----

  ghost predicate HasLive(s: Stages, n: NewStage, env: StageEnv, now: int) {
    n.key in s.byKey && Lasts(s.byKey[n.key], env.maxRetentionDays, now)
  }

  /** The stage would have ended by the last reading of the clock. */
  ghost predicate EndsAtOnce(n: NewStage, env: StageEnv, now: int, last: int) {
    || now + 86_400_000 <= last
    || Passed(RetentionExpiry(now, env.requestedRetention), last) || Passed(RetentionExpiry(now, env.maxRetentionDays), last)
  }

  lemma ExpiredIff(id: StageId, n: NewStage, env: StageEnv, now: int, last: int)
    ensures var stage := StageOf(id, n, env, now);
      Expired(stage, stage.sourceExpiresAt, last) <==> EndsAtOnce(n, env, now, last)
  {
  }

  /**
   * A stage is accepted exactly when it is valid and either the live one of its key holds the same, or there is none and
   * the budget has room for one that still lasts.
   */
  lemma StoreAcceptedIff(s: Stages, n: NewStage, env: StageEnv, now: int, last: int)
    ensures StoreStage(s, n, env, now, last).answer.Ok? <==>
      && CanStage(n) && env.sizes && env.connection
      && if HasLive(s, n, env, now) then IsSame(s.byKey[n.key], n)
         else env.budget && env.fits && !EndsAtOnce(n, env, now, last)
  {
    if n.key in s.byKey { LiveIff(s.byKey[n.key], env.maxRetentionDays, now); }
    if CanStage(n) && n.key in s.byKey { SameIff(s.byKey[n.key], n); }
    ExpiredIff(s.nextId, n, env, now, last);
  }

  /** A new stage takes the place of a dead one of its key; every other stage stays, and a found one changes nothing. */
  lemma StoredStageIs(s: Stages, n: NewStage, env: StageEnv, now: int, last: int)
    requires StoreStage(s, n, env, now, last).answer.Ok?
    ensures var next, id := StoreStage(s, n, env, now, last).stages, StoreStage(s, n, env, now, last).answer.value;
      if HasLive(s, n, env, now) then next == s && id == s.byKey[n.key].id
      else
        && next.nextId == s.nextId + 1 && id == s.nextId && n.key in next.byKey && next.byKey[n.key].id == id
        && IsStageOf(next.byKey[n.key], n, env, now)
        && next.byKey.Keys == s.byKey.Keys + {n.key}
        && forall key <- s.byKey :: key != n.key ==> next.byKey[key] == s.byKey[key]
  {
    if n.key in s.byKey { LiveIff(s.byKey[n.key], env.maxRetentionDays, now); }
    NewStageIs(s.nextId, n, env, now);
  }

  /** A refusal changes nothing, and its reason is true. */
  lemma StoreRefusalIsTrue(s: Stages, n: NewStage, env: StageEnv, now: int, last: int)
    requires StoreStage(s, n, env, now, last).answer.Err?
    ensures StoreStage(s, n, env, now, last).stages == s
    ensures match StoreStage(s, n, env, now, last).answer.error
      case StageInvalid => !CanStage(n)
      case StageLimit => !env.sizes
      case ConnectionNotFound => !env.connection
      case StageConflict => HasLive(s, n, env, now) && !IsSame(s.byKey[n.key], n)
      case StageQuota => !HasLive(s, n, env, now) && !(env.budget && env.fits)
      case StageUnavailable => !HasLive(s, n, env, now) && EndsAtOnce(n, env, now, last)
      case ReferenceInvalid => false
  {
    if n.key in s.byKey { LiveIff(s.byKey[n.key], env.maxRetentionDays, now); }
    if CanStage(n) && n.key in s.byKey { SameIff(s.byKey[n.key], n); }
    ExpiredIff(s.nextId, n, env, now, last);
  }
}
