/** How long published rows last over any run, and what a replayed refresh leaves behind. */
module DatasetDeadlines {
  import opened Common
  import opened DatasetTypes
  import opened DatasetSchemas
  import opened DatasetMerge
  import opened DatasetStore
  import opened DatasetRuns

  // ---- Where every published row comes from ----

  ghost predicate Sent(r: Refresh, d: Definition, k: Key) {
    exists x <- RecordSet(r.pages) :: RecordKey(d, x.values) == k
  }

  /**
   * A row was sent by its refresh and ends with it, or is carried from the generation before, collected as then and
   * ending no later; only an append carries a row that was sent again.
   */
  ghost predicate RowFrom(r: Refresh, d: Definition, previous: Rows, k: Key, row: Row) {
    || (Sent(r, d, k) && row.expiresAt == r.expiresAt && row.collectedAt == r.collectedAt)
    || (k in previous && (Sent(r, d, k) ==> d.mode.Append?) && row.collectedAt == previous[k].collectedAt
        && NoLater(row.expiresAt, previous[k].expiresAt))
  }

  /** The rows of the generation before the `i`-th. */
  function RowsBefore(generations: seq<Generation>, i: nat): Rows
    requires i < |generations|
  {
    if i == 0 then map[] else generations[i - 1].rows
  }

  ghost predicate GenerationDeadlines(s: Store, i: nat)
    requires i < |s.generations|
  {
    var g := s.generations[i];
    && g.refreshKey in s.refreshes && IsRegistered(s, g.schemaVersion)
    && forall k <- g.rows ::
         RowFrom(s.refreshes[g.refreshKey], VersionOf(s, g.schemaVersion), RowsBefore(s.generations, i), k, g.rows[k])
  }

  ghost predicate DeadlinesOk(s: Store) {
    forall i: nat :: i < |s.generations| ==> GenerationDeadlines(s, i)
  }

  lemma MergedRowFrom(previous: Rows, h: Header, r: Refresh, k: Key)
    requires Merged(previous, h, r.pages).Ok? && k in Merged(previous, h, r.pages).value
    requires h.expiresAt == r.expiresAt && h.collectedAt == r.collectedAt
    ensures RowFrom(r, h.definition, previous, k, Merged(previous, h, r.pages).value[k])
  {
    var seen := MergeMeetsSpec(previous, h, r.pages);
    if k in seen {
      assert KeyOf(h, seen[k]) == RecordKey(h.definition, seen[k].values);
    }
    if x :| x in RecordSet(r.pages) && RecordKey(h.definition, x.values) == k {
      assert KeyOf(h, x) == k;
    }
  }

  /** A publication's rows come from its refresh and the generation before. */
  lemma PublicationDeadlines(s: Store, q: Input, next: Store)
    requires Effective(s, q) && q.page.complete && next == Ingest(s, q).store
    requires |next.generations| == |s.generations| + 1 && s.generations <= next.generations
    requires next.generations[|s.generations|].refreshKey == q.page.refreshKey
    requires IsRegistered(next, q.definition.version) && VersionOf(next, q.definition.version) == q.definition
    requires next.generations[|s.generations|].schemaVersion == q.definition.version
    ensures GenerationDeadlines(next, |s.generations|)
  {
    var rows := PublicationIsMerge(s, q);
    var r := next.refreshes[q.page.refreshKey];
    forall k | k in rows
      ensures RowFrom(r, q.definition, PreviousRows(s.generations), k, rows[k])
    {
      MergedRowFrom(PreviousRows(s.generations), HeaderOf(r, q), r, k);
    }
  }

  /** A store goes on to another: versions and generations are only added, and complete refreshes stay as they are. */
  ghost predicate GoesOnTo(s: Store, next: Store) {
    && s.generations <= next.generations && MoreVersions(s, next)
    && forall key <- s.refreshes :: s.refreshes[key].complete ==>
         key in next.refreshes && next.refreshes[key] == s.refreshes[key]
  }

  lemma OldGenerationStays(s: Store, next: Store, i: nat)
    requires i < |s.generations| && GenerationDeadlines(s, i) && s.generations <= next.generations
    requires var g := s.generations[i];
      && g.refreshKey in next.refreshes && next.refreshes[g.refreshKey] == s.refreshes[g.refreshKey]
      && IsRegistered(next, g.schemaVersion) && VersionOf(next, g.schemaVersion) == VersionOf(s, g.schemaVersion)
    ensures GenerationDeadlines(next, i)
  {
    assert next.generations[i] == s.generations[i] && RowsBefore(next.generations, i) == RowsBefore(s.generations, i);
  }

  lemma OldDeadlinesStay(s: Store, next: Store)
    requires Inv(s) && DeadlinesOk(s) && GoesOnTo(s, next)
    ensures forall i: nat :: i < |s.generations| ==> GenerationDeadlines(next, i)
  {
    forall i: nat | i < |s.generations| ensures GenerationDeadlines(next, i) {
      assert GenerationDeadlines(s, i);
      assert GenerationOk(s, s.generations[i]);
      OldGenerationStays(s, next, i);
    }
  }

  /** The facts of a delivery that added a page, without the delivery itself. */
  ghost predicate Added(s: Store, q: Input, next: Store) {
    && GoesOnTo(s, next) && IsRegistered(next, q.definition.version) && VersionOf(next, q.definition.version) == q.definition
    && if q.page.complete then
         && |next.generations| == |s.generations| + 1
         && next.generations[|s.generations|].refreshKey == q.page.refreshKey
         && next.generations[|s.generations|].schemaVersion == q.definition.version
       else next.generations == s.generations
  }

  lemma AddedPage(s: Store, t: Store, r: Refresh, q: Input, generations: seq<Generation>)
    requires MoreVersions(s, t) && t.refreshes == s.refreshes && t.generations == s.generations
    requires IsRegistered(t, q.definition.version) && VersionOf(t, q.definition.version) == q.definition
    requires !r.complete && (q.page.refreshKey in s.refreshes ==> s.refreshes[q.page.refreshKey] == r)
    requires s.generations <= generations && |generations| == |s.generations| + (if q.page.complete then 1 else 0)
    requires q.page.complete ==> generations[|s.generations|].refreshKey == q.page.refreshKey
                                 && generations[|s.generations|].schemaVersion == q.definition.version
    ensures Added(s, q, Store(t.created, t.versions, t.refreshes[q.page.refreshKey := Received(r, q.page)], generations))
  {
    var next := Store(t.created, t.versions, t.refreshes[q.page.refreshKey := Received(r, q.page)], generations);
    forall v | IsRegistered(s, v) ensures IsRegistered(next, v) && VersionOf(next, v) == VersionOf(s, v) {
      assert IsRegistered(t, v) && VersionOf(t, v) == VersionOf(s, v);
    }
  }

  lemma EffectiveAdds(s: Store, q: Input)
    requires Inv(s) && Effective(s, q)
    ensures Added(s, q, Ingest(s, q).store)
  {
    var t, r, rows := EffectiveShape(s, q);
    AdmittedFacts(s, q);
    RegisterKeeps(s, q.definition, q.env.fits);
    RegisterKeepsPages(s, q.definition, q.env.fits);
    AddedPage(s, t, r, q, if q.page.complete then t.generations + [NewGeneration(|t.generations|, r, q, rows)] else t.generations);
  }

  lemma DeliveryKeepsDeadlines(s: Store, q: Input)
    requires Inv(s) && DeadlinesOk(s)
    ensures DeadlinesOk(Ingest(s, q).store)
  {
    if Effective(s, q) {
      var next := Ingest(s, q).store;
      EffectiveKeepsInv(s, q);
      EffectiveAdds(s, q);
      OldDeadlinesStay(s, next);
      if q.page.complete { PublicationDeadlines(s, q, next); }
    } else {
      IneffectiveChangesNothing(s, q);
    }
  }

  lemma DeclarationKeepsDeadlines(s: Store, d: Definition, fits: Fits)
    requires Inv(s) && DeadlinesOk(s)
    ensures DeadlinesOk(Declared(s, d, fits))
  {
    if ValidDefinition(d) && Register(s, d, fits).Ok? {
      RegisterKeeps(s, d, fits);
      OldDeadlinesStay(s, Register(s, d, fits).value);
    }
  }

  /**
   * In every reachable store each row of each generation ends with the refresh that sent it, or is carried from the
   * generation before and ends no later than it did there.
   */
  lemma {:induction false} RunsKeepDeadlines(run: seq<Store>, steps: seq<Step>, n: nat)
    requires IsRun(run, steps) && n < |run|
    ensures DeadlinesOk(run[n])
  {
    if n > 0 {
      RunsKeepDeadlines(run, steps, n - 1);
      RunsKeepInv(run, steps, n - 1);
      assert Follows(run[n - 1], steps[n - 1], run[n]);
      match steps[n - 1].event
      case Deliver(q) => DeliveryKeepsDeadlines(run[n - 1], q);
      case Declare(d, fits) => DeclarationKeepsDeadlines(run[n - 1], d, fits);
    }
  }

  // ---- One delivery in turn ----

  /** What an accepted delivery leaves: its page is there, and the deadline of its refresh was fixed by the first one. */
  ghost predicate Arrives(s: Store, q: Input, next: Store) {
    Inv(next) && Receives(s, q, next.refreshes) && (DeadlinesOk(s) ==> DeadlinesOk(next))
  }

  lemma ReplayedPageIsThere(s: Store, q: Input)
    requires Ingest(s, q).answer.Ok? && !Effective(s, q)
    ensures q.page.refreshKey in s.refreshes && q.page in s.refreshes[q.page.refreshKey].pages
  {
    assert HasPage(Opened(s, q), q.page.pageKey);
  }

  /** Of one delivery, the changes to refreshes that matter here. */
  ghost predicate Receives(s: Store, q: Input, refreshes: map<string, Refresh>) {
    var key := q.page.refreshKey;
    && key in refreshes && q.page in refreshes[key].pages
    && (forall p <- PagesIn(s, key) :: p in refreshes[key].pages)
    && refreshes[key].expiresAt == (if key in s.refreshes then s.refreshes[key].expiresAt else ExpiresAt(q))
    && refreshes[key].collectedAt == (if key in s.refreshes then s.refreshes[key].collectedAt else CollectedAt(q))
    && (forall k <- s.refreshes :: k != key ==> k in refreshes && refreshes[k] == s.refreshes[k])
  }

  lemma ReceivedPage(s: Store, q: Input)
    ensures Receives(s, q, s.refreshes[q.page.refreshKey := Received(Opened(s, q), q.page)])
  {
  }

  lemma PageAlreadyThere(s: Store, q: Input)
    requires q.page.refreshKey in s.refreshes && q.page in s.refreshes[q.page.refreshKey].pages
    ensures Receives(s, q, s.refreshes)
  {
  }

  lemma AcceptedReceives(s: Store, q: Input)
    requires Inv(s) && Ingest(s, q).answer.Ok?
    ensures Receives(s, q, Ingest(s, q).store.refreshes)
  {
    if Effective(s, q) {
      var t, r, rows := EffectiveShape(s, q);
      RegisterKeepsPages(s, q.definition, q.env.fits);
      ReceivedPage(s, q);
    } else {
      IneffectiveChangesNothing(s, q);
      ReplayedPageIsThere(s, q);
      PageAlreadyThere(s, q);
    }
  }

  lemma AcceptedArrives(s: Store, q: Input)
    requires Inv(s) && Ingest(s, q).answer.Ok?
    ensures Arrives(s, q, Ingest(s, q).store)
  {
    AcceptedReceives(s, q);
    if DeadlinesOk(s) { DeliveryKeepsDeadlines(s, q); }
    StepKeepsInv(s, Step(Deliver(q), Ingest(s, q).answer), Ingest(s, q).store);
  }

  ghost predicate Accepting(deliver: (Store, Input) -> Outcome) {
    forall s, q {:trigger deliver(s, q)} :: Inv(s) && deliver(s, q).answer.Ok? ==> Arrives(s, q, deliver(s, q).store)
  }

  lemma IngestAccepts()
    ensures Accepting(Ingest)
  {
    forall s, q | Inv(s) && Ingest(s, q).answer.Ok? ensures Arrives(s, q, Ingest(s, q).store) {
      AcceptedArrives(s, q);
    }
  }

  /** What the first `n` deliveries to one refresh leave of the refreshes. */
  ghost predicate HaveArrived(s: Store, qs: seq<Input>, n: nat, key: string, refreshes: map<string, Refresh>)
    requires 0 < n <= |qs|
  {
    && key in refreshes && (forall i :: 0 <= i < n ==> qs[i].page in refreshes[key].pages)
    && refreshes[key].expiresAt == (if key in s.refreshes then s.refreshes[key].expiresAt else ExpiresAt(qs[0]))
    && (forall k <- s.refreshes :: k != key ==> k in refreshes && refreshes[k] == s.refreshes[k])
  }

  lemma FirstArrives(s: Store, qs: seq<Input>, key: string, refreshes: map<string, Refresh>)
    requires qs != [] && qs[0].page.refreshKey == key && Receives(s, qs[0], refreshes)
    ensures HaveArrived(s, qs, 1, key, refreshes)
  {
  }

  lemma NextArrives(s: Store, before: Store, qs: seq<Input>, n: nat, key: string, refreshes: map<string, Refresh>)
    requires 0 < n < |qs| && HaveArrived(s, qs, n, key, before.refreshes)
    requires qs[n].page.refreshKey == key && Receives(before, qs[n], refreshes)
    ensures HaveArrived(s, qs, n + 1, key, refreshes)
  {
    forall i | 0 <= i < n ensures qs[i].page in refreshes[key].pages {
      assert qs[i].page in PagesIn(before, key);
    }
  }

  lemma DeliveredArrives(deliver: (Store, Input) -> Outcome, s: Store, q: Input)
    requires Accepting(deliver) && Inv(s) && deliver(s, q).answer.Ok?
    ensures Arrives(s, q, deliver(s, q).store)
  {
  }

  lemma {:induction false} AllArrive(deliver: (Store, Input) -> Outcome, s: Store, qs: seq<Input>, n: nat, key: string)
    requires Accepting(deliver) && Inv(s) && 0 < n <= |qs| && forall q <- qs :: q.page.refreshKey == key
    requires DeliverAll(deliver, s, qs[..n]).answer.Ok?
    ensures var next := DeliverAll(deliver, s, qs[..n]).store;
      Inv(next) && HaveArrived(s, qs, n, key, next.refreshes) && (DeadlinesOk(s) ==> DeadlinesOk(next))
  {
    var before := DeliverAll(deliver, s, qs[..n - 1]);
    assert qs[..n][..n - 1] == qs[..n - 1];
    if n == 1 {
      assert qs[..0] == [];
      OneMoreDelivery(deliver, s, qs, 0);
      DeliveredArrives(deliver, s, qs[0]);
      FirstArrives(s, qs, key, deliver(s, qs[0]).store.refreshes);
    } else {
      AllArrive(deliver, s, qs, n - 1, key);
      OneMoreDelivery(deliver, s, qs, n - 1);
      DeliveredArrives(deliver, before.store, qs[n - 1]);
      NextArrives(s, before.store, qs, n - 1, key, deliver(before.store, qs[n - 1]).store.refreshes);
    }
  }

  /** A refresh keeps its deadline and collection time from one store to the next. */
  ghost predicate KeepsTimes(s: Store, next: Store, key: string) {
    key in s.refreshes ==>
      && key in next.refreshes && next.refreshes[key].expiresAt == s.refreshes[key].expiresAt
      && next.refreshes[key].collectedAt == s.refreshes[key].collectedAt
  }

  lemma {:induction false} TimesStay(run: seq<Store>, m: nat, n: nat, key: string)
    requires (forall i: nat :: i + 1 < |run| ==> KeepsTimesAt(run, i, key)) && m <= n < |run|
    ensures KeepsTimes(run[m], run[n], key)
    decreases n
  {
    if m < n {
      TimesStay(run, m, n - 1, key);
      assert KeepsTimesAt(run, n - 1, key);
    }
  }

  ghost predicate KeepsTimesAt(run: seq<Store>, i: nat, key: string)
    requires i + 1 < |run|
  {
    KeepsTimes(run[i], run[i + 1], key)
  }

  lemma RunStepKeepsTimes(run: seq<Store>, steps: seq<Step>, i: nat, key: string)
    requires IsRun(run, steps) && i < |steps|
    ensures KeepsTimesAt(run, i, key)
  {
    RunsKeepInv(run, steps, i);
    assert Follows(run[i], steps[i], run[i + 1]);
    if key in run[i].refreshes { StepKeepsTimes(run[i], steps[i], run[i + 1], key); }
  }

  /** The deadline and collection time of a refresh are fixed when it is opened. */
  lemma RefreshTimesAreFixed(run: seq<Store>, steps: seq<Step>, m: nat, n: nat, key: string)
    requires IsRun(run, steps) && m <= n < |run| && key in run[m].refreshes
    ensures key in run[n].refreshes && run[n].refreshes[key].expiresAt == run[m].refreshes[key].expiresAt
    ensures run[n].refreshes[key].collectedAt == run[m].refreshes[key].collectedAt
  {
    forall i: nat | i + 1 < |run| ensures KeepsTimesAt(run, i, key) {
      RunStepKeepsTimes(run, steps, i, key);
    }
    TimesStay(run, m, n, key);
  }

  lemma ReceivesKeepsTimes(s: Store, q: Input, refreshes: map<string, Refresh>, key: string)
    requires Receives(s, q, refreshes) && key in s.refreshes
    ensures key in refreshes && refreshes[key].expiresAt == s.refreshes[key].expiresAt
    ensures refreshes[key].collectedAt == s.refreshes[key].collectedAt
  {
  }

  lemma DeliveryKeepsTimes(s: Store, q: Input, key: string)
    requires Inv(s) && key in s.refreshes
    ensures var next := Ingest(s, q).store.refreshes;
      key in next && next[key].expiresAt == s.refreshes[key].expiresAt && next[key].collectedAt == s.refreshes[key].collectedAt
  {
    if Ingest(s, q).answer.Ok? {
      AcceptedReceives(s, q);
      ReceivesKeepsTimes(s, q, Ingest(s, q).store.refreshes, key);
    } else {
      IneffectiveChangesNothing(s, q);
    }
  }

  lemma DeclarationKeepsTimes(s: Store, d: Definition, fits: Fits)
    ensures Declared(s, d, fits).refreshes == s.refreshes
  {
    if Register(s, d, fits).Ok? { RegisterKeepsPages(s, d, fits); }
  }

  lemma StepKeepsTimes(s: Store, step: Step, next: Store, key: string)
    requires Inv(s) && Follows(s, step, next) && key in s.refreshes
    ensures key in next.refreshes && next.refreshes[key].expiresAt == s.refreshes[key].expiresAt
    ensures next.refreshes[key].collectedAt == s.refreshes[key].collectedAt
  {
    match step.event
    case Deliver(q) => DeliveryKeepsTimes(s, q, key);
    case Declare(d, fits) => DeclarationKeepsTimes(s, d, fits);
  }

  /** The row was carried from the generation before; if its refresh sent its record, then under append. */
  ghost predicate CarriedOver(s: Store, i: nat, k: Key)
    requires i < |s.generations| && GenerationDeadlines(s, i) && k in s.generations[i].rows
  {
    var g, previous := s.generations[i], RowsBefore(s.generations, i);
    && k in previous && g.rows[k].collectedAt == previous[k].collectedAt && NoLater(g.rows[k].expiresAt, previous[k].expiresAt)
    && (Sent(s.refreshes[g.refreshKey], VersionOf(s, g.schemaVersion), k) ==> VersionOf(s, g.schemaVersion).mode.Append?)
  }

  /** Rows of a refresh that ends by some time end by then, unless they are carried from the generation before. */
  lemma RowsEndWithRefresh(s: Store, i: nat, k: Key, limit: Deadline)
    requires DeadlinesOk(s) && i < |s.generations| && k in s.generations[i].rows
    ensures GenerationDeadlines(s, i)
    ensures NoLater(s.refreshes[s.generations[i].refreshKey].expiresAt, limit) ==>
      NoLater(s.generations[i].rows[k].expiresAt, limit) || CarriedOver(s, i, k)
  {
    assert GenerationDeadlines(s, i);
  }

  // ---- What a final delivery publishes ----

  /** The rows the merge of a final delivery starts from, as they are known before it. */
  function BaseOf(s: Store, q: Input): Rows { Base(PreviousRows(s.generations), HeaderOf(Opened(s, q), q)) }

  /** A final delivery's refresh has the times it was opened with. */
  lemma HeaderStays(s: Store, q: Input)
    requires Effective(s, q)
    ensures q.page.refreshKey in Ingest(s, q).store.refreshes
    ensures HeaderOf(Ingest(s, q).store.refreshes[q.page.refreshKey], q) == HeaderOf(Opened(s, q), q)
  {
    var t, r, rows := EffectiveShape(s, q);
  }

  /** The published rows are the merge of the refresh's pages into the generation before. */
  ghost predicate Merges(s: Store, q: Input, next: Store) {
    && next.generations != []
    && Merged(PreviousRows(s.generations), HeaderOf(Opened(s, q), q), PagesIn(next, q.page.refreshKey))
         == Ok(next.generations[|next.generations| - 1].rows)
  }

  lemma FinalDeliveryMerges(s: Store, q: Input)
    requires Effective(s, q) && q.page.complete
    ensures Merges(s, q, Ingest(s, q).store)
  {
    var rows := PublicationIsMerge(s, q);
    HeaderStays(s, q);
  }

  lemma MergedSentRow(s: Store, q: Input, next: Store, x: Record)
    requires Merges(s, q, next) && x in RecordSet(PagesIn(next, q.page.refreshKey)) && !IsDeleted(x)
    ensures var rows, r, k := next.generations[|next.generations| - 1].rows, Opened(s, q), RecordKey(q.definition, x.values);
      && k in rows
      && rows[k] == if q.definition.mode.Append? && k in BaseOf(s, q) then BaseOf(s, q)[k]
                    else Row(x.values, r.collectedAt, r.expiresAt)
  {
    var h := HeaderOf(Opened(s, q), q);
    assert KeyOf(h, x) == RecordKey(q.definition, x.values);
    SentRecordIsRow(PreviousRows(s.generations), h, PagesIn(next, q.page.refreshKey), x);
  }

  lemma MergedUnsentRow(s: Store, q: Input, next: Store, k: Key)
    requires Merges(s, q, next) && k in next.generations[|next.generations| - 1].rows
    requires forall x <- RecordSet(PagesIn(next, q.page.refreshKey)) :: RecordKey(q.definition, x.values) != k
    ensures k in BaseOf(s, q) && next.generations[|next.generations| - 1].rows[k] == BaseOf(s, q)[k]
  {
    var h := HeaderOf(Opened(s, q), q);
    forall x | x in RecordSet(PagesIn(next, q.page.refreshKey)) ensures KeyOf(h, x) != k {
      assert KeyOf(h, x) == RecordKey(q.definition, x.values);
    }
    UnsentRowIsCarried(PreviousRows(s.generations), h, PagesIn(next, q.page.refreshKey), k);
  }

  /** The published row of a sent record, known before the delivery: a base row it meets under append, or a new one. */
  lemma PublishedSentRow(s: Store, q: Input, next: Store, x: Record)
    requires Effective(s, q) && q.page.complete && next == Ingest(s, q).store
    requires x in RecordSet(PagesIn(next, q.page.refreshKey)) && !IsDeleted(x)
    ensures next.generations != []
    ensures var rows, r, k := next.generations[|next.generations| - 1].rows, Opened(s, q), RecordKey(q.definition, x.values);
      && k in rows
      && rows[k] == if q.definition.mode.Append? && k in BaseOf(s, q) then BaseOf(s, q)[k]
                    else Row(x.values, r.collectedAt, r.expiresAt)
  {
    FinalDeliveryMerges(s, q);
    MergedSentRow(s, q, next, x);
  }

  /** A row that the refresh did not send is a base row. */
  lemma PublishedUnsentRow(s: Store, q: Input, next: Store, k: Key)
    requires Effective(s, q) && q.page.complete && next == Ingest(s, q).store && next.generations != []
    requires k in next.generations[|next.generations| - 1].rows
    requires forall x <- RecordSet(PagesIn(next, q.page.refreshKey)) :: RecordKey(q.definition, x.values) != k
    ensures k in BaseOf(s, q) && next.generations[|next.generations| - 1].rows[k] == BaseOf(s, q)[k]
  {
    FinalDeliveryMerges(s, q);
    MergedUnsentRow(s, q, next, k);
  }

  /**
   * The row of a sent record ends by a time exactly when the base row it meets does, under append, and otherwise exactly
   * when its refresh does: both are known before the final delivery.
   */
  lemma SentRowEndsIff(s: Store, q: Input, next: Store, x: Record, limit: Deadline)
    requires Effective(s, q) && q.page.complete && next == Ingest(s, q).store
    requires x in RecordSet(PagesIn(next, q.page.refreshKey)) && !IsDeleted(x)
    ensures next.generations != []
    ensures var rows, k := next.generations[|next.generations| - 1].rows, RecordKey(q.definition, x.values);
      && k in rows
      && (NoLater(rows[k].expiresAt, limit) <==>
            if q.definition.mode.Append? && k in BaseOf(s, q) then NoLater(BaseOf(s, q)[k].expiresAt, limit)
            else NoLater(Opened(s, q).expiresAt, limit))
  {
    PublishedSentRow(s, q, next, x);
  }

  // ---- Replay ----

  function Rekeyed(pages: seq<Page>, key: string): (rekeyed: seq<Page>)
    ensures |rekeyed| == |pages| && forall i :: 0 <= i < |pages| ==> rekeyed[i] == pages[i].(refreshKey := key)
  {
    seq(|pages|, i requires 0 <= i < |pages| => pages[i].(refreshKey := key))
  }

  /** Linked pages that contain a linked list from its start have it at their start. */
  lemma {:induction false} ListIsAtStart(pages: seq<Page>, list: seq<Page>, i: nat)
    requires i < |list| && (forall p <- list :: p in pages)
    requires IsLinked(pages) && IsLinked(list) && HaveOwnKeys(pages)
    ensures i < |pages| && pages[i] == list[i]
  {
    assert list[i] in pages;
    var m: nat :| m < |pages| && pages[m] == list[i];
    assert LinkedAt(pages, m) && LinkedAt(list, i);
    if i > 0 { ListIsAtStart(pages, list, i - 1); }
  }

  lemma OnlyLastIsComplete(pages: seq<Page>, i: nat)
    requires IsLinked(pages) && i < |pages| && pages[i].complete
    ensures i == |pages| - 1
  {
    var next := i + 1;
    assert next == |pages| || LinkedAt(pages, next);
  }

  lemma CompleteListIsAll(pages: seq<Page>, list: seq<Page>)
    requires list != [] && list[|list| - 1].complete && (forall p <- list :: p in pages)
    requires IsLinked(pages) && IsLinked(list) && HaveOwnKeys(pages)
    ensures pages == list
  {
    forall i: nat | i < |list| ensures i < |pages| && pages[i] == list[i] {
      ListIsAtStart(pages, list, i);
    }
    OnlyLastIsComplete(pages, |list| - 1);
  }

  /** A stored refresh is a linked list of pages with different keys. */
  lemma StoredIsLinked(s: Store, key: string)
    requires Inv(s) && key in s.refreshes
    ensures var pages := s.refreshes[key].pages;
      && pages != [] && s.refreshes[key].complete == pages[|pages| - 1].complete
      && IsLinked(pages) && HaveOwnKeys(pages)
  {
    assert RefreshOk(s, key, s.refreshes[key]);
  }

  lemma RekeyedIsLinked(pages: seq<Page>, newKey: string)
    requires IsLinked(pages)
    ensures IsLinked(Rekeyed(pages, newKey))
  {
    forall k: nat | k < |pages| ensures LinkedAt(Rekeyed(pages, newKey), k) {
      assert LinkedAt(pages, k);
    }
  }

  lemma ReplayDelivers(s: Store, sourceKey: string, newKey: string, now: int, envs: seq<Env>)
    requires sourceKey in s.refreshes ==> |envs| == |s.refreshes[sourceKey].pages|
    ensures Replayed(s, sourceKey, newKey, now, envs).answer.Ok? ==>
      && sourceKey != newKey && CanReplay(s, sourceKey, now)
      && var source := s.refreshes[sourceKey];
         var d := s.versions[VersionIndex(s.versions, source.schemaVersion)];
         Replayed(s, sourceKey, newKey, now, envs)
           == DeliverAll(Ingest, s, ReplayInputs(source, d, newKey, now, envs))
  {
  }

  lemma ReplayEndsBySource(source: Refresh, d: Definition, p: Page, newKey: string, now: int, env: Env)
    ensures NoLater(ExpiresAt(ReplayInput(source, d, p, newKey, now, env)), source.expiresAt)
  {
  }

  ghost predicate IsLinked(pages: seq<Page>) { forall k: nat :: k < |pages| ==> LinkedAt(pages, k) }

  ghost predicate HaveOwnKeys(pages: seq<Page>) {
    forall k, l :: 0 <= k < l < |pages| ==> pages[k].pageKey != pages[l].pageKey
  }

  /** The pages of a complete refresh that have all arrived are all there is. */
  lemma ArrivedPages(source: seq<Page>, newKey: string, pages: seq<Page>)
    requires source != [] && source[|source| - 1].complete && IsLinked(source) && IsLinked(pages) && HaveOwnKeys(pages)
    requires forall i :: 0 <= i < |source| ==> source[i].(refreshKey := newKey) in pages
    ensures pages == Rekeyed(source, newKey)
  {
    RekeyedIsLinked(source, newKey);
    CompleteListIsAll(pages, Rekeyed(source, newKey));
  }

  lemma ArrivedAre(s: Store, source: Refresh, d: Definition, newKey: string, now: int, envs: seq<Env>,
                   refreshes: map<string, Refresh>)
    requires |envs| == |source.pages| > 0
    requires HaveArrived(s, ReplayInputs(source, d, newKey, now, envs), |envs|, newKey, refreshes)
    ensures forall i :: 0 <= i < |source.pages| ==> source.pages[i].(refreshKey := newKey) in refreshes[newKey].pages
  {
    var qs := ReplayInputs(source, d, newKey, now, envs);
    forall i | 0 <= i < |source.pages| ensures source.pages[i].(refreshKey := newKey) in refreshes[newKey].pages {
      assert qs[i].page == source.pages[i].(refreshKey := newKey);
    }
  }

  /** All deliveries were accepted: what they leave, without the deliveries. */
  lemma AllAccepted(deliver: (Store, Input) -> Outcome, s: Store, qs: seq<Input>, key: string, o: Outcome)
    requires Accepting(deliver) && Inv(s) && qs != [] && forall q <- qs :: q.page.refreshKey == key
    requires DeliverAll(deliver, s, qs) == o && o.answer.Ok?
    ensures Inv(o.store) && HaveArrived(s, qs, |qs|, key, o.store.refreshes) && (DeadlinesOk(s) ==> DeadlinesOk(o.store))
  {
    assert qs[..|qs|] == qs;
    AllArrive(deliver, s, qs, |qs|, key);
  }

  lemma ArrivedDeadline(s: Store, source: Refresh, d: Definition, newKey: string, now: int, envs: seq<Env>, next: Store)
    requires |envs| == |source.pages| > 0
    requires HaveArrived(s, ReplayInputs(source, d, newKey, now, envs), |envs|, newKey, next.refreshes)
    ensures NoLater(next.refreshes[newKey].expiresAt, source.expiresAt) <==>
      newKey !in s.refreshes || NoLater(s.refreshes[newKey].expiresAt, source.expiresAt)
  {
    ReplayEndsBySource(source, d, source.pages[0], newKey, now, envs[0]);
  }

  /** Everything of an accepted replay that matters, given that all its pages arrived. */
  lemma ReplayArrived(s: Store, sourceKey: string, newKey: string, d: Definition, now: int, envs: seq<Env>, next: Store)
    requires Inv(s) && CanReplay(s, sourceKey, now) && newKey != sourceKey && |envs| == |s.refreshes[sourceKey].pages| > 0
    requires Inv(next)
    requires HaveArrived(s, ReplayInputs(s.refreshes[sourceKey], d, newKey, now, envs), |envs|, newKey, next.refreshes)
    ensures newKey in next.refreshes && PagesIn(next, newKey) == Rekeyed(PagesIn(s, sourceKey), newKey)
    ensures sourceKey in next.refreshes && next.refreshes[sourceKey] == s.refreshes[sourceKey]
    ensures NoLater(next.refreshes[newKey].expiresAt, s.refreshes[sourceKey].expiresAt) <==>
      newKey !in s.refreshes || NoLater(s.refreshes[newKey].expiresAt, s.refreshes[sourceKey].expiresAt)
  {
    var source := s.refreshes[sourceKey];
    StoredIsLinked(s, sourceKey);
    StoredIsLinked(next, newKey);
    ArrivedAre(s, source, d, newKey, now, envs, next.refreshes);
    ArrivedPages(source.pages, newKey, next.refreshes[newKey].pages);
    ArrivedDeadline(s, source, d, newKey, now, envs, next);
  }

  /**
   * An accepted replay leaves exactly the source's pages under the new key, whatever was there before, and the source as
   * it was. The new refresh ends no later than its source exactly when the replay opened it, or when it was open
   * already and ended by then: the deadline of a refresh is fixed by its first page.
   */
  lemma ReplayedRefresh(s: Store, sourceKey: string, newKey: string, now: int, envs: seq<Env>, next: Store, a: Answer)
    requires Inv(s) && (sourceKey in s.refreshes ==> |envs| == |s.refreshes[sourceKey].pages|)
    requires Replayed(s, sourceKey, newKey, now, envs) == Outcome(next, Ok(a))
    ensures Inv(next) && sourceKey in s.refreshes && newKey in next.refreshes && newKey != sourceKey
    ensures PagesIn(next, newKey) == Rekeyed(PagesIn(s, sourceKey), newKey)
    ensures sourceKey in next.refreshes && next.refreshes[sourceKey] == s.refreshes[sourceKey]
    ensures DeadlinesOk(s) ==> DeadlinesOk(next)
    ensures NoLater(next.refreshes[newKey].expiresAt, s.refreshes[sourceKey].expiresAt) <==>
      newKey !in s.refreshes || NoLater(s.refreshes[newKey].expiresAt, s.refreshes[sourceKey].expiresAt)
  {
    ReplayDelivers(s, sourceKey, newKey, now, envs);
    StoredIsLinked(s, sourceKey);
    var d := s.versions[VersionIndex(s.versions, s.refreshes[sourceKey].schemaVersion)];
    IngestAccepts();
    AllAccepted(Ingest, s, ReplayInputs(s.refreshes[sourceKey], d, newKey, now, envs), newKey, Outcome(next, Ok(a)));
    ReplayArrived(s, sourceKey, newKey, d, now, envs, next);
  }
}
