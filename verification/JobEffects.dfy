/** What each operation of the queue does to the table, told from the rows it finds. */
module JobEffects {
  import opened Common
  import opened Jobs
  import opened JobRuns

  // ---- The unique indexes ----

  /** The row has the key of another one, or would be a second pending sync or backfill of its connection. */
  ghost predicate IsTwin(t: Table, id: JobId, row: Job) {
    exists i <- t :: i != id &&
      ((row.key.Some? && t[i].key == row.key)
       || (row.status == Pending && row.connection.Some? && row.kind in {"connection.sync", "connection.backfill"}
           && t[i].status == Pending && t[i].kind == row.kind && t[i].connection == row.connection))
  }

  lemma ClashIff(t: Table, id: JobId, row: Job)
    ensures ClashesWithTable(t, id, row) <==> IsTwin(t, id, row)
  {
  }

  // ---- New jobs ----

  /** A pending job that names its workspace and connection in its payload too. */
  ghost predicate IsNew(job: NewJob, now: int, row: Job) {
    && row.kind == job.kind && row.workspace == Some(job.workspace) && row.connection == job.connection
    && row.status == Pending && row.attempts == 0 && row.key == job.key && row.createdAt == now
    && row.lockedBy == None && row.lockedAt == None && row.lastError == None
    && row.runAt == (if job.runAt.Some? then job.runAt.value else now)
    && row.maxAttempts == (if job.maxAttempts.Some? then job.maxAttempts.value else 8)
    && row.payload.Keys == job.payload.Keys + {"workspace_id", "connection_id"}
    && row.payload["workspace_id"] == Id(job.workspace)
    && row.payload["connection_id"] == (if job.connection.Some? then Id(job.connection.value) else Null)
    && forall name <- job.payload :: name !in {"workspace_id", "connection_id"} ==> row.payload[name] == job.payload[name]
  }

  lemma NewRowIs(job: NewJob, now: int)
    ensures IsNew(job, now, RowOf(job, now))
  {
  }

  /** No row has the job's key, nor is a pending sync or backfill of its connection like it. */
  ghost predicate IsFree(t: Table, job: NewJob) {
    && (job.key.Some? ==> forall i <- t :: t[i].key != job.key)
    && (job.kind in {"connection.sync", "connection.backfill"} && job.connection.Some? ==>
          forall i <- t :: !(t[i].status == Pending && t[i].kind == job.kind && t[i].connection == job.connection))
  }

  /** The table has one row more, the job's, if the job was free, and is the same if not. */
  ghost predicate AddsIfFree(t: Table, id: JobId, job: NewJob, now: int, next: Table) {
    if IsFree(t, job) then id in next && IsNew(job, now, next[id]) && next == t[id := next[id]] else next == t
  }

  lemma PutAddsIfFree(t: Table, id: JobId, job: NewJob, now: int)
    requires id !in t
    ensures AddsIfFree(t, id, job, now, Put(t, id, RowOf(job, now)))
  {
    NewRowIs(job, now);
    ClashIff(t, id, RowOf(job, now));
  }

  /** Whatever the table, any of these can be asked of it: new jobs need an unused id, and a claim an order of visits. */
  lemma AlwaysEnabled(t: Table, id: JobId, job: NewJob, w: WorkspaceId, c: ConnectionId, worker: string, now: int)
    requires Counted(t) && id !in t
    ensures Enabled(t, Enqueue(id, job, now)) && Enabled(t, RequestSync(id, w, c, now)) && Enabled(t, RequestBackfill(id, w, c, now))
    ensures job.connection.Some? ==> Enabled(t, EnqueueSync(id, job, now, true)) && Enabled(t, EnqueueSync(id, job, now, false))
    ensures forall i: JobId :: Enabled(t, Complete(i, worker)) && Enabled(t, Renew(i, worker, now))
    ensures forall i: JobId, error, again, letter :: Enabled(t, Fail(i, worker, error, again, letter, now))
    ensures forall i: JobId, continuation :: Enabled(t, Step.Defer(i, worker, continuation, now))
    ensures Enabled(t, Step.DeleteConnection(w, c))
    ensures forall limit, staleAfter :: Enabled(t, Claim(worker, limit, staleAfter, [], now))
    ensures forall ids :: Enabled(t, Prune(ids)) <==> forall i <- ids :: i in t && IsTerminal(t[i].status)
  {
  }

  lemma EnqueueIs(t: Table, id: JobId, job: NewJob, now: int)
    requires Enabled(t, Enqueue(id, job, now))
    ensures AddsIfFree(t, id, job, now, Next(t, Enqueue(id, job, now)))
  {
    PutAddsIfFree(t, id, job, now);
  }

  lemma EnqueueSyncIs(t: Table, id: JobId, job: NewJob, now: int, known: bool)
    requires Enabled(t, EnqueueSync(id, job, now, known))
    ensures known ==> AddsIfFree(t, id, job, now, Next(t, EnqueueSync(id, job, now, known)))
    ensures !known ==> Next(t, EnqueueSync(id, job, now, known)) == t
  {
    PutAddsIfFree(t, id, job, now);
  }

  /** A sync is added at once unless one is pending. */
  lemma RequestSyncIs(t: Table, id: JobId, w: WorkspaceId, c: ConnectionId, now: int)
    requires Enabled(t, RequestSync(id, w, c, now))
    ensures AddsIfFree(t, id, NewJob("connection.sync", w, Some(c), map[], None, None, None), now,
                       Next(t, RequestSync(id, w, c, now)))
  {
    PutAddsIfFree(t, id, ConnectionJob(SYNC, w, c), now);
  }

  predicate WaitsToBackfill(j: Job, w: WorkspaceId, c: ConnectionId) {
    j.kind == "connection.backfill" && j.workspace == Some(w) && j.connection == Some(c) && j.status in {Pending, Continuing}
  }

  /** The workspace's waiting backfills of the connection fail, and no other row changes. */
  ghost predicate Supersedes(t: Table, w: WorkspaceId, c: ConnectionId, freed: Table) {
    && freed.Keys == t.Keys
    && forall i <- t :: freed[i] == if WaitsToBackfill(t[i], w, c)
         then t[i].(status := Failed, lastError := Some("superseded by a newer backfill")) else t[i]
  }

  /** Another workspace's backfill of the connection is pending. */
  ghost predicate BackfillsElsewhere(t: Table, w: WorkspaceId, c: ConnectionId) {
    exists i <- t :: t[i].kind == "connection.backfill" && t[i].connection == Some(c) && t[i].status == Pending
                     && t[i].workspace != Some(w)
  }

  lemma SupersededFreesOwn(t: Table, w: WorkspaceId, c: ConnectionId)
    ensures Supersedes(t, w, c, Superseded(t, w, c))
    ensures IsFree(Superseded(t, w, c), ConnectionJob(BACKFILL, w, c)) <==> !BackfillsElsewhere(t, w, c)
  {
    var freed := Superseded(t, w, c);
    if i :| i in t && t[i].kind == BACKFILL && t[i].connection == Some(c) && t[i].status.Pending? && t[i].workspace != Some(w) {
      assert freed[i] == t[i];
    }
  }

  /** A backfill replaces the ones that wait, unless one of another workspace does. */
  lemma RequestBackfillIs(t: Table, id: JobId, w: WorkspaceId, c: ConnectionId, now: int) returns (freed: Table)
    requires Enabled(t, RequestBackfill(id, w, c, now))
    ensures Supersedes(t, w, c, freed)
    ensures var job, next := NewJob("connection.backfill", w, Some(c), map[], None, None, None), Next(t, RequestBackfill(id, w, c, now));
      if BackfillsElsewhere(t, w, c) then next == t
      else id in next && IsNew(job, now, next[id]) && next == freed[id := next[id]]
  {
    freed := Superseded(t, w, c);
    SupersededFreesOwn(t, w, c);
    PutAddsIfFree(freed, id, ConnectionJob(BACKFILL, w, c), now);
    ClashIff(freed, id, RowOf(ConnectionJob(BACKFILL, w, c), now));
  }

  // ---- What a holder does ----

  predicate Holds(t: Table, id: JobId, worker: string) {
    id in t && t[id].status == Running && t[id].lockedBy == Some(worker)
  }

  lemma CompleteIs(t: Table, id: JobId, worker: string)
    requires Counted(t)
    ensures Next(t, Complete(id, worker)) ==
      if Holds(t, id, worker) then t[id := t[id].(status := Succeeded, lockedBy := None, lockedAt := None)] else t
  {
  }

  lemma RenewIs(t: Table, id: JobId, worker: string, now: int)
    requires Counted(t)
    ensures Next(t, Renew(id, worker, now)) == if Holds(t, id, worker) then t[id := t[id].(lockedAt := Some(now))] else t
  {
  }

  /** A checkpoint is due in a second; it replaces the last one, which stays if there is no new one. */
  lemma DeferIs(t: Table, id: JobId, worker: string, continuation: Option<Value>, now: int)
    requires Counted(t)
    ensures var next := Next(t, Step.Defer(id, worker, continuation, now));
      if !Holds(t, id, worker) then next == t
      else
        var was, job := t[id], next[id];
        && next == t[id := job]
        && job == was.(status := Continuing, runAt := now + 1_000, lockedBy := None, lockedAt := None, lastError := None,
                       payload := job.payload)
        && job.payload.Keys == was.payload.Keys + {"continuation"}
        && (forall name <- was.payload :: name != "continuation" ==> job.payload[name] == was.payload[name])
        && (continuation.Some? ==> job.payload["continuation"] == continuation.value)
        && (continuation.None? && "continuation" in was.payload ==> job.payload == was.payload)
        && (continuation.None? && "continuation" !in was.payload ==> job.payload["continuation"] == Json("{}"))
  {
  }

  /** The job waits again, as a checkpoint if it has one, for as long as its attempts ask for. */
  predicate IsPutBack(was: Job, now: int, error: string, job: Job)
    requires was.attempts >= 0
  {
    job == was.(status := if "continuation" in was.payload then Continuing else Pending,
                attempts := was.attempts + 1, runAt := now + Backoff(was.attempts + 1),
                lastError := Some(error), lockedBy := None, lockedAt := None)
  }

  /** A failure takes effect unless the job would be put back beside a pending one like it. */
  lemma FailIs(t: Table, id: JobId, worker: string, error: string, retryable: bool, deadLetter: bool, now: int)
    requires Inv(t)
    ensures var next := Next(t, Fail(id, worker, error, retryable, deadLetter, now));
      if !Holds(t, id, worker) || (retryable && Collides(t, id)) then next == t
      else
        && next == t[id := next[id]]
        && if retryable && t[id].attempts + 1 < t[id].maxAttempts then IsPutBack(t[id], now, error, next[id])
           else next[id] == t[id].(status := if deadLetter then Dead else Failed, attempts := t[id].attempts + 1,
                                   lastError := Some(error), lockedBy := None, lockedAt := None)
  {
    if Holds(t, id, worker) { FailureRefusedIff(t, id, worker, error, retryable, deadLetter, now); }
  }

  /** What `Collides` says: the job would be pending again beside a pending one of its kind and connection. */
  lemma CollidesWhen(t: Table, id: JobId)
    requires id in t
    ensures Collides(t, id) <==>
      && t[id].attempts + 1 < t[id].maxAttempts && "continuation" !in t[id].payload
      && t[id].kind in {"connection.sync", "connection.backfill"} && t[id].connection.Some?
      && exists k <- t :: k != id && t[k].status == Pending && t[k].kind == t[id].kind && t[k].connection == t[id].connection
  {
  }

  // ---- Deletion ----

  /** A connection's waiting jobs fail, all of its jobs lose it, and no other row changes. */
  lemma DeleteConnectionIs(t: Table, w: WorkspaceId, c: ConnectionId)
    requires Counted(t)
    ensures var next := Next(t, Step.DeleteConnection(w, c));
      && next.Keys == t.Keys
      && forall i <- t ::
           && (t[i].connection != Some(c) ==> next[i] == t[i])
           && (t[i].connection == Some(c) && t[i].workspace == Some(w) && t[i].status in {Pending, Continuing} ==>
                 next[i] == t[i].(connection := None, status := Failed, lastError := Some("connection deleted")))
           && (t[i].connection == Some(c) && !(t[i].workspace == Some(w) && t[i].status in {Pending, Continuing}) ==>
                 next[i] == t[i].(connection := None))
  {
  }

  lemma PruneIs(t: Table, ids: set<JobId>)
    requires Enabled(t, Prune(ids))
    ensures Next(t, Prune(ids)).Keys == t.Keys - ids && forall i <- t.Keys - ids :: Next(t, Prune(ids))[i] == t[i]
    ensures forall i <- ids :: i in t && t[i].status in {Succeeded, Failed, Dead}
  {
  }

  // ---- Claims ----

  predicate IsStale(j: Job, now: int, staleAfter: int) {
    j.status == Running && j.lockedAt.Some? && now - j.lockedAt.value > staleAfter
  }

  /** Due jobs may be visited in any order by run time, some of them left out; jobs of one time in either order. */
  lemma VisitOrderIs(t: Table, now: int, a: JobId, b: JobId)
    requires a in t && b in t && a != b
    ensures VisitOrder(t, now, []) && (VisitOrder(t, now, [a]) <==> MayRun(t[a], now))
    ensures VisitOrder(t, now, [a, b]) <==> MayRun(t[a], now) && MayRun(t[b], now) && t[b].runAt >= t[a].runAt
  {
    var order := [a, b];
    assert order[0] == a && order[1] == b && a in order && b in order;
  }

  /** A stale lease spends an attempt. */
  predicate IsRequeued(was: Job, now: int, job: Job)
    requires was.attempts >= 0
  {
    if was.attempts + 1 < was.maxAttempts then IsPutBack(was, now, "stale lock requeued", job)
    else job == was.(status := Dead, attempts := was.attempts + 1, runAt := now + Backoff(was.attempts + 1),
                     lastError := Some("stale lock requeued"), lockedBy := None, lockedAt := None)
  }

  predicate MayRun(j: Job, now: int) { j.status in {Pending, Continuing} && j.runAt <= now }

  lemma RequeuedIs(j: Job, now: int)
    requires j.attempts >= 0
    ensures IsRequeued(j, now, Requeued(j, now)) && Requeued(j, now).runAt > now
  {
    BackoffRange(j.attempts + 1);
  }

  lemma RowAfterClaim(t: Table, s: Step, id: JobId)
    requires Enabled(t, s) && s.Claim? && id in t && Unique(RequeueStale(t, s.now, s.staleAfter))
    ensures var next := Next(t, s);
      && next.Keys == t.Keys
      && (Stale(t[id], s.now, s.staleAfter) ==> next[id] == Requeued(t[id], s.now))
      && (!Stale(t[id], s.now, s.staleAfter) ==>
            next[id] == t[id] || (MayRun(t[id], s.now) && next[id] == Claimed(t[id], s.worker, s.now)))
  {
    var requeued := RequeueStale(t, s.now, s.staleAfter);
    TakenAreVisited(requeued, s.limit, s.order, |s.order|);
    RequeuedIs(t[id], s.now);
  }

  /** A claim takes stale leases back and gives due jobs to the worker, unless an index refuses to take one back. */
  lemma ClaimIs(t: Table, worker: string, limit: int, staleAfter: int, order: seq<JobId>, now: int, id: JobId)
    requires Inv(t) && Enabled(t, Claim(worker, limit, staleAfter, order, now)) && id in t
    ensures var next := Next(t, Claim(worker, limit, staleAfter, order, now));
      if exists i <- t :: IsStale(t[i], now, staleAfter) && Collides(t, i) then next == t
      else
        && next.Keys == t.Keys
        && if IsStale(t[id], now, staleAfter) then IsRequeued(t[id], now, next[id])
           else
             || next[id] == t[id]
             || (MayRun(t[id], now)
                 && next[id] == t[id].(status := Running, lockedBy := Some(worker), lockedAt := Some(now)))
  {
    ClaimRefusedIff(t, now, staleAfter);
    assert forall i <- t :: Stale(t[i], now, staleAfter) <==> IsStale(t[i], now, staleAfter);
    if Unique(RequeueStale(t, now, staleAfter)) {
      RowAfterClaim(t, Claim(worker, limit, staleAfter, order, now), id);
      RequeuedIs(t[id], now);
    }
  }

  /** Checkpoints come first, the oldest before the others. */
  predicate IsAhead(t: Table, i: JobId, id: JobId)
    requires i in t && id in t
  {
    && t[i].status == Continuing && i != id
    && (t[id].status == Pending || t[i].createdAt < t[id].createdAt || (t[i].createdAt == t[id].createdAt && i < id))
  }

  /** The job's connection has a running job, one claimed before it, or a checkpoint ahead of it. */
  ghost predicate MustWait(t: Table, before: set<JobId>, id: JobId)
    requires id in t
  {
    && "connection." <= t[id].kind && t[id].connection.Some?
    && exists i <- t :: "connection." <= t[i].kind && t[i].connection == t[id].connection
                     && (t[i].status == Running || i in before || IsAhead(t, i, id))
  }

  /** The claimed jobs among the first `m` visited. */
  function ClaimedBefore(ids: seq<JobId>, order: seq<JobId>, m: nat): set<JobId>
    requires m <= |order|
  {
    set k | 0 <= k < m && order[k] in ids :: order[k]
  }

  lemma {:induction false} TakenBefore(t: Table, limit: int, order: seq<JobId>, m: nat, n: nat)
    requires m <= n <= |order| && (forall id <- order :: id in t) && Distinct(order)
    ensures Taken(t, limit, order, m) <= Taken(t, limit, order, n)
    ensures forall k :: 0 <= k < m ==> (order[k] in Taken(t, limit, order, n) <==> order[k] in Taken(t, limit, order, m))
    decreases n
  {
    if m < n { TakenBefore(t, limit, order, m, n - 1); }
  }

  lemma TakenSet(t: Table, limit: int, order: seq<JobId>, m: nat)
    requires m <= |order| && (forall id <- order :: id in t) && Distinct(order)
    ensures SetOf(Taken(t, limit, order, m)) == ClaimedBefore(Taken(t, limit, order, |order|), order, m)
  {
    TakenBefore(t, limit, order, m, |order|);
    TakenAreVisited(t, limit, order, m);
  }

  function SetOf(ids: seq<JobId>): set<JobId> { set i <- ids }

  lemma {:induction false} DistinctCount(ids: seq<JobId>)
    requires Distinct(ids)
    ensures |SetOf(ids)| == |ids|
  {
    if ids != [] {
      var rest, last := ids[..|ids| - 1], ids[|ids| - 1];
      DistinctCount(rest);
      assert last !in rest;
      assert SetOf(ids) == SetOf(rest) + {last};
    }
  }

  /** A visited job is claimed exactly when fewer than the limit were claimed before it and it need not wait. */
  lemma ClaimedIff(t: Table, limit: int, now: int, order: seq<JobId>, m: nat)
    requires VisitOrder(t, now, order) && m < |order|
    ensures var ids := Taken(t, limit, order, |order|);
      order[m] in ids <==>
        |ClaimedBefore(ids, order, m)| < limit && !MustWait(t, ClaimedBefore(ids, order, m), order[m])
  {
    var before := Taken(t, limit, order, m);
    TakenBefore(t, limit, order, m + 1, |order|);
    TakenSet(t, limit, order, m);
    TakenAreDistinct(t, limit, order, m);
    DistinctCount(before);
    TakenAreVisited(t, limit, order, m);
    BlockedIff(t, before, order[m]);
  }

  lemma BlockedIff(t: Table, taken: seq<JobId>, id: JobId)
    requires id in t
    ensures Blocked(t, taken, id) <==> MustWait(t, SetOf(taken), id)
  {
    if t[id].connection.Some? {
      forall i | i in t ensures OnConnection(t[i], t[id].connection.value)
        <==> "connection." <= t[i].kind && t[i].connection == t[id].connection
      {
      }
    }
  }

  ghost predicate VisitedBefore(order: seq<JobId>, a: JobId, b: JobId) {
    exists p, q :: 0 <= p < q < |order| && order[p] == a && order[q] == b
  }

  /** The claimed jobs are visited ones, in their order, each once, and are the worker's now. */
  lemma ClaimedAre(t: Table, worker: string, limit: int, order: seq<JobId>, now: int)
    requires VisitOrder(t, now, order)
    ensures var ids := Taken(t, limit, order, |order|);
      && Distinct(ids) && (forall i <- ids :: i in order)
      && (forall k, l :: 0 <= k < l < |ids| ==> VisitedBefore(order, ids[k], ids[l]))
      && (forall i <- t :: WithClaims(t, ids, worker, now)[i] ==
            if i in ids then t[i].(status := Running, lockedBy := Some(worker), lockedAt := Some(now)) else t[i])
  {
    TakenAreVisited(t, limit, order, |order|);
    TakenAreDistinct(t, limit, order, |order|);
  }

  lemma {:induction false} TakenAreDistinct(t: Table, limit: int, order: seq<JobId>, n: nat)
    requires n <= |order| && (forall id <- order :: id in t) && Distinct(order)
    ensures var ids := Taken(t, limit, order, n);
      Distinct(ids) && forall k, l :: 0 <= k < l < |ids| ==> VisitedBefore(order, ids[k], ids[l])
  {
    if n > 0 {
      TakenAreDistinct(t, limit, order, n - 1);
      TakenAreVisited(t, limit, order, n - 1);
      var before, ids := Taken(t, limit, order, n - 1), Taken(t, limit, order, n);
      forall k, l | 0 <= k < l < |ids| ensures ids[k] != ids[l] && VisitedBefore(order, ids[k], ids[l]) {
        if l == |before| {
          assert ids[k] in before && ids[l] == order[n - 1];
        } else {
          assert VisitedBefore(order, before[k], before[l]);
        }
      }
    }
  }
}
