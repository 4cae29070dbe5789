/**
 * The durable job queue: one table of jobs, changed only by guarded updates. Each operation is one transaction; one
 * that raises an error leaves the table as it was. Times are milliseconds; ids stand for UUIDs in their order.
 */
module Jobs {
  import opened Common

  type JobId = nat
  type WorkspaceId = nat
  type ConnectionId = nat

  datatype Status = Pending | Running | Continuing | Succeeded | Failed | Dead

  /** A payload value; only identities are looked into. */
  datatype Value = Null | Id(id: nat) | Json(text: string)

  type Payload = map<string, Value>

  /** An idempotency key: one due slot of a connection, or any other text. */
  datatype Key = SlotKey(connection: ConnectionId, dueAt: int) | OtherKey(text: string)

  datatype Job = Job(kind: string, workspace: Option<WorkspaceId>, connection: Option<ConnectionId>, payload: Payload,
                     runAt: int, attempts: int, maxAttempts: int, status: Status, lockedBy: Option<string>,
                     lockedAt: Option<int>, lastError: Option<string>, key: Option<Key>, createdAt: int)

  type Table = map<JobId, Job>

  const SYNC := "connection.sync"
  const BACKFILL := "connection.backfill"
  const DEFAULT_MAX_ATTEMPTS := 8

  predicate IsTerminal(s: Status) { s.Succeeded? || s.Failed? || s.Dead? }

  predicate IsWaiting(s: Status) { s.Pending? || s.Continuing? }

  predicate IsConnectionKind(kind: string) { "connection." <= kind }

  // ---- The unique indexes ----

  /** A job that must be its connection's only waiting one of its kind. */
  predicate Exclusive(j: Job) {
    j.status.Pending? && j.connection.Some? && (j.kind == SYNC || j.kind == BACKFILL)
  }

  predicate Clash(a: Job, b: Job) {
    || (a.key.Some? && a.key == b.key)
    || (Exclusive(a) && Exclusive(b) && a.kind == b.kind && a.connection == b.connection)
  }

  predicate Unique(t: Table) {
    forall i <- t, k <- t :: i != k ==> !Clash(t[i], t[k])
  }

  predicate ClashesWithTable(t: Table, id: JobId, j: Job) {
    exists i <- t :: i != id && Clash(t[i], j)
  }

  // ---- Payload identity ----

  function IdValue(o: Option<nat>): Value { if o.Some? then Id(o.value) else Null }

  function WithIdentity(p: Payload, w: WorkspaceId, c: Option<ConnectionId>): Payload {
    p["workspace_id" := Id(w)]["connection_id" := IdValue(c)]
  }

  /** What the worker checks before it runs a job. */
  predicate PayloadIdentityMatches(j: Job) {
    && "workspace_id" in j.payload && j.payload["workspace_id"] == IdValue(j.workspace)
    && "connection_id" in j.payload && j.payload["connection_id"] == IdValue(j.connection)
  }

  // ---- Retry and backoff ----

  function Pow2(n: nat): (p: nat)
    ensures p >= 1
  {
    if n == 0 then 1 else 2 * Pow2(n - 1)
  }

  function Backoff(attempts: nat): int {
    if Pow2(attempts) * 15_000 < 900_000 then Pow2(attempts) * 15_000 else 900_000
  }

  /** 15 seconds, doubled by every attempt spent, up to 15 minutes. */
  lemma BackoffDoubles(attempts: nat)
    ensures Backoff(0) == 15_000
    ensures Backoff(attempts + 1) == if 2 * Backoff(attempts) < 900_000 then 2 * Backoff(attempts) else 900_000
  {
  }

  function Unlocked(j: Job, status: Status): Job { j.(status := status, lockedBy := None, lockedAt := None) }

  function Rescheduled(j: Job): Status { if "continuation" in j.payload then Continuing else Pending }

  function Failure(j: Job, error: string, retryable: bool, deadLetter: bool, now: int): Job
    requires j.attempts >= 0
  {
    var again := retryable && j.attempts + 1 < j.maxAttempts;
    Unlocked(j, if again then Rescheduled(j) else if !deadLetter then Failed else Dead).(
      attempts := j.attempts + 1,
      runAt := if again then now + Backoff(j.attempts + 1) else j.runAt,
      lastError := Some(error))
  }

  predicate Stale(j: Job, now: int, staleAfter: int) {
    j.status.Running? && j.lockedAt.Some? && j.lockedAt.value < now - staleAfter
  }

  function Requeued(j: Job, now: int): Job
    requires j.attempts >= 0
  {
    Unlocked(j, if j.attempts + 1 >= j.maxAttempts then Dead else Rescheduled(j)).(
      attempts := j.attempts + 1,
      runAt := now + Backoff(j.attempts + 1),
      lastError := Some("stale lock requeued"))
  }

  predicate Counted(t: Table) { forall i <- t :: t[i].attempts >= 0 }

  function RequeueStale(t: Table, now: int, staleAfter: int): Table
    requires Counted(t)
  {
    map i <- t :: if Stale(t[i], now, staleAfter) then Requeued(t[i], now) else t[i]
  }

  // ---- Claiming ----

  /** The order in which due jobs are visited: by run time, ties and skipped locked rows as the database has it. */
  ghost predicate VisitOrder(t: Table, now: int, order: seq<JobId>) {
    && (forall id <- order :: id in t && IsWaiting(t[id].status) && t[id].runAt <= now)
    && (forall k, l :: 0 <= k < l < |order| ==> order[k] != order[l] && t[order[k]].runAt <= t[order[l]].runAt)
  }

  predicate OnConnection(j: Job, c: ConnectionId) { IsConnectionKind(j.kind) && j.connection == Some(c) }

  predicate RunsOn(j: Job, c: ConnectionId) { j.status.Running? && OnConnection(j, c) }

  /** A checkpoint that goes before job `id`: any continuing one before a pending job, an older one before another. */
  predicate GoesBefore(t: Table, i: JobId, id: JobId)
    requires i in t && id in t
  {
    && t[i].status.Continuing? && i != id
    && (t[id].status.Pending? || t[i].createdAt < t[id].createdAt || (t[i].createdAt == t[id].createdAt && i < id))
  }

  /**
   * Why a due job is passed over after `taken` were claimed: its connection has a running job, one just taken
   * included, or a checkpoint that goes first.
   */
  predicate Blocked(t: Table, taken: seq<JobId>, id: JobId)
    requires id in t
  {
    && IsConnectionKind(t[id].kind) && t[id].connection.Some?
    && exists i <- t :: OnConnection(t[i], t[id].connection.value)
                     && (t[i].status.Running? || i in taken || GoesBefore(t, i, id))
  }

  function Claimed(j: Job, worker: string, now: int): Job {
    j.(status := Running, lockedBy := Some(worker), lockedAt := Some(now))
  }

  /** The table after `taken` were claimed. */
  function WithClaims(t: Table, taken: seq<JobId>, worker: string, now: int): Table {
    map i <- t :: if i in taken then Claimed(t[i], worker, now) else t[i]
  }

  /** What a claim takes of the first `n` visited jobs. */
  function Taken(t: Table, limit: int, order: seq<JobId>, n: nat): seq<JobId>
    requires n <= |order| && forall id <- order :: id in t
  {
    if n == 0 then []
    else
      var taken := Taken(t, limit, order, n - 1);
      if |taken| >= limit || Blocked(t, taken, order[n - 1]) then taken else taken + [order[n - 1]]
  }

  // ---- Operations as one step each ----

  datatype Step =
    | Enqueue(id: JobId, job: NewJob, now: int)
    | EnqueueSync(id: JobId, job: NewJob, now: int, known: bool)
    | RequestSync(id: JobId, workspace: WorkspaceId, connection: ConnectionId, now: int)
    | RequestBackfill(id: JobId, workspace: WorkspaceId, connection: ConnectionId, now: int)
    | Claim(worker: string, limit: int, staleAfter: int, order: seq<JobId>, now: int)
    | Complete(id: JobId, worker: string)
    | Defer(id: JobId, worker: string, continuation: Option<Value>, now: int)
    | Renew(id: JobId, worker: string, now: int)
    | Fail(id: JobId, worker: string, error: string, retryable: bool, deadLetter: bool, now: int)
    | DeleteConnection(workspace: WorkspaceId, connection: ConnectionId)
    | Prune(ids: set<JobId>)

  datatype NewJob = NewJob(kind: string, workspace: WorkspaceId, connection: Option<ConnectionId>, payload: Payload,
                           runAt: Option<int>, maxAttempts: Option<int>, key: Option<Key>)

  function RowOf(n: NewJob, now: int): Job {
    Job(n.kind, Some(n.workspace), n.connection, WithIdentity(n.payload, n.workspace, n.connection),
        if n.runAt.Some? then n.runAt.value else now, 0,
        if n.maxAttempts.Some? then n.maxAttempts.value else DEFAULT_MAX_ATTEMPTS,
        Pending, None, None, None, n.key, now)
  }

  /** A row that would break a unique index is refused and changes nothing. */
  function Put(t: Table, id: JobId, row: Job): Table {
    if ClashesWithTable(t, id, row) then t else t[id := row]
  }

  function ConnectionJob(kind: string, w: WorkspaceId, c: ConnectionId): NewJob {
    NewJob(kind, w, Some(c), map[], None, None, None)
  }

  predicate WaitingSync(j: Job, w: WorkspaceId, c: ConnectionId) {
    j.workspace == Some(w) && j.connection == Some(c) && j.kind == SYNC && j.status.Pending?
  }

  predicate WaitingBackfill(j: Job, w: WorkspaceId, c: ConnectionId) {
    j.workspace == Some(w) && j.connection == Some(c) && j.kind == BACKFILL && IsWaiting(j.status)
  }

  function Superseded(t: Table, w: WorkspaceId, c: ConnectionId): Table {
    map i <- t :: if WaitingBackfill(t[i], w, c)
      then t[i].(status := Failed, lastError := Some("superseded by a newer backfill")) else t[i]
  }

  /** The connection's waiting jobs are cancelled, and every job of the connection is detached. */
  function Detached(j: Job, w: WorkspaceId, c: ConnectionId): Job {
    if j.connection != Some(c) then j
    else if j.workspace == Some(w) && IsWaiting(j.status)
    then j.(status := Failed, lastError := Some("connection deleted"), connection := None)
    else j.(connection := None)
  }

  predicate Held(t: Table, id: JobId, worker: string) {
    id in t && t[id].status.Running? && t[id].lockedBy == Some(worker)
  }

  function Deferred(j: Job, continuation: Option<Value>, now: int): Job {
    var value := if continuation.Some? then continuation.value
                 else if "continuation" in j.payload then j.payload["continuation"] else Json("{}");
    Unlocked(j, Continuing).(runAt := now + 1_000, lastError := None, payload := j.payload["continuation" := value])
  }

  ghost predicate Enabled(t: Table, s: Step) {
    && Counted(t)
    && match s
       case Enqueue(id, _, _) => id !in t
       case EnqueueSync(id, job, _, _) => id !in t && job.connection.Some?
       case RequestSync(id, _, _, _) => id !in t
       case RequestBackfill(id, _, _, _) => id !in t
       case Claim(_, _, staleAfter, order, now) => VisitOrder(RequeueStale(t, now, staleAfter), now, order)
       case Prune(ids) => forall i <- ids :: i in t && IsTerminal(t[i].status)
       case _ => true
  }

  ghost function Next(t: Table, s: Step): Table
    requires Enabled(t, s)
  {
    match s
    case Enqueue(id, job, now) => Put(t, id, RowOf(job, now))
    case EnqueueSync(id, job, now, known) => if known then Put(t, id, RowOf(job, now)) else t
    case RequestSync(id, w, c, now) => Put(t, id, RowOf(ConnectionJob(SYNC, w, c), now))
    case RequestBackfill(id, w, c, now) =>
      var row, freed := RowOf(ConnectionJob(BACKFILL, w, c), now), Superseded(t, w, c);
      if ClashesWithTable(freed, id, row) then t else freed[id := row]
    case Claim(worker, limit, staleAfter, order, now) =>
      var requeued := RequeueStale(t, now, staleAfter);
      if Unique(requeued) then WithClaims(requeued, Taken(requeued, limit, order, |order|), worker, now) else t
    case Complete(id, worker) => if Held(t, id, worker) then t[id := Unlocked(t[id], Succeeded)] else t
    case Defer(id, worker, continuation, now) =>
      if Held(t, id, worker) then t[id := Deferred(t[id], continuation, now)] else t
    case Renew(id, worker, now) => if Held(t, id, worker) then t[id := t[id].(lockedAt := Some(now))] else t
    case Fail(id, worker, error, retryable, deadLetter, now) =>
      if Held(t, id, worker) then Put(t, id, Failure(t[id], error, retryable, deadLetter, now)) else t
    case DeleteConnection(w, c) => map i <- t :: Detached(t[i], w, c)
    case Prune(ids) => map i <- t | i !in ids :: t[i]
  }

  // ---- The same operations in place ----

  /** What a caller learns from a fenced update: it took effect, the lease is not held, or an index refused it. */
  datatype Outcome<+T> = Done(value: T) | Fenced | Refused

  datatype FailJobResult = FailJobResult(status: Status, attempts: int, runAt: int)

  class JobQueue {
    var jobs: Table

    constructor ()
      ensures jobs == map[]
    {
      jobs := map[];
    }

    method EnqueueJob(id: JobId, job: NewJob, now: int) returns (ok: bool)
      requires Enabled(jobs, Enqueue(id, job, now))
      modifies this
      ensures jobs == Next(old(jobs), Enqueue(id, job, now))
      ensures ok <==> id in jobs
      ensures ok ==> PayloadIdentityMatches(jobs[id]) && jobs[id].workspace == Some(job.workspace)
    {
      var row := RowOf(job, now);
      ok := !ClashesWithTable(jobs, id, row);
      if ok { jobs := jobs[id := row]; }
    }

    /** `known` says whether the connection exists in the workspace; otherwise the function raises. */
    method EnqueueSyncJob(id: JobId, job: NewJob, now: int, known: bool) returns (enqueued: Outcome<JobId>)
      requires Enabled(jobs, EnqueueSync(id, job, now, known))
      modifies this
      ensures jobs == Next(old(jobs), EnqueueSync(id, job, now, known))
      ensures enqueued.Refused? <==> !known
      ensures enqueued.Done? <==> id in jobs
    {
      if !known { return Refused; }
      var row := RowOf(job, now);
      if ClashesWithTable(jobs, id, row) { return Fenced; }
      jobs := jobs[id := row];
      return Done(id);
    }

    /** The id of the connection's one waiting sync, new or already there; none when another workspace has it. */
    method RequestConnectionSync(id: JobId, workspace: WorkspaceId, connection: ConnectionId, now: int)
      returns (waiting: Option<JobId>)
      requires Enabled(jobs, RequestSync(id, workspace, connection, now))
      modifies this
      ensures jobs == Next(old(jobs), RequestSync(id, workspace, connection, now))
      ensures waiting.Some? ==>
        waiting.value in jobs
        && var j := jobs[waiting.value];
           j.workspace == Some(workspace) && j.connection == Some(connection) && j.kind == "connection.sync" && j.status == Pending
      ensures waiting.None? ==>
        exists i <- jobs :: jobs[i].workspace != Some(workspace) && jobs[i].connection == Some(connection)
                            && jobs[i].kind == "connection.sync" && jobs[i].status == Pending
    {
      var row := RowOf(ConnectionJob(SYNC, workspace, connection), now);
      if !ClashesWithTable(jobs, id, row) {
        jobs := jobs[id := row];
        return Some(id);
      }
      if i :| i in jobs && WaitingSync(jobs[i], workspace, connection) {
        return Some(i);
      }
      return None;
    }

    /** A waiting backfill is superseded by the new one. */
    method RequestConnectionBackfill(id: JobId, workspace: WorkspaceId, connection: ConnectionId, now: int)
      returns (ok: bool)
      requires Enabled(jobs, RequestBackfill(id, workspace, connection, now))
      modifies this
      ensures jobs == Next(old(jobs), RequestBackfill(id, workspace, connection, now))
      ensures ok ==> id in jobs
      ensures ok ==>
        forall i <- jobs :: i == id
          || jobs[i].workspace != Some(workspace) || jobs[i].connection != Some(connection)
          || jobs[i].kind != "connection.backfill" || jobs[i].status !in {Pending, Continuing}
      ensures !ok ==> jobs == old(jobs)
    {
      var freed := Superseded(jobs, workspace, connection);
      var row := RowOf(ConnectionJob(BACKFILL, workspace, connection), now);
      ok := !ClashesWithTable(freed, id, row);
      if ok { jobs := freed[id := row]; }
    }

    /** Requeues stale jobs and claims; an index that refuses the requeueing refuses the whole claim. */
    method ClaimJobs(worker: string, limit: int, staleAfter: int, order: seq<JobId>, now: int)
      returns (claimed: Outcome<seq<JobId>>)
      requires Enabled(jobs, Claim(worker, limit, staleAfter, order, now))
      modifies this
      ensures jobs == Next(old(jobs), Claim(worker, limit, staleAfter, order, now))
      ensures var requeued := RequeueStale(old(jobs), now, staleAfter);
        claimed == if Unique(requeued) then Done(Taken(requeued, limit, order, |order|)) else Refused
    {
      var requeued := RequeueStale(jobs, now, staleAfter);
      if !Unique(requeued) { return Refused; }
      jobs := requeued;
      var ids := ClaimDue(worker, limit, order, now);
      return Done(ids);
    }

    /** Visits due jobs, asking the table as it is by then. */
    method ClaimDue(worker: string, limit: int, order: seq<JobId>, now: int) returns (ids: seq<JobId>)
      requires VisitOrder(jobs, now, order)
      modifies this
      ensures ids == Taken(old(jobs), limit, order, |order|)
      ensures jobs == WithClaims(old(jobs), ids, worker, now)
    {
      ids := [];
      var n := 0;
      while n < |order| && |ids| < limit
        invariant 0 <= n <= |order|
        invariant ids == Taken(old(jobs), limit, order, n)
        invariant jobs == WithClaims(old(jobs), ids, worker, now)
      {
        TakenAreVisited(old(jobs), limit, order, n);
        BlockedInTable(old(jobs), ids, order[n], worker, now);
        if !Blocked(jobs, [], order[n]) {
          ClaimOneMore(old(jobs), ids, order[n], worker, now);
          jobs := jobs[order[n] := Claimed(jobs[order[n]], worker, now)];
          ids := ids + [order[n]];
        }
        n := n + 1;
      }
      FullClaimStays(old(jobs), limit, order, n);
    }

    method CompleteJob(id: JobId, worker: string) returns (done: bool)
      requires Counted(jobs)
      modifies this
      ensures jobs == Next(old(jobs), Complete(id, worker))
      ensures done <==> old(Held(jobs, id, worker))
    {
      done := Held(jobs, id, worker);
      if done { jobs := jobs[id := jobs[id].(status := Succeeded, lockedBy := None, lockedAt := None)]; }
    }

    method DeferJob(id: JobId, worker: string, continuation: Option<Value>, now: int) returns (done: bool)
      requires Counted(jobs)
      modifies this
      ensures jobs == Next(old(jobs), Defer(id, worker, continuation, now))
      ensures done <==> old(Held(jobs, id, worker))
    {
      done := Held(jobs, id, worker);
      if done { jobs := jobs[id := Deferred(jobs[id], continuation, now)]; }
    }

    method RenewJobLease(id: JobId, worker: string, now: int) returns (held: bool)
      requires Counted(jobs)
      modifies this
      ensures jobs == Next(old(jobs), Renew(id, worker, now))
      ensures held <==> old(Held(jobs, id, worker))
    {
      held := Held(jobs, id, worker);
      if held { jobs := jobs[id := jobs[id].(lockedAt := Some(now))]; }
    }

    method FailJob(id: JobId, worker: string, error: string, retryable: bool, deadLetter: bool, now: int)
      returns (result: Outcome<FailJobResult>)
      requires Counted(jobs)
      modifies this
      ensures jobs == Next(old(jobs), Fail(id, worker, error, retryable, deadLetter, now))
      ensures result.Fenced? <==> !old(Held(jobs, id, worker))
      ensures result.Done? ==> result.value == FailJobResult(jobs[id].status, jobs[id].attempts, jobs[id].runAt)
      ensures !result.Done? ==> jobs == old(jobs)
      ensures result.Done? ==> id in old(jobs) && jobs == old(jobs)[id := jobs[id]]
      ensures result.Done? && retryable && old(jobs)[id].attempts + 1 < old(jobs)[id].maxAttempts ==>
        var was := old(jobs)[id];
        jobs[id] == was.(status := if "continuation" in was.payload then Continuing else Pending,
                         runAt := now + Backoff(was.attempts + 1), attempts := was.attempts + 1,
                         lastError := Some(error), lockedBy := None, lockedAt := None)
      ensures result.Done? && !(retryable && old(jobs)[id].attempts + 1 < old(jobs)[id].maxAttempts) ==>
        var was := old(jobs)[id];
        jobs[id] == was.(status := if deadLetter then Dead else Failed, attempts := was.attempts + 1,
                         lastError := Some(error), lockedBy := None, lockedAt := None)
    {
      if !Held(jobs, id, worker) { return Fenced; }
      var row := Failure(jobs[id], error, retryable, deadLetter, now);
      if ClashesWithTable(jobs, id, row) { return Refused; }
      jobs := jobs[id := row];
      return Done(FailJobResult(row.status, row.attempts, row.runAt));
    }

    /** Cancels the connection's waiting jobs; the deletion itself detaches all of them. */
    method CancelAndDetach(workspace: WorkspaceId, connection: ConnectionId)
      requires Counted(jobs)
      modifies this
      ensures jobs == Next(old(jobs), Step.DeleteConnection(workspace, connection))
      ensures forall i <- jobs :: jobs[i].connection != Some(connection)
    {
      jobs := map i <- jobs :: Detached(jobs[i], workspace, connection);
    }
  }

  lemma {:induction false} FullClaimStays(t: Table, limit: int, order: seq<JobId>, n: nat)
    requires n <= |order| && forall id <- order :: id in t
    requires n == |order| || |Taken(t, limit, order, n)| >= limit
    ensures Taken(t, limit, order, |order|) == Taken(t, limit, order, n)
    decreases |order| - n
  {
    if n < |order| { FullClaimStays(t, limit, order, n + 1); }
  }

  ghost predicate Distinct(ids: seq<JobId>) {
    forall k, l :: 0 <= k < l < |ids| ==> ids[k] != ids[l]
  }

  /** Taken jobs are visited jobs; the next one to visit is not among them. */
  lemma {:induction false} TakenAreVisited(t: Table, limit: int, order: seq<JobId>, n: nat)
    requires n <= |order| && (forall id <- order :: id in t) && Distinct(order)
    ensures forall i <- Taken(t, limit, order, n) :: exists k :: 0 <= k < n && order[k] == i
    ensures n < |order| ==> order[n] !in Taken(t, limit, order, n)
  {
    if n > 0 { TakenAreVisited(t, limit, order, n - 1); }
  }

  /** Asking the updated table is asking the original one about the jobs taken so far. */
  lemma BlockedInTable(t: Table, taken: seq<JobId>, id: JobId, worker: string, now: int)
    requires id in t && id !in taken && forall i <- taken :: i in t
    ensures Blocked(WithClaims(t, taken, worker, now), [], id) <==> Blocked(t, taken, id)
  {
    var r := WithClaims(t, taken, worker, now);
    if Blocked(t, taken, id) {
      var i :| i in t && OnConnection(t[i], t[id].connection.value)
               && (t[i].status.Running? || i in taken || GoesBefore(t, i, id));
      assert OnConnection(r[i], r[id].connection.value) && (r[i].status.Running? || GoesBefore(r, i, id));
    }
    if Blocked(r, [], id) {
      var i :| i in r && OnConnection(r[i], r[id].connection.value) && (r[i].status.Running? || GoesBefore(r, i, id));
      assert OnConnection(t[i], t[id].connection.value) && (t[i].status.Running? || i in taken || GoesBefore(t, i, id));
    }
  }

  lemma ClaimOneMore(t: Table, taken: seq<JobId>, id: JobId, worker: string, now: int)
    requires id in t && id !in taken
    ensures WithClaims(t, taken + [id], worker, now)
         == WithClaims(t, taken, worker, now)[id := Claimed(WithClaims(t, taken, worker, now)[id], worker, now)]
  {
  }
}
