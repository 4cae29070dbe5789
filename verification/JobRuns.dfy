/** What holds over every run of the job queue, whoever enqueues, claims, renews, finishes and deletes in between. */
module JobRuns {
  import opened Common
  import opened Jobs

  // ---- The invariant ----

  /** Exactly a running job carries a lock. */
  predicate WellLocked(j: Job) {
    if j.status.Running? then j.lockedBy.Some? && j.lockedAt.Some? else j.lockedBy.None? && j.lockedAt.None?
  }

  /** A job that can still run has attempts left, or none spent. */
  predicate Bounded(j: Job) {
    && 0 <= j.attempts && (j.attempts <= 1 || j.attempts <= j.maxAttempts)
    && (IsTerminal(j.status) || j.attempts == 0 || j.attempts < j.maxAttempts)
  }

  /** The payload still names the connection the job had before it was deleted. */
  predicate IsDetached(j: Job) {
    && "workspace_id" in j.payload && j.payload["workspace_id"] == IdValue(j.workspace)
    && "connection_id" in j.payload && j.payload["connection_id"].Id? && j.connection.None?
  }

  ghost predicate OneRunning(t: Table) {
    forall i <- t, k <- t, c: ConnectionId :: RunsOn(t[i], c) && RunsOn(t[k], c) ==> i == k
  }

  predicate RowInv(j: Job) {
    WellLocked(j) && Bounded(j) && (PayloadIdentityMatches(j) || IsDetached(j))
  }

  ghost predicate Inv(t: Table) {
    (forall i <- t :: RowInv(t[i])) && Unique(t) && OneRunning(t)
  }

  // ---- One row in one step ----

  /** Every way a step can move a row that stays in the table. */
  ghost predicate RowMoves(s: Step, id: JobId, a: Job, b: Job)
    requires a.attempts >= 0
  {
    || b == a
    || (s.Claim? && Stale(a, s.now, s.staleAfter) && b == Requeued(a, s.now))
    || (s.Claim? && IsWaiting(a.status) && a.runAt <= s.now && b == Claimed(a, s.worker, s.now))
    || (s.RequestBackfill? && WaitingBackfill(a, s.workspace, s.connection)
        && b == a.(status := Failed, lastError := Some("superseded by a newer backfill")))
    || (s.DeleteConnection? && b == Detached(a, s.workspace, s.connection))
    || ((s.Complete? || s.Defer? || s.Renew? || s.Fail?) && s.id == id && a.status.Running? && a.lockedBy == Some(s.worker)
        && b == if s.Complete? then Unlocked(a, Succeeded)
                else if s.Defer? then Deferred(a, s.continuation, s.now)
                else if s.Renew? then a.(lockedAt := Some(s.now))
                else Failure(a, s.error, s.retryable, s.deadLetter, s.now))
  }

  lemma BackoffRange(n: nat)
    ensures n >= 1 ==> 30_000 <= Backoff(n) <= 900_000
    ensures Backoff(n) > 0
    ensures Backoff(n) <= Backoff(n + 1)
  {
  }

  /** A job requeued by a claim waits at least thirty seconds, so the same claim does not take it. */
  lemma ClaimMovesRow(t: Table, s: Step, id: JobId)
    requires Enabled(t, s) && s.Claim? && id in t
    ensures id in Next(t, s) && RowMoves(s, id, t[id], Next(t, s)[id])
  {
    var requeued := RequeueStale(t, s.now, s.staleAfter);
    TakenAreVisited(requeued, s.limit, s.order, |s.order|);
    BackoffRange(t[id].attempts + 1);
  }

  lemma RowMovesInNext(t: Table, s: Step, id: JobId)
    requires Enabled(t, s) && id in t && id in Next(t, s)
    ensures RowMoves(s, id, t[id], Next(t, s)[id])
  {
    if s.Claim? { ClaimMovesRow(t, s, id); }
  }

  lemma MoveKeepsRowInv(s: Step, id: JobId, a: Job, b: Job)
    requires RowInv(a) && RowMoves(s, id, a, b)
    ensures RowInv(b)
  {
  }

  lemma NewRowInv(job: NewJob, now: int)
    ensures RowInv(RowOf(job, now))
  {
  }

  // ---- The indexes and the one running job ----

  /** `b` can clash with nothing that `a` did not clash with. */
  predicate NoNewClash(a: Job, b: Job) {
    b.key == a.key && (Exclusive(b) ==> Exclusive(a) && b.kind == a.kind && b.connection == a.connection)
  }

  lemma UniqueKept(t: Table, r: Table)
    requires Unique(t) && r.Keys <= t.Keys && forall i <- r :: NoNewClash(t[i], r[i])
    ensures Unique(r)
  {
    forall i, k | i in r && k in r && i != k ensures !Clash(r[i], r[k]) {
      assert !Clash(t[i], t[k]);
    }
  }

  lemma UniqueAfterPut(t: Table, id: JobId, row: Job)
    requires Unique(t) && !ClashesWithTable(t, id, row)
    ensures Unique(t[id := row])
  {
  }

  lemma ClaimKeepsUnique(t: Table, s: Step)
    requires Unique(t) && Enabled(t, s) && s.Claim?
    ensures Unique(Next(t, s))
  {
    var requeued := RequeueStale(t, s.now, s.staleAfter);
    if Unique(requeued) { UniqueKept(requeued, Next(t, s)); }
  }

  lemma UpdateKeepsUnique(t: Table, id: JobId, row: Job)
    requires Unique(t) && id in t && NoNewClash(t[id], row)
    ensures Unique(t[id := row])
  {
    UniqueKept(t, t[id := row]);
  }

  /** Steps that only free indexes: they finish, release, cancel or delete rows. */
  lemma FreeingKeepsUnique(t: Table, s: Step)
    requires Unique(t) && Enabled(t, s)
    requires s.Complete? || s.Defer? || s.Renew? || s.DeleteConnection? || s.Prune?
    ensures Unique(Next(t, s))
  {
    match s
    case Complete(id, worker) => if Held(t, id, worker) { UpdateKeepsUnique(t, id, Unlocked(t[id], Succeeded)); }
    case Defer(id, worker, continuation, now) =>
      if Held(t, id, worker) { UpdateKeepsUnique(t, id, Deferred(t[id], continuation, now)); }
    case Renew(id, worker, now) => if Held(t, id, worker) { UpdateKeepsUnique(t, id, t[id].(lockedAt := Some(now))); }
    case DeleteConnection(w, c) => DeletingKeepsUnique(t, w, c);
    case Prune(ids) => UniqueKept(t, map i <- t | i !in ids :: t[i]);
  }

  lemma DeletingKeepsUnique(t: Table, w: WorkspaceId, c: ConnectionId)
    requires Unique(t)
    ensures Unique(map i <- t :: Detached(t[i], w, c))
  {
    UniqueKept(t, map i <- t :: Detached(t[i], w, c));
  }

  /** Steps that put one row, if no index refuses it. */
  lemma PuttingKeepsUnique(t: Table, id: JobId, row: Job)
    requires Unique(t)
    ensures Unique(Put(t, id, row))
  {
    if !ClashesWithTable(t, id, row) { UniqueAfterPut(t, id, row); }
  }

  lemma NextKeepsUnique(t: Table, s: Step)
    requires Unique(t) && Enabled(t, s)
    ensures Unique(Next(t, s))
  {
    match s
    case Claim(_, _, _, _, _) => ClaimKeepsUnique(t, s);
    case RequestBackfill(id, w, c, now) =>
      UniqueKept(t, Superseded(t, w, c));
      PuttingKeepsUnique(Superseded(t, w, c), id, RowOf(ConnectionJob(BACKFILL, w, c), now));
    case Fail(id, worker, error, retryable, deadLetter, now) =>
      if Held(t, id, worker) { PuttingKeepsUnique(t, id, Failure(t[id], error, retryable, deadLetter, now)); }
    case Enqueue(id, job, now) => PuttingKeepsUnique(t, id, RowOf(job, now));
    case EnqueueSync(id, job, now, _) => PuttingKeepsUnique(t, id, RowOf(job, now));
    case RequestSync(id, w, c, now) => PuttingKeepsUnique(t, id, RowOf(ConnectionJob(SYNC, w, c), now));
    case _ => FreeingKeepsUnique(t, s);
  }

  /** Rows that start running only where they ran before keep it at one. */
  lemma OneRunningKept(t: Table, r: Table)
    requires OneRunning(t)
    requires forall i <- r, c: ConnectionId :: RunsOn(r[i], c) ==> i in t && RunsOn(t[i], c)
    ensures OneRunning(r)
  {
    forall i, k, c: ConnectionId | i in r && k in r && RunsOn(r[i], c) && RunsOn(r[k], c) ensures i == k {
      assert RunsOn(t[i], c) && RunsOn(t[k], c);
    }
  }

  /** The taken jobs share no connection with a running job or with each other. */
  ghost predicate Apart(t: Table, taken: seq<JobId>) {
    && (forall i <- taken, k <- t, c: ConnectionId ::
          i in t && OnConnection(t[i], c) && OnConnection(t[k], c) && (t[k].status.Running? || k in taken) ==> i == k)
    && (forall i <- taken :: i in t && !t[i].status.Running?)
  }

  lemma TakingKeepsApart(t: Table, taken: seq<JobId>, id: JobId)
    requires Apart(t, taken) && id in t && IsWaiting(t[id].status) && !Blocked(t, taken, id)
    ensures Apart(t, taken + [id])
  {
    forall k, c: ConnectionId | k in t && OnConnection(t[id], c) && OnConnection(t[k], c)
      ensures !t[k].status.Running? && k !in taken
    {
    }
  }

  lemma {:induction false} TakenAreApart(t: Table, limit: int, order: seq<JobId>, n: nat)
    requires n <= |order| && forall id <- order :: id in t && IsWaiting(t[id].status)
    ensures Apart(t, Taken(t, limit, order, n))
  {
    if n > 0 {
      TakenAreApart(t, limit, order, n - 1);
      var taken := Taken(t, limit, order, n - 1);
      if !Blocked(t, taken, order[n - 1]) { TakingKeepsApart(t, taken, order[n - 1]); }
    }
  }

  lemma ClaimsKeepOneRunning(t: Table, taken: seq<JobId>, worker: string, now: int)
    requires OneRunning(t) && Apart(t, taken)
    ensures OneRunning(WithClaims(t, taken, worker, now))
  {
    var r := WithClaims(t, taken, worker, now);
    forall i, k, c: ConnectionId | i in r && k in r && RunsOn(r[i], c) && RunsOn(r[k], c) ensures i == k {
      assert OnConnection(t[i], c) && OnConnection(t[k], c);
      assert (i in taken || RunsOn(t[i], c)) && (k in taken || RunsOn(t[k], c));
    }
  }

  lemma NextKeepsOneRunning(t: Table, s: Step)
    requires Inv(t) && Enabled(t, s)
    ensures OneRunning(Next(t, s))
  {
    if s.Claim? {
      var requeued := RequeueStale(t, s.now, s.staleAfter);
      OneRunningKept(t, requeued);
      var taken := Taken(requeued, s.limit, s.order, |s.order|);
      TakenAreApart(requeued, s.limit, s.order, |s.order|);
      ClaimsKeepOneRunning(requeued, taken, s.worker, s.now);
    } else {
      var r := Next(t, s);
      forall i, c: ConnectionId | i in r && RunsOn(r[i], c) ensures i in t && RunsOn(t[i], c) {
        if i in t { RowMovesInNext(t, s, i); }
      }
      OneRunningKept(t, r);
    }
  }

  lemma NextKeepsInv(t: Table, s: Step)
    requires Inv(t) && Enabled(t, s)
    ensures Inv(Next(t, s))
  {
    var r := Next(t, s);
    NextKeepsUnique(t, s);
    NextKeepsOneRunning(t, s);
    forall i | i in r ensures RowInv(r[i]) {
      if i in t {
        RowMovesInNext(t, s, i);
        MoveKeepsRowInv(s, i, t[i], r[i]);
      } else if s.Enqueue? || s.EnqueueSync? {
        NewRowInv(s.job, s.now);
      }
    }
  }

  // ---- Runs ----

  ghost predicate IsRun(run: seq<Table>, steps: seq<Step>) {
    && |run| == |steps| + 1 && run[0] == map[]
    && forall i {:trigger steps[i]} :: 0 <= i < |steps| ==> Enabled(run[i], steps[i]) && run[i + 1] == Next(run[i], steps[i])
  }

  /**
   * In every reachable table exactly running jobs are locked, live jobs have attempts left, every payload names its
   * job's columns unless the connection was deleted, the indexes hold, and a connection has at most one running job.
   */
  lemma {:induction false} RunsKeepInv(run: seq<Table>, steps: seq<Step>, n: nat)
    requires IsRun(run, steps) && n < |run|
    ensures Inv(run[n])
  {
    if n > 0 {
      RunsKeepInv(run, steps, n - 1);
      NextKeepsInv(run[n - 1], steps[n - 1]);
    }
  }

  /** The job is in the table from state `i` to state `k`. */
  ghost predicate Stays(run: seq<Table>, i: nat, k: nat, id: JobId) {
    i <= k < |run| && forall m :: i <= m <= k ==> id in run[m]
  }

  // ---- Terminal statuses are absorbing ----

  predicate OnlyDetached(a: Job, b: Job) {
    b == a.(connection := b.connection) && (b.connection == a.connection || b.connection == None)
  }

  /** What every step keeps of a row: its budget, its spent attempts, and everything once it is terminal. */
  predicate Advances(a: Job, b: Job) {
    && b.maxAttempts == a.maxAttempts
    && 0 <= a.attempts <= b.attempts <= a.attempts + 1
    && (b.attempts > a.attempts && IsWaiting(b.status) ==> b.attempts < a.maxAttempts)
    && (IsTerminal(a.status) ==> OnlyDetached(a, b))
  }

  lemma MoveAdvances(s: Step, id: JobId, a: Job, b: Job)
    requires RowInv(a) && RowMoves(s, id, a, b)
    ensures Advances(a, b)
  {
  }

  lemma RowAdvances(t: Table, s: Step, id: JobId)
    requires Inv(t) && Enabled(t, s) && id in t && id in Next(t, s)
    ensures Advances(t[id], Next(t, s)[id])
  {
    RowMovesInNext(t, s, id);
    MoveAdvances(s, id, t[id], Next(t, s)[id]);
  }

  lemma StepAdvances(run: seq<Table>, steps: seq<Step>, n: nat, id: JobId)
    requires IsRun(run, steps) && n < |steps| && id in run[n] && id in run[n + 1]
    ensures Advances(run[n][id], run[n + 1][id])
  {
    RunsKeepInv(run, steps, n);
    RowAdvances(run[n], steps[n], id);
  }

  /** A row that stays never loses spent attempts, and is final once terminal. */
  lemma {:induction false} RowHistory(run: seq<Table>, steps: seq<Step>, i: nat, k: nat, id: JobId)
    requires IsRun(run, steps) && Stays(run, i, k, id)
    ensures run[i][id].attempts <= run[k][id].attempts
    ensures IsTerminal(run[i][id].status) ==> OnlyDetached(run[i][id], run[k][id])
    decreases k
  {
    if i < k {
      RowHistory(run, steps, i, k - 1, id);
      assert id in run[k - 1] && id in run[k];
      StepAdvances(run, steps, k - 1, id);
    }
  }

  /** A terminal row only ever loses its connection. */
  lemma TerminalIsForever(run: seq<Table>, steps: seq<Step>, i: nat, k: nat, id: JobId)
    requires IsRun(run, steps) && Stays(run, i, k, id) && IsTerminal(run[i][id].status)
    ensures run[k][id] == run[i][id].(connection := run[k][id].connection)
    ensures run[k][id].connection == run[i][id].connection || run[k][id].connection == None
  {
    RowHistory(run, steps, i, k, id);
  }

  // ---- Leases are fenced ----

  /** A step of the lease holder on this job. */
  predicate ByHolder(s: Step, id: JobId, j: Job) {
    (s.Complete? || s.Defer? || s.Renew? || s.Fail?) && s.id == id && j.lockedBy == Some(s.worker)
  }

  /**
   * A running job changes only by its holder or by a claim that finds its lease stale; otherwise at most its
   * connection is deleted.
   */
  lemma OnlyHolderOrStaleness(t: Table, s: Step, id: JobId)
    requires Inv(t) && Enabled(t, s) && id in t && t[id].status.Running?
    ensures id in Next(t, s)
    ensures Next(t, s)[id].(connection := t[id].connection) == t[id]
      || ByHolder(s, id, t[id]) || (s.Claim? && Stale(t[id], s.now, s.staleAfter))
    ensures Next(t, s)[id] == t[id] || s.DeleteConnection? || ByHolder(s, id, t[id])
      || (s.Claim? && Stale(t[id], s.now, s.staleAfter))
  {
    if s.Claim? { ClaimMovesRow(t, s, id); }
    RowMovesInNext(t, s, id);
  }

  /** A worker that is not the holder changes nothing anywhere. */
  lemma StrangersChangeNothing(t: Table, s: Step)
    requires Enabled(t, s) && (s.Complete? || s.Defer? || s.Renew? || s.Fail?)
    requires !(s.id in t && t[s.id].status.Running? && t[s.id].lockedBy == Some(s.worker))
    ensures Next(t, s) == t
  {
  }

  // ---- Attempts, retries and delays ----

  /** The step spent an attempt of the job: it failed, or its lease was found stale. */
  predicate Spent(a: Table, b: Table, id: JobId) {
    id in a && id in b && b[id].attempts != a[id].attempts
  }

  predicate Retried(a: Table, b: Table, id: JobId) {
    Spent(a, b, id) && IsWaiting(b[id].status)
  }

  /** How many of the first `n` steps spent an attempt since the job was enqueued. */
  function Spendings(run: seq<Table>, id: JobId, n: nat): nat
    requires n < |run|
  {
    if n == 0 || id !in run[n - 1] then 0
    else Spendings(run, id, n - 1) + if Spent(run[n - 1], run[n], id) then 1 else 0
  }

  function Retries(run: seq<Table>, id: JobId, n: nat): nat
    requires n < |run|
  {
    if n == 0 || id !in run[n - 1] then 0
    else Retries(run, id, n - 1) + if Retried(run[n - 1], run[n], id) then 1 else 0
  }

  lemma EnqueuedFresh(run: seq<Table>, steps: seq<Step>, id: JobId, n: nat)
    requires IsRun(run, steps) && n < |run| && id in run[n] && (n == 0 || id !in run[n - 1])
    ensures run[n][id].attempts == 0
  {
    if n > 0 { assert run[n] == Next(run[n - 1], steps[n - 1]); }
  }

  /** A job's attempts count its failures and stale leases exactly: claims, renewals and deferrals spend none. */
  lemma {:induction false} AttemptsCountFailures(run: seq<Table>, steps: seq<Step>, id: JobId, n: nat)
    requires IsRun(run, steps) && n < |run| && id in run[n]
    ensures run[n][id].attempts == Spendings(run, id, n)
  {
    if n == 0 || id !in run[n - 1] { EnqueuedFresh(run, steps, id, n); } else {
      AttemptsCountFailures(run, steps, id, n - 1);
      StepAdvances(run, steps, n - 1, id);
    }
  }

  /** Only a failure recorded by the holder or a stale lease spends an attempt; a deferral never does. */
  lemma WhatSpends(t: Table, s: Step, id: JobId)
    requires Inv(t) && Enabled(t, s) && Spent(t, Next(t, s), id)
    ensures Next(t, s)[id].attempts == t[id].attempts + 1
    ensures (s.Fail? && ByHolder(s, id, t[id])) || (s.Claim? && Stale(t[id], s.now, s.staleAfter))
  {
    RowMovesInNext(t, s, id);
  }

  /** A job is put back at most `maxAttempts - 1` times, however often it is claimed and deferred. */
  lemma {:induction false} RetriesAreBounded(run: seq<Table>, steps: seq<Step>, id: JobId, n: nat)
    requires IsRun(run, steps) && n < |run| && id in run[n]
    ensures Retries(run, id, n) <= run[n][id].attempts
    ensures Retries(run, id, n) == 0 || Retries(run, id, n) <= run[n][id].maxAttempts - 1
  {
    if n == 0 || id !in run[n - 1] { EnqueuedFresh(run, steps, id, n); } else {
      RetriesAreBounded(run, steps, id, n - 1);
      StepAdvances(run, steps, n - 1, id);
    }
  }

  lemma {:induction false} BackoffGrows(m: nat, n: nat)
    requires m <= n
    ensures Backoff(m) <= Backoff(n)
  {
    if m < n {
      BackoffGrows(m, n - 1);
      BackoffRange(n - 1);
    }
  }

  /** How long after step `i` the job it put back becomes due. */
  function Delay(run: seq<Table>, steps: seq<Step>, i: nat, id: JobId): int
    requires i < |steps| && i + 1 < |run| && (steps[i].Fail? || steps[i].Claim?) && id in run[i + 1]
  {
    run[i + 1][id].runAt - steps[i].now
  }

  lemma MoveDelays(s: Step, id: JobId, a: Job, b: Job)
    requires RowInv(a) && RowMoves(s, id, a, b) && b.attempts != a.attempts && IsWaiting(b.status)
    ensures (s.Fail? || s.Claim?) && b.attempts >= 1 && b.runAt == s.now + Backoff(b.attempts)
  {
  }

  lemma RetryDelay(t: Table, s: Step, id: JobId)
    requires Inv(t) && Enabled(t, s) && Retried(t, Next(t, s), id)
    ensures s.Fail? || s.Claim?
    ensures var b := Next(t, s)[id]; b.attempts >= 1 && b.runAt == s.now + Backoff(b.attempts)
  {
    RowMovesInNext(t, s, id);
    MoveDelays(s, id, t[id], Next(t, s)[id]);
  }

  lemma DelayIsBackoff(run: seq<Table>, steps: seq<Step>, i: nat, id: JobId)
    requires IsRun(run, steps) && i < |steps| && Retried(run[i], run[i + 1], id)
    ensures steps[i].Fail? || steps[i].Claim?
    ensures run[i + 1][id].attempts >= 1 && Delay(run, steps, i, id) == Backoff(run[i + 1][id].attempts)
  {
    RunsKeepInv(run, steps, i);
    RetryDelay(run[i], steps[i], id);
  }

  /** The delay before each retry is between 30 s and 15 min and never shorter than an earlier one of the job. */
  lemma DelaysNeverShrink(run: seq<Table>, steps: seq<Step>, i: nat, k: nat, id: JobId)
    requires IsRun(run, steps) && i <= k < |steps| && Stays(run, i, k + 1, id)
    requires Retried(run[i], run[i + 1], id) && Retried(run[k], run[k + 1], id)
    ensures (steps[i].Fail? || steps[i].Claim?) && (steps[k].Fail? || steps[k].Claim?)
    ensures 30_000 <= Delay(run, steps, i, id) <= Delay(run, steps, k, id) <= 900_000
  {
    DelayIsBackoff(run, steps, i, id);
    DelayIsBackoff(run, steps, k, id);
    RowHistory(run, steps, i + 1, k + 1, id);
    BackoffGrows(run[i + 1][id].attempts, run[k + 1][id].attempts);
    BackoffRange(run[i + 1][id].attempts);
    BackoffRange(run[k + 1][id].attempts);
  }

  // ---- Payload identity ----

  lemma MoveKeepsIdentity(s: Step, id: JobId, a: Job, b: Job)
    requires RowInv(a) && RowMoves(s, id, a, b) && PayloadIdentityMatches(a) && !s.DeleteConnection?
    ensures PayloadIdentityMatches(b)
  {
  }

  /** A step changes whether a job passes the worker's identity check exactly when it deletes its connection. */
  lemma IdentityKeptUnlessDeleted(t: Table, s: Step, id: JobId)
    requires Inv(t) && Enabled(t, s) && id in t && id in Next(t, s) && PayloadIdentityMatches(t[id])
    ensures PayloadIdentityMatches(Next(t, s)[id]) <==> !(s.DeleteConnection? && t[id].connection == Some(s.connection))
  {
    if !s.DeleteConnection? {
      RowMovesInNext(t, s, id);
      MoveKeepsIdentity(s, id, t[id], Next(t, s)[id]);
    }
  }

  // ---- What a claim takes ----

  /** Once blocked, a job stays blocked while the claim goes on. */
  lemma BlockedStays(t: Table, taken: seq<JobId>, more: seq<JobId>, id: JobId)
    requires id in t && Blocked(t, taken, id) && forall i <- taken :: i in more
    ensures Blocked(t, more, id)
  {
  }

  lemma {:induction false} TakenGrows(t: Table, limit: int, order: seq<JobId>, m: nat, n: nat)
    requires m <= n <= |order| && forall id <- order :: id in t
    ensures |Taken(t, limit, order, m)| <= |Taken(t, limit, order, n)|
    ensures forall i <- Taken(t, limit, order, m) :: i in Taken(t, limit, order, n)
    decreases n
  {
    if m < n { TakenGrows(t, limit, order, m, n - 1); }
  }

  /** A claim is not lazy: a visited job that it leaves while below its limit is blocked when it ends. */
  lemma ClaimLeavesOnlyBlocked(t: Table, limit: int, order: seq<JobId>, m: nat)
    requires m < |order| && forall id <- order :: id in t
    requires var taken := Taken(t, limit, order, |order|); order[m] !in taken && |taken| < limit
    ensures Blocked(t, Taken(t, limit, order, |order|), order[m])
  {
    TakenGrows(t, limit, order, m, m + 1);
    TakenGrows(t, limit, order, m + 1, |order|);
    assert order[m] !in Taken(t, limit, order, m + 1);
    BlockedStays(t, Taken(t, limit, order, m), Taken(t, limit, order, |order|), order[m]);
  }

  /**
   * A claim takes at most `limit` jobs, each waiting, due, and not blocked by the table it started from or by the
   * others it took: none beside a running job, none before a checkpoint's turn.
   */
  lemma {:induction false} ClaimTakesOnlyFree(t: Table, limit: int, now: int, order: seq<JobId>, n: nat, id: JobId)
    requires VisitOrder(t, now, order) && n <= |order|
    ensures |Taken(t, limit, order, n)| <= (if limit > 0 then limit else 0)
    ensures id in Taken(t, limit, order, n) ==>
      id in t && IsWaiting(t[id].status) && t[id].runAt <= now && !Blocked(t, [], id)
  {
    if n > 0 {
      ClaimTakesOnlyFree(t, limit, now, order, n - 1, id);
      var taken := Taken(t, limit, order, n - 1);
      if Blocked(t, [], order[n - 1]) { BlockedStays(t, [], taken, order[n - 1]); }
    }
  }

  // ---- When an index refuses ----

  /** A job whose requeueing would put it beside a job of its kind that already waits for the connection. */
  predicate Collides(t: Table, id: JobId)
    requires id in t
  {
    && t[id].attempts + 1 < t[id].maxAttempts && "continuation" !in t[id].payload
    && t[id].connection.Some? && (t[id].kind == SYNC || t[id].kind == BACKFILL)
    && exists k <- t :: k != id && t[k].status.Pending? && t[k].kind == t[id].kind && t[k].connection == t[id].connection
  }

  /** A recorded failure is refused exactly when it would retry a job beside a waiting one of its kind. */
  lemma FailureRefusedIff(t: Table, id: JobId, worker: string, error: string, retryable: bool, deadLetter: bool, now: int)
    requires Inv(t) && Held(t, id, worker)
    ensures ClashesWithTable(t, id, Failure(t[id], error, retryable, deadLetter, now)) <==> retryable && Collides(t, id)
  {
    var row := Failure(t[id], error, retryable, deadLetter, now);
    forall k | k in t && k != id ensures !(t[k].key.Some? && t[k].key == row.key) {
      assert !Clash(t[k], t[id]);
    }
    if retryable && Collides(t, id) {
      var k :| k in t && k != id && t[k].status.Pending? && t[k].kind == t[id].kind && t[k].connection == t[id].connection;
      assert Clash(t[k], row);
    }
  }

  /** A claim is refused as a whole exactly when one stale job would be requeued beside a waiting one of its kind. */
  lemma ClaimRefusedIff(t: Table, now: int, staleAfter: int)
    requires Inv(t)
    ensures !Unique(RequeueStale(t, now, staleAfter)) <==> exists i <- t :: Stale(t[i], now, staleAfter) && Collides(t, i)
  {
    var r := RequeueStale(t, now, staleAfter);
    if i :| i in t && Stale(t[i], now, staleAfter) && Collides(t, i) {
      var k :| k in t && k != i && t[k].status.Pending? && t[k].kind == t[i].kind && t[k].connection == t[i].connection;
      assert Clash(r[i], r[k]);
    }
    if !Unique(r) {
      var i, k :| i in r && k in r && i != k && Clash(r[i], r[k]);
      CollisionOf(t, now, staleAfter, i, k);
    }
  }

  lemma CollisionOf(t: Table, now: int, staleAfter: int, i: JobId, k: JobId)
    requires Inv(t) && i in t && k in t && i != k
    requires var r := RequeueStale(t, now, staleAfter); Clash(r[i], r[k])
    ensures (Stale(t[i], now, staleAfter) && Collides(t, i)) || (Stale(t[k], now, staleAfter) && Collides(t, k))
  {
    assert !Clash(t[i], t[k]);
    var c := t[i].connection.value;
    assert OnConnection(t[i], c) && OnConnection(t[k], c);
    assert !(RunsOn(t[i], c) && RunsOn(t[k], c));
  }

  /** A running job that no failure and no claim could put back: another one of its kind waits for its connection. */
  predicate Jams(t: Table, i: JobId) { i in t && t[i].status.Running? && Collides(t, i) }

  /** The steps that end this: its holder completes, defers or finally fails it, or its connection is deleted. */
  predicate Frees(t: Table, s: Step, i: JobId)
    requires i in t
  {
    || (ByHolder(s, i, t[i]) && (s.Complete? || s.Defer? || (s.Fail? && !s.retryable)))
    || (s.DeleteConnection? && t[i].connection == Some(s.connection))
  }

  /** While a stale job jams, no claim takes anything. */
  lemma StaleJamRefusesClaim(t: Table, i: JobId, s: Step)
    requires Inv(t) && Jams(t, i) && Enabled(t, s) && s.Claim? && Stale(t[i], s.now, s.staleAfter)
    ensures Next(t, s) == t
  {
    ClaimRefusedIff(t, s.now, s.staleAfter);
  }

  /** A claim takes no job of a connection that has a running one before and after requeueing. */
  lemma ClaimSparesWaiting(t: Table, i: JobId, k: JobId, s: Step)
    requires Inv(t) && Enabled(t, s) && s.Claim? && i in t && k in t && IsConnectionKind(t[k].kind)
    requires t[i].status.Running? && !Stale(t[i], s.now, s.staleAfter) && IsConnectionKind(t[i].kind)
    requires t[i].connection.Some? && t[k].connection == t[i].connection && t[k].status.Pending?
    ensures Next(t, s)[k] == t[k] && Next(t, s)[i] == t[i]
  {
    var requeued := RequeueStale(t, s.now, s.staleAfter);
    assert requeued[i] == t[i] && requeued[k] == t[k];
    if Unique(requeued) {
      TakenAreApart(requeued, s.limit, s.order, |s.order|);
      var taken := Taken(requeued, s.limit, s.order, |s.order|);
      assert OnConnection(requeued[i], t[i].connection.value) && OnConnection(requeued[k], t[i].connection.value);
    }
  }

  /** The running job `i` collides with the waiting job `k`. */
  predicate CollidesAt(t: Table, i: JobId, k: JobId) {
    && i in t && k in t && k != i && t[i].connection.Some? && t[i].status.Running? && t[k].status.Pending?
    && t[k].kind == t[i].kind && t[k].connection == t[i].connection && (t[i].kind == SYNC || t[i].kind == BACKFILL)
  }

  /** What makes a running job collide, besides the waiting one. */
  predicate CanCollide(j: Job) { j.status.Running? && j.attempts + 1 < j.maxAttempts && "continuation" !in j.payload }

  lemma JamsAre(t: Table, i: JobId)
    ensures Jams(t, i) <==> exists k :: CollidesAt(t, i, k) && CanCollide(t[i])
  {
    if Jams(t, i) {
      var k :| k in t && k != i && t[k].status.Pending? && t[k].kind == t[i].kind && t[k].connection == t[i].connection;
      assert CollidesAt(t, i, k);
    }
  }

  /** Superseding the waiting backfill puts another one in its place. */
  lemma SupersededIsReplaced(t: Table, i: JobId, k: JobId, s: Step)
    requires Unique(t) && CollidesAt(t, i, k) && Enabled(t, s) && s.RequestBackfill? && Next(t, s)[i] == t[i]
    ensures exists n :: CollidesAt(Next(t, s), i, n)
  {
    var r, freed := Next(t, s), Superseded(t, s.workspace, s.connection);
    var row := RowOf(ConnectionJob(BACKFILL, s.workspace, s.connection), s.now);
    if r == t || freed[k] == t[k] {
      assert CollidesAt(r, i, k);
    } else {
      assert CollidesAt(r, i, s.id);
    }
  }

  /** A job that waits for a connection with a running job stays as it is, but for superseding and deletion. */
  lemma WaitingBehindStays(t: Table, i: JobId, k: JobId, s: Step)
    requires Inv(t) && Enabled(t, s) && i in t && k in t && k != i && t[i].connection.Some?
    requires t[i].status.Running? && t[k].status.Pending? && t[k].connection == t[i].connection
    requires IsConnectionKind(t[i].kind) && t[k].kind == t[i].kind
    requires !s.RequestBackfill? && !(s.DeleteConnection? && t[i].connection == Some(s.connection))
    requires s.Claim? ==> !Stale(t[i], s.now, s.staleAfter)
    ensures k in Next(t, s) && Next(t, s)[k] == t[k]
  {
    if s.Claim? { ClaimSparesWaiting(t, i, k, s); }
  }

  /** What the holder's own steps do to the jamming job. */
  lemma HolderEndsJamIff(t: Table, s: Step, i: JobId)
    requires Inv(t) && Enabled(t, s) && Jams(t, i) && ByHolder(s, i, t[i])
    ensures i in Next(t, s) && (Next(t, s)[i].status.Running? <==> !Frees(t, s, i))
    ensures Next(t, s)[i].status.Running? && !s.Renew? ==> Next(t, s)[i] == t[i]
    ensures s.Renew? ==> Next(t, s)[i] == t[i].(lockedAt := Some(s.now))
  {
    if s.Fail? { FailureRefusedIff(t, i, s.worker, s.error, s.retryable, s.deadLetter, s.now); }
  }

  /** Steps of nobody who holds the job leave it as it is, unless they delete its connection. */
  lemma OthersKeepJam(t: Table, s: Step, i: JobId)
    requires Inv(t) && Enabled(t, s) && Jams(t, i) && !ByHolder(s, i, t[i])
    requires !(s.DeleteConnection? && t[i].connection == Some(s.connection))
    ensures i in Next(t, s) && Next(t, s)[i] == t[i]
  {
    if s.Claim? && Stale(t[i], s.now, s.staleAfter) { StaleJamRefusesClaim(t, i, s); }
    OnlyHolderOrStaleness(t, s, i);
  }

  /** Everything but the step's own doing leaves the colliding pair as it is. */
  lemma PairStays(t: Table, s: Step, i: JobId, k: JobId)
    requires Inv(t) && Enabled(t, s) && Jams(t, i) && CollidesAt(t, i, k) && !s.RequestBackfill?
    requires i in Next(t, s) && Next(t, s)[i].(lockedAt := t[i].lockedAt) == t[i]
    requires !(s.DeleteConnection? && t[i].connection == Some(s.connection))
    ensures CollidesAt(Next(t, s), i, k)
  {
    if s.Claim? && Stale(t[i], s.now, s.staleAfter) {
      StaleJamRefusesClaim(t, i, s);
    } else {
      WaitingBehindStays(t, i, k, s);
    }
  }

  /** As long as the jamming job is running and unchanged but for its lease, the jam goes on. */
  lemma JamGoesOn(t: Table, s: Step, i: JobId)
    requires Inv(t) && Enabled(t, s) && Jams(t, i)
    requires i in Next(t, s) && Next(t, s)[i].(lockedAt := t[i].lockedAt) == t[i]
    requires s.RequestBackfill? ==> Next(t, s)[i] == t[i]
    requires !(s.DeleteConnection? && t[i].connection == Some(s.connection))
    ensures Jams(Next(t, s), i)
  {
    JamsAre(t, i);
    JamsAre(Next(t, s), i);
    var k :| CollidesAt(t, i, k);
    if s.RequestBackfill? { SupersededIsReplaced(t, i, k, s); } else { PairStays(t, s, i, k); }
  }

  /** A jam ends exactly with such a step, whatever else is enqueued, claimed, superseded, pruned or renewed. */
  lemma JamEndsIff(t: Table, s: Step, i: JobId)
    requires Inv(t) && Enabled(t, s) && Jams(t, i)
    ensures i in Next(t, s) && (Jams(Next(t, s), i) <==> !Frees(t, s, i))
    ensures !Frees(t, s, i) && !(s.Renew? && ByHolder(s, i, t[i])) ==> Next(t, s)[i] == t[i]
  {
    if s.DeleteConnection? && t[i].connection == Some(s.connection) {
      assert Next(t, s)[i].connection == None;
    } else {
      if ByHolder(s, i, t[i]) { HolderEndsJamIff(t, s, i); } else { OthersKeepJam(t, s, i); }
      if !Frees(t, s, i) { JamGoesOn(t, s, i); }
    }
  }

  ghost predicate GoesOn(run: seq<Table>, steps: seq<Step>) {
    && |run| == |steps| + 1
    && forall n {:trigger steps[n]} :: 0 <= n < |steps| ==> Enabled(run[n], steps[n]) && run[n + 1] == Next(run[n], steps[n])
  }

  /** Nothing among the steps frees the jam of `i` or renews its lease. */
  ghost predicate NobodyFrees(run: seq<Table>, steps: seq<Step>, i: JobId)
    requires |run| == |steps| + 1
  {
    forall n {:trigger steps[n]} :: 0 <= n < |steps| && i in run[n] ==>
      !Frees(run[n], steps[n], i) && !(steps[n].Renew? && ByHolder(steps[n], i, run[n][i]))
  }

  lemma {:induction false} JamStays(run: seq<Table>, steps: seq<Step>, i: JobId, n: nat)
    requires GoesOn(run, steps) && Inv(run[0]) && Jams(run[0], i) && NobodyFrees(run, steps, i) && n < |run|
    ensures Inv(run[n]) && Jams(run[n], i) && run[n][i] == run[0][i]
  {
    if n > 0 {
      JamStays(run, steps, i, n - 1);
      assert run[n] == Next(run[n - 1], steps[n - 1]);
      JamEndsIff(run[n - 1], steps[n - 1], i);
      NextKeepsInv(run[n - 1], steps[n - 1]);
    }
  }

  /**
   * Over every continuation of a jam that nobody frees, whoever steps and however often, each claim that comes late
   * enough to find the jamming lease stale is refused as a whole: it takes nothing and changes nothing.
   */
  lemma RefusedClaimsStayRefused(run: seq<Table>, steps: seq<Step>, i: JobId, n: nat)
    requires GoesOn(run, steps) && Inv(run[0]) && Jams(run[0], i) && NobodyFrees(run, steps, i)
    requires n < |steps| && steps[n].Claim? && Stale(run[0][i], steps[n].now, steps[n].staleAfter)
    ensures run[n + 1] == run[n]
  {
    JamStays(run, steps, i, n);
    assert run[n + 1] == Next(run[n], steps[n]);
    StaleJamRefusesClaim(run[n], i, steps[n]);
  }

  predicate LateClaim(s: Step) { s.Claim? && s.now >= 1_000_000 && s.staleAfter == 300_000 }

  /** A sync of connection 7, requested at `now`. */
  function RequestedSync(now: int): Job { RowOf(ConnectionJob(SYNC, 1, 7), now) }

  lemma RequestOnFree(t: Table, id: JobId, now: int)
    requires Counted(t) && id !in t && forall i <- t :: !Clash(t[i], RequestedSync(now))
    ensures Enabled(t, RequestSync(id, 1, 7, now)) && Next(t, RequestSync(id, 1, 7, now)) == t[id := RequestedSync(now)]
  {
  }

  lemma TheOnlyIsTaken(row: Job, limit: int)
    requires row.status.Pending? && limit > 0
    ensures var t: Table := map[0 := row]; Taken(t, limit, [0], 1) == [0]
  {
    var t: Table := map[0 := row];
    assert !Blocked(t, [], 0);
    assert Taken(t, limit, [0], 0) == [];
  }

  /** A claim takes the table's one due job. */
  lemma ClaimTheOnly(row: Job, worker: string, limit: int, staleAfter: int, now: int)
    requires row.status.Pending? && row.runAt <= now && row.attempts >= 0 && limit > 0
    ensures var t: Table, s := map[0 := row], Claim(worker, limit, staleAfter, [0], now);
      Enabled(t, s) && Next(t, s) == map[0 := Claimed(row, worker, now)]
  {
    var t: Table := map[0 := row];
    assert RequeueStale(t, now, staleAfter) == t;
    TheOnlyIsTaken(row, limit);
    assert WithClaims(t, [0], worker, now) == map[0 := Claimed(row, worker, now)];
  }

  lemma RunGrows(run: seq<Table>, steps: seq<Step>, s: Step)
    requires IsRun(run, steps) && Enabled(run[|steps|], s)
    ensures IsRun(run + [Next(run[|steps|], s)], steps + [s])
  {
  }

  /** A sync runs since time 10 while another one waits. */
  function SyncBehindSync(): Table {
    map[0 := Claimed(RequestedSync(0), "gone", 10), 1 := RequestedSync(20)]
  }

  lemma SyncBehindSyncIsReachable() returns (run: seq<Table>, steps: seq<Step>)
    ensures IsRun(run, steps) && run[|steps|] == SyncBehindSync()
  {
    var running: Table := map[0 := Claimed(RequestedSync(0), "gone", 10)];
    RequestOnFree(map[], 0, 0);
    ClaimTheOnly(RequestedSync(0), "gone", 4, 300_000, 10);
    RequestOnFree(running, 1, 20);
    run, steps := [map[]], [];
    RunGrows(run, steps, RequestSync(0, 1, 7, 0));
    run, steps := run + [map[0 := RequestedSync(0)]], steps + [RequestSync(0, 1, 7, 0)];
    RunGrows(run, steps, Claim("gone", 4, 300_000, [0], 10));
    run, steps := run + [running], steps + [Claim("gone", 4, 300_000, [0], 10)];
    RunGrows(run, steps, RequestSync(1, 1, 7, 20));
    run, steps := run + [running[1 := RequestedSync(20)]], steps + [RequestSync(1, 1, 7, 20)];
    assert running[1 := RequestedSync(20)] == SyncBehindSync();
  }

  /**
   * Such a state is reachable: a sync is claimed, another is requested while it runs, and the first one's worker is
   * gone. From then on, whatever else happens, no late claim of any worker takes any job of any connection.
   */
  lemma ClaimsCanJam() returns (run: seq<Table>, steps: seq<Step>)
    ensures IsRun(run, steps) && Jams(run[|steps|], 0)
    ensures forall next: seq<Table>, more: seq<Step>, n: nat ::
      GoesOn(next, more) && next[0] == run[|steps|] && NobodyFrees(next, more, 0) && n < |more| && LateClaim(more[n]) ==>
      next[n + 1] == next[n]
  {
    run, steps := SyncBehindSyncIsReachable();
    RunsKeepInv(run, steps, |steps|);
    var t := SyncBehindSync();
    assert t[1].status.Pending? && Collides(t, 0);
    forall next: seq<Table>, more: seq<Step>, n: nat
      | GoesOn(next, more) && next[0] == t && NobodyFrees(next, more, 0) && n < |more| && LateClaim(more[n])
      ensures next[n + 1] == next[n]
    {
      RefusedClaimsStayRefused(next, more, 0, n);
    }
  }
}
