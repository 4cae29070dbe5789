/** What a planning tick leaves behind, told from the connections and the queue it finds. */
module TickEffects {
  import opened Common
  import opened Jobs
  import opened JobEffects
  import opened Scheduler

  /** The sync of a connection's due slot. */
  function SyncOf(c: ConnectionId, workspace: WorkspaceId, dueAt: int, now: int): NewJob {
    NewJob("connection.sync", workspace, Some(c), map[], Some(now), None, Some(SlotKey(c, dueAt)))
  }

  predicate SlotHasCome(c: Connection, now: int) { c.nextDue.Some? && c.nextDue.value <= now }

  ghost predicate IsPlannedAt(s: State, now: int, due: seq<ConnectionId>, m: nat)
    requires m < |due|
  {
    && due[m] in s.connections && s.connections[due[m]].auth == Healthy
    && SlotHasCome(s.connections[due[m]], now)
  }

  /** The sync that a tick gives a connection. */
  function SyncAt(s: State, now: int, c: ConnectionId): NewJob
    requires c in s.connections && s.connections[c].nextDue.Some?
  {
    SyncOf(c, s.connections[c].workspace, s.connections[c].nextDue.value, now)
  }

  /** A planned slot whose sync was free when the tick began has its job now, under the id it was given. */
  ghost predicate HasJobAt(s: State, now: int, due: seq<ConnectionId>, ids: seq<JobId>, m: nat, jobs: Table)
    requires m < |due| == |ids|
  {
    && (ids[m] in jobs <==> IsPlannedAt(s, now, due, m) && IsFree(s.jobs, SyncAt(s, now, due[m])))
    && (ids[m] in jobs ==> IsNew(SyncAt(s, now, due[m]), now, jobs[ids[m]]))
  }

  ghost predicate HasJobs(s: State, now: int, due: seq<ConnectionId>, ids: seq<JobId>, n: nat, jobs: Table)
    requires n <= |due| == |ids|
  {
    forall m: nat :: m < n ==> HasJobAt(s, now, due, ids, m, jobs)
  }

  ghost predicate KeepsJobs(s: State, ids: seq<JobId>, n: nat, jobs: Table)
    requires n <= |ids|
  {
    && (forall id <- s.jobs :: id in jobs && jobs[id] == s.jobs[id])
    && (forall id <- jobs :: id in s.jobs || exists m :: 0 <= m < n && ids[m] == id)
  }

  /** Jobs of other connections and keys do not stand in the way. */
  lemma FreeAmongOthers(t: Table, jobs: Table, job: NewJob)
    requires forall id <- t :: id in jobs && jobs[id] == t[id]
    requires forall id <- jobs :: id in t || (jobs[id].connection != job.connection && jobs[id].key != job.key)
    ensures IsFree(jobs, job) <==> IsFree(t, job)
  {
    if IsFree(jobs, job) {
      forall id | id in t ensures jobs[id] == t[id] && id in jobs {
      }
    }
  }

  lemma FreeAsAtFirst(s: State, now: int, due: seq<ConnectionId>, ids: seq<JobId>, n: nat, jobs: Table)
    requires IsScan(s, now, due, ids) && n < |due| && IsPlannedAt(s, now, due, n)
    requires HasJobs(s, now, due, ids, n, jobs) && KeepsJobs(s, ids, n, jobs)
    ensures IsFree(jobs, SyncAt(s, now, due[n])) <==> IsFree(s.jobs, SyncAt(s, now, due[n]))
  {
    var job := SyncAt(s, now, due[n]);
    forall id | id in jobs && id !in s.jobs ensures jobs[id].connection != job.connection && jobs[id].key != job.key {
      var m: nat :| m < n && ids[m] == id;
      assert HasJobAt(s, now, due, ids, m, jobs) && due[m] != due[n];
    }
    FreeAmongOthers(s.jobs, jobs, job);
  }

  lemma OtherJobsStay(s: State, now: int, due: seq<ConnectionId>, ids: seq<JobId>, m: nat, jobs: Table, next: Table)
    requires m < |due| == |ids| && HasJobAt(s, now, due, ids, m, jobs)
    requires ids[m] in next <==> ids[m] in jobs
    requires ids[m] in jobs ==> next[ids[m]] == jobs[ids[m]]
    ensures HasJobAt(s, now, due, ids, m, next)
  {
  }

  /** One connection more. */
  lemma NextJobs(s: State, now: int, due: seq<ConnectionId>, ids: seq<JobId>, n: nat, jobs: Table, next: Table)
    requires IsScan(s, now, due, ids) && n < |due| && HasJobs(s, now, due, ids, n, jobs) && KeepsJobs(s, ids, n, jobs)
    requires HasJobAt(s, now, due, ids, n, next)
    requires next == jobs || (ids[n] in next && next == jobs[ids[n] := next[ids[n]]])
    ensures HasJobs(s, now, due, ids, n + 1, next) && KeepsJobs(s, ids, n + 1, next)
  {
    forall m: nat | m < n ensures HasJobAt(s, now, due, ids, m, next) {
      assert ids[m] != ids[n];
      OtherJobsStay(s, now, due, ids, m, jobs, next);
    }
    assert ids[n] in ids && ids[n] !in s.jobs;
  }

  /** The next connection is planned and its sync added if it is free, or it is left. */
  lemma PlanNextJob(s: State, now: int, due: seq<ConnectionId>, ids: seq<JobId>, n: nat, jobs: Table)
    requires IsScan(s, now, due, ids) && n < |due| && HasJobs(s, now, due, ids, n, jobs) && KeepsJobs(s, ids, n, jobs)
    ensures due[n] in s.connections && s.connections[due[n]].nextDue.Some?
    ensures var c := s.connections[due[n]];
      var next := if c.auth != Healthy then jobs else Put(jobs, ids[n], RowOf(SlotJob(due[n], c, now), now));
      && HasJobAt(s, now, due, ids, n, next) && (next == jobs || (ids[n] in next && next == jobs[ids[n] := next[ids[n]]]))
  {
    assert due[n] in due && ids[n] in ids && ids[n] !in jobs;
    if IsPlannedAt(s, now, due, n) {
      FreeAsAtFirst(s, now, due, ids, n, jobs);
      PutAddsIfFree(jobs, ids[n], SyncAt(s, now, due[n]), now);
    }
  }

  /**
   * A tick adds exactly the syncs of planned slots that had none: no job with the slot's key, and no sync of the
   * connection waiting. It changes and removes no job, and one slot does not depend on another.
   */
  lemma {:induction false} TickAddsJobs(s: State, now: int, due: seq<ConnectionId>, ids: seq<JobId>, n: nat)
    requires IsScan(s, now, due, ids) && n <= |due|
    ensures HasJobs(s, now, due, ids, n, Planned(s, now, due, ids, n).jobs)
    ensures KeepsJobs(s, ids, n, Planned(s, now, due, ids, n).jobs)
  {
    if n > 0 {
      TickAddsJobs(s, now, due, ids, n - 1);
      var jobs := Planned(s, now, due, ids, n - 1).jobs;
      PlanNextJob(s, now, due, ids, n - 1, jobs);
      NextJobs(s, now, due, ids, n - 1, jobs, Planned(s, now, due, ids, n).jobs);
    }
  }

  /** Planned connections are due again one interval after the tick; all others stay as they are. */
  lemma TickAdvances(s: State, now: int, due: seq<ConnectionId>, ids: seq<JobId>, c: ConnectionId)
    requires IsScan(s, now, due, ids) && c in s.connections
    ensures var was, next := s.connections[c], Planned(s, now, due, ids, |due|).connections;
      && next.Keys == s.connections.Keys
      && next[c] == if was.auth == Healthy && SlotHasCome(was, now)
           then was.(nextDue := Some(now + was.poll * 1_000)) else was
  {
    PlannedConnections(s, now, due, ids, |due|);
    assert due[..|due|] == due;
  }

  // ---- The tick's counts ----

  function FirstDue(due: seq<ConnectionId>, n: nat): set<ConnectionId>
    requires n <= |due|
  {
    set k | 0 <= k < n :: due[k]
  }

  function WithAuth(s: State, due: seq<ConnectionId>, auth: Auth, n: nat): set<ConnectionId>
    requires n <= |due| && forall c <- due :: c in s.connections
  {
    set k | 0 <= k < n && s.connections[due[k]].auth == auth :: due[k]
  }

  lemma WithAuthGrows(s: State, due: seq<ConnectionId>, auth: Auth, n: nat)
    requires n < |due| && (forall c <- due :: c in s.connections) && forall i, j :: 0 <= i < j < |due| ==> due[i] != due[j]
    ensures |WithAuth(s, due, auth, n + 1)|
         == |WithAuth(s, due, auth, n)| + if s.connections[due[n]].auth == auth then 1 else 0
  {
    var before, after := WithAuth(s, due, auth, n), WithAuth(s, due, auth, n + 1);
    assert due[n] !in before;
    if s.connections[due[n]].auth == auth { assert after == before + {due[n]}; } else { assert after == before; }
  }

  lemma {:induction false} CountAuthIs(s: State, due: seq<ConnectionId>, auth: Auth, n: nat)
    requires n <= |due| && (forall c <- due :: c in s.connections) && forall i, j :: 0 <= i < j < |due| ==> due[i] != due[j]
    ensures CountAuth(s, due, auth, n) == |WithAuth(s, due, auth, n)|
  {
    if n > 0 {
      CountAuthIs(s, due, auth, n - 1);
      WithAuthGrows(s, due, auth, n - 1);
    }
  }

  function NewJobs(jobs: Table, ids: seq<JobId>, n: nat): set<JobId>
    requires n <= |ids|
  {
    set k | 0 <= k < n && ids[k] in jobs :: ids[k]
  }

  lemma {:induction false} CountNewIs(jobs: Table, ids: seq<JobId>, n: nat)
    requires n <= |ids| && forall i, j :: 0 <= i < j < |ids| ==> ids[i] != ids[j]
    ensures CountNew(jobs, ids, n) == |NewJobs(jobs, ids, n)|
  {
    if n > 0 {
      CountNewIs(jobs, ids, n - 1);
      var before := NewJobs(jobs, ids, n - 1);
      assert ids[n - 1] !in before;
      assert NewJobs(jobs, ids, n) == if ids[n - 1] in jobs then before + {ids[n - 1]} else before;
    }
  }

  /** The counts are those of the due connections and of the jobs the tick added. */
  lemma TickCounts(s: State, now: int, due: seq<ConnectionId>, ids: seq<JobId>, jobs: Table)
    requires IsScan(s, now, due, ids)
    ensures var counts := CountsAt(s, jobs, due, ids, |due|);
      && counts.ran
      && counts.scanned == |set c <- s.connections | SlotHasCome(s.connections[c], now)|
      && counts.skippedAuthFailed == |set c <- s.connections | SlotHasCome(s.connections[c], now) && s.connections[c].auth == AuthFailed|
      && counts.skippedNeedsReauthorization
           == |set c <- s.connections | SlotHasCome(s.connections[c], now) && s.connections[c].auth == NeedsReauthorization|
      && counts.enqueued == |set id <- jobs | id in ids|
  {
    CountAuthIs(s, due, AuthFailed, |due|);
    CountAuthIs(s, due, NeedsReauthorization, |due|);
    CountNewIs(jobs, ids, |ids|);
    assert NewJobs(jobs, ids, |ids|) == set id <- jobs | id in ids;
    DueAreFirst(s, now, due, ids, AuthFailed);
    DueAreFirst(s, now, due, ids, NeedsReauthorization);
    CountDue(due, |due|);
  }

  lemma DueAreFirst(s: State, now: int, due: seq<ConnectionId>, ids: seq<JobId>, auth: Auth)
    requires IsScan(s, now, due, ids)
    ensures FirstDue(due, |due|) == set c <- s.connections | SlotHasCome(s.connections[c], now)
    ensures WithAuth(s, due, auth, |due|) == set c <- s.connections | SlotHasCome(s.connections[c], now) && s.connections[c].auth == auth
  {
    forall c ensures c in FirstDue(due, |due|) <==> c in due {
    }
    forall c ensures c in WithAuth(s, due, auth, |due|) <==> c in due && s.connections[c].auth == auth {
    }
  }

  lemma {:induction false} CountDue(due: seq<ConnectionId>, n: nat)
    requires n <= |due| && forall i, j :: 0 <= i < j < |due| ==> due[i] != due[j]
    ensures |FirstDue(due, n)| == n
  {
    if n > 0 {
      CountDue(due, n - 1);
      assert FirstDue(due, n) == FirstDue(due, n - 1) + {due[n - 1]};
    }
  }
}
