/** The planning tick: one sync per due slot of a connection, and its next slot one poll interval later. */
module Scheduler {
  import opened Common
  import opened Jobs

  datatype Auth = Healthy | AuthFailed | NeedsReauthorization

  /** The scheduler's view of a connection; `poll` is in seconds and positive. */
  datatype Connection = Connection(workspace: WorkspaceId, nextDue: Option<int>, poll: int, auth: Auth)

  datatype State = State(connections: map<ConnectionId, Connection>, jobs: Table)

  predicate IsDue(c: Connection, now: int) { c.nextDue.Some? && c.nextDue.value <= now }

  predicate IsPlanned(c: Connection, now: int) { IsDue(c, now) && c.auth == Healthy }

  /** The due connections, each once, in the order the database returns them, with an unused job id for each. */
  ghost predicate IsScan(s: State, now: int, due: seq<ConnectionId>, ids: seq<JobId>) {
    && |ids| == |due|
    && (forall c <- s.connections :: IsDue(s.connections[c], now) <==> c in due)
    && (forall c <- due :: c in s.connections)
    && (forall i, j :: 0 <= i < j < |due| ==> due[i] != due[j] && ids[i] != ids[j])
    && (forall id <- ids :: id !in s.jobs)
  }

  function SlotJob(c: ConnectionId, state: Connection, now: int): NewJob
    requires state.nextDue.Some?
  {
    NewJob(SYNC, state.workspace, Some(c), map[], Some(now), None, Some(SlotKey(c, state.nextDue.value)))
  }

  function Advanced(c: Connection, now: int): Connection { c.(nextDue := Some(now + c.poll * 1_000)) }

  /** The first `n` scanned connections planned. */
  function Planned(s: State, now: int, due: seq<ConnectionId>, ids: seq<JobId>, n: nat): (r: State)
    requires n <= |due| == |ids| && forall c <- due :: c in s.connections && s.connections[c].nextDue.Some?
    ensures r.connections.Keys == s.connections.Keys
  {
    if n == 0 then s
    else
      var r, c := Planned(s, now, due, ids, n - 1), due[n - 1];
      var state := s.connections[c];
      if state.auth != Healthy then r
      else State(r.connections[c := Advanced(state, now)],
                 Put(r.jobs, ids[n - 1], RowOf(SlotJob(c, state, now), now)))
  }

  datatype Counts = Counts(ran: bool, scanned: nat, enqueued: nat, skippedAuthFailed: nat, skippedNeedsReauthorization: nat)

  function CountAuth(s: State, due: seq<ConnectionId>, auth: Auth, n: nat): nat
    requires n <= |due| && forall c <- due :: c in s.connections
  {
    if n == 0 then 0 else CountAuth(s, due, auth, n - 1) + if s.connections[due[n - 1]].auth == auth then 1 else 0
  }

  /** Jobs of the tick that are in the queue. */
  function CountNew(jobs: Table, ids: seq<JobId>, n: nat): nat
    requires n <= |ids|
  {
    if n == 0 then 0 else CountNew(jobs, ids, n - 1) + if ids[n - 1] in jobs then 1 else 0
  }

  /** What a tick does with a connection. */
  datatype Visit = Skipped(auth: Auth) | Visited(isNew: bool)

  /** The tick's counts after `n` connections, the enqueued ones read from the queue. */
  function CountsAt(s: State, jobs: Table, due: seq<ConnectionId>, ids: seq<JobId>, n: nat): Counts
    requires n <= |due| == |ids| && forall c <- due :: c in s.connections
  {
    Counts(true, n, CountNew(jobs, ids, n), CountAuth(s, due, AuthFailed, n), CountAuth(s, due, NeedsReauthorization, n))
  }

  function Tallied(c: Counts, v: Visit): Counts {
    match v
    case Skipped(AuthFailed) => c.(scanned := c.scanned + 1, skippedAuthFailed := c.skippedAuthFailed + 1)
    case Skipped(_) =>
      c.(scanned := c.scanned + 1, skippedNeedsReauthorization := c.skippedNeedsReauthorization + 1)
    case Visited(isNew) => c.(scanned := c.scanned + 1, enqueued := c.enqueued + if isNew then 1 else 0)
  }

  class Database {
    var connections: map<ConnectionId, Connection>
    var jobs: Table

    ghost function Contents(): State
      reads this
    {
      State(connections, jobs)
    }

    constructor (s: State)
      ensures Contents() == s
    {
      connections, jobs := s.connections, s.jobs;
    }

    /**
     * One tick, a transaction: nothing happens when another scheduler is mid-tick, and nothing stays when it aborts
     * after `abortsAfter` planned connections.
     */
    method RunTick(acquired: bool, now: int, due: seq<ConnectionId>, ids: seq<JobId>, abortsAfter: Option<nat>)
      returns (counts: Option<Counts>)
      requires IsScan(Contents(), now, due, ids)
      modifies this
      ensures counts.None? <==> acquired && abortsAfter.Some? && abortsAfter.value < |due|
      ensures counts.None? || !acquired ==> Contents() == old(Contents())
      ensures !acquired ==> counts == Some(Counts(false, 0, 0, 0, 0))
      ensures counts.Some? && acquired ==> Contents() == Planned(old(Contents()), now, due, ids, |due|)
      ensures counts.Some? && acquired ==> counts.value == CountsAt(old(Contents()), jobs, due, ids, |due|)
    {
      if !acquired { return Some(Counts(false, 0, 0, 0, 0)); }
      ghost var s := Contents();
      var before := (connections, jobs);
      var tally, n := Counts(true, 0, 0, 0, 0), 0;
      while n < |due|
        invariant 0 <= n <= |due|
        invariant Contents() == Planned(s, now, due, ids, n) && Untouched(s, due, ids, n)
        invariant tally == CountsAt(s, jobs, due, ids, n)
        invariant abortsAfter.Some? && abortsAfter.value < |due| ==> n <= abortsAfter.value
      {
        if abortsAfter == Some(n) {
          connections, jobs := before.0, before.1;
          return None;
        }
        var visit := VisitNext(s, due, ids, n, now);
        tally := Tallied(tally, visit);
        n := n + 1;
      }
      return Some(tally);
    }

    /** Connections not yet visited are as the tick found them, and their ids unused. */
    ghost predicate Untouched(s: State, due: seq<ConnectionId>, ids: seq<JobId>, n: nat)
      requires |ids| == |due|
      reads this
    {
      forall k :: n <= k < |due| ==>
        ids[k] !in jobs && due[k] in connections && due[k] in s.connections && connections[due[k]] == s.connections[due[k]]
    }

    /** Skips the next connection or plans it. */
    method VisitNext(ghost s: State, due: seq<ConnectionId>, ids: seq<JobId>, n: nat, now: int) returns (visit: Visit)
      requires IsScan(s, now, due, ids) && n < |due| && Untouched(s, due, ids, n)
      requires Contents() == Planned(s, now, due, ids, n)
      modifies this
      ensures Contents() == Planned(s, now, due, ids, n + 1) && Untouched(s, due, ids, n + 1)
      ensures CountsAt(s, jobs, due, ids, n + 1) == Tallied(CountsAt(s, old(jobs), due, ids, n), visit)
    {
      var auth := connections[due[n]].auth;
      if auth == Healthy {
        var isNew := PlanNext(s, due, ids, n, now);
        visit := Visited(isNew);
      } else {
        visit := Skipped(auth);
      }
    }

    /** Plans the next connection, which is healthy. */
    method PlanNext(ghost s: State, due: seq<ConnectionId>, ids: seq<JobId>, n: nat, now: int) returns (isNew: bool)
      requires IsScan(s, now, due, ids) && n < |due| && Untouched(s, due, ids, n) && s.connections[due[n]].auth == Healthy
      requires Contents() == Planned(s, now, due, ids, n)
      modifies this
      ensures Contents() == Planned(s, now, due, ids, n + 1) && Untouched(s, due, ids, n + 1)
      ensures CountNew(jobs, ids, n + 1) == CountNew(old(jobs), ids, n) + if isNew then 1 else 0
    {
      PutIsNewOrSame(jobs, ids, n, RowOf(SlotJob(due[n], connections[due[n]], now), now));
      isNew := PlanOne(due[n], ids[n], now);
      assert jobs == old(jobs) || jobs == old(jobs)[ids[n] := jobs[ids[n]]];
    }

    /** Enqueues the slot's sync, unless an index refuses it because one is there already, and advances the connection. */
    method PlanOne(c: ConnectionId, id: JobId, now: int) returns (isNew: bool)
      requires c in connections && connections[c].nextDue.Some? && id !in jobs
      modifies this
      ensures connections == old(connections)[c := Advanced(old(connections)[c], now)]
      ensures jobs == Put(old(jobs), id, RowOf(SlotJob(c, old(connections)[c], now), now)) && (isNew <==> id in jobs)
      ensures jobs == if isNew then old(jobs)[id := RowOf(SlotJob(c, old(connections)[c], now), now)] else old(jobs)
    {
      var row := RowOf(SlotJob(c, connections[c], now), now);
      isNew := !ClashesWithTable(jobs, id, row);
      if isNew { jobs := jobs[id := row]; }
      connections := connections[c := Advanced(connections[c], now)];
    }
  }

  /** Counting the tick's earlier jobs does not see the next one. */
  lemma {:induction false} PutIsNewOrSame(jobs: Table, ids: seq<JobId>, n: nat, row: Job)
    requires n < |ids| && forall i, j :: 0 <= i < j < |ids| ==> ids[i] != ids[j]
    ensures CountNew(jobs[ids[n] := row], ids, n) == CountNew(jobs, ids, n)
  {
    CountIgnores(jobs, ids, n, n, row);
  }

  lemma {:induction false} CountIgnores(jobs: Table, ids: seq<JobId>, n: nat, k: nat, row: Job)
    requires k <= n < |ids| && forall i, j :: 0 <= i < j < |ids| ==> ids[i] != ids[j]
    ensures CountNew(jobs[ids[n] := row], ids, k) == CountNew(jobs, ids, k)
  {
    if k > 0 { CountIgnores(jobs, ids, n, k - 1, row); }
  }

  // ---- What one tick does ----

  /** The slot of one more connection, planned or left. */
  lemma OneMorePlanned(s: State, now: int, due: seq<ConnectionId>, ids: seq<JobId>, n: nat, c: ConnectionId)
    requires IsScan(s, now, due, ids) && n < |due| && c in s.connections
    ensures Planned(s, now, due, ids, n + 1).connections[c]
         == if c == due[n] && IsPlanned(s.connections[c], now) then Advanced(s.connections[c], now)
            else Planned(s, now, due, ids, n).connections[c]
  {
    ScannedIsDue(s, now, due, ids, n);
  }

  /** Each due, healthy connection advances by its interval from now; every other connection stays as it was. */
  lemma {:induction false} PlannedConnections(s: State, now: int, due: seq<ConnectionId>, ids: seq<JobId>, n: nat)
    requires IsScan(s, now, due, ids) && n <= |due|
    ensures var r := Planned(s, now, due, ids, n);
      forall c <- s.connections :: r.connections[c] == if c in due[..n] && IsPlanned(s.connections[c], now)
        then Advanced(s.connections[c], now) else s.connections[c]
  {
    if n > 0 {
      PlannedConnections(s, now, due, ids, n - 1);
      assert due[..n] == due[..n - 1] + [due[n - 1]];
      forall c <- s.connections
        ensures Planned(s, now, due, ids, n).connections[c]
             == if c in due[..n] && IsPlanned(s.connections[c], now) then Advanced(s.connections[c], now) else s.connections[c]
      {
        OneMorePlanned(s, now, due, ids, n - 1, c);
      }
    }
  }

  lemma ScannedIsDue(s: State, now: int, due: seq<ConnectionId>, ids: seq<JobId>, k: nat)
    requires IsScan(s, now, due, ids) && k < |due|
    ensures due[k] in s.connections && IsDue(s.connections[due[k]], now) && due[k] !in due[..k]
  {
    assert due[k] in due;
  }

  /** Everything scanned was enqueued, deduplicated or skipped: planned connections are those not skipped. */
  lemma {:induction false} ScannedAddsUp(s: State, due: seq<ConnectionId>, n: nat)
    requires n <= |due| && forall c <- due :: c in s.connections
    ensures n == CountAuth(s, due, Healthy, n) + CountAuth(s, due, AuthFailed, n) + CountAuth(s, due, NeedsReauthorization, n)
  {
    if n > 0 { ScannedAddsUp(s, due, n - 1); }
  }

  /** At most one job is enqueued for each planned connection. */
  lemma {:induction false} EnqueuedAtMostPlanned(s: State, now: int, due: seq<ConnectionId>, ids: seq<JobId>, n: nat)
    requires IsScan(s, now, due, ids) && n <= |due|
    ensures CountNew(Planned(s, now, due, ids, n).jobs, ids, n) <= CountAuth(s, due, Healthy, n)
  {
    if n > 0 {
      EnqueuedAtMostPlanned(s, now, due, ids, n - 1);
      var c := due[n - 1];
      var row := RowOf(SlotJob(c, s.connections[c], now), now);
      PutIsNewOrSame(Planned(s, now, due, ids, n - 1).jobs, ids, n - 1, row);
      JobsAreOwn(s, now, due, ids, n - 1);
    }
  }

  /** A sync covers a slot: it carries the slot's key, or it waits for the same connection. */
  predicate Covers(j: Job, c: ConnectionId, dueAt: int) {
    j.key == Some(SlotKey(c, dueAt)) || (Exclusive(j) && j.kind == SYNC && j.connection == Some(c))
  }

  /** Enqueued at most once per planned connection, and every planned slot is covered by a job afterwards. */
  lemma {:induction false} PlannedSlotsAreCovered(s: State, now: int, due: seq<ConnectionId>, ids: seq<JobId>, n: nat,
                                                  m: nat)
    requires IsScan(s, now, due, ids) && m < n <= |due| && s.connections[due[m]].auth == Healthy
    ensures exists id <- Planned(s, now, due, ids, n).jobs ::
      Covers(Planned(s, now, due, ids, n).jobs[id], due[m], s.connections[due[m]].nextDue.value)
    decreases n
  {
    var r, before := Planned(s, now, due, ids, n), Planned(s, now, due, ids, n - 1);
    var dueAt := s.connections[due[m]].nextDue.value;
    if m < n - 1 {
      PlannedSlotsAreCovered(s, now, due, ids, n - 1, m);
      var id :| id in before.jobs && Covers(before.jobs[id], due[m], dueAt);
      JobsAreKept(s, now, due, ids, n - 1, id);
    } else {
      var row := RowOf(SlotJob(due[m], s.connections[due[m]], now), now);
      if ClashesWithTable(before.jobs, ids[m], row) {
        var id :| id in before.jobs && id != ids[m] && Clash(before.jobs[id], row);
        assert Covers(r.jobs[id], due[m], dueAt);
      } else {
        assert Covers(r.jobs[ids[m]], due[m], dueAt);
      }
    }
  }

  /** A tick's jobs are the old ones and some under its own ids. */
  lemma {:induction false} JobsAreOwn(s: State, now: int, due: seq<ConnectionId>, ids: seq<JobId>, n: nat)
    requires IsScan(s, now, due, ids) && n <= |due|
    ensures forall id <- Planned(s, now, due, ids, n).jobs :: id in s.jobs || exists k :: 0 <= k < n && ids[k] == id
    ensures n < |ids| ==> ids[n] !in Planned(s, now, due, ids, n).jobs
  {
    if n > 0 { JobsAreOwn(s, now, due, ids, n - 1); }
  }

  /** No job is changed while the tick goes on. */
  lemma JobsAreKept(s: State, now: int, due: seq<ConnectionId>, ids: seq<JobId>, n: nat, id: JobId)
    requires IsScan(s, now, due, ids) && n < |due| && id in Planned(s, now, due, ids, n).jobs
    ensures id in Planned(s, now, due, ids, n + 1).jobs
    ensures Planned(s, now, due, ids, n + 1).jobs[id] == Planned(s, now, due, ids, n).jobs[id]
  {
    JobsAreOwn(s, now, due, ids, n);
  }

  // ---- Runs ----

  datatype Event =
    | Tick(acquired: bool, now: int, due: seq<ConnectionId>, ids: seq<JobId>, aborts: bool)
    | QueueMoves(jobs: Table)
    | SetAuth(c: ConnectionId, auth: Auth)
    /** A finished sync: the next slot is one interval after the sync's start. */
    | SyncDone(c: ConnectionId, started: int)
    /** Setup or new credentials: due at once. */
    | DueNow(c: ConnectionId, at: int)

  ghost predicate CanHappen(s: State, e: Event) {
    match e
    case Tick(_, now, due, ids, _) => IsScan(s, now, due, ids)
    case QueueMoves(_) => true
    case SetAuth(c, _) => c in s.connections
    case SyncDone(c, _) => c in s.connections
    case DueNow(c, _) => c in s.connections
  }

  ghost function After(s: State, e: Event): State
    requires CanHappen(s, e)
  {
    match e
    case Tick(acquired, now, due, ids, aborts) => if acquired && !aborts then Planned(s, now, due, ids, |due|) else s
    case QueueMoves(jobs) => s.(jobs := jobs)
    case SetAuth(c, auth) => s.(connections := s.connections[c := s.connections[c].(auth := auth)])
    case SyncDone(c, started) =>
      s.(connections := s.connections[c := s.connections[c].(auth := Healthy,
                                                             nextDue := Some(started + s.connections[c].poll * 1_000))])
    case DueNow(c, at) =>
      s.(connections := s.connections[c := s.connections[c].(auth := Healthy, nextDue := Some(at))])
  }

  ghost predicate IsRun(run: seq<State>, events: seq<Event>) {
    && |run| == |events| + 1
    && (forall c <- run[0].connections :: run[0].connections[c].poll > 0)
    && forall i {:trigger events[i]} :: 0 <= i < |events| ==> CanHappen(run[i], events[i]) && run[i + 1] == After(run[i], events[i])
  }

  /** The tick at `i` planned the connection. */
  ghost predicate Plans(run: seq<State>, events: seq<Event>, i: nat, c: ConnectionId)
    requires IsRun(run, events) && i < |events|
  {
    && events[i].Tick? && events[i].acquired && !events[i].aborts
    && c in run[i].connections && IsPlanned(run[i].connections[c], events[i].now)
  }

  function SlotAt(run: seq<State>, i: nat, c: ConnectionId): int
    requires i < |run| && c in run[i].connections && run[i].connections[c].nextDue.Some?
  {
    run[i].connections[c].nextDue.value
  }

  /** The event moves the slot of `c` by other means than a tick: a finished sync, setup or new credentials. */
  predicate Moves(e: Event, c: ConnectionId) { (e.SyncDone? || e.DueNow?) && e.c == c }

  function MovedTo(e: Event, c: ConnectionId, poll: int): int
    requires Moves(e, c)
  {
    if e.SyncDone? then e.started + poll * 1_000 else e.at
  }

  /** The last move of the slot of `c` after the plan at `i` and before `k`, or `i` when there is none. */
  function LastMove(events: seq<Event>, i: nat, k: nat, c: ConnectionId): (m: nat)
    requires i < k <= |events|
    ensures i <= m < k && (m > i ==> Moves(events[m], c)) && forall j :: m < j < k ==> !Moves(events[j], c)
    decreases k
  {
    if k == i + 1 then i else if Moves(events[k - 1], c) then k - 1 else LastMove(events, i, k - 1, c)
  }

  /** Nobody makes `c` due too early after its plan at `i`: the last move, if any, puts the slot an interval later. */
  predicate KeepsInterval(events: seq<Event>, i: nat, k: nat, c: ConnectionId, poll: int)
    requires i < k <= |events| && events[i].Tick?
  {
    var m := LastMove(events, i, k, c);
    m == i || MovedTo(events[m], c, poll) >= events[i].now + poll * 1_000
  }

  lemma {:induction false} ConnectionsStay(run: seq<State>, events: seq<Event>, i: nat, c: ConnectionId)
    requires IsRun(run, events) && i < |run| && c in run[0].connections
    ensures c in run[i].connections && run[i].connections[c].poll == run[0].connections[c].poll > 0
  {
    if i > 0 {
      ConnectionsStay(run, events, i - 1, c);
      var e := events[i - 1];
      if e.Tick? { PlannedConnections(run[i - 1], e.now, e.due, e.ids, |e.due|); }
    }
  }

  /** A tick moves a planned connection's slot strictly later, by its interval from now, and no other slot. */
  lemma TickMovesSlots(run: seq<State>, events: seq<Event>, i: nat, c: ConnectionId)
    requires IsRun(run, events) && i < |events| && c in run[0].connections && events[i].Tick?
    ensures c in run[i].connections && c in run[i + 1].connections
    ensures Plans(run, events, i, c) ==>
      && run[i + 1].connections[c].nextDue == Some(events[i].now + run[0].connections[c].poll * 1_000)
      && SlotAt(run, i, c) < SlotAt(run, i + 1, c)
    ensures !Plans(run, events, i, c) ==> run[i + 1].connections[c] == run[i].connections[c]
  {
    var e := events[i];
    ConnectionsStay(run, events, i, c);
    PlannedConnections(run[i], e.now, e.due, e.ids, |e.due|);
    assert e.due[..|e.due|] == e.due;
  }

  /** An event that is no tick moves the slot of `c` where it says, if it moves it. */
  lemma OtherEventMoves(s: State, e: Event, c: ConnectionId)
    requires CanHappen(s, e) && !e.Tick? && c in s.connections
    ensures c in After(s, e).connections
    ensures After(s, e).connections[c].nextDue
      == if Moves(e, c) then Some(MovedTo(e, c, s.connections[c].poll)) else s.connections[c].nextDue
  {
  }

  /** What an event that does not plan `c` does to its slot. */
  lemma EventMoves(run: seq<State>, events: seq<Event>, k: nat, c: ConnectionId)
    requires IsRun(run, events) && k < |events| && c in run[0].connections && !Plans(run, events, k, c)
    ensures c in run[k].connections && c in run[k + 1].connections
    ensures run[k + 1].connections[c].nextDue
      == if Moves(events[k], c) then Some(MovedTo(events[k], c, run[0].connections[c].poll)) else run[k].connections[c].nextDue
  {
    ConnectionsStay(run, events, k, c);
    if events[k].Tick? { TickMovesSlots(run, events, k, c); } else { OtherEventMoves(run[k], events[k], c); }
  }

  lemma {:induction false} SlotIsWhereLastMoved(run: seq<State>, events: seq<Event>, i: nat, k: nat, c: ConnectionId)
    requires IsRun(run, events) && i < k < |run| && c in run[0].connections && Plans(run, events, i, c)
    requires forall j :: i < j < k ==> !Plans(run, events, j, c)
    ensures c in run[k].connections
    ensures var m, poll := LastMove(events, i, k, c), run[0].connections[c].poll;
      run[k].connections[c].nextDue
        == Some(if m == i then events[i].now + poll * 1_000 else MovedTo(events[m], c, poll))
    decreases k
  {
    if k == i + 1 { TickMovesSlots(run, events, i, c); } else {
      SlotIsWhereLastMoved(run, events, i, k - 1, c);
      EventMoves(run, events, k - 1, c);
    }
  }

  /**
   * After a plan, up to the next one, the connection can be due only an interval later exactly when the last sync end or
   * request for an immediate sync, if there was one, put its slot that late: for a sync, when it started at or after
   * the plan. Aborted ticks, ticks that skip the connection, queue steps and changes of authorization do not matter.
   */
  lemma DueAnIntervalLaterIff(run: seq<State>, events: seq<Event>, i: nat, k: nat, c: ConnectionId)
    requires IsRun(run, events) && i < k < |run| && c in run[0].connections && Plans(run, events, i, c)
    requires forall j :: i < j < k ==> !Plans(run, events, j, c)
    ensures c in run[k].connections
    ensures var interval := run[0].connections[c].poll * 1_000;
      (forall now :: IsDue(run[k].connections[c], now) ==> now - events[i].now >= interval)
        <==> KeepsInterval(events, i, k, c, run[0].connections[c].poll)
    ensures run[k].connections[c].nextDue.Some?
    ensures KeepsInterval(events, i, k, c, run[0].connections[c].poll) ==> SlotAt(run, i, c) < SlotAt(run, k, c)
  {
    SlotIsWhereLastMoved(run, events, i, k, c);
    ConnectionsStay(run, events, k, c);
    assert IsDue(run[k].connections[c], SlotAt(run, k, c));
  }

  /** The last hit at or after `i` and before `k`. */
  function LastHit(hits: seq<bool>, i: nat, k: nat): (j: nat)
    requires i < k <= |hits| && hits[i]
    ensures i <= j < k && hits[j] && forall l :: j < l < k ==> !hits[l]
    decreases k
  {
    if hits[k - 1] then k - 1 else LastHit(hits, i, k - 1)
  }

  /** The last plan of the connection at or after `i` and before `k`. */
  lemma LastPlan(run: seq<State>, events: seq<Event>, i: nat, k: nat, c: ConnectionId) returns (j: nat)
    requires IsRun(run, events) && i < k <= |events| && Plans(run, events, i, c)
    ensures i <= j < k && Plans(run, events, j, c) && forall l :: j < l < k ==> !Plans(run, events, l, c)
  {
    var hits := seq(|events|, l requires 0 <= l < |events| => Plans(run, events, l, c));
    j := LastHit(hits, i, k);
    assert forall l :: 0 <= l < |events| ==> hits[l] == Plans(run, events, l, c);
  }

  /** Two plans of the connection with none in between. */
  ghost predicate PlansNext(run: seq<State>, events: seq<Event>, i: nat, k: nat, c: ConnectionId)
    requires IsRun(run, events) && i < k < |events|
  {
    Plans(run, events, i, c) && Plans(run, events, k, c) && forall j :: i < j < k ==> !Plans(run, events, j, c)
  }

  /** Every plan's interval is kept up to the next plan, whichever schedulers plan. */
  ghost predicate EachIntervalIsKept(run: seq<State>, events: seq<Event>, c: ConnectionId)
    requires IsRun(run, events) && c in run[0].connections
  {
    forall i: nat, k: nat {:trigger PlansNext(run, events, i, k, c)} :: i < k < |events| && PlansNext(run, events, i, k, c) ==>
      KeepsInterval(events, i, k, c, run[0].connections[c].poll)
  }

  /** Then any two plans, however many lie between them, are at least the interval apart and use different slots. */
  lemma {:induction false} PlansAreAnIntervalApart(run: seq<State>, events: seq<Event>, i: nat, k: nat, c: ConnectionId)
    requires IsRun(run, events) && i < k < |events| && c in run[0].connections
    requires Plans(run, events, i, c) && Plans(run, events, k, c) && EachIntervalIsKept(run, events, c)
    ensures events[k].now - events[i].now >= run[0].connections[c].poll * 1_000
    ensures SlotAt(run, i, c) < SlotAt(run, k, c)
    decreases k
  {
    var j := LastPlan(run, events, i, k, c);
    assert PlansNext(run, events, j, k, c);
    DueAnIntervalLaterIff(run, events, j, k, c);
    ConnectionsStay(run, events, k, c);
    if i < j { PlansAreAnIntervalApart(run, events, i, j, c); }
  }

  /** One connection, due at `dueAt`, that polls every 300 seconds. */
  function Lone(dueAt: int): State { State(map[7 := Connection(1, Some(dueAt), 300, Healthy)], map[]) }

  lemma LoneTick(dueAt: int, now: int, queue: Table)
    requires dueAt <= now && 0 !in queue
    ensures var s, e := Lone(dueAt).(jobs := queue), Tick(true, now, [7], [0], false);
      CanHappen(s, e) && After(s, e).connections == Lone(now + 300_000).connections
  {
    var s := Lone(dueAt).(jobs := queue);
    assert Planned(s, now, [7], [0], 0) == s;
  }

  lemma RunGrows(run: seq<State>, events: seq<Event>, e: Event)
    requires IsRun(run, events) && CanHappen(run[|events|], e)
    ensures IsRun(run + [After(run[|events|], e)], events + [e])
  {
  }

  const FIRST_TICK := Tick(true, 400_000, [7], [0], false)
  const SECOND_TICK := Tick(true, 500_000, [7], [0], false)

  /** A plan, the end of a sync that started before it, and an emptied queue. */
  lemma SyncOutlastsPlan() returns (run: seq<State>, events: seq<Event>)
    ensures IsRun(run, events) && events == [FIRST_TICK, SyncDone(7, 200_000), QueueMoves(map[])]
    ensures run[0] == Lone(0) && run[3] == Lone(500_000)
  {
    LoneTick(0, 400_000, map[]);
    var planned := After(Lone(0), FIRST_TICK);
    var synced := State(Lone(500_000).connections, planned.jobs);
    assert After(planned, SyncDone(7, 200_000)) == synced;
    run, events := [Lone(0)], [];
    RunGrows(run, events, FIRST_TICK);
    RunGrows([Lone(0), planned], [FIRST_TICK], SyncDone(7, 200_000));
    RunGrows([Lone(0), planned, synced], [FIRST_TICK, SyncDone(7, 200_000)], QueueMoves(map[]));
    run, events := [Lone(0), planned, synced, Lone(500_000)], [FIRST_TICK, SyncDone(7, 200_000), QueueMoves(map[])];
  }

  /** A sync that outlasts a plan brings the next slot forward: two plans 100 s apart with an interval of 300 s. */
  lemma LongSyncShortensTheInterval() returns (run: seq<State>, events: seq<Event>)
    ensures IsRun(run, events) && |events| == 4 && 7 in run[0].connections
    ensures Plans(run, events, 0, 7) && Plans(run, events, 3, 7)
    ensures events[3].now - events[0].now == 100_000 < run[0].connections[7].poll * 1_000
  {
    run, events := SyncOutlastsPlan();
    LoneTick(500_000, 500_000, map[]);
    RunGrows(run, events, SECOND_TICK);
    run, events := run + [After(run[3], SECOND_TICK)], events + [SECOND_TICK];
  }
}
