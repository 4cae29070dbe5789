/**
 * Calls that run a function under a session lock: a turn in the process's queue, a reserved pool connection, the lock in
 * its session, and the way back. Any number of calls interleave, and other processes take the same locks.
 */
module SessionLockCalls {
  import opened Common
  import opened SessionLockQueue

  // ---- Any number of calls interleaved ----

  type CallId = TicketId

  datatype Stage =
    | Queued
    | Reserving
    | Reserved
    | Locked
    | Running
    | Cleaning
    | Clean
    | Returned
    | Ended

  datatype Setup = NoTimeLeft | SetTimeoutFails | LockTimesOut | LockFails

  datatype Step =
    | Begin(name: string, bounded: bool)
    | GetTurn(c: CallId)
    | GiveUp(c: CallId)
    | PassTurn(c: CallId)
    | Reserve(c: CallId)
    | ReserveTimesOut(c: CallId)
    | ReserveRejected(c: CallId)
    | LateArrives
    | LateRejected
    | LateReturns
    | SetupFails(c: CallId, why: Setup)
    | GetLock(c: CallId)
    | ResetFails(c: CallId)
    | Start(c: CallId)
    | Finish(c: CallId, leavesOpen: bool)
    | RollBack(c: CallId)
    | UnlockAll(c: CallId)
    | ConnectionGone(c: CallId)
    | Release(c: CallId)
    | PassOnTurn(c: CallId)
    | OtherTakes(name: string)
    | OtherReleases(name: string)
  {
    /** Steps that only bring work to its end, and not by a failure. */
    predicate Progresses() {
      GetTurn? || PassTurn? || Reserve? || LateArrives? || LateReturns? || GetLock? || Start? || Finish? || RollBack?
      || UnlockAll? || Release? || PassOnTurn? || OtherReleases?
    }
  }

  /**
   * Call `c` has ticket `c`. `owner` says which of the calls' sessions holds a lock and `elsewhere` which locks other
   * processes hold; `open` are calls whose session is left in a transaction; `late` reservations were given up and
   * are still pending, `handing` ones have arrived and not yet gone back.
   */
  datatype World = World(queue: Queue, calls: seq<Stage>, owner: map<string, CallId>, elsewhere: set<string>,
                         open: set<CallId>, free: nat, late: nat, handing: nat) {

    predicate WellFormed() { queue.WellIndexed() && |calls| == |queue.tickets| }

    predicate At(c: CallId, stage: Stage) { c < |calls| && calls[c] == stage }

    function To(c: CallId, stage: Stage): World
      requires c < |calls|
    {
      this.(calls := calls[c := stage])
    }

    predicate Bounded(c: CallId) { c < |queue.tickets| && queue.tickets[c].bounded }

    function Dropped(c: CallId): World {
      this.(owner := map n <- owner | owner[n] != c :: owner[n], open := open - {c})
    }

    predicate Enabled(s: Step)
      requires WellFormed()
    {
      match s
      case Begin(_, _) => true
      case GetTurn(c) => At(c, Queued) && queue.Enabled(Grant(c))
      case GiveUp(c) => At(c, Queued) && queue.Enabled(TimeOut(c))
      case PassTurn(c) => queue.Enabled(PassOn(c))
      case Reserve(c) => At(c, Reserving) && free > 0
      case ReserveTimesOut(c) => At(c, Reserving) && Bounded(c)
      case ReserveRejected(c) => At(c, Reserving)
      case LateArrives => late > 0 && free > 0
      case LateRejected => late > 0
      case LateReturns => handing > 0
      case SetupFails(c, why) => At(c, Stage.Reserved) && (!why.LockFails? ==> Bounded(c))
      case GetLock(c) => At(c, Stage.Reserved) && queue.NameOf(c) !in owner && queue.NameOf(c) !in elsewhere
      case ResetFails(c) => At(c, Locked)
      case Start(c) => At(c, Locked)
      case Finish(c, _) => At(c, Running)
      case RollBack(c) => At(c, Cleaning) && c in open
      case UnlockAll(c) => At(c, Cleaning) && c !in open
      case ConnectionGone(c) => At(c, Cleaning)
      case Release(c) => At(c, Clean)
      case PassOnTurn(c) => At(c, Returned) && queue.Enabled(Done(c))
      case OtherTakes(name) => name !in owner && name !in elsewhere
      case OtherReleases(name) => name in elsewhere
    }

    function Next(s: Step): World
      requires WellFormed() && Enabled(s)
    {
      match s
      case Begin(name, bounded) => this.(queue := queue.Next(Take(name, bounded)), calls := calls + [Queued])
      case GetTurn(c) => To(c, Reserving).(queue := queue.Next(Grant(c)))
      case GiveUp(c) => To(c, Ended).(queue := queue.Next(TimeOut(c)))
      case PassTurn(c) => this.(queue := queue.Next(PassOn(c)))
      case Reserve(c) => To(c, Stage.Reserved).(free := free - 1)
      case ReserveTimesOut(c) => To(c, Returned).(late := late + 1)
      case ReserveRejected(c) => To(c, Returned)
      case LateArrives => this.(late := late - 1, free := free - 1, handing := handing + 1)
      case LateRejected => this.(late := late - 1)
      case LateReturns => this.(handing := handing - 1, free := free + 1)
      case SetupFails(c, _) => To(c, Cleaning)
      case GetLock(c) => To(c, Locked).(owner := owner[queue.NameOf(c) := c])
      case ResetFails(c) => To(c, Cleaning)
      case Start(c) => To(c, Running)
      case Finish(c, leavesOpen) => To(c, Cleaning).(open := if leavesOpen then open + {c} else open)
      case RollBack(c) => this.(open := open - {c})
      case UnlockAll(c) => Dropped(c).To(c, Clean)
      case ConnectionGone(c) => Dropped(c).To(c, Clean)
      case Release(c) => To(c, Returned).(free := free + 1)
      case PassOnTurn(c) => To(c, Ended).(queue := queue.Next(Done(c)))
      case OtherTakes(name) => this.(elsewhere := elsewhere + {name})
      case OtherReleases(name) => this.(elsewhere := elsewhere - {name})
    }
  }

  // ---- The invariant ----

  predicate Connected(s: Stage) { s.Reserved? || s.Locked? || s.Running? || s.Cleaning? || s.Clean? }

  /** The stages in which a call has its turn. */
  predicate InTurn(s: Stage) { s.Reserving? || Connected(s) || s.Returned? }

  predicate Matches(s: Stage, p: Phase) {
    match p
    case Waiting => s.Queued?
    case Holding => InTurn(s)
    case GaveUp => s.Ended?
    case Passed => s.Ended?
  }

  function Connections(calls: seq<Stage>, n: nat): nat
    requires n <= |calls|
  {
    if n == 0 then 0 else Connections(calls, n - 1) + if Connected(calls[n - 1]) then 1 else 0
  }

  lemma {:induction false} ConnectionsAfter(calls: seq<Stage>, c: CallId, s: Stage, n: nat)
    requires c < |calls| && n <= |calls|
    ensures Connections(calls[c := s], n) == Connections(calls, n)
      + (if c < n && Connected(s) then 1 else 0) - (if c < n && Connected(calls[c]) then 1 else 0)
  {
    if n > 0 { ConnectionsAfter(calls, c, s, n - 1); }
  }

  lemma {:induction false} ConnectionsOfMore(calls: seq<Stage>, s: Stage, n: nat)
    requires n <= |calls|
    ensures Connections(calls + [s], n) == Connections(calls, n)
  {
    if n > 0 { ConnectionsOfMore(calls, s, n - 1); }
  }

  lemma {:induction false} SomeConnected(calls: seq<Stage>, n: nat)
    requires n <= |calls|
    ensures Connections(calls, n) > 0 <==> exists c :: 0 <= c < n && Connected(calls[c])
  {
    if n > 0 { SomeConnected(calls, n - 1); }
  }

  /** A lock's owner may still hold it; a call past the lock and before its cleanup owns its name's lock. */
  predicate MayOwn(s: Stage) { s.Locked? || s.Running? || s.Cleaning? }

  ghost predicate LocksOk(w: World)
    requires w.WellFormed()
  {
    && (forall n <- w.owner :: w.owner[n] < |w.calls| && MayOwn(w.calls[w.owner[n]]) && w.queue.NameOf(w.owner[n]) == n)
    && (forall c :: 0 <= c < |w.calls| && (w.calls[c].Locked? || w.calls[c].Running?) ==>
          w.queue.NameOf(c) in w.owner && w.owner[w.queue.NameOf(c)] == c)
    && w.owner.Keys !! w.elsewhere
    && (forall c <- w.open :: w.At(c, Cleaning))
  }

  ghost predicate Conserved(w: World, pool: nat) { w.free + Connections(w.calls, |w.calls|) + w.handing == pool }

  ghost predicate StagesOk(w: World)
    requires w.WellFormed()
  {
    forall c :: 0 <= c < |w.calls| ==> Matches(w.calls[c], w.queue.tickets[c].phase)
  }

  ghost predicate WorldInv(w: World, pool: nat) {
    SessionLockQueue.Inv(w.queue) && w.WellFormed() && StagesOk(w) && LocksOk(w) && Conserved(w, pool)
  }

  /** What the step does to the queue, if anything. */
  function QueueAction(s: Step): Option<Action> {
    match s
    case Begin(name, bounded) => Some(Take(name, bounded))
    case GetTurn(c) => Some(Grant(c))
    case GiveUp(c) => Some(TimeOut(c))
    case PassTurn(c) => Some(PassOn(c))
    case PassOnTurn(c) => Some(Done(c))
    case _ => None
  }

  lemma EntryNamesStay(q: Queue, a: Action, e: EntryId)
    requires q.WellIndexed() && Named(q) && q.Enabled(a) && e < |q.entries|
    ensures e < |q.Next(a).entries| && q.Next(a).entries[e].name == q.entries[e].name
  {
  }

  lemma TicketsStay(q: Queue, a: Action, c: TicketId)
    requires q.WellIndexed() && q.Enabled(a) && c < |q.tickets|
    ensures c < |q.Next(a).tickets| && q.Next(a).tickets[c].entry == q.tickets[c].entry
    ensures a.Take? || a.t != c ==> q.Next(a).tickets[c] == q.tickets[c]
  {
  }

  /** Steps of the queue leave the names of tickets as they are. */
  lemma QueueSteps(q: Queue, a: Action)
    requires SessionLockQueue.Inv(q) && q.Enabled(a)
    ensures SessionLockQueue.Inv(q.Next(a)) && |q.tickets| <= |q.Next(a).tickets|
    ensures forall c :: 0 <= c < |q.tickets| ==> q.Next(a).NameOf(c) == q.NameOf(c)
  {
    NextKeepsInv(q, a);
    forall c | 0 <= c < |q.tickets| ensures c < |q.Next(a).tickets| && q.Next(a).NameOf(c) == q.NameOf(c) {
      TicketsStay(q, a, c);
      EntryNamesStay(q, a, q.tickets[c].entry);
    }
    if q.tickets != [] { TicketsStay(q, a, |q.tickets| - 1); }
  }

  lemma StepsKeepQueue(w: World, s: Step)
    requires SessionLockQueue.Inv(w.queue) && w.WellFormed() && w.Enabled(s)
    ensures SessionLockQueue.Inv(w.Next(s).queue) && w.Next(s).WellFormed() && |w.calls| <= |w.Next(s).calls|
    ensures forall c :: 0 <= c < |w.calls| ==> w.Next(s).queue.NameOf(c) == w.queue.NameOf(c)
  {
    if QueueAction(s).Some? { QueueSteps(w.queue, QueueAction(s).value); }
  }

  predicate Moves(s: Step, c: CallId) {
    match s
    case Begin(_, _) => false
    case LateArrives => false
    case LateRejected => false
    case LateReturns => false
    case OtherTakes(_) => false
    case OtherReleases(_) => false
    case _ => s.c == c
  }

  lemma OthersStay(w: World, s: Step, d: CallId)
    requires w.WellFormed() && w.Enabled(s) && d < |w.calls| && !Moves(s, d)
    ensures d < |w.Next(s).calls| == |w.Next(s).queue.tickets|
    ensures w.Next(s).calls[d] == w.calls[d] && w.Next(s).queue.tickets[d] == w.queue.tickets[d]
  {
  }

  lemma MoverMatches(w: World, s: Step, c: CallId)
    requires w.WellFormed() && w.Enabled(s) && c < |w.calls| && Moves(s, c) && Matches(w.calls[c], w.queue.tickets[c].phase)
    ensures c < |w.Next(s).calls| == |w.Next(s).queue.tickets|
    ensures Matches(w.Next(s).calls[c], w.Next(s).queue.tickets[c].phase)
  {
  }

  lemma StepKeepsStages(w: World, s: Step)
    requires w.WellFormed() && w.Enabled(s) && StagesOk(w) && w.Next(s).WellFormed()
    ensures StagesOk(w.Next(s))
  {
    var r := w.Next(s);
    forall c | 0 <= c < |r.calls| ensures Matches(r.calls[c], r.queue.tickets[c].phase) {
      if c < |w.calls| {
        if Moves(s, c) { MoverMatches(w, s, c); } else { OthersStay(w, s, c); }
      } else {
        assert s.Begin?;
      }
    }
  }

  function ConnectionOf(s: Stage): nat { if Connected(s) then 1 else 0 }

  /** What a step does to the calls: it moves one, adds one, or leaves them as they are. */
  lemma CallsAfter(w: World, s: Step)
    requires w.WellFormed() && w.Enabled(s)
    ensures var r := w.Next(s);
      || r.calls == w.calls || r.calls == w.calls + [Queued]
      || exists c :: 0 <= c < |w.calls| && Moves(s, c) && r.calls == w.calls[c := r.calls[c]]
  {
  }

  lemma FreeAfter(w: World, s: Step, c: CallId)
    requires w.WellFormed() && w.Enabled(s) && c < |w.calls| && Moves(s, c)
    ensures |w.Next(s).calls| == |w.calls| && w.Next(s).handing == w.handing
    ensures w.Next(s).free + ConnectionOf(w.Next(s).calls[c]) == w.free + ConnectionOf(w.calls[c])
  {
  }

  lemma FreeWhenNobodyMoves(w: World, s: Step)
    requires w.WellFormed() && w.Enabled(s) && (w.Next(s).calls == w.calls || w.Next(s).calls == w.calls + [Queued])
    ensures w.Next(s).free + w.Next(s).handing == w.free + w.handing
  {
  }

  lemma StepKeepsConnections(w: World, pool: nat, s: Step)
    requires w.WellFormed() && w.Enabled(s) && Conserved(w, pool)
    ensures Conserved(w.Next(s), pool)
  {
    var r, n := w.Next(s), |w.calls|;
    CallsAfter(w, s);
    if c :| 0 <= c < n && Moves(s, c) && r.calls == w.calls[c := r.calls[c]] {
      ConnectionsAfter(w.calls, c, r.calls[c], n);
      FreeAfter(w, s, c);
    } else {
      ConnectionsOfMore(w.calls, Queued, n);
      FreeWhenNobodyMoves(w, s);
    }
  }

  /** Calls that own no lock and are not in cleanup may come, go on and end. */
  lemma LocksStay(w: World, r: World)
    requires w.WellFormed() && LocksOk(w) && r.WellFormed() && |w.calls| <= |r.calls|
    requires r.owner == w.owner && r.elsewhere == w.elsewhere && r.open == w.open
    requires forall c :: 0 <= c < |w.calls| ==> r.queue.NameOf(c) == w.queue.NameOf(c)
    requires forall c :: 0 <= c < |w.calls| && r.calls[c] != w.calls[c] ==> !MayOwn(w.calls[c]) && !MayOwn(r.calls[c])
    requires forall c :: |w.calls| <= c < |r.calls| ==> !MayOwn(r.calls[c])
    ensures LocksOk(r)
  {
  }

  predicate IsUntouching(s: Step) {
    QueueAction(s).Some? || s.Reserve? || s.ReserveTimesOut? || s.ReserveRejected? || s.LateArrives? || s.LateRejected?
    || s.LateReturns? || s.Release?
  }

  lemma OwnersUntouched(w: World, s: Step, c: CallId)
    requires w.WellFormed() && w.Enabled(s) && IsUntouching(s) && |w.calls| <= |w.Next(s).calls| && c < |w.Next(s).calls|
    ensures c < |w.calls| && w.Next(s).calls[c] != w.calls[c] ==> !MayOwn(w.calls[c]) && !MayOwn(w.Next(s).calls[c])
    ensures c >= |w.calls| ==> !MayOwn(w.Next(s).calls[c])
  {
  }

  lemma LocksUntouched(w: World, s: Step)
    requires w.WellFormed() && w.Enabled(s) && LocksOk(w) && w.Next(s).WellFormed()
    requires |w.calls| <= |w.Next(s).calls| && IsUntouching(s)
    requires forall c :: 0 <= c < |w.calls| ==> w.Next(s).queue.NameOf(c) == w.queue.NameOf(c)
    ensures LocksOk(w.Next(s))
  {
    forall c | 0 <= c < |w.Next(s).calls|
      ensures c < |w.calls| && w.Next(s).calls[c] != w.calls[c] ==> !MayOwn(w.calls[c]) && !MayOwn(w.Next(s).calls[c])
      ensures c >= |w.calls| ==> !MayOwn(w.Next(s).calls[c])
    {
      OwnersUntouched(w, s, c);
    }
    LocksStay(w, w.Next(s));
  }

  lemma GotLock(w: World, c: CallId)
    requires w.WellFormed() && LocksOk(w) && w.Enabled(GetLock(c))
    ensures LocksOk(w.Next(GetLock(c)))
  {
    var r := w.Next(GetLock(c));
    forall n | n in r.owner ensures r.owner[n] < |r.calls| && MayOwn(r.calls[r.owner[n]]) && r.queue.NameOf(r.owner[n]) == n {
    }
  }

  /** The owner of a lock goes on, at last to its cleanup, in which its session may have a transaction open. */
  lemma OwnerMoves(w: World, c: CallId, stage: Stage, open: set<CallId>)
    requires w.WellFormed() && LocksOk(w) && c < |w.calls| && MayOwn(w.calls[c]) && MayOwn(stage)
    requires (stage.Locked? || stage.Running?) ==> w.calls[c].Locked? || w.calls[c].Running?
    requires open <= w.open + {c} && (c in open ==> stage.Cleaning?)
    ensures LocksOk(w.To(c, stage).(open := open))
  {
    var r := w.To(c, stage).(open := open);
    forall n | n in r.owner ensures r.owner[n] < |r.calls| && MayOwn(r.calls[r.owner[n]]) && r.queue.NameOf(r.owner[n]) == n {
    }
  }

  /** The cleanup drops the call's lock and its transaction. */
  lemma OwnerDrops(w: World, c: CallId)
    requires w.WellFormed() && LocksOk(w) && w.At(c, Cleaning)
    ensures LocksOk(w.Dropped(c).To(c, Clean))
  {
    var r := w.Dropped(c).To(c, Clean);
    forall n | n in r.owner ensures r.owner[n] < |r.calls| && MayOwn(r.calls[r.owner[n]]) && r.queue.NameOf(r.owner[n]) == n {
      assert n in w.owner && r.owner[n] == w.owner[n] != c;
    }
  }

  lemma OwnerGoesOn(w: World, s: Step)
    requires w.WellFormed() && LocksOk(w) && w.Enabled(s)
    requires s.ResetFails? || s.Start? || s.Finish? || s.RollBack? || s.UnlockAll? || s.ConnectionGone?
    ensures LocksOk(w.Next(s))
  {
    match s
    case ResetFails(c) => OwnerMoves(w, c, Cleaning, w.open);
    case Start(c) => OwnerMoves(w, c, Running, w.open);
    case Finish(c, leavesOpen) => OwnerMoves(w, c, Cleaning, if leavesOpen then w.open + {c} else w.open);
    case RollBack(c) =>
      OwnerMoves(w, c, Cleaning, w.open - {c});
      assert w.calls[c := Cleaning] == w.calls;
    case UnlockAll(c) => OwnerDrops(w, c);
    case ConnectionGone(c) => OwnerDrops(w, c);
  }

  lemma StepKeepsLocks(w: World, s: Step)
    requires w.WellFormed() && w.Enabled(s) && LocksOk(w) && w.Next(s).WellFormed()
    requires |w.calls| <= |w.Next(s).calls|
    requires forall c :: 0 <= c < |w.calls| ==> w.Next(s).queue.NameOf(c) == w.queue.NameOf(c)
    ensures LocksOk(w.Next(s))
  {
    match s
    case GetLock(c) => GotLock(w, c);
    case SetupFails(c, _) => LockNeverTaken(w, s);
    case OtherTakes(_) => ElsewhereChanges(w, s);
    case OtherReleases(_) => ElsewhereChanges(w, s);
    case ResetFails(_) => OwnerGoesOn(w, s);
    case Start(_) => OwnerGoesOn(w, s);
    case Finish(_, _) => OwnerGoesOn(w, s);
    case RollBack(_) => OwnerGoesOn(w, s);
    case UnlockAll(_) => OwnerGoesOn(w, s);
    case ConnectionGone(_) => OwnerGoesOn(w, s);
    case _ => LocksUntouched(w, s);
  }

  lemma LockNeverTaken(w: World, s: Step)
    requires w.WellFormed() && LocksOk(w) && w.Enabled(s) && s.SetupFails?
    ensures LocksOk(w.Next(s))
  {
  }

  lemma ElsewhereChanges(w: World, s: Step)
    requires w.WellFormed() && LocksOk(w) && w.Enabled(s) && (s.OtherTakes? || s.OtherReleases?)
    ensures LocksOk(w.Next(s))
  {
  }

  lemma StepKeepsWorld(w: World, pool: nat, s: Step)
    requires WorldInv(w, pool) && w.Enabled(s)
    ensures WorldInv(w.Next(s), pool)
  {
    StepsKeepQueue(w, s);
    StepKeepsStages(w, s);
    StepKeepsLocks(w, s);
    StepKeepsConnections(w, pool, s);
  }

  // ---- Runs ----

  ghost predicate IsWorldRun(run: seq<World>, steps: seq<Step>, pool: nat) {
    && |run| == |steps| + 1 && run[0] == World(Queue(map[], [], []), [], map[], {}, {}, pool, 0, 0)
    && forall i {:trigger steps[i]} :: 0 <= i < |steps| ==>
         run[i].WellFormed() && run[i].Enabled(steps[i]) && run[i + 1] == run[i].Next(steps[i])
  }

  /**
   * In every interleaving each call has its turn exactly from its grant to its end, connections are conserved, and a
   * session holds its name's lock, and perhaps an open transaction, only until its cleanup.
   */
  lemma {:induction false} WorldRunsKeepInv(run: seq<World>, steps: seq<Step>, pool: nat, i: nat)
    requires IsWorldRun(run, steps, pool) && i < |run|
    ensures WorldInv(run[i], pool)
  {
    if i > 0 {
      WorldRunsKeepInv(run, steps, pool, i - 1);
      StepKeepsWorld(run[i - 1], pool, steps[i - 1]);
    }
  }

  // ---- Reservations that were given up ----

  /** How many of the first `n` steps give a reservation up. */
  function GivenUp(steps: seq<Step>, n: nat): nat
    requires n <= |steps|
  {
    if n == 0 then 0 else GivenUp(steps, n - 1) + if steps[n - 1].ReserveTimesOut? then 1 else 0
  }

  /** How many of the first `n` steps bring a connection for one that was given up, or its rejection. */
  function Answered(steps: seq<Step>, n: nat): nat
    requires n <= |steps|
  {
    if n == 0 then 0
    else Answered(steps, n - 1) + if steps[n - 1].LateArrives? || steps[n - 1].LateRejected? then 1 else 0
  }

  /** Every reservation that was given up is answered at most once; those pending are the others. */
  lemma {:induction false} LateReservationsAddUp(run: seq<World>, steps: seq<Step>, pool: nat, n: nat)
    requires IsWorldRun(run, steps, pool) && n < |run|
    ensures run[n].late == GivenUp(steps, n) - Answered(steps, n)
  {
    if n > 0 {
      LateReservationsAddUp(run, steps, pool, n - 1);
      assert run[n] == run[n - 1].Next(steps[n - 1]);
    }
  }

  lemma TicketStays(w: World, s: Step, c: CallId)
    requires w.WellFormed() && w.Enabled(s) && c < |w.calls|
    ensures c < |w.Next(s).queue.tickets| && w.Next(s).queue.tickets[c].bounded == w.queue.tickets[c].bounded
  {
  }

  /** The call began with a deadline, or without one. */
  lemma {:induction false} CallBegan(run: seq<World>, steps: seq<Step>, pool: nat, n: nat, c: CallId) returns (j: nat)
    requires IsWorldRun(run, steps, pool) && n < |run| && c < |run[n].calls| && run[n].WellFormed()
    ensures j < n && steps[j].Begin? && |run[j].calls| == c && steps[j].bounded == run[n].queue.tickets[c].bounded
  {
    assert n > 0 && run[n] == run[n - 1].Next(steps[n - 1]);
    if c < |run[n - 1].calls| {
      j := CallBegan(run, steps, pool, n - 1, c);
      TicketStays(run[n - 1], steps[n - 1], c);
    } else {
      j := n - 1;
    }
  }

  /** Only a call that began with a deadline gives up, its turn as well as its reservation. */
  lemma OnlyBoundedGivesUp(run: seq<World>, steps: seq<Step>, pool: nat, i: nat, c: CallId) returns (j: nat)
    requires IsWorldRun(run, steps, pool) && i < |steps| && (steps[i] == GiveUp(c) || steps[i] == ReserveTimesOut(c))
    ensures j < i && steps[j].Begin? && |run[j].calls| == c && steps[j].bounded
  {
    j := CallBegan(run, steps, pool, i, c);
  }

  lemma OneHolds(q: Queue, c: TicketId, d: TicketId)
    requires q.WellIndexed() && Ordered(q) && c < |q.tickets| && d < |q.tickets| && q.NameOf(c) == q.NameOf(d)
    requires q.tickets[c].phase == Holding && q.tickets[d].phase == Holding
    ensures c == d
  {
    OrderedPair(q, c, d);
  }

  lemma InTurnHolds(w: World, c: CallId)
    requires w.WellFormed() && StagesOk(w) && c < |w.calls| && InTurn(w.calls[c])
    ensures w.queue.tickets[c].phase == Holding
  {
    assert Matches(w.calls[c], w.queue.tickets[c].phase);
  }

  lemma SameTurn(w: World, pool: nat, c: CallId, d: CallId)
    requires WorldInv(w, pool) && c < |w.calls| && d < |w.calls| && InTurn(w.calls[c]) && InTurn(w.calls[d])
    requires w.queue.NameOf(c) == w.queue.NameOf(d)
    ensures c == d
  {
    InTurnHolds(w, c);
    InTurnHolds(w, d);
    OneHolds(w.queue, c, d);
  }

  /**
   * A function runs alone: its session holds its name's lock, no other process holds it, and no other call of the
   * process with that name has its turn, a connection or a reservation it still waits for.
   */
  lemma FunctionsRunAlone(run: seq<World>, steps: seq<Step>, pool: nat, i: nat, c: CallId, d: CallId)
    requires IsWorldRun(run, steps, pool) && i < |run| && c < |run[i].calls| && d < |run[i].calls| && c != d
    requires run[i].calls[c].Running?
    ensures run[i].WellFormed()
    ensures var name := run[i].queue.NameOf(c);
      && name in run[i].owner && run[i].owner[name] == c && name !in run[i].elsewhere && c !in run[i].open
      && (run[i].queue.NameOf(d) == name ==> run[i].calls[d].Queued? || run[i].calls[d].Ended?)
  {
    WorldRunsKeepInv(run, steps, pool, i);
    if run[i].queue.NameOf(d) == run[i].queue.NameOf(c) && InTurn(run[i].calls[d]) { SameTurn(run[i], pool, c, d); }
  }

  /** A burst on one name holds one pool connection, besides reservations that arrive after their call gave up. */
  lemma OneConnectionPerName(run: seq<World>, steps: seq<Step>, pool: nat, i: nat, c: CallId, d: CallId)
    requires IsWorldRun(run, steps, pool) && i < |run| && c < |run[i].calls| && d < |run[i].calls|
    requires Connected(run[i].calls[c]) && Connected(run[i].calls[d])
    ensures run[i].WellFormed() && (run[i].queue.NameOf(c) == run[i].queue.NameOf(d) ==> c == d)
  {
    WorldRunsKeepInv(run, steps, pool, i);
    if run[i].queue.NameOf(c) == run[i].queue.NameOf(d) { SameTurn(run[i], pool, c, d); }
  }

  // ---- Progress ----

  predicate Finished(w: World) {
    && (forall c :: 0 <= c < |w.calls| ==> w.calls[c].Ended?) && w.queue.names == map[] && w.late == 0 && w.handing == 0
  }

  /** A call with a connection can go on, or the lock it waits for is with another process, which can release it. */
  lemma ConnectedMoves(w: World, pool: nat, c: CallId) returns (s: Step)
    requires WorldInv(w, pool) && c < |w.calls| && Connected(w.calls[c])
    ensures w.Enabled(s) && s.Progresses()
  {
    var name := w.queue.NameOf(c);
    match w.calls[c]
    case Reserved =>
      if name in w.owner { SameTurn(w, pool, c, w.owner[name]); }
      s := if name in w.elsewhere then OtherReleases(name) else GetLock(c);
    case Locked => s := Start(c);
    case Running => s := Finish(c, false);
    case Cleaning => s := if c in w.open then RollBack(c) else UnlockAll(c);
    case Clean => s := Release(c);
  }

  /** A call that has its turn can go on, or some call with a connection can. */
  lemma InTurnMoves(w: World, pool: nat, c: CallId) returns (s: Step)
    requires WorldInv(w, pool) && pool >= 1 && c < |w.calls| && InTurn(w.calls[c])
    ensures w.Enabled(s) && s.Progresses()
  {
    if Connected(w.calls[c]) {
      s := ConnectedMoves(w, pool, c);
    } else if w.calls[c].Returned? {
      assert Matches(w.calls[c], w.queue.tickets[c].phase);
      s := PassOnTurn(c);
    } else if w.free > 0 {
      s := Reserve(c);
    } else {
      s := PoolMoves(w, pool);
    }
  }

  /** When the pool is empty, one of its connections is on its way back. */
  lemma PoolMoves(w: World, pool: nat) returns (s: Step)
    requires WorldInv(w, pool) && pool >= 1 && w.free == 0
    ensures w.Enabled(s) && s.Progresses()
  {
    SomeConnected(w.calls, |w.calls|);
    if w.handing > 0 {
      s := LateReturns;
    } else {
      var c :| 0 <= c < |w.calls| && Connected(w.calls[c]);
      s := ConnectedMoves(w, pool, c);
    }
  }

  /** The first in line for a name can go on. */
  lemma LineMoves(w: World, pool: nat, name: string) returns (s: Step)
    requires WorldInv(w, pool) && pool >= 1 && name in w.queue.names
    ensures w.Enabled(s) && s.Progresses()
  {
    var t := FirstInLine(w.queue, name);
    assert Matches(w.calls[t], w.queue.tickets[t].phase);
    match w.queue.tickets[t].phase
    case Waiting => s := GetTurn(t);
    case GaveUp => s := PassTurn(t);
    case Holding => s := InTurnMoves(w, pool, t);
  }

  /**
   * Nobody is stuck: with a pool of at least one connection, in every reachable state with unfinished work some step is
   * enabled that is not a failure, a new call, or another process taking a lock.
   */
  lemma NobodyIsStuck(run: seq<World>, steps: seq<Step>, pool: nat, i: nat) returns (s: Step)
    requires IsWorldRun(run, steps, pool) && pool >= 1 && i < |run| && !Finished(run[i])
    ensures run[i].WellFormed() && run[i].Enabled(s) && s.Progresses()
  {
    WorldRunsKeepInv(run, steps, pool, i);
    s := SomethingMoves(run[i], pool);
  }

  lemma SomethingMoves(w: World, pool: nat) returns (s: Step)
    requires WorldInv(w, pool) && pool >= 1 && !Finished(w)
    ensures w.Enabled(s) && s.Progresses()
  {
    if c :| 0 <= c < |w.calls| && !w.calls[c].Ended? {
      UnendedIsInLine(w, pool, c);
      s := LineMoves(w, pool, w.queue.NameOf(c));
    } else if name :| name in w.queue.names {
      s := LineMoves(w, pool, name);
    } else if w.handing > 0 {
      s := LateReturns;
    } else if w.free > 0 {
      s := LateArrives;
    } else {
      s := PoolMoves(w, pool);
    }
  }

  lemma UnendedIsInLine(w: World, pool: nat, c: CallId)
    requires WorldInv(w, pool) && c < |w.calls| && !w.calls[c].Ended?
    ensures w.queue.NameOf(c) in w.queue.names
  {
    assert Matches(w.calls[c], w.queue.tickets[c].phase);
    IdentityCheckIsRedundant(w.queue, c);
  }

  /** When all work is finished no lock is held, no transaction is open, and every connection is back in the pool. */
  lemma FinishedIsClean(run: seq<World>, steps: seq<Step>, pool: nat, i: nat)
    requires IsWorldRun(run, steps, pool) && i < |run| && Finished(run[i])
    ensures run[i].owner == map[] && run[i].open == {} && run[i].free == pool
  {
    WorldRunsKeepInv(run, steps, pool, i);
    SomeConnected(run[i].calls, |run[i].calls|);
  }

  // ---- The code of one call ----

  ghost predicate Reachable(w: World, pool: nat) {
    exists run, steps :: IsWorldRun(run, steps, pool) && run[|steps|] == w
  }

  lemma ReachableIsOk(w: World, pool: nat)
    requires Reachable(w, pool)
    ensures WorldInv(w, pool)
  {
    var run, steps :| IsWorldRun(run, steps, pool) && run[|steps|] == w;
    WorldRunsKeepInv(run, steps, pool, |steps|);
  }

  lemma ReachableGoesOn(w: World, pool: nat, s: Step)
    requires Reachable(w, pool) && w.WellFormed() && w.Enabled(s)
    ensures Reachable(w.Next(s), pool) && w.Next(s).WellFormed()
  {
    var run, steps :| IsWorldRun(run, steps, pool) && run[|steps|] == w;
    RunGoesOn(run, steps, pool, s);
    ReachableIsOk(w.Next(s), pool);
  }

  lemma RunGoesOn(run: seq<World>, steps: seq<Step>, pool: nat, s: Step)
    requires IsWorldRun(run, steps, pool) && run[|steps|].WellFormed() && run[|steps|].Enabled(s)
    ensures IsWorldRun(run + [run[|steps|].Next(s)], steps + [s], pool)
  {
    var next, more := run + [run[|steps|].Next(s)], steps + [s];
    forall i | 0 <= i < |more|
      ensures next[i].WellFormed() && next[i].Enabled(more[i]) && next[i + 1] == next[i].Next(more[i])
    {
      if i < |steps| { assert steps[i] == more[i]; }
    }
  }

  lemma LockedIsReady(w: World, pool: nat, c: CallId)
    requires Reachable(w, pool) && w.WellFormed() && w.At(c, Locked)
    ensures w.queue.NameOf(c) in w.owner && w.owner[w.queue.NameOf(c)] == c && c !in w.open
  {
    ReachableIsOk(w, pool);
  }

  datatype Reservation = InTime | Late | Rejected

  /** How the calls to the outside end; `goneAt` is the cleanup statement that finds the connection gone, if any. */
  datatype Ends = Ends(reservation: Reservation, setup: Option<Setup>, resetFails: bool, leavesOpen: bool,
                       goneAt: Option<nat>)

  /** What the function finds: whose turn it is, and the state of its session. */
  datatype Seen = Seen(turn: Phase, reserved: bool, holdsLock: bool, timeout: bool, open: bool)

  /** The session a call reserves, and the world of all calls while this one goes on and the others wait. */
  class Session {
    var reserved: bool
    var holdsLock: bool
    var timeout: bool
    var open: bool
    ghost var world: World

    constructor (w: World)
      ensures world == w && !reserved && !holdsLock && !timeout && !open
    {
      reserved, holdsLock, timeout, open, world := false, false, false, false, w;
    }

    /** The call is in this stage, and its session is as the world says. */
    ghost predicate Mirrors(c: CallId, pool: nat, stage: Stage)
      reads this
    {
      && Reachable(world, pool) && world.WellFormed() && world.At(c, stage) && (reserved <==> Connected(stage))
      && (holdsLock <==> world.queue.NameOf(c) in world.owner && world.owner[world.queue.NameOf(c)] == c)
      && (open <==> c in world.open)
      && (InTurn(stage) ==> world.queue.tickets[c].phase == Holding)
    }

    /** The world takes a step of the call. */
    ghost method Took(pool: nat, s: Step)
      requires Reachable(world, pool) && world.WellFormed() && world.Enabled(s)
      modifies this`world
      ensures world == old(world).Next(s) && Reachable(world, pool) && world.WellFormed()
    {
      ReachableGoesOn(world, pool, s);
      world := world.Next(s);
    }

    /** Waits for a connection; a reservation given up at the deadline stays pending. */
    method ReserveBefore(ghost c: CallId, ghost pool: nat, r: Reservation) returns (ok: bool)
      requires Mirrors(c, pool, Reserving) && (r.InTime? ==> world.free > 0) && (r.Late? ==> world.Bounded(c))
      modifies this
      ensures ok <==> r.InTime?
      ensures Mirrors(c, pool, if ok then Stage.Reserved else Returned) && timeout == old(timeout)
      ensures world == old(world).Next(match r case InTime => Reserve(c) case Late => ReserveTimesOut(c) case Rejected => ReserveRejected(c))
    {
      Took(pool, match r case InTime => Reserve(c) case Late => ReserveTimesOut(c) case Rejected => ReserveRejected(c));
      ok := r.InTime?;
      reserved := ok;
    }

    /** Sets the lock timeout, if there is a deadline, and takes the lock. */
    method TakeLock(ghost c: CallId, ghost pool: nat, bounded: bool, failure: Option<Setup>) returns (ok: bool)
      requires Mirrors(c, pool, Stage.Reserved) && !timeout && bounded == world.Bounded(c)
      requires failure.Some? && !failure.value.LockFails? ==> bounded
      requires failure.None? ==> world.queue.NameOf(c) !in world.elsewhere
      modifies this
      ensures ok <==> failure.None?
      ensures Mirrors(c, pool, if ok then Locked else Cleaning)
      ensures world.queue == old(world.queue)
    {
      if bounded && (failure.None? || failure.value.LockTimesOut? || failure.value.LockFails?) { timeout := true; }
      ok := failure.None?;
      if ok {
        NobodyElseOwns(world, pool, c);
        Took(pool, GetLock(c));
        holdsLock := true;
      } else {
        Took(pool, SetupFails(c, failure.value));
      }
    }

    /** Ends the lock timeout and runs the function. */
    method CallFunction(queue: SessionLocks, c: CallId, ghost pool: nat, resetFails: bool, leavesOpen: bool)
      returns (during: Option<Seen>)
      requires Mirrors(c, pool, Locked) && world.queue == queue.State()
      modifies this
      ensures during == if resetFails then None else Some(Seen(Holding, true, true, false, false))
      ensures Mirrors(c, pool, Cleaning) && world.queue == queue.State()
    {
      if resetFails {
        Took(pool, ResetFails(c));
        return None;
      }
      timeout := false;
      var seen := StartFunction(queue, c, pool);
      during := Some(seen);
      Took(pool, Step.Finish(c, leavesOpen));
      open := leavesOpen;
    }

    /** The function starts, and finds its session as it is by then. */
    method StartFunction(queue: SessionLocks, c: CallId, ghost pool: nat) returns (seen: Seen)
      requires Mirrors(c, pool, Locked) && world.queue == queue.State() && !timeout
      modifies this`world
      ensures seen == Seen(Holding, true, true, false, false)
      ensures Mirrors(c, pool, Running) && world.queue == queue.State() && c !in world.open
    {
      LockedIsReady(world, pool, c);
      Took(pool, Start(c));
      seen := Seen(queue.tickets[c].phase, reserved, holdsLock, timeout, open);
    }

    /** Probes for a transaction and rolls it back, resets the timeout, drops the locks, and gives the connection back. */
    method ReleaseReserved(ghost c: CallId, ghost pool: nat, goneAt: Option<nat>)
      requires Mirrors(c, pool, Cleaning)
      modifies this
      ensures Mirrors(c, pool, Returned) && !timeout && world.queue == old(world.queue)
    {
      var k := 0;
      while k < 3 && goneAt != Some(k)
        invariant 0 <= k <= 3 && Mirrors(c, pool, Cleaning) && world.queue == old(world.queue)
        invariant (k > 1 ==> !open) && (k > 2 ==> !timeout)
      {
        if k == 1 { EndTransaction(c, pool); }
        if k == 2 { timeout := false; }
        k := k + 1;
      }
      DropSession(c, pool, k == 3 && goneAt != Some(3));
      GiveBack(c, pool);
    }

    method EndTransaction(ghost c: CallId, ghost pool: nat)
      requires Mirrors(c, pool, Cleaning)
      modifies this
      ensures Mirrors(c, pool, Cleaning) && !open && timeout == old(timeout) && world.queue == old(world.queue)
    {
      if open {
        Took(pool, RollBack(c));
        open := false;
      }
    }

    method GiveBack(ghost c: CallId, ghost pool: nat)
      requires Mirrors(c, pool, Clean)
      modifies this
      ensures Mirrors(c, pool, Returned) && timeout == old(timeout) && world.queue == old(world.queue)
    {
      Took(pool, Step.Release(c));
      reserved := false;
    }

    /** Unlocks everything; or the connection is gone, and the server has ended its session with all it had. */
    method DropSession(ghost c: CallId, ghost pool: nat, unlocks: bool)
      requires Mirrors(c, pool, Cleaning) && (unlocks ==> !open && !timeout)
      modifies this
      ensures Mirrors(c, pool, Clean) && !timeout && world.queue == old(world.queue)
    {
      Took(pool, if unlocks then UnlockAll(c) else ConnectionGone(c));
      holdsLock, open := false, false;
      if !unlocks { timeout := false; }
    }

    /**
     * One call once it has its turn. Each statement is a step of the call in the world of all calls, so the call ends as
     * they do: its turn passed on, its connection given back without the lock, a timeout or a transaction. The function
     * runs exactly when every statement before it succeeds, and then in its turn and holding the lock.
     */
    method WithSessionAdvisoryLock(queue: SessionLocks, c: CallId, ghost pool: nat, bounded: bool, ends: Ends)
      returns (during: Option<Seen>)
      requires Mirrors(c, pool, Reserving) && !timeout && world.queue == queue.State() && bounded == world.Bounded(c)
      requires (ends.reservation.InTime? ==> world.free > 0) && (ends.reservation.Late? ==> bounded)
      requires ends.setup.Some? && !ends.setup.value.LockFails? ==> bounded
      requires ends.setup.None? ==> world.queue.NameOf(c) !in world.elsewhere
      modifies this, queue
      ensures Mirrors(c, pool, Ended) && !timeout && world.queue == queue.State()
      ensures queue.State() == old(queue.State()).Next(Done(c))
      ensures during ==
        if ends.reservation.InTime? && ends.setup.None? && !ends.resetFails then Some(Seen(Holding, true, true, false, false))
        else None
    {
      during := None;
      var arrived := ReserveBefore(c, pool, ends.reservation);
      if arrived {
        var locked := TakeLock(c, pool, bounded, ends.setup);
        if locked { during := CallFunction(queue, c, pool, ends.resetFails, ends.leavesOpen); }
        ReleaseReserved(c, pool, ends.goneAt);
      }
      PassOn(queue, c, pool);
    }

    method PassOn(queue: SessionLocks, c: CallId, ghost pool: nat)
      requires Mirrors(c, pool, Returned) && world.queue == queue.State()
      modifies this, queue
      ensures Mirrors(c, pool, Ended) && world.queue == queue.State() && timeout == old(timeout)
      ensures queue.State() == old(queue.State()).Next(Done(c))
    {
      Took(pool, PassOnTurn(c));
      queue.Finish(c);
    }
  }

  /** Within the process nobody else owns the lock of the call that has its turn. */
  lemma NobodyElseOwns(w: World, pool: nat, c: CallId)
    requires Reachable(w, pool) && w.WellFormed() && w.At(c, Stage.Reserved)
    ensures w.queue.NameOf(c) !in w.owner
  {
    ReachableIsOk(w, pool);
    if w.queue.NameOf(c) in w.owner { SameTurn(w, pool, c, w.owner[w.queue.NameOf(c)]); }
  }
}
