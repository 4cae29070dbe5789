/**
 * The in-process turn queue for session locks: per name a chain of promises, with waiters that give up at a deadline
 * and entries that are deleted with their last waiter. Any number of callers interleave; one action is one
 * uninterrupted stretch of JavaScript.
 */
module SessionLockQueue {
  import opened Common

  type TicketId = nat
  type EntryId = nat

  /** A promise of the chain: already resolved, or resolved once the previous one is and the ticket has passed. */
  datatype Promise = Resolved | After(previous: Promise, mine: TicketId)

  datatype Phase = Waiting | Holding | GaveUp | Passed

  /** One call of `take`: its entry, the promise it awaits, and whether it has a deadline. */
  datatype Ticket = Ticket(entry: EntryId, previous: Promise, bounded: bool, phase: Phase)

  /** The shared object of a name's waiters; `EntryId` is its identity. */
  datatype Turns = Turns(name: string, tail: Promise, size: int)

  datatype Action =
    | Take(name: string, bounded: bool)
    | Grant(t: TicketId)
    | TimeOut(t: TicketId)
    | PassOn(t: TicketId)
    | Done(t: TicketId)

  datatype Queue = Queue(names: map<string, EntryId>, entries: seq<Turns>, tickets: seq<Ticket>) {

    predicate Settled(p: Promise) {
      match p
      case Resolved => true
      case After(previous, mine) => Settled(previous) && mine < |tickets| && tickets[mine].phase == Passed
    }

    predicate WellIndexed() {
      && (forall t :: 0 <= t < |tickets| ==> tickets[t].entry < |entries|)
      && (forall n <- names :: names[n] < |entries|)
    }

    function NameOf(t: TicketId): string
      requires WellIndexed() && t < |tickets|
    {
      entries[tickets[t].entry].name
    }

    function Taken(name: string, bounded: bool): Queue
      requires WellIndexed()
    {
      var t := |tickets|;
      var e := if name in names then names[name] else |entries|;
      var previous := if name in names then entries[e].tail else Resolved;
      var size := if name in names then entries[e].size else 0;
      var turns := Turns(name, After(previous, t), size + 1);
      Queue(names[name := e], if name in names then entries[e := turns] else entries + [turns],
            tickets + [Ticket(e, previous, bounded, Waiting)])
    }

    function WithPhase(t: TicketId, phase: Phase): Queue
      requires t < |tickets|
    {
      this.(tickets := tickets[t := tickets[t].(phase := phase)])
    }

    /** The ticket's `done`: it passes, and the last one of its entry deletes the entry if it is still the name's. */
    function Finished(t: TicketId): Queue
      requires WellIndexed() && t < |tickets|
    {
      var e := tickets[t].entry;
      var turns := entries[e].(size := entries[e].size - 1);
      WithPhase(t, Passed).(
        entries := entries[e := turns],
        names := if turns.size == 0 && turns.name in names && names[turns.name] == e then names - {turns.name} else names)
    }

    /** Whether the action can happen now; a second call of `done` can, and finds its ticket passed. */
    predicate Enabled(a: Action) {
      match a
      case Take(_, _) => true
      case Grant(t) => t < |tickets| && tickets[t].phase == Waiting && Settled(tickets[t].previous)
      case TimeOut(t) => t < |tickets| && tickets[t].phase == Waiting && tickets[t].bounded
      case PassOn(t) => t < |tickets| && tickets[t].phase == GaveUp && Settled(tickets[t].previous)
      case Done(t) => t < |tickets| && (tickets[t].phase == Holding || tickets[t].phase == Passed)
    }

    function Next(a: Action): Queue
      requires WellIndexed() && Enabled(a)
    {
      match a
      case Take(name, bounded) => Taken(name, bounded)
      case Grant(t) => WithPhase(t, Holding)
      case TimeOut(t) => WithPhase(t, GaveUp)
      case PassOn(t) => Finished(t)
      case Done(t) => if tickets[t].phase == Passed then this else Finished(t)
    }
  }

  class SessionLocks {
    var names: map<string, EntryId>
    var entries: seq<Turns>
    var tickets: seq<Ticket>

    ghost function State(): Queue
      reads this
    {
      Queue(names, entries, tickets)
    }

    constructor ()
      ensures State() == Queue(map[], [], [])
    {
      names, entries, tickets := map[], [], [];
    }

    /** The synchronous part of `take`, up to its wait. */
    method Take(name: string, bounded: bool) returns (t: TicketId)
      requires State().WellIndexed()
      modifies this
      ensures t == |old(tickets)|
      ensures State() == old(State()).Next(Action.Take(name, bounded))
    {
      t := |tickets|;
      var e;
      if name in names {
        e := names[name];
      } else {
        e := |entries|;
        entries := entries + [Turns(name, Resolved, 0)];
      }
      names := names[name := e];
      var previous := entries[e].tail;
      entries := entries[e := entries[e].(tail := After(previous, t))];
      entries := entries[e := entries[e].(size := entries[e].size + 1, name := name)];
      tickets := tickets + [Ticket(e, previous, bounded, Waiting)];
    }

    /** The wait is over: the awaited promise resolved first, or the timer did. */
    method Resume(t: TicketId, timedOut: bool)
      requires State().WellIndexed()
      requires State().Enabled(if timedOut then TimeOut(t) else Grant(t))
      modifies this
      ensures State() == old(State()).Next(if timedOut then TimeOut(t) else Grant(t))
    {
      tickets := tickets[t := tickets[t].(phase := if timedOut then GaveUp else Holding)];
    }

    /** `done`, called by a holder any number of times, and by the chain for a waiter that gave up. */
    method Finish(t: TicketId)
      requires State().WellIndexed()
      requires State().Enabled(Done(t)) || State().Enabled(PassOn(t))
      modifies this
      ensures State() == old(State()).Next(if old(State()).Enabled(Done(t)) then Done(t) else PassOn(t))
    {
      if tickets[t].phase == Passed { return; }
      tickets := tickets[t := tickets[t].(phase := Passed)];
      var e := tickets[t].entry;
      var turns := entries[e];
      entries := entries[e := turns.(size := turns.size - 1)];
      if turns.size - 1 == 0 && turns.name in names && names[turns.name] == e {
        names := names - {turns.name};
      }
    }
  }

  // ---- The invariant of every run ----

  /** The chain an entry's tickets among the first `n` form. */
  function Chain(tickets: seq<Ticket>, e: EntryId, n: nat): Promise
    requires n <= |tickets|
  {
    if n == 0 then Resolved
    else if tickets[n - 1].entry == e then After(Chain(tickets, e, n - 1), n - 1)
    else Chain(tickets, e, n - 1)
  }

  /** How many of the entry's tickets among the first `n` have not passed. */
  function Live(tickets: seq<Ticket>, e: EntryId, n: nat): nat
    requires n <= |tickets|
  {
    if n == 0 then 0
    else Live(tickets, e, n - 1) + if tickets[n - 1].entry == e && tickets[n - 1].phase != Passed then 1 else 0
  }

  predicate Acted(p: Phase) { p == Holding || p == Passed }

  /** Every ticket awaits the chain of the earlier tickets of its entry, and the entry's tail is the whole chain. */
  ghost predicate Linked(q: Queue) {
    && (forall t :: 0 <= t < |q.tickets| ==> q.tickets[t].previous == Chain(q.tickets, q.tickets[t].entry, t))
    && (forall e :: 0 <= e < |q.entries| ==> q.entries[e].tail == Chain(q.tickets, e, |q.tickets|))
  }

  ghost predicate Counted(q: Queue) {
    forall e :: 0 <= e < |q.entries| ==> q.entries[e].size == Live(q.tickets, e, |q.tickets|)
  }

  /** A name is in the map exactly with the one entry of that name somebody still needs. */
  ghost predicate Named(q: Queue)
    requires q.WellIndexed()
  {
    && (forall n <- q.names :: q.entries[q.names[n]].name == n && q.entries[q.names[n]].size > 0)
    && (forall e :: 0 <= e < |q.entries| && q.entries[e].size > 0 ==>
          q.entries[e].name in q.names && q.names[q.entries[e].name] == e)
  }

  /** What an earlier ticket `s` of a name owes a later ticket `t`. */
  predicate Before(s: Ticket, t: Ticket) {
    s.entry <= t.entry && (s.entry < t.entry || Acted(t.phase) ==> s.phase == Passed)
  }

  ghost predicate Ordered(q: Queue)
    requires q.WellIndexed()
  {
    forall s, t :: 0 <= s < t < |q.tickets| && q.NameOf(s) == q.NameOf(t) ==> Before(q.tickets[s], q.tickets[t])
  }

  ghost predicate Inv(q: Queue) {
    q.WellIndexed() && Linked(q) && Counted(q) && Named(q) && Ordered(q)
  }

  lemma {:induction false} ChainDependsOnEntries(a: seq<Ticket>, b: seq<Ticket>, e: EntryId, n: nat)
    requires n <= |a| && n <= |b| && forall i :: 0 <= i < n ==> a[i].entry == b[i].entry
    ensures Chain(a, e, n) == Chain(b, e, n)
  {
    if n > 0 { ChainDependsOnEntries(a, b, e, n - 1); }
  }

  lemma {:induction false} LiveDependsOnPhases(a: seq<Ticket>, b: seq<Ticket>, e: EntryId, n: nat)
    requires n <= |a| && n <= |b|
    requires forall i :: 0 <= i < n ==> a[i].entry == b[i].entry && (a[i].phase == Passed <==> b[i].phase == Passed)
    ensures Live(a, e, n) == Live(b, e, n)
  {
    if n > 0 { LiveDependsOnPhases(a, b, e, n - 1); }
  }

  /** A ticket that passes takes one from its entry's count and from no other. */
  lemma {:induction false} LiveAfterPassing(a: seq<Ticket>, t: TicketId, e: EntryId, n: nat)
    requires t < n <= |a| && a[t].phase != Passed
    ensures var b := a[t := a[t].(phase := Passed)];
      Live(b, e, n) == Live(a, e, n) - if a[t].entry == e then 1 else 0
  {
    var b := a[t := a[t].(phase := Passed)];
    if n - 1 == t { LiveDependsOnPhases(a, b, e, t); } else { LiveAfterPassing(a, t, e, n - 1); }
  }

  lemma {:induction false} LiveWitness(a: seq<Ticket>, e: EntryId, n: nat)
    requires n <= |a|
    ensures Live(a, e, n) > 0 <==> exists t :: 0 <= t < n && a[t].entry == e && a[t].phase != Passed
  {
    if n > 0 { LiveWitness(a, e, n - 1); }
  }

  /** The awaited promise is settled exactly when every earlier ticket of the entry has passed. */
  lemma {:induction false} ChainSettled(q: Queue, e: EntryId, n: nat)
    requires n <= |q.tickets|
    ensures q.Settled(Chain(q.tickets, e, n)) <==>
      forall s :: 0 <= s < n && q.tickets[s].entry == e ==> q.tickets[s].phase == Passed
  {
    if n > 0 { ChainSettled(q, e, n - 1); }
  }

  lemma TakenTails(q: Queue, name: string, bounded: bool, e: EntryId)
    requires q.WellIndexed() && Linked(q) && e < |q.Taken(name, bounded).entries|
    ensures var r := q.Taken(name, bounded); r.entries[e].tail == Chain(r.tickets, e, |q.tickets| + 1)
  {
    var r, n := q.Taken(name, bounded), |q.tickets|;
    ChainDependsOnEntries(r.tickets, q.tickets, e, n);
    if e == |q.entries| { NoTicketsYet(q.tickets, e, n); }
  }

  lemma TakenAwaits(q: Queue, name: string, bounded: bool, t: TicketId)
    requires q.WellIndexed() && Linked(q) && t <= |q.tickets|
    ensures var r := q.Taken(name, bounded); r.tickets[t].previous == Chain(r.tickets, r.tickets[t].entry, t)
  {
    var r, n := q.Taken(name, bounded), |q.tickets|;
    ChainDependsOnEntries(r.tickets, q.tickets, r.tickets[t].entry, t);
    if t == n { NoTicketsYet(q.tickets, |q.entries|, n); }
  }

  lemma TakenLinks(q: Queue, name: string, bounded: bool)
    requires q.WellIndexed() && Linked(q)
    ensures q.Taken(name, bounded).WellIndexed() && Linked(q.Taken(name, bounded))
  {
    var r := q.Taken(name, bounded);
    forall t: TicketId | t < |r.tickets| ensures r.tickets[t].previous == Chain(r.tickets, r.tickets[t].entry, t) {
      TakenAwaits(q, name, bounded, t);
    }
    forall e: EntryId | e < |r.entries| ensures r.entries[e].tail == Chain(r.tickets, e, |r.tickets|) {
      TakenTails(q, name, bounded, e);
    }
  }

  lemma TakenCounts(q: Queue, name: string, bounded: bool)
    requires q.WellIndexed() && Counted(q)
    ensures Counted(q.Taken(name, bounded))
  {
    var r, n := q.Taken(name, bounded), |q.tickets|;
    forall f ensures Live(r.tickets, f, n) == Live(q.tickets, f, n) {
      LiveDependsOnPhases(r.tickets, q.tickets, f, n);
    }
    NoTicketsYet(q.tickets, |q.entries|, n);
  }

  lemma TakenOrders(q: Queue, name: string, bounded: bool)
    requires q.WellIndexed() && Counted(q) && Named(q) && Ordered(q) && q.Taken(name, bounded).WellIndexed()
    ensures Ordered(q.Taken(name, bounded))
  {
    var r, n := q.Taken(name, bounded), |q.tickets|;
    forall s, t | 0 <= s < t < |r.tickets| && r.NameOf(s) == r.NameOf(t) ensures Before(r.tickets[s], r.tickets[t]) {
      assert q.NameOf(s) == r.NameOf(s);
      if t < n {
        assert q.NameOf(t) == r.NameOf(t);
      } else if name in q.names {
        OldTicketsOfName(q, s, q.names[name]);
      } else {
        LiveWitness(q.tickets, q.tickets[s].entry, n);
      }
    }
  }

  lemma TakenKeepsInv(q: Queue, name: string, bounded: bool)
    requires Inv(q)
    ensures Inv(q.Taken(name, bounded))
  {
    TakenLinks(q, name, bounded);
    TakenCounts(q, name, bounded);
    TakenOrders(q, name, bounded);
  }

  lemma {:induction false} NoTicketsYet(tickets: seq<Ticket>, e: EntryId, n: nat)
    requires n <= |tickets| && forall t :: 0 <= t < |tickets| ==> tickets[t].entry < e
    ensures Chain(tickets, e, n) == Resolved && Live(tickets, e, n) == 0
  {
    if n > 0 { NoTicketsYet(tickets, e, n - 1); }
  }

  lemma OrderedPair(q: Queue, s: TicketId, t: TicketId)
    requires q.WellIndexed() && Ordered(q) && s < |q.tickets| && t < |q.tickets| && q.NameOf(s) == q.NameOf(t)
    ensures s < t ==> Before(q.tickets[s], q.tickets[t])
    ensures t < s ==> Before(q.tickets[t], q.tickets[s])
  {
  }

  lemma UnpassedTicket(q: Queue, e: EntryId) returns (t: TicketId)
    requires q.WellIndexed() && Counted(q) && e < |q.entries| && q.entries[e].size > 0
    ensures t < |q.tickets| && q.tickets[t].entry == e && q.tickets[t].phase != Passed
  {
    LiveWitness(q.tickets, e, |q.tickets|);
    t :| t < |q.tickets| && q.tickets[t].entry == e && q.tickets[t].phase != Passed;
  }

  /** A ticket of the name is in the current entry, or in an older one that is finished. */
  lemma OldTicketsOfName(q: Queue, s: TicketId, e: EntryId)
    requires q.WellIndexed() && Counted(q) && Named(q) && Ordered(q)
    requires s < |q.tickets| && q.NameOf(s) in q.names && q.names[q.NameOf(s)] == e
    ensures q.tickets[s].entry <= e
    ensures q.tickets[s].entry < e ==> q.tickets[s].phase == Passed
  {
    var t := UnpassedTicket(q, e);
    OrderedPair(q, s, t);
  }

  /** Phases change; entries of tickets and chains do not. */
  lemma PhaseLinks(q: Queue, t: TicketId, phase: Phase)
    requires q.WellIndexed() && Linked(q) && t < |q.tickets|
    ensures Linked(q.WithPhase(t, phase))
  {
    var r := q.WithPhase(t, phase);
    forall e, n: nat | n <= |q.tickets| ensures Chain(r.tickets, e, n) == Chain(q.tickets, e, n) {
      ChainDependsOnEntries(r.tickets, q.tickets, e, n);
    }
  }

  /** A ticket that holds, passes or gives up in its turn keeps the order of its name. */
  lemma PhaseOrders(q: Queue, t: TicketId, phase: Phase)
    requires q.WellIndexed() && Linked(q) && Ordered(q) && t < |q.tickets| && q.tickets[t].phase != Passed
    requires Acted(phase) ==> q.tickets[t].phase == Holding || q.Settled(q.tickets[t].previous)
    ensures Ordered(q.WithPhase(t, phase))
  {
    var r := q.WithPhase(t, phase);
    ChainSettled(q, q.tickets[t].entry, t);
    forall s, u | 0 <= s < u < |r.tickets| && r.NameOf(s) == r.NameOf(u) ensures Before(r.tickets[s], r.tickets[u]) {
      assert q.NameOf(s) == q.NameOf(u) && Before(q.tickets[s], q.tickets[u]);
    }
  }

  lemma PhaseKeepsInv(q: Queue, t: TicketId, phase: Phase)
    requires Inv(q) && t < |q.tickets| && q.tickets[t].phase != Passed && phase != Passed
    requires phase == Holding ==> q.Settled(q.tickets[t].previous)
    ensures Inv(q.WithPhase(t, phase))
  {
    var r := q.WithPhase(t, phase);
    PhaseLinks(q, t, phase);
    PhaseOrders(q, t, phase);
    forall e ensures Live(r.tickets, e, |q.tickets|) == Live(q.tickets, e, |q.tickets|) {
      LiveDependsOnPhases(r.tickets, q.tickets, e, |q.tickets|);
    }
  }

  lemma FinishedCounts(q: Queue, t: TicketId)
    requires q.WellIndexed() && Counted(q) && t < |q.tickets| && q.tickets[t].phase != Passed
    ensures Counted(q.Finished(t)) && q.entries[q.tickets[t].entry].size > 0
  {
    forall e ensures Live(q.Finished(t).tickets, e, |q.tickets|)
                  == Live(q.tickets, e, |q.tickets|) - if q.tickets[t].entry == e then 1 else 0 {
      LiveAfterPassing(q.tickets, t, e, |q.tickets|);
    }
    LiveWitness(q.tickets, q.tickets[t].entry, |q.tickets|);
  }

  lemma FinishedNames(q: Queue, t: TicketId)
    requires q.WellIndexed() && Named(q) && t < |q.tickets| && q.entries[q.tickets[t].entry].size > 0
    ensures q.Finished(t).WellIndexed() && Named(q.Finished(t))
  {
  }

  lemma FinishedKeepsInv(q: Queue, t: TicketId)
    requires Inv(q) && t < |q.tickets| && q.tickets[t].phase != Passed
    requires q.tickets[t].phase == Holding || q.Settled(q.tickets[t].previous)
    ensures Inv(q.Finished(t))
  {
    var r, p := q.Finished(t), q.WithPhase(t, Passed);
    FinishedCounts(q, t);
    FinishedNames(q, t);
    PhaseLinks(q, t, Passed);
    PhaseOrders(q, t, Passed);
    assert r.tickets == p.tickets;
    assert forall e :: 0 <= e < |q.entries| ==> r.entries[e].tail == p.entries[e].tail && r.entries[e].name == p.entries[e].name;
    assert Ordered(r) by {
      forall s, u | 0 <= s < u < |r.tickets| && r.NameOf(s) == r.NameOf(u) ensures Before(r.tickets[s], r.tickets[u]) {
        assert p.NameOf(s) == p.NameOf(u);
      }
    }
  }

  lemma NextKeepsInv(q: Queue, a: Action)
    requires Inv(q) && q.Enabled(a)
    ensures Inv(q.Next(a))
  {
    match a
    case Take(name, bounded) => TakenKeepsInv(q, name, bounded);
    case Grant(t) => PhaseKeepsInv(q, t, Holding);
    case TimeOut(t) => PhaseKeepsInv(q, t, GaveUp);
    case PassOn(t) => FinishedKeepsInv(q, t);
    case Done(t) => if q.tickets[t].phase != Passed { FinishedKeepsInv(q, t); }
  }

  /** `run` is a run of the queue from empty. */
  ghost predicate IsRun(run: seq<Queue>, actions: seq<Action>) {
    && |run| == |actions| + 1
    && run[0] == Queue(map[], [], [])
    && forall i {:trigger actions[i]} :: 0 <= i < |actions| ==>
         run[i].WellIndexed() && run[i].Enabled(actions[i]) && run[i + 1] == run[i].Next(actions[i])
  }

  lemma {:induction false} RunsKeepInv(run: seq<Queue>, actions: seq<Action>, i: nat)
    requires IsRun(run, actions) && i < |run|
    ensures Inv(run[i])
  {
    if i > 0 {
      RunsKeepInv(run, actions, i - 1);
      NextKeepsInv(run[i - 1], actions[i - 1]);
    }
  }

  // ---- What callers rely on ----

  /**
   * Turns are taken in arrival order, whatever was deleted and created again in between: when a ticket holds or has
   * passed, every earlier ticket of its name has passed, so a waiter that gave up lets nobody overtake.
   */
  lemma ArrivalOrder(run: seq<Queue>, actions: seq<Action>, i: nat, s: TicketId, t: TicketId)
    requires IsRun(run, actions) && i < |run| && s < t < |run[i].tickets|
    requires run[i].WellIndexed() && run[i].NameOf(s) == run[i].NameOf(t) && Acted(run[i].tickets[t].phase)
    ensures run[i].tickets[s].phase == Passed
  {
    RunsKeepInv(run, actions, i);
  }

  /** At most one holder per name. */
  lemma MutualExclusion(run: seq<Queue>, actions: seq<Action>, i: nat, s: TicketId, t: TicketId)
    requires IsRun(run, actions) && i < |run| && s < |run[i].tickets| && t < |run[i].tickets|
    requires run[i].WellIndexed() && run[i].NameOf(s) == run[i].NameOf(t)
    requires run[i].tickets[s].phase == Holding && run[i].tickets[t].phase == Holding
    ensures s == t
  {
    RunsKeepInv(run, actions, i);
    if s < t { ArrivalOrder(run, actions, i, s, t); } else if t < s { ArrivalOrder(run, actions, i, t, s); }
  }

  /** An entry exists exactly while some ticket of its name has not passed. */
  lemma EntryExistsWhileNeeded(run: seq<Queue>, actions: seq<Action>, i: nat, name: string)
    requires IsRun(run, actions) && i < |run|
    ensures run[i].WellIndexed()
    ensures name in run[i].names <==>
      exists t :: 0 <= t < |run[i].tickets| && run[i].NameOf(t) == name && run[i].tickets[t].phase != Passed
  {
    RunsKeepInv(run, actions, i);
    var q := run[i];
    if name in q.names {
      LiveWitness(q.tickets, q.names[name], |q.tickets|);
    } else {
      forall t | 0 <= t < |q.tickets| && q.NameOf(t) == name ensures q.tickets[t].phase == Passed {
        LiveWitness(q.tickets, q.tickets[t].entry, |q.tickets|);
      }
    }
  }

  /** While an entry exists somebody holds its turn, or the turn can be granted or passed on at once. */
  lemma SomebodyMoves(run: seq<Queue>, actions: seq<Action>, i: nat, name: string) returns (t: TicketId)
    requires IsRun(run, actions) && i < |run| && name in run[i].names
    ensures run[i].WellIndexed() && t < |run[i].tickets| && run[i].NameOf(t) == name
    ensures run[i].tickets[t].phase == Holding || run[i].Enabled(Grant(t)) || run[i].Enabled(PassOn(t))
  {
    RunsKeepInv(run, actions, i);
    t := FirstInLine(run[i], name);
  }

  lemma FirstInLine(q: Queue, name: string) returns (t: TicketId)
    requires Inv(q) && name in q.names
    ensures t < |q.tickets| && q.NameOf(t) == name && q.tickets[t].phase != Passed
    ensures q.Settled(q.tickets[t].previous)
  {
    var e := q.names[name];
    var u := UnpassedTicket(q, e);
    t := EarliestUnpassed(q, e, u);
    ChainSettled(q, e, t);
  }

  lemma {:induction false} EarliestUnpassed(q: Queue, e: EntryId, u: TicketId) returns (t: TicketId)
    requires u < |q.tickets| && q.tickets[u].entry == e && q.tickets[u].phase != Passed
    ensures t <= u && q.tickets[t].entry == e && q.tickets[t].phase != Passed
    ensures forall s :: 0 <= s < t && q.tickets[s].entry == e ==> q.tickets[s].phase == Passed
  {
    if s :| 0 <= s < u && q.tickets[s].entry == e && q.tickets[s].phase != Passed {
      t := EarliestUnpassed(q, e, s);
    } else {
      t := u;
    }
  }

  /** Every further call of `done` leaves the queue as it is, however often the name came and went since. */
  lemma DoneTwiceIsDoneOnce(q: Queue, t: TicketId)
    requires Inv(q) && t < |q.tickets| && q.tickets[t].phase == Holding
    ensures var once := q.Next(Done(t)); once.Enabled(Done(t)) && once.WellIndexed() && once.Next(Done(t)) == once
  {
    NextKeepsInv(q, Done(t));
  }

  /** The check that the entry is still the name's own never fails: only an entry nobody waits in is replaced. */
  lemma IdentityCheckIsRedundant(q: Queue, t: TicketId)
    requires Inv(q) && t < |q.tickets| && q.tickets[t].phase != Passed
    ensures q.NameOf(t) in q.names && q.names[q.NameOf(t)] == q.tickets[t].entry
  {
    LiveWitness(q.tickets, q.tickets[t].entry, |q.tickets|);
  }
}
