/** One worker process: what it asks of the queue for each job, how many jobs it runs, and how long its leases last. */
module Worker {
  import opened Common
  import opened Jobs
  import opened JobRuns

  // ---- One execution ----

  /** How a handler ends: it returns, or throws one of the errors the executor tells apart. */
  datatype HandlerEnd = Returns | ThrowsContinue(continuation: Option<Value>) | ThrowsTerminal | ThrowsNonRetryable | ThrowsOther

  /** A queue call of an execution. */
  datatype Call = CallComplete | CallDefer(continuation: Option<Value>) | CallFail(retryable: bool, deadLetter: bool)

  function StepOf(c: Call, id: JobId, worker: string, error: string, now: int): Step {
    match c
    case CallComplete => Complete(id, worker)
    case CallDefer(continuation) => Step.Defer(id, worker, continuation, now)
    case CallFail(retryable, deadLetter) => Fail(id, worker, error, retryable, deadLetter, now)
  }

  /** The call that records an error of the handler, or of a call that raised. */
  function RecordCall(end: HandlerEnd): Call {
    CallFail(!end.ThrowsTerminal? && !end.ThrowsNonRetryable?, !end.ThrowsTerminal?)
  }

  /** The calls of an execution; `firstRaises` says whether its first call reported an error, whatever it did. */
  function CallsOf(job: Job, known: bool, end: HandlerEnd, firstRaises: bool): seq<Call> {
    if !PayloadIdentityMatches(job) || !known then
      [CallFail(false, true)] + if firstRaises then [RecordCall(ThrowsOther)] else []
    else match end
      case Returns => [CallComplete] + if firstRaises then [RecordCall(ThrowsOther)] else []
      case ThrowsContinue(continuation) => [CallDefer(continuation)]
      case _ => [RecordCall(end)]
  }

  // ---- What becomes of the job ----

  ghost function IssueOne(t: Table, c: Call, id: JobId, worker: string, error: string, now: int): (next: Table)
    requires Counted(t)
    ensures Counted(next)
  {
    Next(t, StepOf(c, id, worker, error, now))
  }

  /** The table after the calls of an execution, each of which the queue was asked once. */
  ghost function Issued(t: Table, calls: seq<Call>, id: JobId, worker: string, error: string, now: int): (next: Table)
    requires Counted(t)
    ensures Counted(next)
  {
    if calls == [] then t
    else IssueOne(Issued(t, calls[..|calls| - 1], id, worker, error, now), calls[|calls| - 1], id, worker, error, now)
  }

  ghost predicate IsHeldJob(t: Table, id: JobId, worker: string, job: Job) {
    Inv(t) && id in t && t[id] == job && job.status == Running && job.lockedBy == Some(worker)
  }

  /** An ordinary error leaves the job waiting while it has attempts left, and dead at the last. */
  predicate IsTriedAgain(was: Job, job: Job) {
    if was.attempts + 1 < was.maxAttempts then job.status == if "continuation" in was.payload then Continuing else Pending
    else job.status == Dead
  }

  /** How the job of an execution ends. */
  predicate IsEndOf(was: Job, known: bool, end: HandlerEnd, job: Job) {
    if !PayloadIdentityMatches(was) || !known then job.status == Dead
    else match end
      case Returns => job.status == Succeeded
      case ThrowsContinue(continuation) =>
        job.status == Continuing && job.attempts == was.attempts
        && "continuation" in job.payload && (continuation.Some? ==> job.payload["continuation"] == continuation.value)
      case ThrowsTerminal => job.status == Failed
      case ThrowsNonRetryable => job.status == Dead
      case ThrowsOther => IsTriedAgain(was, job)
  }

  /** Wherever the job is held, the calls end it as its handler did, unless an index refuses to put it back. */
  ghost predicate End(calls: seq<Call>, was: Job, known: bool, end: HandlerEnd) {
    forall t: Table, id: JobId, worker: string, error: string, now: int {:trigger Issued(t, calls, id, worker, error, now)} ::
      IsHeldJob(t, id, worker, was) && !Collides(t, id) ==>
        var next := Issued(t, calls, id, worker, error, now); id in next && IsEndOf(was, known, end, next[id])
  }

  /** Wherever the job is held, the calls have it tried again, unless an index refuses. */
  ghost predicate TryAgain(calls: seq<Call>, was: Job) {
    forall t: Table, id: JobId, worker: string, error: string, now: int {:trigger Issued(t, calls, id, worker, error, now)} ::
      IsHeldJob(t, id, worker, was) && !Collides(t, id) ==>
        var next := Issued(t, calls, id, worker, error, now); id in next && IsTriedAgain(was, next[id])
  }

  lemma OneCall(t: Table, c: Call, id: JobId, worker: string, error: string, now: int)
    requires Counted(t)
    ensures Issued(t, [c], id, worker, error, now) == IssueOne(t, c, id, worker, error, now)
  {
    assert [c][..0] == [];
  }

  lemma FailedCallIs(t: Table, id: JobId, worker: string, retryable: bool, deadLetter: bool, error: string, now: int)
    requires id in t && IsHeldJob(t, id, worker, t[id]) && !Collides(t, id)
    ensures var was, next := t[id], IssueOne(t, CallFail(retryable, deadLetter), id, worker, error, now);
      && id in next
      && next[id].status == if retryable && was.attempts + 1 < was.maxAttempts
           then (if "continuation" in was.payload then Continuing else Pending) else if deadLetter then Dead else Failed
  {
    FailureRefusedIff(t, id, worker, error, retryable, deadLetter, now);
  }

  lemma CallEnds(t: Table, id: JobId, worker: string, c: Call, known: bool, end: HandlerEnd, error: string, now: int)
    requires id in t && IsHeldJob(t, id, worker, t[id]) && !Collides(t, id)
    requires var calls := CallsOf(t[id], known, end, false); |calls| == 1 && c == calls[0]
    ensures var next := IssueOne(t, c, id, worker, error, now); id in next && IsEndOf(t[id], known, end, next[id])
  {
    if c.CallFail? { FailedCallIs(t, id, worker, c.retryable, c.deadLetter, error, now); }
  }

  lemma ExecutionEnds(job: Job, known: bool, end: HandlerEnd)
    ensures End(CallsOf(job, known, end, false), job, known, end)
  {
    var calls := CallsOf(job, known, end, false);
    forall t: Table, id: JobId, worker: string, error: string, now: int | IsHeldJob(t, id, worker, job) && !Collides(t, id)
      ensures var next := Issued(t, calls, id, worker, error, now); id in next && IsEndOf(job, known, end, next[id])
    {
      OneCall(t, calls[0], id, worker, error, now);
      CallEnds(t, id, worker, calls[0], known, end, error, now);
    }
  }

  lemma ErrorIsTriedAgain(job: Job)
    ensures TryAgain([RecordCall(ThrowsOther)], job)
  {
    var c := RecordCall(ThrowsOther);
    forall t: Table, id: JobId, worker: string, error: string, now: int | IsHeldJob(t, id, worker, job) && !Collides(t, id)
      ensures var next := Issued(t, [c], id, worker, error, now); id in next && IsTriedAgain(job, next[id])
    {
      OneCall(t, c, id, worker, error, now);
      FailedCallIs(t, id, worker, true, true, error, now);
    }
  }

  class Execution {
    var calls: seq<Call>
    var renewing: bool
    /** How often renewal was switched on. */
    var renewals: nat
    var handled: bool

    constructor ()
      ensures calls == [] && !renewing && renewals == 0 && !handled
    {
      calls, renewing, renewals, handled := [], false, 0, false;
    }

    /**
     * The executor. A rejected job is never handled; every path leaves the lease renewal off, and a handled job was
     * renewed while its handler ran. The calls end the job as its handler did. When the first one reports an error that
     * the executor catches, it may have taken effect, or the second has the job tried again.
     */
    method ExecuteJob(job: Job, known: bool, end: HandlerEnd, firstRaises: bool)
      requires calls == [] && !renewing && renewals == 0 && !handled
      modifies this
      ensures calls == CallsOf(job, known, end, firstRaises)
      ensures !renewing
      ensures handled <==> PayloadIdentityMatches(job) && known
      ensures renewals == if handled then 1 else 0
      ensures |calls| == if firstRaises && (!handled || end.Returns?) then 2 else 1
      ensures End(calls[..1], job, known, end)
      ensures |calls| == 2 ==> TryAgain(calls[1..], job)
    {
      ExecutionEnds(job, known, end);
      ErrorIsTriedAgain(job);
      FirstCallsAre(job, known, end, firstRaises);
      var thrown := ThrowsOther;
      if !PayloadIdentityMatches(job) || !known {
        calls := calls + [CallFail(false, true)];
        if !firstRaises { return; }
      } else {
        renewing, renewals := true, renewals + 1;
        Handle();
        if end.Returns? {
          renewing := false;
          calls := calls + [CallComplete];
          if !firstRaises { return; }
        } else {
          thrown := end;
        }
      }
      if thrown.ThrowsContinue? {
        renewing := false;
        calls := calls + [CallDefer(thrown.continuation)];
        return;
      }
      renewing := false;
      calls := calls + [RecordCall(thrown)];
    }

    method Handle()
      requires renewing
      modifies this`handled
      ensures handled
    {
      handled := true;
    }
  }

  lemma FirstCallsAre(job: Job, known: bool, end: HandlerEnd, firstRaises: bool)
    ensures var calls := CallsOf(job, known, end, firstRaises);
      && calls[..1] == CallsOf(job, known, end, false)
      && (|calls| == 2 ==> calls[1..] == [RecordCall(ThrowsOther)])
  {
  }

  /** Only a raised call is followed by another, and then the first one ends the job if it takes effect at all. */
  lemma SecondCallFollowsTerminal(job: Job, known: bool, end: HandlerEnd, firstRaises: bool)
    ensures var calls := CallsOf(job, known, end, firstRaises);
      && 1 <= |calls| <= 2
      && (|calls| == 2 ==> firstRaises && (calls[0] == CallComplete || calls[0] == CallFail(false, true)))
  {
  }

  /** When the first of two calls takes effect its job is terminal. */
  lemma FirstOfTwoIsFinal(t: Table, c: Call, id: JobId, worker: string, error: string, now: int)
    requires Inv(t) && id in t && (c == CallComplete || c == CallFail(false, true))
    requires Next(t, StepOf(c, id, worker, error, now)) != t
    ensures id in Next(t, StepOf(c, id, worker, error, now))
    ensures IsTerminal(Next(t, StepOf(c, id, worker, error, now))[id].status)
  {
  }

  /** Ids are never used again: a row that was pruned does not come back between the two states. */
  ghost predicate NotReused(run: seq<Table>, i: nat, k: nat, id: JobId) {
    i <= k < |run| && forall m {:trigger run[m]} :: i < m <= k && id in run[m] ==> id in run[m - 1]
  }

  lemma {:induction false} StaysUnlessGone(run: seq<Table>, i: nat, k: nat, id: JobId)
    requires NotReused(run, i, k, id) && id in run[k]
    ensures Stays(run, i, k, id)
    decreases k
  {
    if i < k {
      assert id in run[k - 1];
      StaysUnlessGone(run, i, k - 1, id);
    }
  }

  /**
   * At most one transition of an execution takes effect in any run, also when a call commits but reports an error and
   * whoever steps in between, the same worker included: once the first call changed the table, the second changes
   * nothing.
   */
  lemma AtMostOneTakesEffect(run: seq<Table>, steps: seq<Step>, p: nat, q: nat, id: JobId, worker: string, calls: seq<Call>,
                             errors: (string, string), times: (int, int), job: Job, known: bool, end: HandlerEnd)
    requires IsRun(run, steps) && p < q < |steps| && id in run[p] && NotReused(run, p + 1, q, id)
    requires calls == CallsOf(job, known, end, true) && |calls| == 2
    requires steps[p] == StepOf(calls[0], id, worker, errors.0, times.0)
    requires steps[q] == StepOf(calls[1], id, worker, errors.1, times.1)
    ensures run[p + 1] == run[p] || run[q + 1] == run[q]
  {
    SecondCallFollowsTerminal(job, known, end, true);
    RunsKeepInv(run, steps, p);
    if run[p + 1] != run[p] {
      FirstOfTwoIsFinal(run[p], calls[0], id, worker, errors.0, times.0);
      if id in run[q] {
        StaysUnlessGone(run, p + 1, q, id);
        TerminalIsForever(run, steps, p + 1, q, id);
        assert !run[q][id].status.Running?;
      }
      StrangersChangeNothing(run[q], steps[q]);
    }
  }

  // ---- The number of jobs in flight ----

  /** A claim loop: stopped, between ticks, or waiting for a claim of at most `capacity` jobs. */
  datatype Loop = Stopped | Resting | Claiming(capacity: nat)

  /** `running` is the flag of start and stop; every start adds a loop, and a loop ends when it finds the flag cleared. */
  datatype Pool = Pool(concurrency: nat, inFlight: nat, running: bool, loops: seq<Loop>)

  datatype Move =
    | Start
    | Stop
    | BeginClaim(l: nat)
    | EndClaim(l: nat, claimed: nat)
    | EndLoop(l: nat)
    | Finish

  predicate CanMove(p: Pool, m: Move) {
    match m
    case Start => true
    case Stop => true
    case BeginClaim(l) => l < |p.loops| && p.loops[l] == Resting && p.running && p.inFlight < p.concurrency
    case EndClaim(l, claimed) => l < |p.loops| && p.loops[l].Claiming? && claimed <= p.loops[l].capacity
    case EndLoop(l) => l < |p.loops| && p.loops[l] == Resting && !p.running
    case Finish => p.inFlight > 0
  }

  function Moved(p: Pool, m: Move): Pool
    requires CanMove(p, m)
  {
    match m
    case Start => if p.running then p else p.(running := true, loops := p.loops + [Resting])
    case Stop => p.(running := false)
    case BeginClaim(l) => p.(loops := p.loops[l := Claiming(p.concurrency - p.inFlight)])
    case EndClaim(l, claimed) => p.(inFlight := p.inFlight + claimed, loops := p.loops[l := Resting])
    case EndLoop(l) => p.(loops := p.loops[l := Stopped])
    case Finish => p.(inFlight := p.inFlight - 1)
  }

  ghost predicate IsPoolRun(run: seq<Pool>, moves: seq<Move>) {
    Continues(run, moves) && run[0].inFlight == 0 && !run[0].running && run[0].loops == []
  }

  function Live(loops: seq<Loop>, n: nat): nat
    requires n <= |loops|
  {
    if n == 0 then 0 else Live(loops, n - 1) + if loops[n - 1].Stopped? then 0 else 1
  }

  function Promised(loops: seq<Loop>, n: nat): nat
    requires n <= |loops|
  {
    if n == 0 then 0 else Promised(loops, n - 1) + if loops[n - 1].Claiming? then loops[n - 1].capacity else 0
  }

  function Capacity(l: Loop): nat { if l.Claiming? then l.capacity else 0 }

  function Alive(l: Loop): nat { if l.Stopped? then 0 else 1 }

  lemma {:induction false} LoopsAfterUpdate(loops: seq<Loop>, l: nat, loop: Loop, n: nat)
    requires l < |loops| && n <= |loops|
    ensures Live(loops[l := loop], n) == Live(loops, n) + if l < n then Alive(loop) - Alive(loops[l]) else 0
    ensures Promised(loops[l := loop], n) == Promised(loops, n) + if l < n then Capacity(loop) - Capacity(loops[l]) else 0
  {
    if n > 0 { LoopsAfterUpdate(loops, l, loop, n - 1); }
  }

  lemma {:induction false} LoopsAfterStart(loops: seq<Loop>, n: nat)
    requires n <= |loops|
    ensures Live(loops + [Resting], n) == Live(loops, n) && Promised(loops + [Resting], n) == Promised(loops, n)
  {
    if n > 0 { LoopsAfterStart(loops, n - 1); }
  }

  lemma OneMore(c: nat, n: nat)
    ensures c * (n + 1) == c * n + c
  {
  }

  /** The claims under way promise at most `c` each. */
  lemma {:induction false} PromisesOfAll(loops: seq<Loop>, c: nat, n: nat)
    requires n <= |loops| && forall k :: 0 <= k < |loops| ==> Capacity(loops[k]) <= c
    ensures Promised(loops, n) <= c * Live(loops, n)
  {
    if n > 0 {
      PromisesOfAll(loops, c, n - 1);
      OneMore(c, Live(loops, n - 1));
      assert Capacity(loops[n - 1]) <= c;
    }
  }

  /** A resting loop is alive and promises nothing. */
  lemma {:induction false} PromisesAreBounded(loops: seq<Loop>, c: nat, l: nat, n: nat)
    requires n <= |loops| && l < n && loops[l] == Resting
    requires forall k :: 0 <= k < |loops| ==> Capacity(loops[k]) <= c
    ensures Promised(loops, n) + c <= c * Live(loops, n)
  {
    OneMore(c, Live(loops, n - 1));
    assert Capacity(loops[n - 1]) <= c;
    if n - 1 == l { PromisesOfAll(loops, c, l); } else { PromisesAreBounded(loops, c, l, n - 1); }
  }

  function LiveLoops(p: Pool): nat { Live(p.loops, |p.loops|) }

  ghost predicate Within(p: Pool, room: nat) {
    && p.inFlight + Promised(p.loops, |p.loops|) <= room
    && forall k :: 0 <= k < |p.loops| ==> Capacity(p.loops[k]) <= p.concurrency
  }

  lemma ClaimStaysWithin(p: Pool, l: nat, room: nat)
    requires CanMove(p, BeginClaim(l)) && Within(p, room) && p.concurrency * LiveLoops(p) <= room
    ensures Within(Moved(p, BeginClaim(l)), room)
  {
    LoopsAfterUpdate(p.loops, l, Claiming(p.concurrency - p.inFlight), |p.loops|);
    PromisesAreBounded(p.loops, p.concurrency, l, |p.loops|);
  }

  lemma MoveStaysWithin(p: Pool, m: Move, room: nat)
    requires CanMove(p, m) && Within(p, room) && p.concurrency * LiveLoops(p) <= room
    ensures Within(Moved(p, m), room)
  {
    match m
    case Start => LoopsAfterStart(p.loops, |p.loops|);
    case BeginClaim(l) => ClaimStaysWithin(p, l, room);
    case EndClaim(l, claimed) => LoopsAfterUpdate(p.loops, l, Resting, |p.loops|);
    case EndLoop(l) => LoopsAfterUpdate(p.loops, l, Stopped, |p.loops|);
    case _ =>
  }

  /** Moves that go on from any pool. */
  ghost predicate Continues(next: seq<Pool>, moves: seq<Move>) {
    && |next| == |moves| + 1
    && forall i {:trigger moves[i]} :: 0 <= i < |moves| ==> CanMove(next[i], moves[i]) && next[i + 1] == Moved(next[i], moves[i])
  }

  /** Every start that adds a loop finds none alive. */
  ghost predicate StartsAlone(run: seq<Pool>, moves: seq<Move>)
    requires |run| == |moves| + 1
  {
    forall i {:trigger moves[i]} :: 0 <= i < |moves| && moves[i].Start? && !run[i].running ==> LiveLoops(run[i]) == 0
  }

  lemma LoneLoop(p: Pool, m: Move)
    requires CanMove(p, m) && LiveLoops(p) <= 1 && (m.Start? && !p.running ==> LiveLoops(p) == 0)
    ensures LiveLoops(Moved(p, m)) <= 1
  {
    match m
    case Start => LoopsAfterStart(p.loops, |p.loops|);
    case BeginClaim(l) => LoopsAfterUpdate(p.loops, l, Claiming(p.concurrency - p.inFlight), |p.loops|);
    case EndClaim(l, claimed) => LoopsAfterUpdate(p.loops, l, Resting, |p.loops|);
    case EndLoop(l) => LoopsAfterUpdate(p.loops, l, Stopped, |p.loops|);
    case _ =>
  }

  lemma AtMostOnce(c: nat, n: nat)
    requires n <= 1
    ensures c * n <= c
  {
  }

  lemma WithinLimits(p: Pool, limit: nat)
    requires Within(p, limit)
    ensures p.inFlight <= limit
  {
  }

  /** As long as no loop is started while another one is alive, jobs in flight never exceed `concurrency`. */
  lemma {:induction false} InFlightIsBounded(run: seq<Pool>, moves: seq<Move>, n: nat)
    requires Continues(run, moves) && StartsAlone(run, moves) && n < |run|
    requires LiveLoops(run[0]) <= 1 && Within(run[0], run[0].concurrency)
    ensures run[n].concurrency == run[0].concurrency && LiveLoops(run[n]) <= 1
    ensures Within(run[n], run[0].concurrency) && run[n].inFlight <= run[0].concurrency
  {
    if n > 0 {
      InFlightIsBounded(run, moves, n - 1);
      assert CanMove(run[n - 1], moves[n - 1]) && run[n] == Moved(run[n - 1], moves[n - 1]);
      LoneMove(run[n - 1], moves[n - 1], run[0].concurrency);
    }
    WithinLimits(run[n], run[0].concurrency);
  }

  lemma LoneMove(p: Pool, m: Move, c: nat)
    requires CanMove(p, m) && p.concurrency == c && Within(p, c) && LiveLoops(p) <= 1
    requires m.Start? && !p.running ==> LiveLoops(p) == 0
    ensures Moved(p, m).concurrency == c && Within(Moved(p, m), c) && LiveLoops(Moved(p, m)) <= 1
  {
    AtMostOnce(c, LiveLoops(p));
    MoveStaysWithin(p, m, c);
    LoneLoop(p, m);
  }

  /** Some moves without another start take the pool beyond its limit. */
  ghost predicate CanExceed(p: Pool) {
    exists next, moves :: Continues(next, moves) && next[0] == p && Exceeding(next, moves, p.concurrency)
  }

  ghost predicate Exceeding(next: seq<Pool>, moves: seq<Move>, limit: nat)
    requires |next| == |moves| + 1
  {
    next[|moves|].inFlight > limit && forall m <- moves :: !m.Start?
  }

  lemma ExceedsAfter(p: Pool, m: Move)
    requires CanMove(p, m) && !m.Start? && CanExceed(Moved(p, m))
    ensures CanExceed(p)
  {
    var next, moves :| Continues(next, moves) && next[0] == Moved(p, m) && Exceeding(next, moves, Moved(p, m).concurrency);
    assert Continues([p] + next, [m] + moves);
    assert Exceeding([p] + next, [m] + moves, p.concurrency);
  }

  /** Two loops claim at once what is left for one, once both rest and no job is in flight. */
  lemma TwoLoopsClaimTwice(p: Pool, a: nat, b: nat)
    requires p.running && p.concurrency > 0 && p.inFlight == 0
    requires a < b < |p.loops| && p.loops[a] == Resting && p.loops[b] == Resting
    ensures CanExceed(p)
  {
    var c := p.concurrency;
    var moves := [BeginClaim(a), BeginClaim(b), EndClaim(a, c), EndClaim(b, c)];
    var p1 := Moved(p, moves[0]);
    var p2 := Moved(p1, moves[1]);
    var p3 := Moved(p2, moves[2]);
    var next := [p, p1, p2, p3, Moved(p3, moves[3])];
    assert Continues(next, moves) && Exceeding(next, moves, c);
  }

  /** From any pool with two live loops and a positive limit, some continuation exceeds it. */
  lemma {:induction false} TwoLoopsExceed(p: Pool, a: nat, b: nat)
    requires p.running && p.concurrency > 0 && a < b < |p.loops| && !p.loops[a].Stopped? && !p.loops[b].Stopped?
    ensures CanExceed(p)
    decreases p.inFlight, if p.loops[a].Claiming? then 1 else 0, if p.loops[b].Claiming? then 1 else 0
  {
    if p.inFlight > 0 {
      TwoLoopsExceed(Moved(p, Finish), a, b);
      ExceedsAfter(p, Finish);
    } else if p.loops[a].Claiming? {
      TwoLoopsExceed(Moved(p, EndClaim(a, 0)), a, b);
      ExceedsAfter(p, EndClaim(a, 0));
    } else if p.loops[b].Claiming? {
      TwoLoopsExceed(Moved(p, EndClaim(b, 0)), a, b);
      ExceedsAfter(p, EndClaim(b, 0));
    } else {
      TwoLoopsClaimTwice(p, a, b);
    }
  }

  lemma {:induction false} SomeLiveLoop(loops: seq<Loop>, n: nat) returns (l: nat)
    requires n <= |loops| && Live(loops, n) > 0
    ensures l < n && !loops[l].Stopped?
  {
    if loops[n - 1].Stopped? { l := SomeLiveLoop(loops, n - 1); } else { l := n - 1; }
  }

  /** From here on jobs in flight stay within the limit, as long as every later start finds no live loop. */
  ghost predicate StaysWithinLimit(p: Pool) {
    forall next: seq<Pool>, moves: seq<Move> :: Continues(next, moves) && next[0] == p && StartsAlone(next, moves) ==>
      next[|moves|].inFlight <= p.concurrency
  }

  /**
   * Starting a stopped worker keeps jobs in flight within a positive `concurrency` for good exactly when no claim loop
   * of an earlier start is still alive. That is so once a stop has returned that was asked for after its start had;
   * a start whose first heartbeat is still under way counts as a live loop. Everything before and after this start is
   * arbitrary, as long as it starts loops one at a time.
   */
  lemma StartIsSafeIff(run: seq<Pool>, moves: seq<Move>)
    requires IsPoolRun(run, moves) && StartsAlone(run, moves)
    requires !run[|moves|].running && run[|moves|].concurrency > 0
    ensures StaysWithinLimit(Moved(run[|moves|], Start)) <==> LiveLoops(run[|moves|]) == 0
  {
    var p := run[|moves|];
    var started := Moved(p, Start);
    InFlightIsBounded(run, moves, |moves|);
    if LiveLoops(p) == 0 {
      MoveStaysWithin(p, Start, p.concurrency);
      LoneLoop(p, Start);
      forall next: seq<Pool>, more: seq<Move> | Continues(next, more) && next[0] == started && StartsAlone(next, more)
        ensures next[|more|].inFlight <= started.concurrency
      {
        InFlightIsBounded(next, more, |more|);
      }
    } else {
      var l := SomeLiveLoop(p.loops, |p.loops|);
      TwoLoopsExceed(started, l, |p.loops|);
      var next, more :| Continues(next, more) && next[0] == started && Exceeding(next, more, started.concurrency);
      assert StartsAlone(next, more) by {
        assert forall i :: 0 <= i < |more| ==> more[i] in more;
      }
    }
  }

  /** So the number of jobs in flight stays within `concurrency` in every run whose starts each find no live loop. */
  lemma RunsStayWithin(run: seq<Pool>, moves: seq<Move>, n: nat)
    requires IsPoolRun(run, moves) && StartsAlone(run, moves) && n < |run|
    ensures run[n].inFlight <= run[0].concurrency
  {
    InFlightIsBounded(run, moves, n);
  }

  /** A start while the stop before it still waits for its loop makes two: with them twice as many jobs run. */
  lemma RestartDuringStopExceeds(c: nat) returns (run: seq<Pool>, moves: seq<Move>)
    requires c > 0
    ensures IsPoolRun(run, moves) && run[0].concurrency == c && run[|moves|].inFlight == 2 * c
  {
    moves := [Start, BeginClaim(0), Stop, Start, BeginClaim(1), EndClaim(0, c), EndClaim(1, c)];
    run := [Pool(c, 0, false, []), Pool(c, 0, true, [Resting]), Pool(c, 0, true, [Claiming(c)]),
            Pool(c, 0, false, [Claiming(c)]), Pool(c, 0, true, [Claiming(c), Resting]),
            Pool(c, 0, true, [Claiming(c), Claiming(c)]), Pool(c, c, true, [Resting, Claiming(c)]),
            Pool(c, 2 * c, true, [Resting, Resting])];
  }

  // ---- Claims, and what a stop leaves to do ----

  /** Every claim under way asked for at least one job. */
  lemma {:induction false} ClaimsAskForSome(run: seq<Pool>, moves: seq<Move>, n: nat, l: nat)
    requires IsPoolRun(run, moves) && n < |run| && l < |run[n].loops| && run[n].loops[l].Claiming?
    ensures run[n].loops[l].capacity > 0
  {
    assert n > 0;
    assert CanMove(run[n - 1], moves[n - 1]) && run[n] == Moved(run[n - 1], moves[n - 1]);
    if l < |run[n - 1].loops| && run[n - 1].loops[l] == run[n].loops[l] { ClaimsAskForSome(run, moves, n - 1, l); }
  }

  /** A claim under way goes on until it is answered: neither a stop nor another loop ends it. */
  lemma ClaimIsAnswered(p: Pool, m: Move, l: nat)
    requires CanMove(p, m) && l < |p.loops| && p.loops[l].Claiming?
    ensures l < |Moved(p, m).loops|
    ensures Moved(p, m).loops[l] == p.loops[l] || (m.EndClaim? && m.l == l && Moved(p, m).inFlight == p.inFlight + m.claimed)
  {
  }

  /** Jobs in flight and those that claims under way may still bring. */
  function Committed(p: Pool): nat { p.inFlight + Promised(p.loops, |p.loops|) }

  lemma StoppedMove(p: Pool, m: Move)
    requires CanMove(p, m) && !p.running && !m.Start?
    ensures !Moved(p, m).running && Committed(Moved(p, m)) <= Committed(p) && LiveLoops(Moved(p, m)) <= LiveLoops(p)
  {
    match m
    case EndClaim(l, claimed) => LoopsAfterUpdate(p.loops, l, Resting, |p.loops|);
    case EndLoop(l) => LoopsAfterUpdate(p.loops, l, Stopped, |p.loops|);
    case _ =>
  }

  /** After a stop, and until a start, no claim begins: only those under way can still bring jobs. */
  lemma {:induction false} StopEndsClaims(run: seq<Pool>, moves: seq<Move>, n: nat)
    requires Continues(run, moves) && !run[0].running && (forall m <- moves :: !m.Start?) && n < |run|
    ensures !run[n].running && Committed(run[n]) <= Committed(run[0]) && LiveLoops(run[n]) <= LiveLoops(run[0])
  {
    if n > 0 {
      StopEndsClaims(run, moves, n - 1);
      assert moves[n - 1] in moves && CanMove(run[n - 1], moves[n - 1]);
      StoppedMove(run[n - 1], moves[n - 1]);
    }
  }

  /** What is left to do for loops: a claim to answer and a loop to end. */
  function Duties(loops: seq<Loop>, n: nat): nat
    requires n <= |loops|
  {
    if n == 0 then 0
    else Duties(loops, n - 1) + match loops[n - 1] case Stopped => 0 case Resting => 1 case Claiming(_) => 2
  }

  lemma {:induction false} DutyDone(loops: seq<Loop>, l: nat, n: nat)
    requires l < |loops| && n <= |loops| && !loops[l].Stopped?
    ensures var next := if loops[l].Claiming? then Resting else Stopped;
      Duties(loops[l := next], n) == Duties(loops, n) - if l < n then 1 else 0
  {
    if n > 0 { DutyDone(loops, l, n - 1); }
  }

  /** A stopped pool with something left to do has a move that does some of it. */
  lemma StoppedCanMove(p: Pool) returns (m: Move)
    requires !p.running && (p.inFlight > 0 || LiveLoops(p) > 0)
    ensures CanMove(p, m) && !m.Start? && !Moved(p, m).running
    ensures Moved(p, m).inFlight + Duties(Moved(p, m).loops, |Moved(p, m).loops|) < p.inFlight + Duties(p.loops, |p.loops|)
  {
    if p.inFlight > 0 { m := Finish; } else {
      var l := SomeLiveLoop(p.loops, |p.loops|);
      DutyDone(p.loops, l, |p.loops|);
      m := if p.loops[l].Claiming? then EndClaim(l, 0) else EndLoop(l);
    }
  }

  /** A stop can always be brought to its end: no job in flight and no loop alive. */
  lemma {:induction false} StoppedCanDrain(p: Pool) returns (run: seq<Pool>, moves: seq<Move>)
    requires !p.running
    ensures Continues(run, moves) && run[0] == p && forall m <- moves :: !m.Start?
    ensures run[|moves|].inFlight == 0 && LiveLoops(run[|moves|]) == 0
    decreases p.inFlight + Duties(p.loops, |p.loops|)
  {
    if p.inFlight == 0 && LiveLoops(p) == 0 { run, moves := [p], []; } else {
      var m := StoppedCanMove(p);
      run, moves := StoppedCanDrain(Moved(p, m));
      run, moves := [p] + run, [m] + moves;
    }
  }

  // ---- How long a lease lasts ----

  /** Milliseconds between renewals. */
  function RenewalInterval(staleAfterSeconds: real): real {
    if staleAfterSeconds * 1000.0 / 3.0 < 250.0 then 250.0 else staleAfterSeconds * 1000.0 / 3.0
  }

  predicate TooOld(lockedAt: real, now: real, staleAfterSeconds: real) {
    lockedAt < now - staleAfterSeconds * 1000.0
  }

  /** Lock times of a running job whose renewals land on schedule, with never more than one missed in a row. */
  ghost predicate OnSchedule(locks: seq<real>, staleAfterSeconds: real) {
    forall k {:trigger locks[k]} :: 0 < k < |locks| ==>
      locks[k] - locks[k - 1] == RenewalInterval(staleAfterSeconds)
      || locks[k] - locks[k - 1] == 2.0 * RenewalInterval(staleAfterSeconds)
  }

  /** Between two landed lock times no claim finds the lease too old. */
  ghost predicate NeverReclaimed(locks: seq<real>, staleAfterSeconds: real) {
    forall k, now: real {:trigger TooOld(locks[k], now, staleAfterSeconds)} ::
      0 <= k < |locks| - 1 && locks[k] <= now <= locks[k + 1] ==> !TooOld(locks[k], now, staleAfterSeconds)
  }

  /** A lease survives every schedule with single misses exactly when jobs go stale after half a second or more. */
  lemma LeaseSurvivesOneMissIff(staleAfterSeconds: real)
    ensures (forall locks: seq<real> :: OnSchedule(locks, staleAfterSeconds) ==> NeverReclaimed(locks, staleAfterSeconds))
      <==> staleAfterSeconds >= 0.5
  {
    var s := staleAfterSeconds;
    if s >= 0.5 {
      forall locks: seq<real> | OnSchedule(locks, s) ensures NeverReclaimed(locks, s) {
        forall k, now: real | 0 <= k < |locks| - 1 && locks[k] <= now <= locks[k + 1] ensures !TooOld(locks[k], now, s) {
          assert locks[k + 1] - locks[k] <= 2.0 * RenewalInterval(s);
        }
      }
    } else {
      var locks := [0.0, 500.0];
      assert RenewalInterval(s) == 250.0;
      assert OnSchedule(locks, s);
      assert TooOld(locks[0], 500.0, s);
    }
  }
}
