/**
 * Grant locks of several provider accounts, taken in one order on one pooled connection, and any number of such calls
 * interleaved. A lock is identified with its account: distinct accounts are taken to have distinct lock keys.
 */
module GrantLocks {
  import opened Common

  datatype Account = Account(provider: string, sub: string)

  /** The key under which duplicates are found: provider and sub around a U+001F. */
  function LockName(a: Account): string { a.provider + ['\U{1F}'] + a.sub }

  predicate Precedes(a: Account, b: Account) {
    if a.provider == b.provider then LexLess(a.sub, b.sub) else LexLess(a.provider, b.provider)
  }

  predicate Ascending(s: seq<Account>) {
    forall i, j :: 0 <= i < j < |s| ==> Precedes(s[i], s[j])
  }

  lemma PrecedesIsStrictOrder(a: Account, b: Account, c: Account)
    ensures !Precedes(a, a)
    ensures Precedes(a, b) || a == b || Precedes(b, a)
    ensures Precedes(a, b) && Precedes(b, c) ==> Precedes(a, c)
  {
    LexTotal(a.provider, b.provider);
    LexTotal(a.sub, b.sub);
    LexTotal(a.sub, a.sub);
    if Precedes(a, b) && Precedes(b, c) {
      if a.provider == b.provider == c.provider { LexTransitive(a.sub, b.sub, c.sub); }
      if a.provider != b.provider && b.provider != c.provider {
        LexTransitive(a.provider, b.provider, c.provider);
        LexTotal(a.provider, b.provider);
      }
    }
  }

  /** Without a U+001F in the providers, the lock name determines the account. */
  lemma {:induction false} LockNameIsInjective(a: Account, b: Account)
    requires '\U{1F}' !in a.provider && '\U{1F}' !in b.provider
    ensures LockName(a) == LockName(b) ==> a == b
  {
    var p, q := a.provider, b.provider;
    if LockName(a) == LockName(b) {
      var name := LockName(a);
      assert name[|p|] == name[|q|] == '\U{1F}';
      assert forall i :: 0 <= i < |p| ==> name[i] == p[i] && p[i] in p;
      assert forall i :: 0 <= i < |q| ==> name[i] == q[i] && q[i] in q;
      assert |p| == |q|;
      assert p == name[..|p|] == q;
      assert a.sub == name[|p| + 1..] == b.sub;
    }
  }

  // ---- The lock order ----

  /** `a` is among the first `n` keys, and no later one of them has its lock name. */
  predicate IsLast(keys: seq<Account>, n: nat, a: Account)
    requires n <= |keys|
  {
    exists k :: 0 <= k < n && keys[k] == a && forall j :: k < j < n ==> LockName(keys[j]) != LockName(a)
  }

  /** Stands for the runtime's comparator sort. */
  function Inserted(s: seq<Account>, a: Account): seq<Account> {
    if s == [] then [a]
    else if Precedes(a, s[|s| - 1]) then Inserted(s[..|s| - 1], a) + [s[|s| - 1]]
    else s + [a]
  }

  function Sorted(s: seq<Account>): seq<Account> {
    if s == [] then [] else Inserted(Sorted(s[..|s| - 1]), s[|s| - 1])
  }

  lemma {:induction false} InsertedKeeps(s: seq<Account>, a: Account)
    ensures forall x :: x in Inserted(s, a) <==> x in s || x == a
  {
    if s != [] && Precedes(a, s[|s| - 1]) {
      InsertedKeeps(s[..|s| - 1], a);
      assert s == s[..|s| - 1] + [s[|s| - 1]];
    }
  }

  lemma {:induction false} InsertedAscends(s: seq<Account>, a: Account)
    requires Ascending(s) && a !in s
    ensures Ascending(Inserted(s, a))
  {
    if s == [] {
    } else if Precedes(a, s[|s| - 1]) {
      var init, last := s[..|s| - 1], s[|s| - 1];
      InsertedAscends(init, a);
      InsertedKeeps(init, a);
      var r := Inserted(init, a);
      forall i | 0 <= i < |r| ensures Precedes(r[i], last) {
        assert r[i] in r;
      }
    } else {
      forall i | 0 <= i < |s| ensures Precedes(s[i], a) {
        PrecedesIsStrictOrder(s[i], s[|s| - 1], a);
        PrecedesIsStrictOrder(s[|s| - 1], a, a);
      }
    }
  }

  lemma {:induction false} SortedAscends(s: seq<Account>)
    requires forall i, j :: 0 <= i < j < |s| ==> s[i] != s[j]
    ensures Ascending(Sorted(s)) && forall x :: x in Sorted(s) <==> x in s
  {
    if s != [] {
      var init, last := s[..|s| - 1], s[|s| - 1];
      SortedAscends(init);
      InsertedKeeps(Sorted(init), last);
      InsertedAscends(Sorted(init), last);
      assert s == init + [last];
    }
  }

  lemma LastSoFar(keys: seq<Account>, i: nat)
    requires i < |keys|
    ensures IsLast(keys, i + 1, keys[i])
    ensures forall a :: IsLast(keys, i, a) && LockName(a) != LockName(keys[i]) ==> IsLast(keys, i + 1, a)
  {
    forall a | IsLast(keys, i, a) && LockName(a) != LockName(keys[i]) ensures IsLast(keys, i + 1, a) {
      var k :| 0 <= k < i && keys[k] == a && forall j :: k < j < i ==> LockName(keys[j]) != LockName(a);
      assert keys[k] == a && forall j :: k < j < i + 1 ==> LockName(keys[j]) != LockName(a);
    }
  }

  /** A map from lock name to account filled from the keys, and its keys in insertion order. */
  ghost predicate Fills(keys: seq<Account>, n: nat, unique: map<string, Account>, names: seq<string>)
    requires n <= |keys|
  {
    && (forall m :: m in names <==> m in unique)
    && (forall k, l :: 0 <= k < l < |names| ==> names[k] != names[l])
    && (forall m <- unique :: LockName(unique[m]) == m && IsLast(keys, n, unique[m]))
    && (forall k :: 0 <= k < n ==> LockName(keys[k]) in unique)
  }

  lemma FillsOneMore(keys: seq<Account>, i: nat, unique: map<string, Account>, names: seq<string>)
    requires i < |keys| && Fills(keys, i, unique, names)
    ensures var name := LockName(keys[i]);
      Fills(keys, i + 1, unique[name := keys[i]], if name in unique then names else names + [name])
  {
    LastSoFar(keys, i);
  }

  /** The accounts to lock, sorted, each lock name once. */
  method LockOrder(keys: seq<Account>) returns (ordered: seq<Account>)
    ensures Ascending(ordered)
    ensures forall a :: a in ordered <==> IsLast(keys, |keys|, a)
  {
    var unique: map<string, Account>, names: seq<string> := map[], [];
    for i := 0 to |keys|
      invariant Fills(keys, i, unique, names)
    {
      var name := LockName(keys[i]);
      FillsOneMore(keys, i, unique, names);
      if name !in unique { names := names + [name]; }
      unique := unique[name := keys[i]];
    }
    var values := seq(|names|, k requires 0 <= k < |names| => assert names[k] in names; unique[names[k]]);
    LastIsUnique(keys, unique, names, values);
    SortedAscends(values);
    ordered := Sorted(values);
  }

  lemma LastIsUnique(keys: seq<Account>, unique: map<string, Account>, names: seq<string>, values: seq<Account>)
    requires Fills(keys, |keys|, unique, names)
    requires |values| == |names| && forall k :: 0 <= k < |names| ==> names[k] in unique && values[k] == unique[names[k]]
    ensures forall a :: a in values <==> IsLast(keys, |keys|, a)
    ensures forall i, j :: 0 <= i < j < |values| ==> values[i] != values[j]
  {
    forall a | IsLast(keys, |keys|, a) ensures a in values {
      var k :| 0 <= k < |names| && names[k] == LockName(a);
      assert IsLast(keys, |keys|, values[k]);
    }
    forall i, j | 0 <= i < j < |values| ensures values[i] != values[j] {
      assert LockName(values[i]) == names[i] && LockName(values[j]) == names[j];
    }
  }

  /** Which accounts are locked: exactly the given ones, each once. */
  lemma LockOrderKeepsAccounts(keys: seq<Account>, a: Account)
    requires forall k <- keys :: '\U{1F}' !in k.provider
    ensures IsLast(keys, |keys|, a) <==> a in keys
  {
    if a in keys {
      var k := LastOccurrence(keys, a);
      forall j | k < j < |keys| ensures LockName(keys[j]) != LockName(a) {
        LockNameIsInjective(keys[j], a);
      }
    }
  }

  lemma {:induction false} LastOccurrence(keys: seq<Account>, a: Account) returns (k: nat)
    requires a in keys
    ensures k < |keys| && keys[k] == a && forall j :: k < j < |keys| ==> keys[j] != a
  {
    if keys[|keys| - 1] == a {
      k := |keys| - 1;
    } else {
      assert keys == keys[..|keys| - 1] + [keys[|keys| - 1]];
      k := LastOccurrence(keys[..|keys| - 1], a);
    }
  }

  // ---- Any number of calls interleaved ----

  datatype Phase =
    | NotStarted
    | Acquiring(n: nat)
    | Running
    | Releasing(k: nat, clean: bool)
    | Done

  datatype Call = Call(locks: seq<Account>, phase: Phase)

  type CallId = nat

  datatype Step =
    | Reserve(c: CallId)
    | Acquire(c: CallId)
    | AcquireFails(c: CallId)
    | Start(c: CallId)
    | Finish(c: CallId)
    | UnlockOne(c: CallId)
    | UnlockFails(c: CallId, freed: bool)
    | UnlockAll(c: CallId)
    | Release(c: CallId)
  {
    predicate Fails() { AcquireFails? || UnlockFails? }
  }

  /** The pool's free connections, the server's lock table, and the calls. */
  datatype World = World(free: nat, owner: map<Account, CallId>, calls: seq<Call>) {

    function At(c: CallId, phase: Phase): World
      requires c < |calls|
    {
      this.(calls := calls[c := calls[c].(phase := phase)])
    }

    predicate Enabled(s: Step) {
      && s.c < |calls|
      && var call := calls[s.c];
      match s
      case Reserve(_) => call.phase.NotStarted? && free > 0
      case Acquire(_) => call.phase.Acquiring? && call.phase.n < |call.locks| && call.locks[call.phase.n] !in owner
      case AcquireFails(_) => call.phase.Acquiring? && call.phase.n < |call.locks|
      case Start(_) => call.phase == Acquiring(|call.locks|)
      case Finish(_) => call.phase.Running?
      case UnlockOne(_) => call.phase.Releasing? && 0 < call.phase.k <= |call.locks|
      case UnlockFails(_, _) => call.phase.Releasing? && 0 < call.phase.k <= |call.locks|
      case UnlockAll(_) => call.phase == Releasing(0, false)
      case Release(_) => call.phase == Releasing(0, true)
    }

    function Unlocked(c: CallId, a: Account): World {
      if a in owner && owner[a] == c then this.(owner := owner - {a}) else this
    }

    function Next(s: Step): World
      requires Enabled(s)
    {
      var call := calls[s.c];
      match s
      case Reserve(c) => At(c, Acquiring(0)).(free := free - 1)
      case Acquire(c) => At(c, Acquiring(call.phase.n + 1)).(owner := owner[call.locks[call.phase.n] := c])
      case AcquireFails(c) => At(c, Releasing(call.phase.n, true))
      case Start(c) => At(c, Running)
      case Finish(c) => At(c, Releasing(|call.locks|, true))
      case UnlockOne(c) => Unlocked(c, call.locks[call.phase.k - 1]).At(c, Releasing(call.phase.k - 1, call.phase.clean))
      case UnlockFails(c, freed) =>
        (if freed then Unlocked(c, call.locks[call.phase.k - 1]) else this).At(c, Releasing(call.phase.k - 1, false))
      case UnlockAll(c) => At(c, Releasing(0, true)).(owner := map a <- owner | owner[a] != c :: owner[a])
      case Release(c) => At(c, Done).(free := free + 1)
    }
  }

  function Owned(owner: map<Account, CallId>, c: CallId): set<Account> { set a <- owner | owner[a] == c }

  function FirstLocks(locks: seq<Account>, n: nat): set<Account>
    requires n <= |locks|
  {
    if n == 0 then {} else FirstLocks(locks, n - 1) + {locks[n - 1]}
  }

  lemma {:induction false} FirstLocksAre(locks: seq<Account>, n: nat, a: Account)
    requires n <= |locks|
    ensures a in FirstLocks(locks, n) <==> exists i :: 0 <= i < n && locks[i] == a
  {
    if n > 0 { FirstLocksAre(locks, n - 1, a); }
  }

  /** The next lock is beyond every lock before it. */
  lemma NextIsBeyond(locks: seq<Account>, n: nat, a: Account)
    requires Ascending(locks) && n < |locks| && a in FirstLocks(locks, n)
    ensures Precedes(a, locks[n]) && a != locks[n]
  {
    FirstLocksAre(locks, n, a);
    PrecedesIsStrictOrder(locks[n], a, a);
  }

  predicate Active(call: Call) { !call.phase.NotStarted? && !call.phase.Done? }

  function ActiveCalls(calls: seq<Call>, n: nat): nat
    requires n <= |calls|
  {
    if n == 0 then 0 else ActiveCalls(calls, n - 1) + if Active(calls[n - 1]) then 1 else 0
  }

  lemma {:induction false} ActiveAfterUpdate(calls: seq<Call>, c: CallId, call: Call, n: nat)
    requires c < |calls| && n <= |calls|
    ensures ActiveCalls(calls[c := call], n) == ActiveCalls(calls, n)
      + (if c < n && Active(call) then 1 else 0) - (if c < n && Active(calls[c]) then 1 else 0)
  {
    if n > 0 { ActiveAfterUpdate(calls, c, call, n - 1); }
  }

  lemma {:induction false} SomeActive(calls: seq<Call>, n: nat)
    requires n <= |calls|
    ensures ActiveCalls(calls, n) > 0 <==> exists c :: 0 <= c < n && Active(calls[c])
  {
    if n > 0 { SomeActive(calls, n - 1); }
  }

  /** What a call's session holds in each phase. */
  predicate Holds(call: Call, mine: set<Account>) {
    match call.phase
    case NotStarted => mine == {}
    case Acquiring(n) => n <= |call.locks| && mine == FirstLocks(call.locks, n)
    case Running => mine == FirstLocks(call.locks, |call.locks|)
    case Releasing(k, clean) =>
      && k <= |call.locks|
      && FirstLocks(call.locks, k) <= mine
      && (clean ==> mine == FirstLocks(call.locks, k))
    case Done => mine == {}
  }

  ghost predicate Inv(w: World, pool: nat) {
    && (forall c :: 0 <= c < |w.calls| ==> Ascending(w.calls[c].locks) && Holds(w.calls[c], Owned(w.owner, c)))
    && (forall a <- w.owner :: w.owner[a] < |w.calls|)
    && w.free + ActiveCalls(w.calls, |w.calls|) == pool
  }

  predicate Initial(w: World, pool: nat) {
    && w.free == pool && w.owner == map[]
    && forall c :: 0 <= c < |w.calls| ==> w.calls[c].phase == NotStarted && Ascending(w.calls[c].locks)
  }

  lemma InitialInv(w: World, pool: nat)
    requires Initial(w, pool)
    ensures Inv(w, pool)
  {
    SomeActive(w.calls, |w.calls|);
  }

  lemma UnlockHolds(w: World, s: Step)
    requires (s.UnlockOne? || s.UnlockFails?) && w.Enabled(s)
    requires Ascending(w.calls[s.c].locks) && Holds(w.calls[s.c], Owned(w.owner, s.c))
    ensures Holds(w.Next(s).calls[s.c], Owned(w.Next(s).owner, s.c))
  {
    var call := w.calls[s.c];
    UnlockedOwned(w, s.c, call.locks[call.phase.k - 1]);
    LastOfFirst(call.locks, call.phase.k);
  }

  lemma AcquireHolds(w: World, s: Step)
    requires s.Acquire? && w.Enabled(s) && Holds(w.calls[s.c], Owned(w.owner, s.c))
    ensures Holds(w.Next(s).calls[s.c], Owned(w.Next(s).owner, s.c))
  {
    var call := w.calls[s.c];
    assert Owned(w.Next(s).owner, s.c) == Owned(w.owner, s.c) + {call.locks[call.phase.n]};
  }

  /** The stepping call's session still holds what its phase says. */
  lemma StepHolds(w: World, s: Step)
    requires w.Enabled(s) && Ascending(w.calls[s.c].locks) && Holds(w.calls[s.c], Owned(w.owner, s.c))
    ensures Holds(w.Next(s).calls[s.c], Owned(w.Next(s).owner, s.c))
  {
    match s
    case Acquire(_) => AcquireHolds(w, s);
    case UnlockOne(_) => UnlockHolds(w, s);
    case UnlockFails(_, _) => UnlockHolds(w, s);
    case UnlockAll(c) => assert Owned(w.Next(s).owner, c) == {};
    case _ =>
  }

  lemma UnlockedOwned(w: World, c: CallId, a: Account)
    ensures Owned(w.Unlocked(c, a).owner, c) == Owned(w.owner, c) - {a}
  {
  }

  lemma LastOfFirst(locks: seq<Account>, k: nat)
    requires Ascending(locks) && 0 < k <= |locks|
    ensures FirstLocks(locks, k) - {locks[k - 1]} == FirstLocks(locks, k - 1)
  {
    if locks[k - 1] in FirstLocks(locks, k - 1) { NextIsBeyond(locks, k - 1, locks[k - 1]); }
  }

  /** No other call's session gains or loses a lock. */
  lemma OthersHold(w: World, s: Step, d: CallId)
    requires w.Enabled(s) && d != s.c
    ensures Owned(w.Next(s).owner, d) == Owned(w.owner, d)
  {
  }

  lemma StepKeepsInv(w: World, pool: nat, s: Step)
    requires Inv(w, pool) && w.Enabled(s)
    ensures Inv(w.Next(s), pool)
  {
    var r := w.Next(s);
    StepHolds(w, s);
    ActiveAfterUpdate(w.calls, s.c, r.calls[s.c], |w.calls|);
    forall d | 0 <= d < |r.calls| ensures Ascending(r.calls[d].locks) && Holds(r.calls[d], Owned(r.owner, d)) {
      if d != s.c { OthersHold(w, s, d); }
    }
  }

  // ---- Runs ----

  ghost predicate IsRun(run: seq<World>, steps: seq<Step>, pool: nat) {
    && |run| == |steps| + 1 && Initial(run[0], pool)
    && forall i {:trigger steps[i]} :: 0 <= i < |steps| ==> run[i].Enabled(steps[i]) && run[i + 1] == run[i].Next(steps[i])
  }

  lemma {:induction false} RunsKeepInv(run: seq<World>, steps: seq<Step>, pool: nat, i: nat)
    requires IsRun(run, steps, pool) && i < |run|
    ensures Inv(run[i], pool)
  {
    if i == 0 { InitialInv(run[0], pool); } else {
      RunsKeepInv(run, steps, pool, i - 1);
      StepKeepsInv(run[i - 1], pool, steps[i - 1]);
    }
  }

  /** Two calls that share an account never run at the same time. */
  lemma RunningCallsAreDisjoint(run: seq<World>, steps: seq<Step>, pool: nat, i: nat, c: CallId, d: CallId, a: Account)
    requires IsRun(run, steps, pool) && i < |run| && c < |run[i].calls| && d < |run[i].calls| && c != d
    requires run[i].calls[c].phase == Running && a in run[i].calls[c].locks && a in run[i].calls[d].locks
    ensures run[i].calls[d].phase != Running
  {
    RunsKeepInv(run, steps, pool, i);
    var w := run[i];
    FirstLocksAre(w.calls[c].locks, |w.calls[c].locks|, a);
    FirstLocksAre(w.calls[d].locks, |w.calls[d].locks|, a);
    assert a in Owned(w.owner, c);
    assert w.calls[d].phase == Running ==> a in Owned(w.owner, d);
  }

  // ---- No deadlock ----

  predicate Waiting(call: Call) { call.phase.Acquiring? && call.phase.n < |call.locks| }

  function Wanted(call: Call): Account
    requires Waiting(call)
  {
    call.locks[call.phase.n]
  }

  /** Among the first `n` calls, a waiting one whose wanted lock no other waiting one is beyond. */
  lemma {:induction false} Furthest(calls: seq<Call>, n: nat, d: CallId) returns (c: CallId)
    requires d < n <= |calls| && Waiting(calls[d])
    ensures c < n && Waiting(calls[c])
    ensures forall e :: 0 <= e < n && Waiting(calls[e]) ==> !Precedes(Wanted(calls[c]), Wanted(calls[e]))
  {
    PrecedesIsStrictOrder(Wanted(calls[d]), Wanted(calls[d]), Wanted(calls[d]));
    if e :| 0 <= e < n - 1 && Waiting(calls[e]) {
      c := Furthest(calls, n - 1, e);
      if Waiting(calls[n - 1]) {
        var best, last := Wanted(calls[c]), Wanted(calls[n - 1]);
        PrecedesIsStrictOrder(last, last, last);
        if Precedes(best, last) {
          forall f | 0 <= f < n && Waiting(calls[f]) ensures !Precedes(last, Wanted(calls[f])) {
            PrecedesIsStrictOrder(best, last, Wanted(calls[f]));
          }
          c := n - 1;
        }
      }
    } else {
      c := d;
    }
  }

  /** The owner of a wanted lock can move, or wants a lock further on. */
  lemma OwnerIsFurther(w: World, pool: nat, c: CallId)
    requires Inv(w, pool) && c < |w.calls| && Waiting(w.calls[c]) && Wanted(w.calls[c]) in w.owner
    ensures var d := w.owner[Wanted(w.calls[c])];
      && d < |w.calls| && Active(w.calls[d])
      && (Waiting(w.calls[d]) ==> Precedes(Wanted(w.calls[c]), Wanted(w.calls[d])))
  {
    var a := Wanted(w.calls[c]);
    var d := w.owner[a];
    assert a in Owned(w.owner, d);
    if Waiting(w.calls[d]) { NextIsBeyond(w.calls[d].locks, w.calls[d].phase.n, a); }
  }

  /** The step an active call that waits for no lock can take. */
  function OwnStep(c: CallId, call: Call): Step {
    match call.phase
    case Acquiring(_) => Start(c)
    case Running => Finish(c)
    case Releasing(k, clean) => if k > 0 then UnlockOne(c) else if clean then Release(c) else UnlockAll(c)
    case _ => Reserve(c)
  }

  /** While a call is unfinished some call can step, and not only by failing. */
  lemma SomebodySteps(w: World, pool: nat, u: CallId) returns (s: Step)
    requires Inv(w, pool) && pool >= 1 && u < |w.calls| && w.calls[u].phase != Done
    ensures w.Enabled(s) && !s.Fails()
  {
    SomeActive(w.calls, |w.calls|);
    if c :| 0 <= c < |w.calls| && Active(w.calls[c]) && !Waiting(w.calls[c]) {
      s := OwnStep(c, w.calls[c]);
    } else if c :| 0 <= c < |w.calls| && Active(w.calls[c]) {
      var f := Furthest(w.calls, |w.calls|, c);
      if Wanted(w.calls[f]) in w.owner { OwnerIsFurther(w, pool, f); }
      s := Acquire(f);
    } else {
      s := Reserve(u);
    }
  }

  /** In every reachable state with an unfinished call, some call can take a step that is not a failure. */
  lemma NoDeadlock(run: seq<World>, steps: seq<Step>, pool: nat, i: nat, u: CallId) returns (s: Step)
    requires IsRun(run, steps, pool) && pool >= 1 && i < |run|
    requires u < |run[i].calls| && run[i].calls[u].phase != Done
    ensures run[i].Enabled(s) && !s.Fails()
  {
    RunsKeepInv(run, steps, pool, i);
    s := SomebodySteps(run[i], pool, u);
  }

  // ---- Every run ends ----

  function StepsLeft(call: Call): int {
    var l := |call.locks|;
    match call.phase
    case NotStarted => 3 * l + 4
    case Acquiring(n) => 3 * l + 3 - n
    case Running => 2 * l + 2
    case Releasing(k, clean) => 2 * k + if clean then 1 else 2
    case Done => 0
  }

  function AllStepsLeft(calls: seq<Call>, n: nat): int
    requires n <= |calls|
  {
    if n == 0 then 0 else AllStepsLeft(calls, n - 1) + StepsLeft(calls[n - 1])
  }

  lemma {:induction false} LeftAfterUpdate(calls: seq<Call>, c: CallId, call: Call, n: nat)
    requires c < |calls| && n <= |calls|
    ensures AllStepsLeft(calls[c := call], n)
         == AllStepsLeft(calls, n) + if c < n then StepsLeft(call) - StepsLeft(calls[c]) else 0
  {
    if n > 0 { LeftAfterUpdate(calls, c, call, n - 1); }
  }

  lemma {:induction false} LeftIsNatural(w: World, pool: nat, n: nat)
    requires Inv(w, pool) && n <= |w.calls|
    ensures AllStepsLeft(w.calls, n) >= 0
  {
    if n > 0 {
      LeftIsNatural(w, pool, n - 1);
      assert Holds(w.calls[n - 1], Owned(w.owner, n - 1));
    }
  }

  /** Every step, a failure too, brings its call closer to its end. */
  lemma StepsRunOut(w: World, pool: nat, s: Step)
    requires Inv(w, pool) && w.Enabled(s)
    ensures AllStepsLeft(w.Next(s).calls, |w.calls|) < AllStepsLeft(w.calls, |w.calls|)
  {
    LeftAfterUpdate(w.calls, s.c, w.Next(s).calls[s.c], |w.calls|);
    assert Holds(w.calls[s.c], Owned(w.owner, s.c));
  }

  /** No run is longer than the calls' lock counts allow, whichever acquisitions and releases fail. */
  lemma {:induction false} RunsAreBounded(run: seq<World>, steps: seq<Step>, pool: nat, i: nat)
    requires IsRun(run, steps, pool) && i < |run|
    ensures |run[i].calls| == |run[0].calls|
    ensures 0 <= AllStepsLeft(run[i].calls, |run[i].calls|) <= AllStepsLeft(run[0].calls, |run[0].calls|) - i
  {
    RunsKeepInv(run, steps, pool, i);
    LeftIsNatural(run[i], pool, |run[i].calls|);
    if i > 0 {
      RunsAreBounded(run, steps, pool, i - 1);
      RunStepRunsOut(run, steps, pool, i - 1);
    }
  }

  lemma RunStepRunsOut(run: seq<World>, steps: seq<Step>, pool: nat, i: nat)
    requires IsRun(run, steps, pool) && i < |steps|
    ensures |run[i + 1].calls| == |run[i].calls|
    ensures AllStepsLeft(run[i + 1].calls, |run[i + 1].calls|) < AllStepsLeft(run[i].calls, |run[i].calls|)
  {
    RunsKeepInv(run, steps, pool, i);
    StepsRunOut(run[i], pool, steps[i]);
  }

  /** A run that only failures could extend is over: every call is done, no lock is held, every connection is back. */
  lemma RunsEndClean(run: seq<World>, steps: seq<Step>, pool: nat)
    requires IsRun(run, steps, pool) && pool >= 1
    requires forall s: Step :: run[|steps|].Enabled(s) ==> s.Fails()
    ensures var w := run[|steps|];
      (forall c :: 0 <= c < |w.calls| ==> w.calls[c].phase == Done) && w.owner == map[] && w.free == pool
  {
    var w := run[|steps|];
    RunsKeepInv(run, steps, pool, |steps|);
    forall c | 0 <= c < |w.calls| ensures w.calls[c].phase == Done {
      if w.calls[c].phase != Done { var s := SomebodySteps(w, pool, c); }
    }
    SomeActive(w.calls, |w.calls|);
    assert forall a <- w.owner :: a in Owned(w.owner, w.owner[a]);
  }

  // ---- The code of one call ----

  /** How an unlock statement ends: done, failed after it released, or failed before. */
  datatype Unlock = Released | FailedReleased | FailedHeld

  /** A call that starts with `locks` on the only connection, and nobody else. */
  function Alone(locks: seq<Account>): World { World(1, map[], [Call(locks, NotStarted)]) }

  /** One pooled connection's session with its holds (they count), and the run of the one call that uses it. */
  class Session {
    var holds: multiset<Account>
    var reserved: bool
    ghost var run: seq<World>
    ghost var steps: seq<Step>

    constructor (locks: seq<Account>)
      ensures holds == multiset{} && !reserved && run == [Alone(locks)] && steps == []
    {
      holds, reserved, run, steps := multiset{}, false, [Alone(locks)], [];
    }

    /** The run so far has the call in this phase, and the session holds each account that the lock table gives it once. */
    ghost predicate Follows(locks: seq<Account>, phase: Phase)
      reads this
    {
      && IsRun(run, steps, 1) && run[0] == Alone(locks) && Ascending(locks)
      && run[|steps|].calls == [Call(locks, phase)] && Inv(run[|steps|], 1)
      && holds == multiset(Owned(run[|steps|].owner, 0))
      && (reserved <==> Active(Call(locks, phase)))
    }

    /** Extends the run by a step that is enabled. */
    ghost method Took(s: Step)
      requires IsRun(run, steps, 1) && Inv(run[|steps|], 1) && run[|steps|].Enabled(s)
      modifies this`run, this`steps
      ensures steps == old(steps) + [s] && run == old(run) + [old(run[|steps|]).Next(s)]
      ensures IsRun(run, steps, 1) && Inv(run[|steps|], 1)
    {
      StepKeepsInv(run[|steps|], 1, s);
      run := run + [run[|steps|].Next(s)];
      steps := steps + [s];
    }

    method Reserve(ghost locks: seq<Account>)
      requires Ascending(locks) && holds == multiset{} && !reserved && run == [Alone(locks)] && steps == []
      modifies this
      ensures Follows(locks, Acquiring(0))
    {
      InitialInv(Alone(locks), 1);
      Took(Step.Reserve(0));
      reserved := true;
    }

    method AcquireOne(ghost locks: seq<Account>, ghost n: nat, a: Account)
      requires Follows(locks, Acquiring(n)) && n < |locks| && a == locks[n]
      modifies this
      ensures Follows(locks, Acquiring(n + 1))
    {
      NextIsFree(run[|steps|], locks, n);
      OwnedAfter(run[|steps|].owner, 0, a);
      Took(Acquire(0));
      holds := holds + multiset{a};
    }

    ghost method FailToAcquire(locks: seq<Account>, n: nat)
      requires Follows(locks, Acquiring(n)) && n < |locks|
      modifies this`run, this`steps
      ensures Follows(locks, Releasing(n, true))
    {
      Took(AcquireFails(0));
    }

    /** The function runs between two steps; it sees the session's holds. */
    method CallFunction(ghost locks: seq<Account>) returns (during: multiset<Account>)
      requires Follows(locks, Acquiring(|locks|))
      modifies this`run, this`steps
      ensures Follows(locks, Releasing(|locks|, true)) && during == multiset(locks)
    {
      Took(Start(0));
      AllHeld(locks, run[|steps|].owner);
      during := holds;
      Took(Finish(0));
    }

    /** One unlock statement; a failing one may have released its lock or not. */
    method UnlockLast(ghost locks: seq<Account>, ghost k: nat, ghost clean: bool, a: Account, end: Unlock)
      requires Follows(locks, Releasing(k, clean)) && 0 < k <= |locks| && a == locks[k - 1]
      modifies this
      ensures Follows(locks, Releasing(k - 1, clean && end.Released?))
    {
      ghost var owner := run[|steps|].owner;
      StillHeld(run[|steps|], locks, k);
      OwnedBefore(owner, 0, a);
      Took(if end.Released? then UnlockOne(0) else UnlockFails(0, end.FailedReleased?));
      if end != FailedHeld { holds := holds - multiset{a}; }
    }

    /** One statement drops all holds; when it fails too the connection is gone, and its locks with it. */
    method UnlockEverything(ghost locks: seq<Account>)
      requires Follows(locks, Releasing(0, false))
      modifies this
      ensures Follows(locks, Releasing(0, true))
    {
      Took(UnlockAll(0));
      holds := multiset{};
    }

    method GiveBack(ghost locks: seq<Account>)
      requires Follows(locks, Releasing(0, true))
      modifies this
      ensures Follows(locks, Done) && holds == multiset{} && !reserved
    {
      Took(Release(0));
      reserved := false;
    }

    /**
     * One call from `reserve` to its release, as a run of the calls above. `failsAt` is the acquisition that fails, if
     * any, and takes nothing; `unlocks` says how the i-th acquired lock's release ends. Whatever fails, the run ends with
     * the call done and the connection goes back holding nothing, and the function ran exactly when every acquisition
     * succeeded, holding each account once.
     */
    method WithGrantLocks(ordered: seq<Account>, failsAt: Option<nat>, unlocks: seq<Unlock>)
      returns (during: Option<multiset<Account>>)
      requires Ascending(ordered) && |unlocks| == |ordered|
      requires holds == multiset{} && !reserved && run == [Alone(ordered)] && steps == []
      modifies this
      ensures Follows(ordered, Done) && holds == multiset{} && !reserved
      ensures during == if failsAt.Some? && failsAt.value < |ordered| then None else Some(multiset(ordered))
    {
      Reserve(ordered);
      var held, failed := AcquireInOrder(ordered, failsAt);
      if failed {
        during := None;
      } else {
        var seen := CallFunction(ordered);
        during := Some(seen);
      }
      ReleaseHeld(ordered, held, unlocks);
    }

    method AcquireInOrder(ordered: seq<Account>, failsAt: Option<nat>) returns (held: seq<Account>, failed: bool)
      requires Follows(ordered, Acquiring(0))
      modifies this
      ensures |held| <= |ordered| && held == ordered[..|held|]
      ensures failed <==> failsAt.Some? && failsAt.value < |ordered|
      ensures Follows(ordered, if failed then Releasing(|held|, true) else Acquiring(|held|))
      ensures !failed ==> |held| == |ordered|
    {
      held, failed := [], false;
      while |held| < |ordered| && !failed
        invariant |held| <= |ordered| && held == ordered[..|held|]
        invariant Follows(ordered, if failed then Releasing(|held|, true) else Acquiring(|held|))
        invariant failed ==> failsAt == Some(|held|) && |held| < |ordered|
        invariant failsAt.Some? && failsAt.value < |ordered| ==> |held| <= failsAt.value
        decreases |ordered| - |held|, !failed
      {
        if failsAt == Some(|held|) {
          FailToAcquire(ordered, |held|);
          failed := true;
        } else {
          AcquireOne(ordered, |held|, ordered[|held|]);
          held := held + [ordered[|held|]];
        }
      }
    }

    /** The `finally` block: unlock in reverse, and unlock everything when one of those failed. */
    method ReleaseHeld(ghost ordered: seq<Account>, held: seq<Account>, unlocks: seq<Unlock>)
      requires |held| <= |ordered| && held == ordered[..|held|] && |held| <= |unlocks|
      requires Follows(ordered, Releasing(|held|, true))
      modifies this
      ensures Follows(ordered, Done) && holds == multiset{} && !reserved
    {
      var released, k := true, |held|;
      while k > 0
        invariant 0 <= k <= |held|
        invariant Follows(ordered, Releasing(k, released))
      {
        UnlockLast(ordered, k, released, held[k - 1], unlocks[k - 1]);
        if unlocks[k - 1] != Released { released := false; }
        k := k - 1;
      }
      if !released { UnlockEverything(ordered); }
      GiveBack(ordered);
    }
  }

  lemma OwnedAfter(owner: map<Account, CallId>, c: CallId, a: Account)
    requires a !in owner
    ensures multiset(Owned(owner[a := c], c)) == multiset(Owned(owner, c)) + multiset{a}
  {
    assert Owned(owner[a := c], c) == Owned(owner, c) + {a};
  }

  lemma OwnedBefore(owner: map<Account, CallId>, c: CallId, a: Account)
    requires a in Owned(owner, c)
    ensures multiset(Owned(owner - {a}, c)) == multiset(Owned(owner, c)) - multiset{a}
  {
    assert Owned(owner - {a}, c) == Owned(owner, c) - {a};
  }

  /** The next lock of a call that is alone is free. */
  lemma NextIsFree(w: World, locks: seq<Account>, n: nat)
    requires Inv(w, 1) && w.calls == [Call(locks, Acquiring(n))] && n < |locks|
    ensures locks[n] !in w.owner
  {
    if locks[n] in w.owner {
      assert locks[n] in Owned(w.owner, 0);
      NextIsBeyond(locks, n, locks[n]);
    }
  }

  lemma StillHeld(w: World, locks: seq<Account>, k: nat)
    requires Inv(w, 1) && |w.calls| == 1 && w.calls[0].locks == locks && w.calls[0].phase.Releasing?
    requires w.calls[0].phase.k == k && 0 < k <= |locks|
    ensures locks[k - 1] in Owned(w.owner, 0)
  {
    FirstLocksAre(locks, k, locks[k - 1]);
  }

  lemma AllHeld(locks: seq<Account>, owner: map<Account, CallId>)
    requires Ascending(locks) && Owned(owner, 0) == FirstLocks(locks, |locks|)
    ensures multiset(Owned(owner, 0)) == multiset(locks)
  {
    assert locks[..|locks|] == locks;
    FirstLocksCount(locks, |locks|);
  }

  lemma LastIsNew(locks: seq<Account>, n: nat)
    requires Ascending(locks) && n < |locks|
    ensures locks[n] !in FirstLocks(locks, n)
  {
    if locks[n] in FirstLocks(locks, n) { NextIsBeyond(locks, n, locks[n]); }
  }

  lemma {:induction false} FirstLocksCount(locks: seq<Account>, n: nat)
    requires Ascending(locks) && n <= |locks|
    ensures multiset(FirstLocks(locks, n)) == multiset(locks[..n])
  {
    if n > 0 {
      FirstLocksCount(locks, n - 1);
      LastIsNew(locks, n - 1);
      assert locks[..n] == locks[..n - 1] + [locks[n - 1]];
      assert multiset(FirstLocks(locks, n - 1) + {locks[n - 1]}) == multiset(FirstLocks(locks, n - 1)) + multiset{locks[n - 1]};
    }
  }
}
