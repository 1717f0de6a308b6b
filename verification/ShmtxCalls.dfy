/** How the calls of the process mutex end: what a failed trylock has seen, and what a process achieves that moves alone. */
module ShmtxCalls {
  import opened Shmtx

  // ---- steps of a run ----

  lemma {:induction false} Prefix(run: seq<State>, n: nat)
    requires Run(run) && 0 < n <= |run|
    ensures Run(run[..n])
    decreases |run|
  {
    if n < |run| {
      assert run[..|run| - 1][..n] == run[..n];
      Prefix(run[..|run| - 1], n);
    } else {
      assert run[..n] == run;
    }
  }

  lemma StepAt(run: seq<State>, k: nat)
    requires Run(run) && k + 1 < |run|
    ensures Moves(run[k], run[k + 1])
  {
    hide Moves, Init;
    Prefix(run, k + 2);
    assert run[..k + 2][..k + 1] == run[..k + 1];
    assert Last(run[..k + 1]) == run[k] && Last(run[..k + 2]) == run[k + 1];
  }

  // ---- a trylock that fails ----

  ghost predicate Trying(s: State, p: nat) {
    p in s.pc && (s.pc[p] == TryRead(false) || s.pc[p] == TryCas)
  }

  lemma GivesUp(s: State, s': State, p: nat)
    requires Moves(s, s') && Trying(s, p) && p in s'.pc && s'.pc[p] == Idle
    ensures s.lock != 0
  {
  }

  /** A trylock from its call in state i to its end in state j: if it comes back without the lock, the lock was not free. */
  lemma FailedSawLock(run: seq<State>, i: nat, j: nat, p: nat)
    requires Run(run) && i < j < |run| && forall k :: i <= k < j ==> Trying(run[k], p)
    requires p in run[j].pc && run[j].pc[p] == Idle
    ensures run[j - 1].lock != 0
  {
    hide Run, Moves, Trying;
    StepAt(run, j - 1);
    GivesUp(run[j - 1], run[j], p);
  }

  /** The holder itself is refused, too: its trylock comes back, and nothing has changed. */
  lemma HolderIsRefused(run: seq<State>, p: nat) returns (mid: State)
    requires Run(run) && p in Last(run).pc && Last(run).pc[p] == Holding
    ensures Step(Last(run), mid, p) && p in mid.pc && mid.pc[p] == TryRead(true)
    ensures forall s' :: Step(mid, s', p) <==> s' == Last(run)
  {
    RunInv(run);
    var s := Last(run);
    mid := At(s, p, TryRead(true));
    assert At(mid, p, Holding) == s by { assert mid.pc[p := Holding] == s.pc; }
  }

  /** While the lock is taken a process in lock may test it again and again. */
  lemma {:induction false} MaySpin(s: State, p: nat, n: nat) returns (states: seq<State>)
    requires p in s.pc && s.pc[p] == LockRead && s.lock != 0
    ensures Alone(states, p) && |states| == 1 + n && forall i :: 0 <= i <= n ==> states[i] == s
    decreases n
  {
    states := [s];
    if n > 0 {
      var rest := MaySpin(s, p, n - 1);
      states := [s] + rest;
      assert s.pc[p := LockRead] == s.pc;
      forall i | 0 <= i < n ensures NextStep(states, i, p) {}
    }
  }

  // ---- a process that moves alone and gets the lock ----

  /** Inside trylock or lock with the lock free; a waiter that sleeps needs a token. */
  ghost predicate Getting(s: State, p: nat) {
    p in s.pc &&
    match s.pc[p]
    case TryRead(held) => !held && s.lock == 0
    case TryCas => s.lock == 0
    case LockRead => s.lock == 0
    case LockCas => s.lock == 0
    case Register => s.lock == 0
    case WaitRead => s.lock == 0
    case WaitCas => s.lock == 0
    case SemWait => s.lock == 0 && s.sem > 0
    case Unregister => true
    case _ => false
  }

  ghost predicate Got(s: State, p: nat) {
    p in s.pc && s.pc[p] == Holding && p in s.owners && s.lock == p
  }

  /** The steps to go. */
  function ToGo(pc: Pc): nat {
    match pc
    case Register => 4
    case WaitRead => 3
    case SemWait => 3
    case WaitCas => 2
    case TryRead(_) => 2
    case LockRead => 2
    case _ => 1
  }

  lemma GettingStep(s: State, s': State, p: nat)
    requires Inv(s) && Getting(s, p) && Step(s, s', p)
    ensures Inv(s') && p in s'.pc
    ensures if ToGo(s.pc[p]) == 1 then Got(s', p) else Getting(s', p) && ToGo(s'.pc[p]) == ToGo(s.pc[p]) - 1
  {
    StepInv(s, s', p);
    GettingNext(s, s', p);
  }

  lemma GettingNext(s: State, s': State, p: nat)
    requires 0 !in s.pc && Getting(s, p) && Step(s, s', p)
    requires s.pc[p] == Unregister ==> s.lock == p && p in s.owners
    ensures p in s'.pc
    ensures if ToGo(s.pc[p]) == 1 then Got(s', p) else Getting(s', p) && ToGo(s'.pc[p]) == ToGo(s.pc[p]) - 1
    ensures s'.pc[p] == Unregister ==> s'.lock == p && p in s'.owners
  {
  }

  lemma GettingCanStep(s: State, p: nat) returns (s': State)
    requires Inv(s) && Getting(s, p)
    ensures Step(s, s', p)
  {
    match s.pc[p]
    case TryRead(_) => s' := At(s, p, TryCas);
    case TryCas => s' := Acquired(s, p, Holding);
    case LockRead => s' := At(s, p, LockCas);
    case LockCas => s' := Acquired(s, p, Holding);
    case Register => s' := At(s, p, WaitRead).(wait := s.wait + 1);
    case WaitRead => s' := At(s, p, WaitCas);
    case WaitCas => s' := Acquired(s, p, Unregister);
    case SemWait => s' := At(s, p, LockRead).(sem := s.sem - 1);
    case Unregister => s' := At(s, p, Holding).(wait := s.wait - 1);
  }

  /** Steps of p and nobody else. */
  ghost predicate Alone(states: seq<State>, p: nat) {
    states != [] && forall i :: 0 <= i < |states| - 1 ==> NextStep(states, i, p)
  }

  ghost predicate NextStep(states: seq<State>, i: nat, p: nat)
    requires i + 1 < |states|
  {
    Step(states[i], states[i + 1], p)
  }

  /**
   From every reachable state in which p is inside trylock or lock, the lock is free, and p does not sleep without a
   token: whatever p does alone, after as many steps as are to go it has the lock.
   */
  lemma AloneGetsLock(run: seq<State>, states: seq<State>, p: nat)
    requires Run(run) && Alone(states, p) && states[0] == Last(run) && Getting(states[0], p)
    requires |states| == 1 + ToGo(states[0].pc[p])
    ensures Got(Last(states), p)
  {
    RunInv(run);
    AloneGets(states, p);
  }

  lemma {:induction false} AloneGets(states: seq<State>, p: nat)
    requires Alone(states, p) && Inv(states[0]) && Getting(states[0], p) && |states| == 1 + ToGo(states[0].pc[p])
    ensures Got(Last(states), p)
    decreases |states|
  {
    hide Inv, Getting, Got, Step;
    assert NextStep(states, 0, p);
    GettingStep(states[0], states[1], p);
    if |states| > 2 {
      var rest := states[1..];
      forall i | 0 <= i < |rest| - 1 ensures NextStep(rest, i, p) { assert NextStep(states, i + 1, p); }
      AloneGets(rest, p);
    }
  }

  /** And it can make these steps. */
  lemma {:induction false} AloneCan(s: State, p: nat) returns (states: seq<State>)
    requires Inv(s) && Getting(s, p)
    ensures Alone(states, p) && states[0] == s && Got(Last(states), p)
    decreases ToGo(s.pc[p])
  {
    hide Inv, Step, Got;
    var s' := GettingCanStep(s, p);
    GettingStep(s, s', p);
    var rest := [s'];
    if ToGo(s.pc[p]) > 1 { rest := AloneCan(s', p); }
    states := [s] + rest;
    forall i | 0 <= i < |states| - 1
      ensures NextStep(states, i, p)
    {
      if i > 0 { assert NextStep(rest, i - 1, p); }
    }
    assert Last(states) == Last(rest);
  }

  // ---- a holder that unlocks alone ----

  /** Where a holder stands that has unlocked alone from s on: the lock is free, and one waiter that is counted gets a token. */
  ghost predicate Unlocking(s: State, s': State, p: nat) {
    var free := s.(lock := 0, owners := s.owners - {p});
    p in s.pc && p in s'.pc &&
    match s'.pc[p]
    case Unlock => s' == s
    case WakeRead => s' == At(free, p, WakeRead)
    case WakeCas(seen) => seen == s.wait > 0 && s' == At(free, p, WakeCas(seen))
    case SemPost => s.wait > 0 && s' == At(free, p, SemPost).(wait := s.wait - 1)
    case Idle => s' == if s.wait > 0 then At(free, p, Idle).(wait := s.wait - 1, sem := s.sem + 1) else At(free, p, Idle)
    case _ => false
  }

  lemma UnlockingStep(s: State, mid: State, s': State, p: nat)
    requires s.lock == p && p in s.pc && s.pc[p] == Unlock && Unlocking(s, mid, p) && mid.pc[p] != Idle && Step(mid, s', p)
    ensures Unlocking(s, s', p)
  {
    assert s.pc[p := Unlock] == s.pc;
    assert p in mid.pc && mid.pc == s.pc[p := mid.pc[p]];
  }

  /** A holder that calls unlock and moves alone until it is outside has freed the lock and woken one waiter, if one is counted. */
  lemma UnlockAlone(states: seq<State>, p: nat)
    requires Alone(states, p) && states[0].lock == p && p in states[0].pc && states[0].pc[p] == Unlock
    requires forall i :: 0 <= i < |states| - 1 ==> p in states[i].pc && states[i].pc[p] != Idle
    requires p in Last(states).pc && Last(states).pc[p] == Idle
    ensures var s := states[0]; var free := At(s, p, Idle).(lock := 0, owners := s.owners - {p});
      Last(states) == if s.wait > 0 then free.(wait := s.wait - 1, sem := s.sem + 1) else free
  {
    hide Step;
    var k := 0;
    while k + 1 < |states|
      invariant k < |states| && Unlocking(states[0], states[k], p)
    {
      assert NextStep(states, k, p);
      UnlockingStep(states[0], states[k], states[k + 1], p);
      k := k + 1;
    }
  }
}
