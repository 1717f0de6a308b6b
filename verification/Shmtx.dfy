/**
 The process mutex of ngx_shmtx.c, in the build with atomic operations and POSIX semaphores, as a system of processes
 that take one atomic step at a time.
 */
module Shmtx {

  /** Where a process stands: the next atomic operation it is about to make. */
  datatype Pc =
    | Idle            // outside of every call
    | TryRead(held: bool) // ngx_shmtx_trylock, maybe by the holder itself: looks whether the lock is free
    | TryCas          //   swaps its pid in if it still is
    | LockRead        // ngx_shmtx_lock, first test or a spin: looks whether the lock is free
    | LockCas         //   swaps its pid in if it still is
    | Register        //   counts itself as a waiter
    | WaitRead        //   looks once more, as a registered waiter
    | WaitCas         //   swaps its pid in if the lock still is free
    | Unregister      //   has got the lock and takes its registration back
    | SemWait         //   waits for the semaphore
    | Holding         // between a successful lock or trylock and the unlock
    | Unlock          // ngx_shmtx_unlock: swaps its pid for 0 if it is there
    | WakeRead        // ngx_shmtx_wakeup: reads the waiter counter
    | WakeCas(seen: int) // takes one off if the counter is still what it saw
    | SemPost         //   posts the semaphore

  /** `owners` records who has locked successfully and not yet unlocked; no step looks at it. */
  datatype State = State(lock: nat, wait: int, sem: nat, pc: map<nat, Pc>, owners: set<nat>)

  ghost predicate Init(s: State) {
    s.lock == 0 && s.wait == 0 && s.sem == 0 && s.owners == {} && 0 !in s.pc && forall p :: p in s.pc ==> s.pc[p] == Idle
  }

  function At(s: State, p: nat, pc: Pc): State {
    s.(pc := s.pc[p := pc])
  }

  function Acquired(s: State, p: nat, pc: Pc): State {
    s.(lock := p, pc := s.pc[p := pc], owners := s.owners + {p})
  }

  /** One atomic step of process p. */
  ghost predicate Step(s: State, s': State, p: nat) {
    p in s.pc &&
    match s.pc[p]
    // a call begins; unlock may be called by anyone
    case Idle => s' == At(s, p, TryRead(false)) || s' == At(s, p, LockRead) || s' == At(s, p, Unlock)
    case Holding => s' == At(s, p, Unlock) || s' == At(s, p, TryRead(true))
    case TryRead(held) => s' == At(s, p, if s.lock == 0 then TryCas else if held then Holding else Idle)
    case TryCas => s' == if s.lock == 0 then Acquired(s, p, Holding) else At(s, p, Idle)
    case LockRead => if s.lock == 0 then s' == At(s, p, LockCas) else Retry(s, s', p)
    case LockCas => if s.lock == 0 then s' == Acquired(s, p, Holding) else Retry(s, s', p)
    case Register => s' == At(s, p, WaitRead).(wait := s.wait + 1)
    case WaitRead => s' == At(s, p, if s.lock == 0 then WaitCas else SemWait)
    case WaitCas => s' == if s.lock == 0 then Acquired(s, p, Unregister) else At(s, p, SemWait)
    case Unregister => s' == At(s, p, Holding).(wait := s.wait - 1)
    // sem_wait blocks while the semaphore is 0
    case SemWait => s.sem > 0 && s' == At(s, p, LockRead).(sem := s.sem - 1)
    case Unlock =>
      s' == if s.lock == p then At(s, p, WakeRead).(lock := 0, owners := s.owners - {p}) else At(s, p, Idle)
    case WakeRead => s' == At(s, p, if s.wait <= 0 then Idle else WakeCas(s.wait))
    case WakeCas(seen) => s' == if s.wait == seen then At(s, p, SemPost).(wait := s.wait - 1) else At(s, p, WakeRead)
    case SemPost => s' == At(s, p, Idle).(sem := s.sem + 1)
  }

  /** After a failed attempt the process spins, or gives up spinning and registers as a waiter. */
  ghost predicate Retry(s: State, s': State, p: nat) {
    s' == At(s, p, LockRead) || s' == At(s, p, Register)
  }

  ghost predicate Moves(s: State, s': State) {
    exists p :: Step(s, s', p)
  }

  function Last(run: seq<State>): State
    requires run != []
  {
    run[|run| - 1]
  }

  /** A run: every state follows from the one before by a step of some process. Every prefix of a run is a run. */
  ghost predicate Run(run: seq<State>) {
    if |run| <= 1 then |run| == 1 && Init(run[0])
    else Run(run[..|run| - 1]) && Moves(Last(run[..|run| - 1]), Last(run))
  }

  // ---- the invariant ----

  /** The process counts as a waiter: it has incremented `wait` and has neither taken that back nor been woken. */
  ghost predicate Registered(pc: Pc) {
    pc.WaitRead? || pc.WaitCas? || pc.Unregister? || pc.SemWait?
  }

  ghost function Waiters(s: State): set<nat> {
    set p | p in s.pc && Registered(s.pc[p])
  }

  /** Processes that have claimed a waiter and are about to post. */
  ghost function Posters(s: State): set<nat> {
    set p | p in s.pc && s.pc[p].SemPost?
  }

  /** Inside ngx_shmtx_wakeup, or on the way to testing the lock again. */
  ghost predicate Active(pc: Pc) {
    pc.WakeRead? || pc.WakeCas? || pc.SemPost? || pc.LockRead? || pc.LockCas? || pc.Register? || pc.WaitRead? || pc.WaitCas?
  }

  ghost predicate SomeActive(s: State) {
    exists p :: p in s.pc && Active(s.pc[p])
  }

  /** The process has locked successfully and is not yet on its way to unlock. */
  ghost predicate Holds(pc: Pc) {
    pc.Holding? || pc.Unregister? || pc == TryRead(true)
  }

  ghost predicate Inv(s: State) {
    && 0 !in s.pc
    // the lock word names the one owner
    && s.owners == (if s.lock == 0 then {} else {s.lock})
    && (s.lock != 0 ==> s.lock in s.pc && (Holds(s.pc[s.lock]) || s.pc[s.lock].Unlock?))
    && (forall p :: p in s.pc && Holds(s.pc[p]) ==> s.lock == p)
    // every registered waiter is in the counter, in the semaphore or about to be posted
    && s.wait + s.sem + |Posters(s)| == |Waiters(s)|
    // while the lock is free and waiters are counted, somebody is at it
    && (s.lock == 0 && s.wait > 0 ==> s.sem > 0 || SomeActive(s))
    && (forall p :: p in s.pc && s.pc[p].WakeCas? ==> s.pc[p].seen > 0)
  }

  lemma InitInv(s: State)
    requires Init(s)
    ensures Inv(s)
  {
    assert Waiters(s) == {};
    assert Posters(s) == {};
  }

  lemma OneMoves(a: set<nat>, b: set<nat>, p: nat)
    requires a - {p} == b - {p}
    ensures |b| == |a| - (if p in a then 1 else 0) + (if p in b then 1 else 0)
  {
    assert a == if p in a then (a - {p}) + {p} else a - {p};
    assert b == if p in b then (b - {p}) + {p} else b - {p};
  }

  /** What a move of one process does to the number of waiters and posters. */
  lemma Recount(s: State, s': State, p: nat, pc: Pc)
    requires p in s.pc && s'.pc == s.pc[p := pc]
    ensures |Waiters(s')| == |Waiters(s)| - (if Registered(s.pc[p]) then 1 else 0) + (if Registered(pc) then 1 else 0)
    ensures |Posters(s')| == |Posters(s)| - (if s.pc[p].SemPost? then 1 else 0) + (if pc.SemPost? then 1 else 0)
  {
    assert Waiters(s) - {p} == Waiters(s') - {p};
    OneMoves(Waiters(s), Waiters(s'), p);
    assert Posters(s) - {p} == Posters(s') - {p};
    OneMoves(Posters(s), Posters(s'), p);
  }

  lemma StepLock(s: State, s': State, p: nat)
    requires Inv(s) && Step(s, s', p)
    ensures p in s'.pc && s'.pc == s.pc[p := s'.pc[p]]
    ensures s'.owners == (if s'.lock == 0 then {} else {s'.lock})
    ensures s'.lock != 0 ==>
      s'.lock in s'.pc && (Holds(s'.pc[s'.lock]) || s'.pc[s'.lock].Unlock?)
    ensures forall q :: q in s'.pc && Holds(s'.pc[q]) ==> s'.lock == q
  {
    hide Waiters, Posters, SomeActive;
  }

  lemma StepCount(s: State, s': State, p: nat)
    requires Inv(s) && Step(s, s', p)
    ensures s'.wait + s'.sem + |Posters(s')| == |Waiters(s')|
  {
    StepLock(s, s', p);
    Recount(s, s', p, s'.pc[p]);
  }

  /** A step that leaves the active processes does so only when the lock is taken, nobody is counted or a token is out. */
  lemma StepActive(s: State, s': State, p: nat)
    requires Inv(s) && Step(s, s', p)
    ensures s'.lock == 0 && s'.wait > 0 ==> s'.sem > 0 || SomeActive(s')
  {
    StepLock(s, s', p);
    if s'.lock == 0 && s'.wait > 0 && s'.sem == 0 {
      if Active(s'.pc[p]) {
        assert SomeActive(s');
      } else {
        assert s.lock == 0 && s.wait > 0 && s.sem == 0;
        var q :| q in s.pc && Active(s.pc[q]);
        assert q != p;
        assert q in s'.pc && Active(s'.pc[q]);
      }
    }
  }

  lemma StepInv(s: State, s': State, p: nat)
    requires Inv(s) && Step(s, s', p)
    ensures Inv(s')
  {
    StepLock(s, s', p);
    StepCount(s, s', p);
    StepActive(s, s', p);
  }

  lemma {:induction false} RunInv(run: seq<State>)
    requires Run(run)
    ensures Inv(Last(run))
  {
    if |run| == 1 {
      InitInv(run[0]);
    } else {
      RunInv(run[..|run| - 1]);
      var p :| Step(Last(run[..|run| - 1]), Last(run), p);
      StepInv(Last(run[..|run| - 1]), Last(run), p);
    }
  }

  // ---- the theorems ----

  /** At most one process is between a successful lock or trylock and its unlock; the lock word is its pid, or 0. */
  lemma MutualExclusion(run: seq<State>)
    requires Run(run)
    ensures var s := Last(run);
      && (forall p, q :: p in s.owners && q in s.owners ==> p == q)
      && (forall p :: p in s.owners <==> p != 0 && s.lock == p)
      && (forall p :: p in s.pc && Holds(s.pc[p]) ==> p in s.owners)
  {
    RunInv(run);
  }

  /** Unlock by a process that does not hold the lock changes nothing; by the holder it frees the lock. */
  lemma UnlockOnlyOwn(run: seq<State>, p: nat, s': State)
    requires Run(run) && p in Last(run).pc && Last(run).pc[p] == Unlock && Step(Last(run), s', p)
    ensures p !in Last(run).owners ==> s' == At(Last(run), p, Idle)
    ensures p in Last(run).owners ==> s'.lock == 0 && s'.owners == {}
  {
    RunInv(run);
  }

  /** Counter, semaphore and posts under way add up to the registered waiters in every state. */
  lemma WaitersAccounted(run: seq<State>)
    requires Run(run)
    ensures Last(run).wait + Last(run).sem + |Posters(Last(run))| == |Waiters(Last(run))|
  {
    RunInv(run);
  }

  /** No wakeup is lost: with the lock free, a waiter stays blocked on an empty semaphore only while somebody is active. */
  lemma NoLostWakeup(run: seq<State>, b: nat)
    requires Run(run) && b in Last(run).pc && Last(run).pc[b] == SemWait && Last(run).lock == 0 && Last(run).sem == 0
    ensures SomeActive(Last(run))
  {
    RunInv(run);
    var s := Last(run);
    assert b in Waiters(s);
    if s.wait <= 0 {
      var p :| p in Posters(s);
      assert Active(s.pc[p]);
    }
  }

  /** If nobody is inside a call except blocked waiters, none of them is stuck. */
  lemma QuietIsNotStuck(run: seq<State>, b: nat)
    requires Run(run) && b in Last(run).pc && Last(run).pc[b] == SemWait
    requires forall p :: p in Last(run).pc ==> Last(run).pc[p] == Idle || Last(run).pc[p] == SemWait
    ensures Last(run).sem > 0
  {
    RunInv(run);
    if Last(run).sem == 0 { NoLostWakeup(run, b); }
  }

  /** With everybody outside, the counter is minus the tokens posted for waiters who had got the lock themselves. */
  lemma QuietCounter(run: seq<State>)
    requires Run(run) && forall p :: p in Last(run).pc ==> Last(run).pc[p] == Idle
    ensures Last(run).wait + Last(run).sem == 0
  {
    RunInv(run);
    assert Waiters(Last(run)) == {};
    assert Posters(Last(run)) == {};
  }

  // ---- the counter does go negative ----

  lemma Extend(run: seq<State>, s': State, p: nat) returns (longer: seq<State>)
    requires Run(run) && Step(Last(run), s', p)
    ensures Run(longer) && Last(longer) == s'
  {
    longer := run + [s'];
    assert longer[..|longer| - 1] == run;
  }

  /** Process 1 holds the lock and process 2 has registered as a waiter. */
  lemma OneWaits() returns (run: seq<State>)
    ensures Run(run) && Last(run) == State(1, 1, 0, map[1 := Holding, 2 := WaitRead], {1})
  {
    var s := State(0, 0, 0, map[1 := Idle, 2 := Idle], {});
    run := [s];
    run := Extend(run, At(Last(run), 1, LockRead), 1);
    run := Extend(run, At(Last(run), 1, LockCas), 1);
    run := Extend(run, Acquired(Last(run), 1, Holding), 1);
    run := Extend(run, At(Last(run), 2, LockRead), 2);
    run := Extend(run, At(Last(run), 2, Register), 2);
    run := Extend(run, At(Last(run), 2, WaitRead).(wait := 1), 2);
    assert Last(run).pc == map[1 := Holding, 2 := WaitRead];
  }

  /** Process 1 unlocks and claims the waiter; before it posts, 2 finds the lock free and takes its registration back. */
  lemma CounterGoesNegative() returns (run: seq<State>)
    ensures Run(run) && Last(run).wait == -1
  {
    run := OneWaits();
    run := Extend(run, At(Last(run), 1, Unlock), 1);
    run := Extend(run, At(Last(run), 1, WakeRead).(lock := 0, owners := Last(run).owners - {1}), 1);
    run := Extend(run, At(Last(run), 1, WakeCas(1)), 1);
    run := Extend(run, At(Last(run), 1, SemPost).(wait := 0), 1);
    run := Extend(run, At(Last(run), 2, WaitCas), 2);
    run := Extend(run, Acquired(Last(run), 2, Unregister), 2);
    run := Extend(run, At(Last(run), 2, Holding).(wait := -1), 2);
  }
}
