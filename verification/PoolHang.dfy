/**
 When the wait of the destructor may never end. A thread that leaves after an idle timeout notifies nobody; if it is the
 last one, and the destructor already waits, nothing wakes the destructor any more.
 */
module PoolHang {
  import opened PoolState
  import opened PoolSafety
  import opened PoolShutdown
  import opened PoolRuns

  /**
   Waiting for a task, or on the way into or out of that wait. The wait may have lasted too long by the time the mutex is
   back, whether the thread was notified or not.
   */
  predicate Late(pc: Pc) {
    pc == Sleep || pc == Asleep || pc.Woken?
  }

  ghost predicate NobodyLate(s: State) {
    forall w :: 0 <= w < |s.workers| ==> !Late(s.workers[w]) && (s.dtor != Stopping ==> s.workers[w] != TimedOut)
  }

  /** The destructor has begun, and no run from here on can hang. */
  ghost predicate Safe(s: State) {
    s.dtor != Alive && !Hung(s) && (s.cur == s.init || NobodyLate(s))
  }

  /** Some run from here on hangs. */
  ghost predicate CanHang(s: State) {
    exists run :: Hangs(run) && run[0] == s
  }

  ghost predicate Hangs(run: seq<State>) {
    run != [] && Steps(run) && Hung(Last(run))
  }

  // ---- a safe pool stays safe ----

  lemma WorkerStaysTimely(s: State, s': State, w: nat)
    requires Inv(s) && s.dtor != Alive && NobodyLate(s) && WorkerStep(s, s', w)
    ensures NobodyLate(s')
  {
    WorkerFrame(s, s', w);
    WorkerDtor(s, s', w);
    WorkerComes(s, s', w);
    WorkerTimesOut(s, s', w);
  }

  /** Workers time out in their wait only. */
  lemma WorkerTimesOut(s: State, s': State, w: nat)
    requires w < |s.workers| == |s'.workers| && WorkerStep(s, s', w)
    ensures !s'.workers[w].Woken?
    ensures s'.workers[w] == TimedOut ==> s.workers[w].Woken?
  {
  }

  lemma WorkerSafe(s: State, s': State, w: nat)
    requires Inv(s) && Safe(s) && WorkerStep(s, s', w)
    ensures Safe(s')
  {
    hide NobodyLate;
    WorkerFrame(s, s', w);
    WorkerNumbers(s, s', w);
    WorkerStays(s, s', w);
    WorkerDtor(s, s', w);
    WorkerComes(s, s', w);
    if s.cur == s.init {
      LeavesCounted(s, s', w);
    } else {
      WorkerStaysTimely(s, s', w);
      TimelyLeaves(s, w);
    }
  }

  /** Leaving after a timeout needs more threads than the initial ones. */
  lemma LeavesCounted(s: State, s': State, w: nat)
    requires w < |s.workers| == |s'.workers| && WorkerStep(s, s', w) && s.cur == s.init
    ensures s'.cur == s'.init && !(s.workers[w] == TimedOut && s'.workers[w] == Gone)
  {
  }

  lemma TimelyLeaves(s: State, w: nat)
    requires NobodyLate(s) && w < |s.workers|
    ensures s.workers[w] == TimedOut ==> s.dtor == Stopping
  {
  }

  lemma DtorSafe(s: State, s': State)
    requires Inv(s) && Safe(s) && DtorStep(s, s')
    ensures Safe(s')
  {
    if s.cur != s.init {
      forall w | 0 <= w < |s.workers| ensures !Late(s'.workers[w]) && s'.workers[w] != TimedOut {}
    }
  }

  lemma StirSafe(s: State, s': State)
    requires Inv(s) && Safe(s) && Stir(s, s')
    ensures Safe(s')
  {
  }

  lemma SafeKept(s: State, s': State)
    requires Inv(s) && Safe(s) && (Works(s, s') || Stir(s, s'))
    ensures Safe(s')
  {
    if Stir(s, s') {
      StirSafe(s, s');
    } else if DtorStep(s, s') {
      DtorSafe(s, s');
    } else if w :| WorkerStep(s, s', w) {
      WorkerSafe(s, s', w);
    }
  }

  lemma {:induction false} SafeNeverHangs(run: seq<State>)
    requires run != [] && Inv(run[0]) && Safe(run[0]) && Steps(run)
    ensures Inv(Last(run)) && Safe(Last(run)) && !Hung(Last(run))
    decreases |run|
  {
    hide Inv, Steps, Works, Stir, NobodyLate;
    if |run| > 1 {
      StepsTail(run);
      StepInv(run[0], run[1]);
      SafeKept(run[0], run[1]);
      assert Last(run) == Last(run[1..]);
      SafeNeverHangs(run[1..]);
    }
  }

  // ---- a late thread can make the destructor hang ----

  lemma Earlier(s: State, s': State)
    requires (Works(s, s') || Stir(s, s')) && CanHang(s')
    ensures CanHang(s)
  {
    hide Works, Stir, Hung;
    var run :| Hangs(run) && run[0] == s';
    var longer := [s] + run;
    forall i | 0 <= i < |longer| - 1
      ensures Next(longer, i)
    {
      if i > 0 { assert Next(run, i - 1); }
    }
    assert Last(longer) == Last(run);
    assert Hangs(longer) && longer[0] == s;
  }

  /** Worker w comes out of its wait in a pool that has grown, and wants the mutex back. */
  ghost predicate Grown(s: State, w: nat) {
    Inv(s) && s.cur > s.init && s.dtor != Alive && w < |s.workers| && s.workers[w].Woken?
  }

  lemma GrownFacts(s: State, w: nat)
    requires Grown(s, w)
    ensures s.mode == Cached && s.dtor != Done && w in s.threads && s.lock != Worker(w) && !s.lock.Client?
  {
    assert w in LiveIds(s.workers);
  }

  /** Another worker moves; w keeps waiting for the mutex. */
  lemma OtherMoves(s: State, w: nat, v: nat) returns (s': State)
    requires Grown(s, w) && v != w && v < |s.workers| && s.workers[v] != Gone && s.workers[v] != Asleep
    requires s.lock == Nobody || s.lock == Worker(v)
    ensures WorkerStep(s, s', v) && Grown(s', w)
  {
    s' := WorkerCanMove(s, v);
    WorkerInv(s, s', v);
    WorkerFrame(s, s', v);
    WorkerStays(s, s', v);
  }

  /** The last thread takes the mutex and leaves: nobody is notified. */
  lemma LastLeaves(s: State, w: nat)
    requires Grown(s, w) && s.dtor == ExitAsleep && s.lock == Nobody && s.threads == {w}
    ensures CanHang(s)
  {
    GrownFacts(s, w);
    var s1 := WorkerAt(s, w, TimedOut).(lock := Worker(w));
    var s2 := WorkerAt(s1, w, Gone).(threads := s1.threads - {w}, cur := s1.cur - 1, idle := s1.idle - 1, lock := Nobody);
    assert WorkerStep(s, s1, w) && Works(s, s1);
    assert WorkerStep(s1, s2, w) && Works(s1, s2);
    assert Hangs([s2]) && [s2][0] == s2;
    Earlier(s1, s2);
    Earlier(s, s1);
  }

  /** After the notification all others retire, and w is the last one. */
  lemma {:induction false} OthersRetire(s: State, w: nat)
    requires Grown(s, w) && Ending(s)
    ensures CanHang(s)
    decreases Left(s)
  {
    hide CanHang, Left;
    GrownFacts(s, w);
    var s';
    if s.lock.Worker? {
      s' := OtherMoves(s, w, s.lock.id);
    } else if s.lock == Destructor {
      s' := s.(dtor := ExitAsleep, lock := Nobody);
      assert DtorStep(s, s');
    } else if s.dtor == ExitWoken {
      s' := s.(lock := Destructor, dtor := TestEmpty);
      assert DtorStep(s, s');
    } else if s.threads == {w} {
      LastLeaves(s, w);
      return;
    } else {
      var v :| v in s.threads && v != w;
      assert v in LiveIds(s.workers);
      s' := OtherMoves(s, w, v);
    }
    assert Works(s, s');
    EndNearer(s, s');
    OthersRetire(s', w);
    Earlier(s, s');
  }

  /** The destructor gets the free mutex and notifies. */
  lemma DestructorNotifies(s: State, w: nat)
    requires Grown(s, w) && s.dtor == Stopping && s.lock == Nobody
    ensures CanHang(s)
  {
    hide CanHang;
    var s1 := s.(lock := Destructor, dtor := Notify);
    var s2 := s1.(workers := WakeWorkers(s1.workers), dtor := TestEmpty);
    assert DtorStep(s, s1) && Works(s, s1);
    StepInv(s, s1);
    assert DtorStep(s1, s2) && Works(s1, s2);
    StepInv(s1, s2);
    OthersRetire(s2, w);
    Earlier(s1, s2);
    Earlier(s, s1);
  }

  /** Steps until the holder of the mutex lets go of it. */
  function Holding(pc: Pc): nat {
    match pc
    case TimedOut => 5
    case Test => 4
    case TestRunning => 3
    case Take => 2
    case _ => 1
  }

  lemma {:induction false} HolderReleases(s: State, w: nat)
    requires Grown(s, w) && s.dtor == Stopping
    ensures CanHang(s)
    decreases if s.lock.Worker? && s.lock.id < |s.workers| then Holding(s.workers[s.lock.id]) else 0
  {
    hide CanHang;
    GrownFacts(s, w);
    if s.lock.Worker? {
      var v := s.lock.id;
      var s' := OtherMoves(s, w, v);
      HolderNearer(s, s', v);
      assert Works(s, s');
      HolderReleases(s', w);
      Earlier(s, s');
    } else {
      DestructorNotifies(s, w);
    }
  }

  lemma HolderNearer(s: State, s': State, v: nat)
    requires Inv(s) && s.dtor == Stopping && s.lock == Worker(v) && WorkerStep(s, s', v)
    ensures s'.dtor == Stopping
    ensures s'.lock == Nobody || (s'.lock == Worker(v) && v < |s'.workers| == |s.workers| && Holding(s'.workers[v]) < Holding(s.workers[v]))
  {
  }

  /** A thread that waits for a task, or is on the way there or back, may find that it has waited too long. */
  lemma {:induction false} LateMayHang(s: State, w: nat)
    requires Inv(s) && s.dtor == Stopping && s.cur > s.init && w < |s.workers| && Late(s.workers[w])
    ensures CanHang(s)
    decreases s.workers[w] == Sleep
  {
    hide CanHang;
    if s.workers[w] == Sleep {
      var s1 := WorkerAt(s, w, Asleep).(lock := Nobody);
      assert WorkerStep(s, s1, w) && Works(s, s1);
      StepInv(s, s1);
      LateMayHang(s1, w);
      Earlier(s, s1);
    } else if s.workers[w] == Asleep {
      var s1 := WorkerAt(s, w, Woken(true));
      assert Stir(s, s1);
      StepInv(s, s1);
      HolderReleases(s1, w);
      Earlier(s, s1);
    } else {
      HolderReleases(s, w);
    }
  }

  // ---- the exact condition ----

  /**
   When the destructor is called it may hang exactly if the pool has more threads than it was started with and one of
   them waits for a task, is about to, or wants the mutex back after its wait.
   */
  lemma HangsExactlyIf(s: State, s': State)
    requires Inv(s) && s.dtor == Alive && DtorStep(s, s')
    ensures CanHang(s') <==> s.cur > s.init && exists w :: 0 <= w < |s.workers| && Late(s.workers[w])
  {
    hide Inv, Steps;
    DtorBegins(s, s');
    if s.cur > s.init && exists w :: 0 <= w < |s.workers| && Late(s.workers[w]) {
      var w: nat :| w < |s.workers| && Late(s.workers[w]);
      LateMayHang(s', w);
    } else {
      assert Safe(s');
      forall run | Hangs(run) && run[0] == s'
        ensures false
      {
        SafeNeverHangs(run);
      }
    }
  }

  lemma DtorBegins(s: State, s': State)
    requires Inv(s) && s.dtor == Alive && DtorStep(s, s')
    ensures s' == s.(running := false, dtor := Stopping) && Inv(s') && s.init <= s.cur
  {
    DtorInv(s, s');
  }

  /** In fixed mode there are never more threads, so the destructor cannot hang. */
  lemma FixedNeverHangs(s: State, s': State)
    requires Inv(s) && s.mode == Fixed && s.dtor == Alive && DtorStep(s, s')
    ensures s.cur == s.init && !CanHang(s')
  {
    HangsExactlyIf(s, s');
  }

  // ---- runs that hang ----

  /** In cached mode a thread that times out may leave last: a run from the start to a destructor that waits for ever. */
  lemma CachedMayHang() returns (run: seq<State>)
    ensures Trace(run) && Last(run).mode == Cached && Hung(Last(run)) && !CanMove(Last(run))
  {
    run := OneThreadSleeps(1, 1);
    run := ThenTimesOut(run, 0, true);
    run := OneThreadStops(run, 1, 1, true);
    run := ThenWorks(run, 0, OneThread(1, 1, TimedOut, Outside, Worker(0), [], 1, ExitAsleep, [7]));
    run := ThenWorks(run, 0, NoThread(1, 1, [], ExitAsleep, [7]));
    TraceInv(run);
    HungCannotMove(Last(run));
  }

  /** The same for a thread that was woken in time: when it gets the mutex back its wait has lasted too long. */
  lemma NotifiedMayHang(s': State) returns (run: seq<State>)
    requires s' == OneThread(1, 1, Woken(false), Outside, Nobody, [], 1, Stopping, [7])
    ensures Trace(run) && Last(run) == OneThread(1, 1, Woken(false), Outside, Nobody, [], 1, Alive, [7])
    ensures DtorStep(Last(run), s') && CanHang(s')
  {
    hide Inv, CanHang, Trace, Works, Stir;
    run := OneThreadSleeps(1, 1);
    run := ThenTimesOut(run, 0, false);
    assert Last(run) == OneThread(1, 1, Woken(false), Outside, Nobody, [], 1, Alive, [7]);
    TraceInv(run);
    assert Late(Last(run).workers[0]);
    HangsExactlyIf(Last(run), s');
  }
}
