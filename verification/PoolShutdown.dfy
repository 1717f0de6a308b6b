/**
 The destructor: after its notification every step brings the end nearer, and when it returns the threads are gone and
 the queue is drained.
 */
module PoolShutdown {
  import opened PoolState
  import opened PoolSafety

  // ---- the measure ----

  ghost function Rank(pc: Pc): nat {
    match pc
    case NotifyOthers(_) => 9
    case Run(_) => 8
    case Finish => 7
    case Acquire => 6
    case Woken(_) => 7
    case TimedOut => 6
    case Test => 5
    case TestRunning => 4
    case Take => 4
    case _ => 0
  }

  ghost function Ranks(ws: seq<Pc>): nat {
    if ws == [] then 0 else Ranks(ws[..|ws| - 1]) + Rank(ws[|ws| - 1])
  }

  ghost function DtorRank(d: Dtor): nat {
    if d == ExitWoken then 2 else if d == TestEmpty then 1 else 0
  }

  /** What is left to do: every queued task takes a worker once around its loop. */
  ghost function Left(s: State): nat {
    8 * |s.queue| + Ranks(s.workers) + DtorRank(s.dtor)
  }

  lemma {:induction false} RanksUpdate(ws: seq<Pc>, w: nat, pc: Pc)
    requires w < |ws|
    ensures Ranks(ws[w := pc]) == Ranks(ws) - Rank(ws[w]) + Rank(pc)
    decreases ws
  {
    var n := |ws| - 1;
    if w == n {
      assert ws[w := pc][..n] == ws[..n];
    } else {
      assert ws[w := pc][..n] == ws[..n][w := pc];
      RanksUpdate(ws[..n], w, pc);
    }
  }

  lemma NobodyAsleep(ws: seq<Pc>)
    requires forall i :: 0 <= i < |ws| ==> ws[i] != Asleep
    ensures WakeWorkers(ws) == ws
  {
  }

  // ---- every step brings the end nearer ----

  /** The last notification of the destructor is out. */
  ghost predicate Ending(s: State) {
    Inv(s) && Past(s.dtor)
  }

  lemma WorkerLighter(s: State, s': State, w: nat)
    requires Ending(s) && w < |s.workers| == |s'.workers| && WorkerStep(s, s', w)
    ensures Past(s'.dtor) && s'.workers == s.workers[w := s'.workers[w]]
    ensures 8 * |s'.queue| + Rank(s'.workers[w]) + DtorRank(s'.dtor) < 8 * |s.queue| + Rank(s.workers[w]) + DtorRank(s.dtor)
  {
    NobodyAsleep(s.workers);
  }

  lemma WorkerNearer(s: State, s': State, w: nat)
    requires Ending(s) && WorkerStep(s, s', w)
    ensures Past(s'.dtor) && Left(s') < Left(s)
  {
    hide Rank;
    WorkerFrame(s, s', w);
    WorkerLighter(s, s', w);
    RanksUpdate(s.workers, w, s'.workers[w]);
  }

  lemma DtorNearer(s: State, s': State)
    requires Ending(s) && DtorStep(s, s')
    ensures Past(s'.dtor) && Left(s') < Left(s)
  {
  }

  /** No worker ever blocks again, and every step that a thread makes on its own account shortens what is left. */
  lemma EndNearer(s: State, s': State)
    requires Ending(s) && Works(s, s')
    ensures Ending(s') && Left(s') < Left(s)
  {
    StepInv(s, s');
    if DtorStep(s, s') {
      DtorNearer(s, s');
    } else if w :| WorkerStep(s, s', w) {
      WorkerNearer(s, s', w);
    }
  }

  /** A stray wakeup costs the destructor one more look. */
  lemma StrayCosts(s: State, s': State)
    requires Ending(s) && Stir(s, s')
    ensures Ending(s') && Left(s') <= Left(s) + 2
  {
    StepInv(s, s');
  }

  // ---- when a step is possible ----

  ghost predicate CanMove(s: State) {
    exists s' :: Works(s, s')
  }

  /** The destructor waits for a notification, and no thread is left to send one. */
  ghost predicate Hung(s: State) {
    s.dtor == ExitAsleep && s.threads == {}
  }

  /** Once the pool is stopped a worker that is awake can move, if the mutex is free or its own; it need not leave early. */
  lemma WorkerCanMove(s: State, w: nat) returns (s': State)
    requires Inv(s) && s.dtor != Alive && w < |s.workers| && s.workers[w] != Gone && s.workers[w] != Asleep
    requires s.lock == Nobody || s.lock == Worker(w)
    ensures WorkerStep(s, s', w) && s'.cur == s.cur
  {
    match s.workers[w]
    case Acquire => s' := WorkerAt(s, w, Test).(lock := Worker(w));
    case Test => s' := WorkerAt(s, w, if s.queue == [] then TestRunning else Take);
    case TestRunning => s' := WorkerAt(s, w, Gone).(threads := s.threads - {w}, dtor := WakeDtor(s.dtor), lock := Nobody);
    case Woken(timeout) => s' := WorkerAt(s, w, if timeout && s.mode == Cached then TimedOut else Test).(lock := Worker(w));
    case TimedOut => s' := WorkerAt(s, w, Test);
    case Sleep => s' := WorkerAt(s, w, Asleep).(lock := Nobody);
    case Take =>
      s' := WorkerAt(s, w, NotifyOthers(s.queue[0])).(idle := s.idle - 1, queue := s.queue[1..],
                                                      taskSize := s.taskSize - 1, taken := s.taken + [s.queue[0]]);
    case NotifyOthers(task) =>
      s' := s.(workers := (if s.queue != [] then WakeWorkers(s.workers) else s.workers)[w := Run(task)],
               clients := WakeClients(s.clients), lock := Nobody);
    case Run(task) => s' := WorkerAt(s, w, Finish).(finished := s.finished + [task]);
    case Finish => s' := WorkerAt(s, w, Acquire).(idle := s.idle + 1);
  }

  lemma NoClientInside(s: State)
    requires Inv(s) && s.dtor != Alive
    ensures !s.lock.Client?
  {
  }

  lemma SomeoneCanMove(s: State)
    requires Ending(s) && s.dtor != Done && !Hung(s)
    ensures CanMove(s)
  {
    if s.lock.Worker? {
      var s' := WorkerCanMove(s, s.lock.id);
      assert Works(s, s');
    } else if s.lock == Destructor {
      var s' := s.(dtor := if s.threads == {} then Done else ExitAsleep, lock := Nobody);
      assert DtorStep(s, s') && Works(s, s');
    } else {
      NoClientInside(s);
      if s.dtor == ExitWoken {
        var s' := s.(lock := Destructor, dtor := TestEmpty);
        assert DtorStep(s, s') && Works(s, s');
      } else {
        var w :| w in LiveIds(s.workers);
        var s' := WorkerCanMove(s, w);
        assert Works(s, s');
      }
    }
  }

  lemma HungAllGone(s: State)
    requires Ending(s) && Hung(s)
    ensures forall w :: 0 <= w < |s.workers| ==> s.workers[w] == Gone
  {
    forall w: nat | w < |s.workers|
      ensures s.workers[w] == Gone
    {
      assert w !in LiveIds(s.workers);
    }
  }

  lemma HungCannotMove(s: State)
    requires Ending(s) && Hung(s)
    ensures !CanMove(s)
  {
    HungAllGone(s);
  }

  /** Until the destructor is done some thread can make a step, except when it waits and no thread is left. */
  lemma StuckExactlyIfHung(s: State)
    requires Ending(s) && s.dtor != Done
    ensures CanMove(s) <==> !Hung(s)
  {
    hide Ending, CanMove;
    if Hung(s) { HungCannotMove(s); } else { SomeoneCanMove(s); }
  }

  // ---- runs ----

  /** A run of steps and stray wakeups from some state on. */
  ghost predicate Steps(run: seq<State>) {
    forall i :: 0 <= i < |run| - 1 ==> Next(run, i)
  }

  ghost predicate Next(run: seq<State>, i: nat)
    requires i + 1 < |run|
  {
    Works(run[i], run[i + 1]) || Stir(run[i], run[i + 1])
  }

  /** How many of the steps are nothing but stray wakeups. */
  ghost function Strays(run: seq<State>): nat {
    if |run| <= 1 then 0 else (if Works(run[0], run[1]) then 0 else 1) + Strays(run[1..])
  }

  lemma StepsTail(run: seq<State>)
    requires |run| > 1 && Steps(run)
    ensures (Works(run[0], run[1]) || Stir(run[0], run[1])) && Steps(run[1..])
  {
    assert Next(run, 0);
    forall i | 0 <= i < |run[1..]| - 1
      ensures Next(run[1..], i)
    {
      assert Next(run, i + 1);
    }
  }

  /**
   The wait of the destructor ends: what is left and the stray wakeups bound the length of every run from there on,
   and a run that cannot go on is at Done or hung.
   */
  lemma {:induction false} WaitEnds(run: seq<State>)
    requires run != [] && Ending(run[0]) && Steps(run)
    ensures Ending(Last(run)) && |run| + Left(Last(run)) <= 1 + Left(run[0]) + 3 * Strays(run)
    ensures Last(run).dtor == Done || Hung(Last(run)) || CanMove(Last(run))
    decreases |run|
  {
    hide Ending, Steps, Left, CanMove, Hung, Works, Stir;
    if |run| == 1 {
      if run[0].dtor != Done { StuckExactlyIfHung(run[0]); }
    } else {
      StepsTail(run);
      if Works(run[0], run[1]) { EndNearer(run[0], run[1]); } else { StrayCosts(run[0], run[1]); }
      assert Last(run) == Last(run[1..]);
      WaitEnds(run[1..]);
    }
  }

  // ---- when the destructor returns ----

  /**
   When the wait is over every thread has returned. Of a pool that was started with a thread the queue is drained then,
   in either mode: every task was taken, in order.
   */
  lemma Drained(s: State)
    requires Inv(s) && s.dtor == Done
    ensures forall w :: 0 <= w < |s.workers| ==> s.workers[w] == Gone
    ensures s.init > 0 ==> s.queue == []
    ensures s.queue == [] <==> s.taken == s.submitted
  {
    forall w: nat | w < |s.workers|
      ensures s.workers[w] == Gone
    {
      assert w !in LiveIds(s.workers);
    }
    LiveIdsCounted(s.workers);
  }

  /** In fixed mode it is drained exactly if there was a thread or nothing to do. */
  lemma FixedDrained(s: State)
    requires Inv(s) && s.mode == Fixed && s.dtor == Done
    ensures s.queue == [] <==> s.init > 0 || s.submitted == []
  {
    Drained(s);
  }

  // ---- for every run ----

  /** No worker sleeps without having been notified while a task is queued, unless the submitter is just about to notify. */
  lemma NobodyOversleeps(run: seq<State>, w: nat)
    requires Trace(run) && Last(run).queue != [] && !Announcing(Last(run)) && w < |Last(run).workers|
    ensures Last(run).workers[w] != Asleep
  {
    TraceInv(run);
  }

  /** So the notification of a worker that leaves tasks in the queue wakes nobody: everyone has been woken by then. */
  lemma NobodyLeftToWake(run: seq<State>, w: nat)
    requires Trace(run) && w < |Last(run).workers| && Last(run).workers[w].NotifyOthers? && Last(run).queue != []
    ensures WakeWorkers(Last(run).workers) == Last(run).workers
  {
    TraceInv(run);
  }

  /** The counters, whenever the pool is running: threads, idle and busy threads, queue length, and their bounds. */
  lemma CountersAgree(run: seq<State>)
    requires Trace(run) && Last(run).dtor == Alive
    ensures var s := Last(run);
      && s.cur == |s.threads| && 0 <= s.idle && s.idle + Count(s.workers, Busy) == s.cur
      && s.init <= s.cur <= Max(s.init, s.threshold)
      && s.taskSize == |s.queue| <= s.limit && s.submitted == s.taken + s.queue
  {
    TraceInv(run);
    LiveIdsCounted(Last(run).workers);
    BusyAreLive(Last(run).workers);
  }

  /** After the notification of the destructor no worker blocks any more. */
  lemma NobodyBlocksAgain(run: seq<State>, w: nat)
    requires Trace(run) && Past(Last(run).dtor) && w < |Last(run).workers|
    ensures Last(run).workers[w] != Asleep && Last(run).workers[w] != Sleep
  {
    TraceInv(run);
  }

  /** The destructor returns with everything done, if the pool was started with a thread to do it. */
  lemma DestructorReturns(run: seq<State>)
    requires Trace(run) && Last(run).dtor == Done
    ensures var s := Last(run);
      && s.threads == {} && (s.init > 0 ==> s.queue == [] && s.taken == s.submitted)
      && (s.mode == Fixed ==> (s.taken == s.submitted <==> s.init > 0 || s.submitted == []))
  {
    TraceInv(run);
    Drained(Last(run));
    if Last(run).mode == Fixed { FixedDrained(Last(run)); }
  }
}
