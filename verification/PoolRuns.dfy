/** Runs of a pool that is started with no threads, up to a task that nobody takes. */
module PoolRuns {
  import opened PoolState
  import opened PoolSafety
  import opened PoolShutdown

  // ---- one more step ----

  lemma Extend(run: seq<State>, s': State) returns (longer: seq<State>)
    requires Trace(run) && (Works(Last(run), s') || Stir(Last(run), s'))
    ensures Trace(longer) && Last(longer) == s' && |longer| == |run| + 1 && longer[..|run|] == run
  {
    longer := run + [s'];
    assert longer[..|longer| - 1] == run;
  }

  lemma ThenWorks(run: seq<State>, w: nat, s': State) returns (longer: seq<State>)
    requires Trace(run) && WorkerStep(Last(run), s', w)
    ensures Trace(longer) && Last(longer) == s' && |longer| == |run| + 1 && longer[..|run|] == run
  {
    longer := Extend(run, s');
  }

  lemma ThenAsks(run: seq<State>, c: nat, s': State) returns (longer: seq<State>)
    requires Trace(run) && ClientStep(Last(run), s', c)
    ensures Trace(longer) && Last(longer) == s' && |longer| == |run| + 1 && longer[..|run|] == run
  {
    longer := Extend(run, s');
  }

  lemma ThenTimesOut(run: seq<State>, w: nat, timeout: bool) returns (longer: seq<State>)
    requires Trace(run) && Last(run).mode == Cached && w < |Last(run).workers| && Last(run).workers[w] == Asleep
    ensures Trace(longer) && Last(longer) == WorkerAt(Last(run), w, Woken(timeout))
  {
    longer := Extend(run, WorkerAt(Last(run), w, Woken(timeout)));
  }

  lemma ThenStops(run: seq<State>, s': State) returns (longer: seq<State>)
    requires Trace(run) && DtorStep(Last(run), s')
    ensures Trace(longer) && Last(longer) == s' && |longer| == |run| + 1 && longer[..|run|] == run
  {
    longer := Extend(run, s');
  }

  // ---- a pool without threads ----

  /** One caller, at `client`, and no threads. */
  function Empty(mode: Mode, t: int, l: nat, client: Submit, lock: Owner, queue: seq<nat>, dtor: Dtor): State {
    State(mode, 0, t, l, dtor == Alive, lock, queue, |queue|, 0, 0, {}, [], map[0 := client], dtor, queue, [], [])
  }

  /** The pool gets task 7. */
  lemma OneTask(mode: Mode, t: int, l: nat) returns (run: seq<State>)
    requires l > 0
    ensures Trace(run) && Last(run) == Empty(mode, t, l, Grow, Client(0), [7], Alive)
  {
    run := [Empty(mode, t, l, Outside, Nobody, [], Alive)];
    run := ThenAsks(run, 0, ClientAt(Last(run), 0, Enter(7)));
    run := ThenAsks(run, 0, ClientAt(Last(run), 0, TestFull(7, false)).(lock := Client(0)));
    run := ThenAsks(run, 0, ClientAt(Last(run), 0, NotifyEmpty).(queue := [7], taskSize := 1, submitted := [7]));
    run := ThenAsks(run, 0, ClientAt(Last(run), 0, Grow));
    assert Last(run).clients == map[0 := Grow];
  }

  /** The destructor of a pool that has no thread returns at once. */
  lemma NobodyLeft(run: seq<State>) returns (longer: seq<State>)
    requires Trace(run) && Last(run).dtor == Alive && Last(run).lock == Nobody && Last(run).threads == {}
    requires forall c :: c in Last(run).clients ==> Last(run).clients[c] == Outside
    ensures Trace(longer) && var s, e := Last(run), Last(longer);
      e.dtor == Done && e.queue == s.queue && e.mode == s.mode && e.init == s.init && e.threshold == s.threshold && e.limit == s.limit
  {
    longer := ThenStops(run, Last(run).(running := false, dtor := Stopping));
    longer := ThenStops(longer, Last(longer).(lock := Destructor, dtor := Notify));
    longer := ThenStops(longer, Last(longer).(workers := WakeWorkers(Last(longer).workers), dtor := TestEmpty));
    longer := ThenStops(longer, Last(longer).(dtor := Done, lock := Nobody));
  }

  /** If the pool does not grow, its task stays where it is. */
  lemma NoThreadsNoTasks(mode: Mode, t: int, l: nat) returns (run: seq<State>)
    requires l > 0 && (mode == Fixed || t <= 0)
    ensures Trace(run) && Last(run) == Empty(mode, t, l, Outside, Nobody, [7], Alive)
  {
    run := OneTask(mode, t, l);
    run := ThenAsks(run, 0, ClientAt(Last(run), 0, Outside).(lock := Nobody));
    assert Last(run).clients == map[0 := Outside];
  }

  // ---- a cached pool with its first thread ----

  /** A cached pool with one caller and one thread, which stands at `pc`. */
  function OneThread(t: int, l: nat, pc: Pc, client: Submit, lock: Owner, queue: seq<nat>, idle: int, dtor: Dtor, taken: seq<nat>): State {
    State(Cached, 0, t, l, dtor == Alive, lock, queue, |queue|, 1, idle, {0}, [pc], map[0 := client], dtor, taken + queue, taken,
          if pc.NotifyOthers? || pc.Run? then [] else taken)
  }

  /** The thread is gone again. */
  function NoThread(t: int, l: nat, queue: seq<nat>, dtor: Dtor, taken: seq<nat>): State {
    OneThread(t, l, Gone, Outside, Nobody, queue, 0, dtor, taken).(threads := {}, cur := 0)
  }

  lemma OneThreadTakes(t: int, l: nat) returns (run: seq<State>)
    requires l > 0 && t > 0
    ensures Trace(run) && Last(run) == OneThread(t, l, NotifyOthers(7), Outside, Worker(0), [], 0, Alive, [7])
  {
    run := OneTask(Cached, t, l);
    run := FirstThread(run, t, l);
    run := ThenWorks(run, 0, OneThread(t, l, Test, Outside, Worker(0), [7], 1, Alive, []));
    run := ThenWorks(run, 0, OneThread(t, l, Take, Outside, Worker(0), [7], 1, Alive, []));
    run := ThenWorks(run, 0, OneThread(t, l, NotifyOthers(7), Outside, Worker(0), [], 0, Alive, [7]));
  }

  lemma FirstThread(run: seq<State>, t: int, l: nat) returns (longer: seq<State>)
    requires Trace(run) && t > 0 && Last(run) == Empty(Cached, t, l, Grow, Client(0), [7], Alive)
    ensures Trace(longer) && Last(longer) == OneThread(t, l, Acquire, Outside, Nobody, [7], 1, Alive, [])
  {
    var s' := OneThread(t, l, Acquire, Outside, Nobody, [7], 1, Alive, []);
    assert Last(run).clients[0 := Outside] == s'.clients && {} + {|Last(run).workers|} == {0};
    longer := ThenAsks(run, 0, s');
  }

  lemma OneThreadWorks(t: int, l: nat) returns (run: seq<State>)
    requires l > 0 && t > 0
    ensures Trace(run) && Last(run) == OneThread(t, l, Acquire, Outside, Nobody, [], 1, Alive, [7])
  {
    run := OneThreadTakes(t, l);
    run := ThenWorks(run, 0, OneThread(t, l, Run(7), Outside, Nobody, [], 0, Alive, [7]));
    run := ThenWorks(run, 0, OneThread(t, l, Finish, Outside, Nobody, [], 0, Alive, [7]));
    run := ThenWorks(run, 0, OneThread(t, l, Acquire, Outside, Nobody, [], 1, Alive, [7]));
  }

  lemma OneThreadSleeps(t: int, l: nat) returns (run: seq<State>)
    requires l > 0 && t > 0
    ensures Trace(run) && Last(run) == OneThread(t, l, Asleep, Outside, Nobody, [], 1, Alive, [7])
  {
    run := OneThreadWorks(t, l);
    run := ThenWorks(run, 0, OneThread(t, l, Test, Outside, Worker(0), [], 1, Alive, [7]));
    run := ThenWorks(run, 0, OneThread(t, l, TestRunning, Outside, Worker(0), [], 1, Alive, [7]));
    run := ThenWorks(run, 0, OneThread(t, l, Sleep, Outside, Worker(0), [], 1, Alive, [7]));
    run := ThenWorks(run, 0, OneThread(t, l, Asleep, Outside, Nobody, [], 1, Alive, [7]));
  }

  /** The destructor is called and waits, while the thread wants the mutex back. */
  lemma OneThreadStops(run: seq<State>, t: int, l: nat, timeout: bool) returns (longer: seq<State>)
    requires Trace(run) && Last(run) == OneThread(t, l, Woken(timeout), Outside, Nobody, [], 1, Alive, [7])
    ensures Trace(longer) && Last(longer) == OneThread(t, l, Woken(timeout), Outside, Nobody, [], 1, ExitAsleep, [7])
  {
    longer := ThenStops(run, OneThread(t, l, Woken(timeout), Outside, Nobody, [], 1, Stopping, [7]));
    longer := ThenStops(longer, OneThread(t, l, Woken(timeout), Outside, Destructor, [], 1, Notify, [7]));
    NobodyAsleep([Woken(timeout)]);
    longer := ThenStops(longer, OneThread(t, l, Woken(timeout), Outside, Destructor, [], 1, TestEmpty, [7]));
    longer := ThenStops(longer, OneThread(t, l, Woken(timeout), Outside, Nobody, [], 1, ExitAsleep, [7]));
  }

  // ---- a task that arrives while the only thread times out ----

  lemma LateCaller(t: int, l: nat) returns (run: seq<State>)
    requires l > 0 && t > 0
    ensures Trace(run) && Last(run) == OneThread(t, l, Woken(true), TestFull(8, false), Client(0), [], 1, Alive, [7])
  {
    run := OneThreadSleeps(t, l);
    run := ThenTimesOut(run, 0, true);
    run := ThenCaller(run, OneThread(t, l, Woken(true), Enter(8), Nobody, [], 1, Alive, [7]));
    run := ThenCaller(run, OneThread(t, l, Woken(true), TestFull(8, false), Client(0), [], 1, Alive, [7]));
  }

  lemma LateTask(t: int, l: nat) returns (run: seq<State>)
    requires l > 0 && t > 0
    ensures Trace(run) && Last(run) == OneThread(t, l, Woken(true), Grow, Client(0), [8], 1, Alive, [7])
  {
    run := LateCaller(t, l);
    run := ThenCaller(run, OneThread(t, l, Woken(true), NotifyEmpty, Client(0), [8], 1, Alive, [7]));
    NobodyAsleep([Woken(true)]);
    run := ThenCaller(run, OneThread(t, l, Woken(true), Grow, Client(0), [8], 1, Alive, [7]));
  }

  /** A step of the only caller. */
  lemma ThenCaller(run: seq<State>, s': State) returns (longer: seq<State>)
    requires Trace(run) && Last(run).clients.Keys == {0} && s'.clients.Keys == {0}
    requires ClientStep(Last(run), s'.(clients := Last(run).clients[0 := s'.clients[0]]), 0)
    ensures Trace(longer) && Last(longer) == s' && |longer| == |run| + 1 && longer[..|run|] == run
  {
    assert Last(run).clients[0 := s'.clients[0]] == s'.clients;
    longer := ThenAsks(run, 0, s');
  }

  /** The idle thread counts as one that could take the task, so no other is made; but it leaves. */
  lemma NobodyTakesIt(t: int, l: nat) returns (run: seq<State>)
    requires l > 0 && t > 0
    ensures Trace(run) && Last(run) == NoThread(t, l, [8], Alive, [7])
  {
    run := LateTask(t, l);
    run := ThenCaller(run, OneThread(t, l, Woken(true), Outside, Nobody, [8], 1, Alive, [7]));
    run := ThenWorks(run, 0, OneThread(t, l, TimedOut, Outside, Worker(0), [8], 1, Alive, [7]));
    run := ThenWorks(run, 0, NoThread(t, l, [8], Alive, [7]));
  }

  // ---- when tasks are lost ----

  /** While the pool is running a task is queued, nobody is inside a call, and there is no thread. */
  ghost predicate Abandoned(s: State) {
    && s.dtor == Alive && s.lock == Nobody && s.queue != [] && s.threads == {}
    && forall c :: c in s.clients ==> s.clients[c] == Outside
  }

  ghost predicate Configured(s: State, mode: Mode, init: nat, t: int, l: nat) {
    s.mode == mode && s.init == init && s.threshold == t && s.limit == l
  }

  lemma StartedEmpty(mode: Mode, t: int, l: nat) returns (run: seq<State>)
    requires l > 0
    ensures Trace(run) && Abandoned(Last(run)) && Configured(Last(run), mode, 0, t, l)
  {
    if mode == Fixed || t <= 0 {
      run := NoThreadsNoTasks(mode, t, l);
    } else {
      run := NobodyTakesIt(t, l);
    }
  }

  /** A pool that was started with a thread always has one for a queued task. */
  lemma NeverAbandoned(run: seq<State>)
    requires Trace(run) && Last(run).init > 0 && Last(run).queue != []
    ensures Last(run).threads != {}
  {
    TraceInv(run);
    LiveIdsCounted(Last(run).workers);
  }

  /** Some run ends with the destructor done and a task still queued. */
  ghost predicate Loses(run: seq<State>, mode: Mode, init: nat, t: int, l: nat) {
    Trace(run) && Configured(Last(run), mode, init, t, l) && Last(run).dtor == Done && Last(run).queue != []
  }

  /** In either mode, for every threshold and every queue with room: tasks can be lost exactly if the pool is started with no threads. */
  lemma LosesTasksExactlyIf(mode: Mode, init: nat, t: int, l: nat)
    requires l > 0
    ensures (exists run :: Loses(run, mode, init, t, l)) <==> init == 0
  {
    hide Trace;
    if init == 0 {
      var run := StartedEmpty(mode, t, l);
      run := NobodyLeft(run);
      assert Loses(run, mode, init, t, l);
    } else {
      forall run | Loses(run, mode, init, t, l)
        ensures false
      {
        DestructorReturns(run);
      }
    }
  }
}
