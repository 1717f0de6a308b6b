/** What submitTask answers: it refuses a task only when it has seen a full queue, and a pool can be filled up to its limit. */
module PoolSubmit {
  import opened PoolState
  import opened PoolSafety
  import opened PoolRuns

  // ---- callers that wait for room ----

  /** No caller sleeps while there is room, except until the worker that has just made room, and holds the mutex, has notified. */
  ghost predicate NoRoom(s: State) {
    (exists c :: c in s.clients && s.clients[c].FullAsleep?) ==>
      |s.queue| >= s.limit || (s.lock.Worker? && s.lock.id < |s.workers| && s.workers[s.lock.id].NotifyOthers?)
  }

  lemma WorkerNoRoom(s: State, s': State, w: nat)
    requires Exclusive(s) && NoRoom(s) && WorkerStep(s, s', w)
    ensures NoRoom(s')
  {
    WorkerFrame(s, s', w);
    if s.workers[w].NotifyOthers? { forall c | c in s'.clients ensures !s'.clients[c].FullAsleep? {} }
  }

  lemma ClientNoRoom(s: State, s': State, c: nat)
    requires Exclusive(s) && NoRoom(s) && ClientStep(s, s', c)
    ensures NoRoom(s')
  {
  }

  lemma OtherNoRoom(s: State, s': State)
    requires Exclusive(s) && NoRoom(s) && (Stir(s, s') || DtorStep(s, s'))
    ensures NoRoom(s')
  {
  }

  lemma {:induction false} CallersWakeUp(run: seq<State>)
    requires Trace(run)
    ensures NoRoom(Last(run))
    decreases |run|
  {
    hide NoRoom, WorkerStep, ClientStep, DtorStep, Stir;
    if |run| <= 1 {
      InitNoRoom(run[0]);
    } else {
      var s, s' := Last(run[..|run| - 1]), Last(run);
      CallersWakeUp(run[..|run| - 1]);
      TraceInv(run[..|run| - 1]);
      if Stir(s, s') || DtorStep(s, s') {
        OtherNoRoom(s, s');
      } else if w :| WorkerStep(s, s', w) {
        WorkerNoRoom(s, s', w);
      } else {
        var c :| ClientStep(s, s', c);
        ClientNoRoom(s, s', c);
      }
    }
  }

  lemma InitNoRoom(s: State)
    requires Init(s)
    ensures NoRoom(s)
  {
  }

  // ---- a call that ends without its task in the queue ----

  /** Caller c is in a call for the task: it has not got in yet, or the task is in. */
  ghost predicate Calling(s: State, c: nat, task: nat) {
    c in s.clients &&
    match s.clients[c]
    case Outside => false
    case Enter(t) => t == task
    case TestFull(t, _) => t == task
    case FullAsleep(t) => t == task
    case FullWoken(t, _) => t == task
    case NotifyEmpty => task in s.submitted
    case Grow => task in s.submitted
  }

  /** The caller holds the mutex and finds the queue full. */
  ghost predicate SeesFull(s: State, c: nat) {
    c in s.clients && s.clients[c].TestFull? && s.lock == Client(c) && |s.queue| == s.limit
  }

  /** How a call can end. */
  ghost predicate Ended(s: State, s': State, c: nat, task: nat) {
    c in s'.clients && s'.clients[c] == Outside && (task in s'.submitted || SeesFull(s, c))
  }

  lemma CallerGoesOn(s: State, s': State, c: nat, task: nat)
    requires Inv(s) && Calling(s, c, task) && ClientStep(s, s', c)
    ensures Calling(s', c, task) || Ended(s, s', c, task)
  {
  }

  lemma OtherCaller(s: State, s': State, c: nat, d: nat, task: nat)
    requires Calling(s, c, task) && ClientStep(s, s', d) && d != c
    ensures Calling(s', c, task)
  {
  }

  lemma WorkerMeanwhile(s: State, s': State, c: nat, w: nat, task: nat)
    requires Inv(s) && Calling(s, c, task) && WorkerStep(s, s', w)
    ensures Calling(s', c, task)
  {
    WorkerFrame(s, s', w);
    WorkerSubmits(s, s', w);
  }

  lemma WorkerSubmits(s: State, s': State, w: nat)
    requires WorkerStep(s, s', w)
    ensures s'.submitted == s.submitted
  {
    hide WakeWorkers, WakeClients, WakeDtor;
  }

  lemma OthersMeanwhile(s: State, s': State, c: nat, task: nat)
    requires Calling(s, c, task) && (Stir(s, s') || DtorStep(s, s'))
    ensures Calling(s', c, task)
  {
  }

  lemma CallGoesOn(s: State, s': State, c: nat, task: nat)
    requires Inv(s) && Calling(s, c, task) && (Works(s, s') || Stir(s, s'))
    ensures Calling(s', c, task) || Ended(s, s', c, task)
  {
    hide Inv, Calling, Ended, WorkerStep, ClientStep, DtorStep, Stir;
    if Stir(s, s') || DtorStep(s, s') {
      OthersMeanwhile(s, s', c, task);
    } else if w :| WorkerStep(s, s', w) {
      WorkerMeanwhile(s, s', c, w, task);
    } else {
      var d :| ClientStep(s, s', d);
      if d == c { CallerGoesOn(s, s', c, task); } else { OtherCaller(s, s', c, d, task); }
    }
  }

  lemma {:induction false} Prefix(run: seq<State>, n: nat)
    requires Trace(run) && 0 < n <= |run|
    ensures Trace(run[..n])
    decreases |run|
  {
    if n < |run| {
      assert run[..|run| - 1][..n] == run[..n];
      Prefix(run[..|run| - 1], n);
    } else {
      assert run[..n] == run;
    }
  }

  lemma StepAt(run: seq<State>, k: nat)
    requires Trace(run) && k + 1 < |run|
    ensures Inv(run[k]) && (Works(run[k], run[k + 1]) || Stir(run[k], run[k + 1]))
  {
    hide Inv, Works, Stir, Init;
    Prefix(run, k + 2);
    Prefix(run, k + 1);
    TraceInv(run[..k + 1]);
    assert run[..k + 2][..k + 1] == run[..k + 1];
    assert Last(run[..k + 1]) == run[k] && Last(run[..k + 2]) == run[k + 1];
  }

  /** A call from state i of a run to its end in state j: if its task was not submitted, the caller has seen a full queue. */
  lemma {:induction false} RefusedSawFull(run: seq<State>, i: nat, j: nat, c: nat, task: nat)
    requires Trace(run) && i < j < |run| && c in run[i].clients && run[i].clients[c] == Enter(task)
    requires forall k :: i < k < j ==> c in run[k].clients && run[k].clients[c] != Outside
    requires c in run[j].clients && run[j].clients[c] == Outside && task !in run[j].submitted
    ensures SeesFull(run[j - 1], c)
  {
    hide Inv, Works, Stir, Trace;
    var k := i;
    while k + 1 < j
      invariant i <= k < j && Calling(run[k], c, task)
    {
      StepAt(run, k);
      CallGoesOn(run[k], run[k + 1], c, task);
      k := k + 1;
    }
    StepAt(run, k);
    CallGoesOn(run[k], run[j], c, task);
  }

  // ---- filling the queue ----

  function Min(a: int, b: int): int {
    if a < b then a else b
  }

  /** The threads of a pool that got n tasks and has not yet run any: cached pools make one for each task that finds none idle. */
  function Threads(mode: Mode, init: nat, t: int, n: nat): (r: nat)
  {
    if mode == Cached then Max(init, Min(n, t)) else init
  }

  function Numbers(n: nat): (r: seq<nat>)
    ensures |r| == n && forall i :: 0 <= i < n ==> r[i] == i
  {
    seq(n, i => i)
  }

  function Acquires(n: nat): (r: seq<Pc>)
    ensures |r| == n && forall i :: 0 <= i < n ==> r[i] == Acquire
  {
    seq(n, _ => Acquire)
  }

  /** Tasks 0 .. n - 1 are queued, and every thread wants the mutex. */
  function Full(mode: Mode, init: nat, t: int, l: nat, n: nat, client: Submit): State {
    var m := Threads(mode, init, t, n);
    State(mode, init, t, l, true, Nobody, Numbers(n), n, m, m, Ids(m), Acquires(m), map[0 := client], Alive, Numbers(n), [], [])
  }

  /** One more task. */
  lemma OneMore(run: seq<State>, mode: Mode, init: nat, t: int, l: nat, n: nat) returns (longer: seq<State>)
    requires Trace(run) && Last(run) == Full(mode, init, t, l, n, Outside) && n < l
    ensures Trace(longer) && Last(longer) == Full(mode, init, t, l, n + 1, Outside)
  {
    var s := Last(run);
    hide Trace;
    longer := ThenCaller(run, s.(clients := map[0 := Enter(n)]));
    longer := ThenCaller(longer, s.(clients := map[0 := TestFull(n, false)], lock := Client(0)));
    var more := s.(clients := map[0 := NotifyEmpty], lock := Client(0), queue := s.queue + [n], taskSize := n + 1, submitted := s.submitted + [n]);
    longer := ThenCaller(longer, more);
    NobodyAsleep(s.workers);
    longer := ThenCaller(longer, more.(clients := map[0 := Grow]));
    longer := ThenGrows(longer, mode, init, t, l, n);
  }

  lemma NobodyAsleep(ws: seq<Pc>)
    requires forall i :: 0 <= i < |ws| ==> ws[i] != Asleep
    ensures WakeWorkers(ws) == ws
  {
  }

  lemma ThenGrows(run: seq<State>, mode: Mode, init: nat, t: int, l: nat, n: nat) returns (longer: seq<State>)
    requires Trace(run)
    requires var s := Full(mode, init, t, l, n, Grow);
      Last(run) == s.(lock := Client(0), queue := s.queue + [n], taskSize := n + 1, submitted := s.submitted + [n])
    ensures Trace(longer) && Last(longer) == Full(mode, init, t, l, n + 1, Outside)
  {
    hide Works, Stir, Init;
    var m := Threads(mode, init, t, n);
    assert Numbers(n) + [n] == Numbers(n + 1);
    assert Acquires(m) + [Acquire] == Acquires(m + 1);
    assert Grows(Last(run)) <==> Threads(mode, init, t, n + 1) == m + 1;
    assert !Grows(Last(run)) ==> Threads(mode, init, t, n + 1) == m;
    longer := ThenCaller(run, Full(mode, init, t, l, n + 1, Outside));
  }

  /** A pool takes tasks up to its limit, and a cached one grows as far as it may. */
  lemma {:induction false} FillsUp(mode: Mode, init: nat, t: int, l: nat, n: nat) returns (run: seq<State>)
    requires n <= l
    ensures Trace(run) && Last(run) == Full(mode, init, t, l, n, Outside)
    decreases n
  {
    if n == 0 {
      run := [Full(mode, init, t, l, 0, Outside)];
    } else {
      run := FillsUp(mode, init, t, l, n - 1);
      run := OneMore(run, mode, init, t, l, n - 1);
    }
  }

  /** Once it is full, a caller may wait in vain and is refused, even one that was woken before its time was up. */
  lemma MayRefuse(mode: Mode, init: nat, t: int, l: nat, timeout: bool) returns (run: seq<State>, i: nat)
    ensures Trace(run) && i + 3 < |run| && run[i] == Full(mode, init, t, l, l, Enter(l))
    ensures run[i + 3] == Full(mode, init, t, l, l, FullWoken(l, timeout))
    ensures Last(run) == Full(mode, init, t, l, l, Outside) && l !in Last(run).submitted
  {
    var filled := FillsUp(mode, init, t, l, l);
    run, i := ThenRefuses(filled, mode, init, t, l, timeout);
    SubmittedAre(mode, init, t, l);
  }

  lemma SubmittedAre(mode: Mode, init: nat, t: int, l: nat)
    ensures l !in Full(mode, init, t, l, l, Outside).submitted
  {
  }

  lemma ThenRefuses(filled: seq<State>, mode: Mode, init: nat, t: int, l: nat, timeout: bool) returns (run: seq<State>, i: nat)
    requires Trace(filled) && Last(filled) == Full(mode, init, t, l, l, Outside)
    ensures Trace(run) && i + 3 < |run| && run[i] == Full(mode, init, t, l, l, Enter(l))
    ensures run[i + 3] == Full(mode, init, t, l, l, FullWoken(l, timeout)) && Last(run) == Full(mode, init, t, l, l, Outside)
  {
    hide Trace;
    var calls := ThenCalls(filled, mode, init, t, l);
    hide Full;
    var waits := ThenTriesInVain(calls, mode, init, t, l);
    run := ThenIsRefused(waits, mode, init, t, l, timeout);
    i := |calls| - 1;
    assert run[i] == waits[i] by { assert run[..|waits|][i] == waits[i]; }
    assert waits[i] == calls[i] by { assert waits[..|calls|][i] == calls[i]; }
  }

  lemma ThenCalls(run: seq<State>, mode: Mode, init: nat, t: int, l: nat) returns (longer: seq<State>)
    requires Trace(run) && Last(run) == Full(mode, init, t, l, l, Outside)
    ensures Trace(longer) && longer != [] && Last(longer) == Full(mode, init, t, l, l, Enter(l))
  {
    hide Trace;
    longer := ThenCaller(run, Full(mode, init, t, l, l, Enter(l)));
  }

  lemma ThenTriesInVain(run: seq<State>, mode: Mode, init: nat, t: int, l: nat) returns (longer: seq<State>)
    requires Trace(run) && Last(run) == Full(mode, init, t, l, l, Enter(l))
    ensures Trace(longer) && Last(longer) == Full(mode, init, t, l, l, FullAsleep(l)) && |longer| == |run| + 2 && longer[..|run|] == run
  {
    hide Trace;
    var mid := ThenCaller(run, Full(mode, init, t, l, l, TestFull(l, false)).(lock := Client(0)));
    longer := ThenCaller(mid, Full(mode, init, t, l, l, FullAsleep(l)));
    assert longer[..|run|] == mid[..|run|];
  }

  lemma ThenIsRefused(run: seq<State>, mode: Mode, init: nat, t: int, l: nat, timeout: bool) returns (longer: seq<State>)
    requires Trace(run) && Last(run) == Full(mode, init, t, l, l, FullAsleep(l))
    ensures Trace(longer) && |longer| == |run| + 3 && longer[..|run|] == run
    ensures longer[|run|] == Full(mode, init, t, l, l, FullWoken(l, timeout)) && Last(longer) == Full(mode, init, t, l, l, Outside)
  {
    hide Trace;
    var woken := ThenWakes(run, Full(mode, init, t, l, l, FullWoken(l, timeout)), timeout);
    var back := ThenCaller(woken, Full(mode, init, t, l, l, TestFull(l, true)).(lock := Client(0)));
    longer := ThenCaller(back, Full(mode, init, t, l, l, Outside));
    assert back[..|woken|] == woken && longer[..|back|] == back;
    assert longer[..|run|] == woken[..|run|] && longer[|run|] == woken[|run|];
  }

  lemma ThenWakes(run: seq<State>, s': State, timeout: bool) returns (longer: seq<State>)
    requires Trace(run) && Last(run).clients.Keys == {0} && Last(run).clients[0].FullAsleep?
    requires s' == Last(run).(clients := map[0 := FullWoken(Last(run).clients[0].task, timeout)])
    ensures Trace(longer) && Last(longer) == s' && |longer| == |run| + 1 && longer[..|run|] == run
  {
    assert Last(run).clients[0 := FullWoken(Last(run).clients[0].task, timeout)] == s'.clients;
    longer := Extend(run, s');
  }
}
