/** What every step of the thread pool keeps: the lock, the queue, the counters, and that nobody oversleeps. */
module PoolSafety {
  import opened PoolState

  // ---- counting workers ----

  datatype Measure = Live | Busy

  /** Not counted as idle: from taking a task until it is finished. */
  ghost predicate Working(pc: Pc) {
    pc.NotifyOthers? || pc.Run? || pc.Finish?
  }

  ghost function Weight(pc: Pc, m: Measure): nat {
    match m
    case Live => if pc == Gone then 0 else 1
    case Busy => if Working(pc) then 1 else 0
  }

  ghost function Count(ws: seq<Pc>, m: Measure): nat {
    if ws == [] then 0 else Count(ws[..|ws| - 1], m) + Weight(ws[|ws| - 1], m)
  }

  lemma {:induction false} CountUpdate(ws: seq<Pc>, w: nat, pc: Pc, m: Measure)
    requires w < |ws|
    ensures Count(ws[w := pc], m) == Count(ws, m) - Weight(ws[w], m) + Weight(pc, m)
    decreases ws
  {
    var n := |ws| - 1;
    if w == n {
      assert ws[w := pc][..n] == ws[..n];
    } else {
      assert ws[w := pc][..n] == ws[..n][w := pc];
      CountUpdate(ws[..n], w, pc, m);
    }
  }

  lemma {:induction false} CountSame(ws: seq<Pc>, ws': seq<Pc>, m: Measure)
    requires |ws| == |ws'| && forall i :: 0 <= i < |ws| ==> Weight(ws[i], m) == Weight(ws'[i], m)
    ensures Count(ws, m) == Count(ws', m)
    decreases ws
  {
    if ws != [] {
      var n := |ws| - 1;
      assert Weight(ws[n], m) == Weight(ws'[n], m);
      forall i | 0 <= i < n ensures Weight(ws[..n][i], m) == Weight(ws'[..n][i], m) {
        assert Weight(ws[i], m) == Weight(ws'[i], m);
      }
      CountSame(ws[..n], ws'[..n], m);
    }
  }

  lemma CountWoken(ws: seq<Pc>, m: Measure)
    ensures Count(WakeWorkers(ws), m) == Count(ws, m)
  {
    CountSame(ws, WakeWorkers(ws), m);
  }

  lemma CountMore(ws: seq<Pc>, pc: Pc, m: Measure)
    ensures Count(ws + [pc], m) == Count(ws, m) + Weight(pc, m)
  {
    assert (ws + [pc])[..|ws|] == ws;
  }

  lemma {:induction false} BusyAreLive(ws: seq<Pc>)
    ensures Count(ws, Busy) <= Count(ws, Live)
    decreases ws
  {
    if ws != [] { BusyAreLive(ws[..|ws| - 1]); }
  }

  ghost function LiveIds(ws: seq<Pc>): set<nat> {
    set i: nat | i < |ws| && ws[i] != Gone
  }

  lemma {:induction false} LiveIdsCounted(ws: seq<Pc>)
    ensures |LiveIds(ws)| == Count(ws, Live)
    decreases ws
  {
    if ws == [] {
      assert LiveIds(ws) == {};
    } else {
      var n := |ws| - 1;
      LiveIdsCounted(ws[..n]);
      assert LiveIds(ws) == if ws[n] == Gone then LiveIds(ws[..n]) else LiveIds(ws[..n]) + {n};
    }
  }

  // ---- the mutex ----

  ghost predicate WorkerHolds(pc: Pc) {
    pc.Test? || pc.TestRunning? || pc.Sleep? || pc.TimedOut? || pc.Take? || pc.NotifyOthers?
  }

  ghost predicate ClientHolds(pc: Submit) {
    pc.TestFull? || pc.NotifyEmpty? || pc.Grow?
  }

  ghost predicate DtorHolds(d: Dtor) {
    d == Notify || d == TestEmpty
  }

  /** Exactly the holder is inside the critical section. */
  ghost predicate Exclusive(s: State) {
    && (forall w :: 0 <= w < |s.workers| ==> (WorkerHolds(s.workers[w]) <==> s.lock == Worker(w)))
    && (forall c :: c in s.clients ==> (ClientHolds(s.clients[c]) <==> s.lock == Client(c)))
    && (DtorHolds(s.dtor) <==> s.lock == Destructor)
    && (s.lock.Worker? ==> s.lock.id < |s.workers|) && (s.lock.Client? ==> s.lock.id in s.clients)
  }

  // ---- the queue ----

  ghost predicate Announcing(s: State) {
    s.lock.Client? && s.lock.id in s.clients && s.clients[s.lock.id].NotifyEmpty?
  }

  ghost predicate Queued(s: State) {
    && s.taskSize == |s.queue| && s.submitted == s.taken + s.queue && |s.queue| <= s.limit
    && (forall w :: 0 <= w < |s.workers| ==>
         && (s.workers[w].Take? ==> s.queue != []) && (s.workers[w].TestRunning? || s.workers[w].Sleep? ==> s.queue == []))
    // nobody sleeps through a task, except until the submitter that holds the mutex has notified
    && (s.queue != [] && !Announcing(s) ==> forall w :: 0 <= w < |s.workers| ==> !s.workers[w].Asleep?)
  }

  // ---- the counters ----

  function Max(a: int, b: int): int {
    if a < b then b else a
  }

  ghost predicate Counted(s: State) {
    && s.threads == LiveIds(s.workers) && s.init <= s.cur <= Max(s.init, s.threshold)
    && (s.running <==> s.dtor == Alive)
    && (s.dtor == Alive ==> s.idle + Count(s.workers, Busy) == s.cur)
    // a thread that finds the pool stopped leaves without being counted down, but not before the queue is empty
    && (s.dtor == Alive || s.queue != [] ==> s.cur == Count(s.workers, Live))
  }

  // ---- shutdown ----

  /** The destructor has notified the sleepers. */
  ghost predicate Past(d: Dtor) {
    d == TestEmpty || d == ExitAsleep || d == ExitWoken || d == Done
  }

  ghost predicate Closing(s: State) {
    && (s.dtor != Alive ==> forall c :: c in s.clients ==> s.clients[c] == Outside)
    && (Past(s.dtor) ==> forall w :: 0 <= w < |s.workers| ==> !s.workers[w].Asleep? && !s.workers[w].Sleep?)
    && (s.dtor == Done ==> s.threads == {})
    && (s.mode == Fixed ==>
         && |s.workers| == s.cur == s.init && (s.init == 0 ==> s.taken == [])
         && (forall w :: 0 <= w < |s.workers| ==> !s.workers[w].TimedOut?)
         && (s.dtor == ExitAsleep ==> s.threads != {})
         && (forall w :: 0 <= w < |s.workers| && s.workers[w] == Gone ==> s.dtor != Alive && s.queue == []))
  }

  ghost predicate Inv(s: State) {
    Exclusive(s) && Queued(s) && Counted(s) && Closing(s)
  }

  lemma {:induction false} AllIdle(ws: seq<Pc>)
    requires forall i :: 0 <= i < |ws| ==> ws[i] == Acquire
    ensures Count(ws, Live) == |ws| && Count(ws, Busy) == 0 && LiveIds(ws) == Ids(|ws|)
    decreases ws
  {
    if ws == [] {
      assert LiveIds(ws) == {};
    } else {
      var n := |ws| - 1;
      AllIdle(ws[..n]);
      assert LiveIds(ws) == LiveIds(ws[..n]) + {n};
    }
  }

  lemma InitInv(s: State)
    requires Init(s)
    ensures Inv(s)
  {
    AllIdle(s.workers);
  }

  // ---- workers keep it ----

  /** The other workers stay where they are, except that sleepers may be woken; so do the clients. */
  ghost predicate OthersMove(s: State, s': State, w: int) {
    && |s'.workers| == |s.workers| && s'.clients.Keys == s.clients.Keys
    && (forall i :: 0 <= i < |s.workers| && i != w ==>
         s'.workers[i] == s.workers[i] || (s.workers[i] == Asleep && s'.workers[i] == Woken(false)))
    && (forall c :: c in s.clients ==> s'.clients[c] == s.clients[c] || (s.clients[c].FullAsleep? && s'.clients[c].FullWoken?))
  }

  lemma OthersFrame(s: State, s': State, w: nat)
    requires WorkerStep(s, s', w)
    ensures OthersMove(s, s', w)
  {
  }

  lemma SettingsFrame(s: State, s': State, w: nat)
    requires WorkerStep(s, s', w)
    ensures s'.mode == s.mode && s'.init == s.init && s'.threshold == s.threshold && s'.limit == s.limit && s'.running == s.running
  {
    hide WakeWorkers, WakeClients, WakeDtor;
  }

  lemma NotifierFrame(s: State, s': State, w: nat)
    requires WorkerStep(s, s', w)
    ensures !s.workers[w].NotifyOthers? ==> s'.clients == s.clients && s'.workers == s.workers[w := s'.workers[w]]
  {
    hide WakeClients, WakeDtor;
  }

  lemma WorkerFrame(s: State, s': State, w: nat)
    requires WorkerStep(s, s', w)
    ensures OthersMove(s, s', w)
    ensures !s.workers[w].NotifyOthers? ==> s'.clients == s.clients && s'.workers == s.workers[w := s'.workers[w]]
    ensures s'.mode == s.mode && s'.init == s.init && s'.threshold == s.threshold && s'.limit == s.limit && s'.running == s.running
  {
    OthersFrame(s, s', w);
    NotifierFrame(s, s', w);
    SettingsFrame(s, s', w);
    hide *;
  }

  lemma WorkerExclusive(s: State, s': State, w: nat)
    requires Exclusive(s) && WorkerStep(s, s', w)
    ensures Exclusive(s')
  {
    WorkerFrame(s, s', w);
    assert WorkerHolds(s'.workers[w]) <==> s'.lock == Worker(w);
  }

  lemma WorkerQueued(s: State, s': State, w: nat)
    requires Exclusive(s) && Queued(s) && WorkerStep(s, s', w) && s.workers[w] != Take
    ensures Queued(s')
  {
    WorkerFrame(s, s', w);
    assert s'.queue == s.queue && s'.taskSize == s.taskSize && s'.submitted == s.submitted && s'.taken == s.taken;
  }

  lemma WorkerTakes(s: State, s': State, w: nat)
    requires Exclusive(s) && Queued(s) && WorkerStep(s, s', w) && s.workers[w] == Take
    ensures Queued(s')
  {
    assert s.queue == [s.queue[0]] + s.queue[1..];
    assert s.submitted == s'.taken + s'.queue;
  }

  lemma CountMoved(s: State, s': State, w: nat, m: Measure)
    requires w < |s.workers| == |s'.workers| && WorkerStep(s, s', w)
    ensures Count(s'.workers, m) == Count(s.workers, m) - Weight(s.workers[w], m) + Weight(s'.workers[w], m)
  {
    WorkerFrame(s, s', w);
    CountUpdate(s.workers, w, s'.workers[w], m);
    CountSame(s.workers[w := s'.workers[w]], s'.workers, m);
  }

  lemma LiveMoved(s: State, s': State, w: nat)
    requires w < |s.workers| == |s'.workers| && WorkerStep(s, s', w)
    ensures LiveIds(s'.workers) == if s'.workers[w] == Gone then LiveIds(s.workers) - {w} else LiveIds(s.workers)
  {
    WorkerFrame(s, s', w);
  }

  /** How the counters follow a worker, unless it leaves because the pool was stopped. */
  lemma WorkerNumbers(s: State, s': State, w: nat)
    requires w < |s.workers| == |s'.workers| && WorkerStep(s, s', w)
    ensures s'.cur == s.cur || s.init <= s'.cur == s.cur - 1
    ensures s.running || s.workers[w] != TestRunning ==> s'.cur - s.cur == Weight(s'.workers[w], Live) - Weight(s.workers[w], Live)
  {
  }

  lemma WorkerIdles(s: State, s': State, w: nat)
    requires w < |s.workers| == |s'.workers| && WorkerStep(s, s', w)
    ensures s.running || s.workers[w] != TestRunning ==>
      s'.idle - s.idle + Weight(s'.workers[w], Busy) - Weight(s.workers[w], Busy) == s'.cur - s.cur
  {
  }

  lemma WorkerStays(s: State, s': State, w: nat)
    requires w < |s.workers| == |s'.workers| && WorkerStep(s, s', w)
    ensures s'.running == s.running && (s'.dtor == Alive <==> s.dtor == Alive)
    ensures s'.threads == if s'.workers[w] == Gone then s.threads - {w} else s.threads
  {
  }

  lemma WorkerCounted(s: State, s': State, w: nat)
    requires Queued(s) && Counted(s) && WorkerStep(s, s', w)
    ensures Counted(s')
  {
    WorkerFrame(s, s', w);
    WorkerNumbers(s, s', w);
    WorkerIdles(s, s', w);
    WorkerStays(s, s', w);
    WorkerDtor(s, s', w);
    CountMoved(s, s', w, Live);
    CountMoved(s, s', w, Busy);
    LiveMoved(s, s', w);
  }

  lemma WorkerDtor(s: State, s': State, w: nat)
    requires w < |s.workers| == |s'.workers| && WorkerStep(s, s', w)
    ensures s'.dtor == s.dtor || (s.workers[w] == TestRunning && !s.running && s.dtor == ExitAsleep && s'.dtor == ExitWoken)
    ensures s'.queue == s.queue || (s.workers[w] == Take && s.queue != [])
    ensures s'.threads == s.threads || s'.workers[w] == Gone
  {
  }

  /** Where a worker can come from. */
  lemma WorkerComes(s: State, s': State, w: nat)
    requires w < |s.workers| == |s'.workers| && WorkerStep(s, s', w)
    ensures s'.workers[w] == Gone ==> (s.workers[w] == TestRunning && !s.running) || s.workers[w] == TimedOut
    ensures s'.workers[w] == Sleep ==> s.running
    ensures s'.workers[w] == Asleep ==> s.workers[w] == Sleep
    ensures s'.workers[w] == TimedOut ==> s.mode == Cached
  {
  }

  lemma WorkerClosing(s: State, s': State, w: nat)
    requires Inv(s) && WorkerStep(s, s', w)
    ensures Closing(s')
  {
    WorkerFrame(s, s', w);
    WorkerDtor(s, s', w);
    WorkerComes(s, s', w);
    LiveMoved(s, s', w);
    assert s.dtor == Done ==> w !in LiveIds(s.workers);
    if s.mode == Fixed && s.dtor == ExitAsleep && s'.workers[w] == Gone { assert s'.dtor == ExitWoken; }
  }

  lemma WorkerInv(s: State, s': State, w: nat)
    requires Inv(s) && WorkerStep(s, s', w)
    ensures Inv(s')
  {
    WorkerExclusive(s, s', w);
    if s.workers[w] == Take { WorkerTakes(s, s', w); } else { WorkerQueued(s, s', w); }
    WorkerCounted(s, s', w);
    WorkerClosing(s, s', w);
  }

  // ---- clients keep it ----

  lemma ClientExclusive(s: State, s': State, c: nat)
    requires Exclusive(s) && ClientStep(s, s', c)
    ensures Exclusive(s')
  {
  }

  lemma ClientEnqueues(s: State, s': State, c: nat)
    requires Exclusive(s) && Queued(s) && ClientStep(s, s', c) && s.clients[c].TestFull?
    ensures Queued(s')
  {
  }

  lemma ClientQueued(s: State, s': State, c: nat)
    requires Exclusive(s) && Queued(s) && ClientStep(s, s', c) && !s.clients[c].TestFull?
    ensures Queued(s')
  {
  }

  lemma ClientCounted(s: State, s': State, c: nat)
    requires Exclusive(s) && Counted(s) && Closing(s) && ClientStep(s, s', c)
    ensures Counted(s')
  {
    CountWoken(s.workers, Live);
    CountWoken(s.workers, Busy);
    CountMore(s.workers, Acquire, Live);
    CountMore(s.workers, Acquire, Busy);
    var n := |s.workers|;
    assert LiveIds(WakeWorkers(s.workers)) == LiveIds(s.workers);
    assert LiveIds(s.workers + [Acquire]) == LiveIds(s.workers) + {n};
  }

  lemma ClientClosing(s: State, s': State, c: nat)
    requires Exclusive(s) && Closing(s) && Counted(s) && ClientStep(s, s', c)
    ensures Closing(s')
  {
  }

  lemma ClientInv(s: State, s': State, c: nat)
    requires Inv(s) && ClientStep(s, s', c)
    ensures Inv(s')
  {
    ClientExclusive(s, s', c);
    if s.clients[c].TestFull? { ClientEnqueues(s, s', c); } else { ClientQueued(s, s', c); }
    ClientCounted(s, s', c);
    ClientClosing(s, s', c);
  }

  // ---- the destructor keeps it ----

  lemma DtorExclusive(s: State, s': State)
    requires Exclusive(s) && DtorStep(s, s')
    ensures Exclusive(s')
  {
  }

  lemma DtorQueued(s: State, s': State)
    requires Exclusive(s) && Queued(s) && DtorStep(s, s')
    ensures Queued(s')
  {
  }

  lemma DtorCounted(s: State, s': State)
    requires Counted(s) && DtorStep(s, s')
    ensures Counted(s')
  {
    CountWoken(s.workers, Live);
    CountWoken(s.workers, Busy);
    assert LiveIds(WakeWorkers(s.workers)) == LiveIds(s.workers);
  }

  lemma DtorClosing(s: State, s': State)
    requires Exclusive(s) && Counted(s) && Closing(s) && DtorStep(s, s')
    ensures Closing(s')
  {
  }

  lemma DtorInv(s: State, s': State)
    requires Inv(s) && DtorStep(s, s')
    ensures Inv(s')
  {
    DtorExclusive(s, s');
    DtorQueued(s, s');
    DtorCounted(s, s');
    DtorClosing(s, s');
  }

  // ---- stray wakeups keep it ----

  lemma WorkerStirs(s: State, w: nat, timeout: bool)
    requires Inv(s) && w < |s.workers| && s.workers[w] == Asleep
    ensures Inv(WorkerAt(s, w, Woken(timeout)))
  {
    CountUpdate(s.workers, w, Woken(timeout), Live);
    CountUpdate(s.workers, w, Woken(timeout), Busy);
    assert LiveIds(s.workers[w := Woken(timeout)]) == LiveIds(s.workers);
  }

  lemma ClientStirs(s: State, c: nat, timeout: bool)
    requires Inv(s) && c in s.clients && s.clients[c].FullAsleep?
    ensures Inv(ClientAt(s, c, FullWoken(s.clients[c].task, timeout)))
  {
  }

  lemma DtorStirs(s: State)
    requires Inv(s) && s.dtor == ExitAsleep
    ensures Inv(s.(dtor := ExitWoken))
  {
  }

  lemma StirInv(s: State, s': State)
    requires Inv(s) && Stir(s, s')
    ensures Inv(s')
  {
    if w: nat, timeout :| w < |s.workers| && s.workers[w] == Asleep && s' == WorkerAt(s, w, Woken(timeout)) {
      WorkerStirs(s, w, timeout);
    } else if c, timeout :| c in s.clients && s.clients[c].FullAsleep? && s' == ClientAt(s, c, FullWoken(s.clients[c].task, timeout)) {
      ClientStirs(s, c, timeout);
    } else {
      DtorStirs(s);
    }
  }

  lemma StepInv(s: State, s': State)
    requires Inv(s) && (Works(s, s') || Stir(s, s'))
    ensures Inv(s')
  {
    if Stir(s, s') {
      StirInv(s, s');
    } else if DtorStep(s, s') {
      DtorInv(s, s');
    } else if w :| WorkerStep(s, s', w) {
      WorkerInv(s, s', w);
    } else {
      var c :| ClientStep(s, s', c);
      ClientInv(s, s', c);
    }
  }

  lemma {:induction false} TraceInv(run: seq<State>)
    requires Trace(run)
    ensures Inv(Last(run))
  {
    if |run| == 1 {
      InitInv(run[0]);
    } else {
      TraceInv(run[..|run| - 1]);
      StepInv(Last(run[..|run| - 1]), Last(run));
    }
  }
}
