/** What becomes of the tasks: each one that is taken is run exactly once. */
module PoolWork {
  import opened PoolState
  import opened PoolSafety
  import opened PoolShutdown

  // ---- tasks in the hands of workers ----

  function One(a: nat, b: nat): nat {
    if a == b then 1 else 0
  }

  /** How often task x stands in a list. */
  function Times(s: seq<nat>, x: nat): nat {
    if s == [] then 0 else Times(s[..|s| - 1], x) + One(s[|s| - 1], x)
  }

  lemma TimesMore(s: seq<nat>, t: nat, x: nat)
    ensures Times(s + [t], x) == Times(s, x) + One(t, x)
  {
    assert (s + [t])[..|s|] == s;
  }

  lemma {:induction false} TimesConcat(s: seq<nat>, t: seq<nat>, x: nat)
    ensures Times(s + t, x) == Times(s, x) + Times(t, x)
    decreases |t|
  {
    if t == [] {
      assert s + t == s;
    } else {
      assert s + t == (s + t[..|t| - 1]) + [t[|t| - 1]];
      TimesMore(s + t[..|t| - 1], t[|t| - 1], x);
      TimesConcat(s, t[..|t| - 1], x);
    }
  }

  lemma {:induction false} TimesIsMultiplicity(s: seq<nat>, x: nat)
    ensures Times(s, x) == multiset(s)[x]
    decreases |s|
  {
    if s != [] {
      assert s == s[..|s| - 1] + [s[|s| - 1]];
      TimesIsMultiplicity(s[..|s| - 1], x);
    }
  }

  /** Whether a worker has taken task x and not finished it. */
  function HeldBy(pc: Pc, x: nat): nat {
    match pc
    case NotifyOthers(task) => One(task, x)
    case Run(task) => One(task, x)
    case _ => 0
  }

  function Held(ws: seq<Pc>, x: nat): nat {
    if ws == [] then 0 else Held(ws[..|ws| - 1], x) + HeldBy(ws[|ws| - 1], x)
  }

  lemma {:induction false} HeldUpdate(ws: seq<Pc>, w: nat, pc: Pc, x: nat)
    requires w < |ws|
    ensures Held(ws[w := pc], x) == Held(ws, x) - HeldBy(ws[w], x) + HeldBy(pc, x)
    decreases |ws|
  {
    var n := |ws| - 1;
    if w == n {
      assert ws[w := pc][..n] == ws[..n];
    } else {
      assert ws[w := pc][..n] == ws[..n][w := pc];
      HeldUpdate(ws[..n], w, pc, x);
    }
  }

  lemma {:induction false} HeldSame(ws: seq<Pc>, ws': seq<Pc>, x: nat)
    requires |ws| == |ws'| && forall i :: 0 <= i < |ws| ==> HeldBy(ws[i], x) == HeldBy(ws'[i], x)
    ensures Held(ws, x) == Held(ws', x)
    decreases |ws|
  {
    if ws != [] {
      var n := |ws| - 1;
      forall i | 0 <= i < n ensures HeldBy(ws[..n][i], x) == HeldBy(ws'[..n][i], x) { assert HeldBy(ws[i], x) == HeldBy(ws'[i], x); }
      HeldSame(ws[..n], ws'[..n], x);
      assert HeldBy(ws[n], x) == HeldBy(ws'[n], x);
    }
  }

  lemma HeldMore(ws: seq<Pc>, x: nat)
    ensures Held(ws + [Acquire], x) == Held(ws, x)
  {
    assert (ws + [Acquire])[..|ws|] == ws;
  }

  lemma HeldWoken(ws: seq<Pc>, x: nat)
    ensures Held(WakeWorkers(ws), x) == Held(ws, x)
  {
    HeldSame(ws, WakeWorkers(ws), x);
  }

  lemma {:induction false} HeldNothing(ws: seq<Pc>, x: nat)
    requires forall i :: 0 <= i < |ws| ==> ws[i] == Acquire || ws[i] == Gone
    ensures Held(ws, x) == 0
    decreases |ws|
  {
    if ws != [] { HeldNothing(ws[..|ws| - 1], x); }
  }

  // ---- every task that is taken is run once ----

  /** Task x is finished, or in the hands of workers, as often as it left the queue. */
  ghost predicate Accounted(s: State, x: nat) {
    Times(s.finished, x) + Held(s.workers, x) == Times(s.taken, x)
  }

  /** What a step does to the hands of the worker. */
  lemma WorkerHands(s: State, s': State, w: nat)
    requires WorkerStep(s, s', w)
    ensures w < |s.workers| == |s'.workers|
    ensures s.workers[w] == Take ==>
      s.queue != [] && s'.workers[w] == NotifyOthers(s.queue[0]) && s'.taken == s.taken + [s.queue[0]] && s'.finished == s.finished
    ensures s.workers[w].Run? ==> s'.workers[w] == Finish && s'.taken == s.taken && s'.finished == s.finished + [s.workers[w].task]
    ensures s.workers[w] != Take && !s.workers[w].Run? ==>
      s'.taken == s.taken && s'.finished == s.finished && forall x :: HeldBy(s'.workers[w], x) == HeldBy(s.workers[w], x)
  {
    hide WakeWorkers, WakeClients, WakeDtor;
  }

  lemma OtherHands(s: State, s': State, w: nat, x: nat)
    requires WorkerStep(s, s', w)
    ensures w < |s.workers| == |s'.workers|
    ensures Held(s'.workers, x) == Held(s.workers, x) - HeldBy(s.workers[w], x) + HeldBy(s'.workers[w], x)
  {
    WorkerFrame(s, s', w);
    hide WorkerStep, Held;
    HeldUpdate(s.workers, w, s'.workers[w], x);
    HeldSame(s.workers[w := s'.workers[w]], s'.workers, x);
  }

  lemma InHands(task: nat, x: nat)
    ensures HeldBy(Take, x) == HeldBy(Finish, x) == 0 && HeldBy(NotifyOthers(task), x) == HeldBy(Run(task), x) == One(task, x)
  {
  }

  lemma WorkerAccounted(s: State, s': State, w: nat, x: nat)
    requires Accounted(s, x) && WorkerStep(s, s', w)
    ensures Accounted(s', x)
  {
    WorkerHands(s, s', w);
    OtherHands(s, s', w, x);
    hide WorkerStep, Times, Held, One, HeldBy;
    if s.workers[w] == Take {
      InHands(s.queue[0], x);
      TimesMore(s.taken, s.queue[0], x);
    } else if s.workers[w].Run? {
      InHands(s.workers[w].task, x);
      TimesMore(s.finished, s.workers[w].task, x);
    } else {
      assert HeldBy(s'.workers[w], x) == HeldBy(s.workers[w], x);
    }
  }

  lemma ClientAccounted(s: State, s': State, c: nat, x: nat)
    requires Accounted(s, x) && ClientStep(s, s', c)
    ensures Accounted(s', x)
  {
    hide Times, Held;
    HeldWoken(s.workers, x);
    HeldMore(s.workers, x);
  }

  lemma DtorAccounted(s: State, s': State, x: nat)
    requires Accounted(s, x) && DtorStep(s, s')
    ensures Accounted(s', x)
  {
    hide Times, Held;
    HeldWoken(s.workers, x);
  }

  lemma StirAccounted(s: State, s': State, x: nat)
    requires Accounted(s, x) && Stir(s, s')
    ensures Accounted(s', x)
  {
    hide Times, Held;
    if w: nat, timeout :| w < |s.workers| && s.workers[w] == Asleep && s' == WorkerAt(s, w, Woken(timeout)) {
      HeldUpdate(s.workers, w, Woken(timeout), x);
    }
  }

  lemma StepAccounted(s: State, s': State, x: nat)
    requires Accounted(s, x) && (Works(s, s') || Stir(s, s'))
    ensures Accounted(s', x)
  {
    hide Accounted, WorkerStep, ClientStep, DtorStep, Stir;
    if Stir(s, s') {
      StirAccounted(s, s', x);
    } else if DtorStep(s, s') {
      DtorAccounted(s, s', x);
    } else if w :| WorkerStep(s, s', w) {
      WorkerAccounted(s, s', w, x);
    } else {
      var c :| ClientStep(s, s', c);
      ClientAccounted(s, s', c, x);
    }
  }

  lemma InitAccounted(s: State, x: nat)
    requires Init(s)
    ensures Accounted(s, x)
  {
    HeldNothing(s.workers, x);
  }

  lemma {:induction false} TraceAccounted(run: seq<State>, x: nat)
    requires Trace(run)
    ensures Accounted(Last(run), x)
    decreases |run|
  {
    hide Accounted, Works, Stir, Init;
    if |run| <= 1 {
      InitAccounted(run[0], x);
    } else {
      TraceAccounted(run[..|run| - 1], x);
      StepAccounted(Last(run[..|run| - 1]), Last(run), x);
    }
  }

  /** In every reachable state each submitted task is in the queue, in the hands of one worker, or finished. */
  lemma TasksAccounted(run: seq<State>, x: nat)
    requires Trace(run)
    ensures var s := Last(run); Times(s.submitted, x) == Times(s.finished, x) + Held(s.workers, x) + Times(s.queue, x)
  {
    TraceAccounted(run, x);
    TraceInv(run);
    TimesConcat(Last(run).taken, Last(run).queue, x);
  }

  /** When the destructor is done, every task that was submitted to a pool started with a thread was run exactly once. */
  lemma EveryTaskRunOnce(run: seq<State>)
    requires Trace(run) && Last(run).dtor == Done && Last(run).init > 0
    ensures multiset(Last(run).finished) == multiset(Last(run).submitted)
  {
    var s := Last(run);
    TraceInv(run);
    Drained(s);
    hide Trace, Times, Held;
    forall x
      ensures multiset(s.finished)[x] == multiset(s.submitted)[x]
    {
      TraceAccounted(run, x);
      HeldNothing(s.workers, x);
      TimesIsMultiplicity(s.finished, x);
      TimesIsMultiplicity(s.submitted, x);
    }
  }
}
