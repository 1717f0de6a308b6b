/** The thread pool of threadpool_new.cpp and threadpool_new.h as a system of threads that share a mutex. */
module PoolState {

  datatype Mode = Fixed | Cached

  /** Who holds taskQueMtx_. */
  datatype Owner = Nobody | Worker(id: nat) | Client(id: nat) | Destructor

  /** Where a worker stands in ThreadPool::threadFunc. */
  datatype Pc =
    | Acquire                // wants the mutex
    | Test                   // looks whether there is a task
    | TestRunning            // found none: looks whether the pool is still running
    | Sleep                  // about to wait on noEmpty_
    | Asleep                 // waiting on noEmpty_, the mutex released
    | Woken(timeout: bool)   // notified, timed out or woken for no reason; wants the mutex back, and may time out meanwhile
    | TimedOut               // waited in vain: looks whether it has been idle for too long and may leave
    | Take                   // takes the first task; the counters follow
    | NotifyOthers(task: nat) // wakes the other workers if tasks are left, and the callers; then releases the mutex
    | Run(task: nat)         // works on its task, without the mutex
    | Finish                 // counts as idle again
    | Gone                   // the thread function has returned

  /** Where a caller stands in ThreadPool::submitTask. */
  datatype Submit =
    | Outside
    | Enter(task: nat)       // wants the mutex
    | TestFull(task: nat, timeout: bool) // looks whether there is room in the queue
    | FullAsleep(task: nat)
    | FullWoken(task: nat, timeout: bool)
    | NotifyEmpty            // has put its task into the queue: wakes the workers
    | Grow                   // cached mode: maybe one more thread; the mutex is released

  /** Where the destructor stands. */
  datatype Dtor =
    | Alive
    | Stopping               // the pool counts as stopped; wants the mutex
    | Notify                 // wakes the workers
    | TestEmpty              // looks whether all threads have left
    | ExitAsleep
    | ExitWoken
    | Done

  /**
   Worker i is the thread with id i; thread ids start at 0, and start() and submitTask hand them out in order.
   `submitted`, `taken` and `finished` record what entered the queue, what left it and what was run; no step looks at them.
   */
  datatype State = State(
    mode: Mode, init: nat, threshold: int, limit: nat,
    running: bool, lock: Owner, queue: seq<nat>, taskSize: int, cur: int, idle: int,
    threads: set<nat>, workers: seq<Pc>, clients: map<nat, Submit>, dtor: Dtor,
    submitted: seq<nat>, taken: seq<nat>, finished: seq<nat>)

  function Ids(n: nat): set<nat> {
    if n == 0 then {} else Ids(n - 1) + {n - 1}
  }

  /** The pool when start() has returned: init threads, all on their way to the mutex. */
  ghost predicate Init(s: State) {
    && s.running && s.lock == Nobody && s.queue == [] && s.taskSize == 0 && s.cur == s.init && s.idle == s.init
    && s.threads == Ids(s.init) && |s.workers| == s.init && (forall i :: 0 <= i < s.init ==> s.workers[i] == Acquire)
    && (forall c :: c in s.clients ==> s.clients[c] == Outside) && s.dtor == Alive && s.submitted == [] && s.taken == [] && s.finished == []
  }

  // ---- condition variables ----

  /** All workers that wait on noEmpty_ are woken. */
  function WakeWorkers(ws: seq<Pc>): (r: seq<Pc>)
    ensures |r| == |ws| && forall i :: 0 <= i < |ws| ==> r[i] == if ws[i] == Asleep then Woken(false) else ws[i]
  {
    seq(|ws|, i requires 0 <= i < |ws| => if ws[i] == Asleep then Woken(false) else ws[i])
  }

  /** All callers that wait on notFull_ are woken. */
  function WakeClients(cs: map<nat, Submit>): map<nat, Submit> {
    map c | c in cs :: if cs[c].FullAsleep? then FullWoken(cs[c].task, false) else cs[c]
  }

  /** The destructor is woken if it waits on exitCond_. */
  function WakeDtor(d: Dtor): Dtor {
    if d == ExitAsleep then ExitWoken else d
  }

  // ---- workers ----

  function WorkerAt(s: State, w: nat, pc: Pc): State
    requires w < |s.workers|
  {
    s.(workers := s.workers[w := pc])
  }

  ghost predicate WorkerStep(s: State, s': State, w: nat) {
    w < |s.workers| &&
    match s.workers[w]
    case Acquire => s.lock == Nobody && s' == WorkerAt(s, w, Test).(lock := Worker(w))
    case Test => s' == WorkerAt(s, w, if s.queue == [] then TestRunning else Take)
    case TestRunning =>
      if s.running then s' == WorkerAt(s, w, Sleep)
      else s' == WorkerAt(s, w, Gone).(threads := s.threads - {w}, dtor := WakeDtor(s.dtor), lock := Nobody)
    case Sleep => s' == WorkerAt(s, w, Asleep).(lock := Nobody)
    case Asleep => false
    case Woken(timeout) =>
      // in cached mode the wait may also have lasted too long by the time the mutex is back
      && s.lock == Nobody
      && (|| (!(timeout && s.mode == Cached) && s' == WorkerAt(s, w, Test).(lock := Worker(w)))
          || (s.mode == Cached && s' == WorkerAt(s, w, TimedOut).(lock := Worker(w))))
    case TimedOut =>
      // the time since the last task is not modelled: either outcome of that test is possible
      || s' == WorkerAt(s, w, Test)
      || (s.cur > s.init && s' == WorkerAt(s, w, Gone).(threads := s.threads - {w}, cur := s.cur - 1, idle := s.idle - 1, lock := Nobody))
    case Take =>
      s.queue != [] && s' == WorkerAt(s, w, NotifyOthers(s.queue[0])).(idle := s.idle - 1, queue := s.queue[1..],
                                                                       taskSize := s.taskSize - 1, taken := s.taken + [s.queue[0]])
    case NotifyOthers(task) =>
      s' == s.(workers := (if s.queue != [] then WakeWorkers(s.workers) else s.workers)[w := Run(task)],
               clients := WakeClients(s.clients), lock := Nobody)
    case Run(task) => s' == WorkerAt(s, w, Finish).(finished := s.finished + [task])
    case Finish => s' == WorkerAt(s, w, Acquire).(idle := s.idle + 1)
    case Gone => false
  }

  // ---- callers of submitTask ----

  function ClientAt(s: State, c: nat, pc: Submit): State {
    s.(clients := s.clients[c := pc])
  }

  /** Whether submitTask adds a thread. */
  predicate Grows(s: State) {
    s.mode == Cached && s.taskSize > s.idle && s.cur < s.threshold
  }

  ghost predicate ClientStep(s: State, s': State, c: nat) {
    c in s.clients &&
    match s.clients[c]
    // nobody may use a pool whose destructor runs
    case Outside => s.dtor == Alive && exists task :: s' == ClientAt(s, c, Enter(task))
    case Enter(task) => s.lock == Nobody && s' == ClientAt(s, c, TestFull(task, false)).(lock := Client(c))
    case TestFull(task, timeout) =>
      if |s.queue| < s.limit then
        s' == ClientAt(s, c, NotifyEmpty).(queue := s.queue + [task], taskSize := s.taskSize + 1, submitted := s.submitted + [task])
      else if timeout then s' == ClientAt(s, c, Outside).(lock := Nobody)
      else s' == ClientAt(s, c, FullAsleep(task)).(lock := Nobody)
    case FullAsleep(_) => false
    case FullWoken(task, timeout) =>
      s.lock == Nobody && exists late :: (timeout ==> late) && s' == ClientAt(s, c, TestFull(task, late)).(lock := Client(c))
    case NotifyEmpty => s' == ClientAt(s, c, Grow).(workers := WakeWorkers(s.workers))
    case Grow =>
      s' == if Grows(s)
            then ClientAt(s, c, Outside).(threads := s.threads + {|s.workers|}, workers := s.workers + [Acquire],
                                          cur := s.cur + 1, idle := s.idle + 1, lock := Nobody)
            else ClientAt(s, c, Outside).(lock := Nobody)
  }

  // ---- the destructor ----

  ghost predicate DtorStep(s: State, s': State) {
    match s.dtor
    // every submitTask has returned
    case Alive => (forall c :: c in s.clients ==> s.clients[c] == Outside) && s' == s.(running := false, dtor := Stopping)
    case Stopping => s.lock == Nobody && s' == s.(lock := Destructor, dtor := Notify)
    case Notify => s' == s.(workers := WakeWorkers(s.workers), dtor := TestEmpty)
    case TestEmpty => s' == s.(dtor := if s.threads == {} then Done else ExitAsleep, lock := Nobody)
    case ExitAsleep => false
    case ExitWoken => s.lock == Nobody && s' == s.(lock := Destructor, dtor := TestEmpty)
    case Done => false
  }

  /** Timeouts, and wakeups that nobody asked for: condition variables may return at any time. */
  ghost predicate Stir(s: State, s': State) {
    || (exists w: nat :: w < |s.workers| && s.workers[w] == Asleep && s' == WorkerAt(s, w, Woken(false)))
    || (exists w: nat :: w < |s.workers| && s.workers[w] == Asleep && s.mode == Cached && s' == WorkerAt(s, w, Woken(true)))
    || (exists c, timeout :: c in s.clients && s.clients[c].FullAsleep? && s' == ClientAt(s, c, FullWoken(s.clients[c].task, timeout)))
    || (s.dtor == ExitAsleep && s' == s.(dtor := ExitWoken))
  }

  /** A step that some thread makes on its own account. */
  ghost predicate Works(s: State, s': State) {
    || (exists w :: WorkerStep(s, s', w))
    || (exists c :: ClientStep(s, s', c))
    || DtorStep(s, s')
  }

  function Last(run: seq<State>): State
    requires run != []
  {
    run[|run| - 1]
  }

  /** Every prefix of a run is a run. */
  ghost predicate Trace(run: seq<State>) {
    if |run| <= 1 then |run| == 1 && Init(run[0])
    else Trace(run[..|run| - 1]) && (Works(Last(run[..|run| - 1]), Last(run)) || Stir(Last(run[..|run| - 1]), Last(run)))
  }
}
