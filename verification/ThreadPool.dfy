/** The cached thread pool as an interleaving of atomic steps: one for each region that holds a
    lock and one for each read made without it. */
module ThreadPool {
  import opened Options

  type int32 = n: int | -0x8000_0000 <= n < 0x8000_0000

  type Tid = nat      // pthread_t
  type Caller = nat   // a thread that may call execute
  type Task = nat     // the address of a task object: every accepted call hands over its own

  datatype Config = Config(core: int32, max: int32, keepAlive: int32)

  /** The constructor's adjustments. */
  function Configured(core: int32, max: int32, keepAlive: int32): Config {
    Config(if core > max then max else core, max, if keepAlive < 0 then 0 else keepAlive)
  }

  /** The conversion an `int` undergoes when it is compared with a `size_t`. */
  function SizeT(n: int32): nat {
    if n < 0 then n + 0x1_0000_0000_0000_0000 else n
  }

  /** Below this count a caller may decide to start a worker. */
  function Limit(cfg: Config): nat {
    if SizeT(cfg.core) < SizeT(cfg.max) then SizeT(cfg.max) else SizeT(cfg.core)
  }

  /** The argument of getTask: -1, 0 or positive. */
  datatype Mode = Forever | NoWait | Timed

  /** Where a worker thread is. */
  datatype Phase =
    | Created(first: Task)      // started by pthread_create with its first task
    | Ready                     // about to read the worker count
    | Entering(mode: Mode)      // about to lock the queue in getTask
    | Waiting(mode: Mode)       // blocked in the condition variable
    | Woken(mode: Mode)         // signalled, timed out or woken for no reason; about to relock
    | Running(task: Task)
    | Leaving                   // got no task; about to erase itself
    | Erased                    // about to read mIsShutdown
    | Checking                  // about to enter the termination region

  /** Where a call of execute is. */
  datatype Call =
    | Idle
    | Called(task: Task)                // about to read mIsShutdown
    | Checked(task: Task)               // about to read the worker count
    | Counted(task: Task, count: nat)   // about to read the queue size
    | WantStart(task: Task)             // about to lock the workers
    | Starting(tid: Tid)                // thread created, entry not yet in the map
    | WantPush(task: Task)              // about to lock the queue

  datatype State = State(
    cfg: Config,
    isShutdown: bool,
    isTerminated: bool,
    workerLock: Option<Caller>,   // held across pthread_create and emplace only
    workers: set<Tid>,            // the keys of mWorkers
    queue: seq<Task>,
    threads: map<Tid, Phase>,     // the live worker threads
    calls: map<Caller, Call>,
    blocked: set<nat>,            // threads blocked in awaitTermination
    // history
    issued: seq<Task>,
    rejected: seq<Task>,
    accepted: seq<Task>,
    enqueued: seq<Task>,
    dequeued: seq<Task>,
    completed: seq<Task>)

  datatype Action =
    // execute
    | Submit(c: Caller, task: Task)
    | CheckShutdown(c: Caller)
    | ReadCount(c: Caller)
    | ReadQueue(c: Caller)
    | CreateThread(c: Caller, tid: Tid)
    | Emplace(c: Caller)
    | Push(c: Caller, signalled: Option<Tid>)
    // Worker::run, getTask, onWorkerExit
    | Begin(t: Tid)
    | Choose(t: Tid)
    | GetTask(t: Tid)
    | Wake(t: Tid)
    | Finish(t: Tid)
    | Erase(t: Tid)
    | ReadShutdown(t: Tid)
    | CheckTermination(t: Tid)
    // the other methods
    | Shutdown
    | Await(a: nat)
    | AwaitReturns(a: nat)

  function Initial(cfg: Config, callers: set<Caller>): State {
    State(cfg, false, false, None, {}, [], map[], map c | c in callers :: Idle, {}, [], [], [], [], [], [])
  }

  predicate Enabled(s: State, a: Action) {
    match a
    case Submit(c, task) => c in s.calls && s.calls[c].Idle? && task !in s.issued
    case CheckShutdown(c) => c in s.calls && s.calls[c].Called?
    case ReadCount(c) => c in s.calls && s.calls[c].Checked?
    case ReadQueue(c) => c in s.calls && s.calls[c].Counted?
    case CreateThread(c, t) => c in s.calls && s.calls[c].WantStart? && s.workerLock.None? && t !in s.threads
    case Emplace(c) => c in s.calls && s.calls[c].Starting?
    case Push(c, signalled) =>
      c in s.calls && s.calls[c].WantPush? &&
      (match signalled
       case Some(t) => t in s.threads && s.threads[t].Waiting?
       case None => forall t | t in s.threads :: !s.threads[t].Waiting?)
    case Begin(t) => t in s.threads && s.threads[t].Created?
    case Choose(t) => t in s.threads && s.threads[t].Ready?
    case GetTask(t) => t in s.threads && (s.threads[t].Entering? || s.threads[t].Woken?)
    case Wake(t) => t in s.threads && s.threads[t].Waiting?
    case Finish(t) => t in s.threads && s.threads[t].Running?
    case Erase(t) => t in s.threads && s.threads[t].Leaving? && s.workerLock.None?
    case ReadShutdown(t) => t in s.threads && s.threads[t].Erased?
    case CheckTermination(t) => t in s.threads && s.threads[t].Checking?
    case Shutdown => true
    case Await(a) => a !in s.blocked
    case AwaitReturns(a) => a in s.blocked
  }

  /** The timeout a worker passes to getTask. */
  function ModeFor(cfg: Config, count: nat): Mode {
    if count > SizeT(cfg.core) then (if cfg.keepAlive == 0 then NoWait else Timed) else Forever
  }

  /** What getTask does with an empty queue: a timed wait is not repeated. */
  function WithoutTask(p: Phase, isShutdown: bool): Phase
    requires p.Entering? || p.Woken?
  {
    if p.mode.NoWait? || isShutdown || (p.Woken? && p.mode.Timed?) then Leaving else Waiting(p.mode)
  }

  function WakeAll(threads: map<Tid, Phase>): map<Tid, Phase> {
    map t | t in threads :: if threads[t].Waiting? then Woken(threads[t].mode) else threads[t]
  }

  function Apply(s: State, a: Action): State
    requires Enabled(s, a)
  {
    match a
    case Submit(c, task) =>
      s.(calls := s.calls[c := Called(task)], issued := s.issued + [task])
    case CheckShutdown(c) =>
      var task := s.calls[c].task;
      if s.isShutdown || s.isTerminated
      then s.(calls := s.calls[c := Idle], rejected := s.rejected + [task])
      else s.(calls := s.calls[c := Checked(task)])
    case ReadCount(c) =>
      var task := s.calls[c].task;
      s.(calls := s.calls[c := if |s.workers| < SizeT(s.cfg.core) then WantStart(task)
                               else Counted(task, |s.workers|)])
    case ReadQueue(c) =>
      var Counted(task, count) := s.calls[c];
      s.(calls := s.calls[c := if |s.queue| > 0 && count < SizeT(s.cfg.max) then WantStart(task)
                               else WantPush(task)])
    case CreateThread(c, t) =>
      var task := s.calls[c].task;
      s.(calls := s.calls[c := Starting(t)], workerLock := Some(c),
         threads := s.threads[t := Created(task)], accepted := s.accepted + [task])
    case Emplace(c) =>
      s.(calls := s.calls[c := Idle], workerLock := None, workers := s.workers + {s.calls[c].tid})
    case Push(c, signalled) =>
      var task := s.calls[c].task;
      s.(calls := s.calls[c := Idle], queue := s.queue + [task],
         threads := (match signalled
                     case Some(t) => s.threads[t := Woken(s.threads[t].mode)]
                     case None => s.threads),
         accepted := s.accepted + [task], enqueued := s.enqueued + [task])
    case Begin(t) =>
      s.(threads := s.threads[t := Running(s.threads[t].first)])
    case Choose(t) =>
      s.(threads := s.threads[t := Entering(ModeFor(s.cfg, |s.workers|))])
    case GetTask(t) =>
      if s.queue == []
      then s.(threads := s.threads[t := WithoutTask(s.threads[t], s.isShutdown)])
      else s.(threads := s.threads[t := Running(s.queue[0])], queue := s.queue[1..],
              dequeued := s.dequeued + [s.queue[0]])
    case Wake(t) =>
      s.(threads := s.threads[t := Woken(s.threads[t].mode)])
    case Finish(t) =>
      s.(threads := s.threads[t := Ready], completed := s.completed + [s.threads[t].task])
    case Erase(t) =>
      s.(threads := s.threads[t := Erased], workers := s.workers - {t})
    case ReadShutdown(t) =>
      s.(threads := if s.isShutdown then s.threads[t := Checking] else s.threads - {t})
    case CheckTermination(t) =>
      if s.workers == {}
      then s.(threads := s.threads - {t}, isTerminated := true, blocked := {})
      else s.(threads := s.threads - {t})
    case Shutdown =>
      s.(isShutdown := true, threads := WakeAll(s.threads))
    case Await(a) =>
      if s.isTerminated then s else s.(blocked := s.blocked + {a})
    case AwaitReturns(a) =>
      s.(blocked := s.blocked - {a})
  }

  // ---------- runs ----------

  /** Every step of the run is enabled where it is taken. */
  ghost predicate Runs(s: State, acts: seq<Action>)
    decreases acts
  {
    acts != [] ==> Enabled(s, acts[0]) && Runs(Apply(s, acts[0]), acts[1..])
  }

  ghost function After(s: State, acts: seq<Action>): State
    requires Runs(s, acts)
    decreases acts
  {
    if acts == [] then s else After(Apply(s, acts[0]), acts[1..])
  }

  lemma RunsPrepend(s: State, a: Action, rest: seq<Action>)
    requires Enabled(s, a) && Runs(Apply(s, a), rest)
    ensures Runs(s, [a] + rest) && After(s, [a] + rest) == After(Apply(s, a), rest)
  {
    assert ([a] + rest)[1..] == rest;
  }

  lemma {:induction false} RunsAppend(s: State, a: seq<Action>, b: seq<Action>)
    requires Runs(s, a) && Runs(After(s, a), b)
    ensures Runs(s, a + b) && After(s, a + b) == After(After(s, a), b)
    decreases a
  {
    if a == [] {
      assert a + b == b;
    } else {
      RunsAppend(Apply(s, a[0]), a[1..], b);
      assert (a + b)[1..] == a[1..] + b;
    }
  }
}
