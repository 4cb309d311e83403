/** The pool object. Each method is one atomic region of the source's code, on the object's own
    fields and the locals passed between regions; ghost fields record where every thread is. */
module CachedThreadPool {
  import opened Options
  import opened ThreadPool

  class Impl {
    const cfg: Config
    var mIsShutdown: bool
    var mIsTerminated: bool
    var mWorkers: set<Tid>
    var mTaskQueue: seq<Task>

    ghost var workerLock: Option<Caller>
    ghost var threads: map<Tid, Phase>
    ghost var calls: map<Caller, Call>
    ghost var blocked: set<nat>
    ghost var issued: seq<Task>
    ghost var rejected: seq<Task>
    ghost var accepted: seq<Task>
    ghost var enqueued: seq<Task>
    ghost var dequeued: seq<Task>
    ghost var completed: seq<Task>

    ghost function View(): State
      reads this
    {
      State(cfg, mIsShutdown, mIsTerminated, workerLock, mWorkers, mTaskQueue, threads, calls, blocked,
            issued, rejected, accepted, enqueued, dequeued, completed)
    }

    constructor (core: int32, max: int32, keepAlive: int32, ghost callers: set<Caller>)
      ensures View() == Initial(Configured(core, max, keepAlive), callers)
    {
      var mCorePoolSize, mKeepAliveTime := core, keepAlive;
      if mCorePoolSize > max {
        mCorePoolSize := max;
      }
      if mKeepAliveTime < 0 {
        mKeepAliveTime := 0;
      }
      cfg := Config(mCorePoolSize, max, mKeepAliveTime);
      mIsShutdown, mIsTerminated, mWorkers, mTaskQueue := false, false, {}, [];
      workerLock, threads, calls, blocked := None, map[], map c | c in callers :: Idle, {};
      issued, rejected, accepted, enqueued, dequeued, completed := [], [], [], [], [], [];
    }

    // ---------- execute ----------

    ghost method EnterExecute(c: Caller, task: Task)
      requires Enabled(View(), Submit(c, task))
      modifies this
      ensures View() == Apply(old(View()), Submit(c, task))
    {
      calls, issued := calls[c := Called(task)], issued + [task];
    }

    /** False stands for the exception. */
    method PassesShutdownCheck(ghost c: Caller, task: Task) returns (ok: bool)
      requires Enabled(View(), CheckShutdown(c)) && calls[c] == Called(task)
      modifies this
      ensures View() == Apply(old(View()), CheckShutdown(c))
      ensures calls[c] == if ok then Checked(task) else Idle
    {
      ok := !(mIsShutdown || mIsTerminated);
      if ok {
        calls := calls[c := Checked(task)];
      } else {
        calls, rejected := calls[c := Idle], rejected + [task];
      }
    }

    method ReadWorkerCount(ghost c: Caller, task: Task) returns (workerCount: nat, start: bool)
      requires Enabled(View(), ReadCount(c)) && calls[c] == Checked(task)
      modifies this
      ensures View() == Apply(old(View()), ReadCount(c))
      ensures calls[c] == if start then WantStart(task) else Counted(task, workerCount)
    {
      workerCount := |mWorkers|;
      start := workerCount < SizeT(cfg.core);
      calls := calls[c := if start then WantStart(task) else Counted(task, workerCount)];
    }

    method ReadQueueSize(ghost c: Caller, task: Task, workerCount: nat) returns (start: bool)
      requires Enabled(View(), ReadQueue(c)) && calls[c] == Counted(task, workerCount)
      modifies this
      ensures View() == Apply(old(View()), ReadQueue(c))
      ensures calls[c] == if start then WantStart(task) else WantPush(task)
    {
      var queueSize := |mTaskQueue|;
      start := queueSize > 0 && workerCount < SizeT(cfg.max);
      calls := calls[c := if start then WantStart(task) else WantPush(task)];
    }

    /** Locks the workers and creates the thread; the operating system picks its id. */
    method CreateWorkerThread(ghost c: Caller, task: Task, thread: Tid)
      requires Enabled(View(), CreateThread(c, thread)) && calls[c] == WantStart(task)
      modifies this
      ensures View() == Apply(old(View()), CreateThread(c, thread))
    {
      workerLock, calls := Some(c), calls[c := Starting(thread)];
      threads, accepted := threads[thread := Created(task)], accepted + [task];
    }

    /** Inserts the entry and unlocks. */
    method EmplaceWorker(ghost c: Caller, thread: Tid)
      requires Enabled(View(), Emplace(c)) && calls[c] == Starting(thread)
      modifies this
      ensures View() == Apply(old(View()), Emplace(c))
    {
      mWorkers := mWorkers + {thread};
      workerLock, calls := None, calls[c := Idle];
    }

    /** `notify_one` wakes some waiting thread if there is one. */
    method PushTask(ghost c: Caller, task: Task, ghost signalled: Option<Tid>)
      requires Enabled(View(), Push(c, signalled)) && calls[c] == WantPush(task)
      modifies this
      ensures View() == Apply(old(View()), Push(c, signalled))
    {
      mTaskQueue := mTaskQueue + [task];
      calls, accepted, enqueued := calls[c := Idle], accepted + [task], enqueued + [task];
      match signalled {
        case Some(t) => threads := threads[t := Woken(threads[t].mode)];
        case None =>
      }
    }

    // ---------- Worker::run ----------

    method TakeFirstTask(ghost t: Tid, firstTask: Task) returns (task: Task)
      requires Enabled(View(), Begin(t)) && threads[t] == Created(firstTask)
      modifies this
      ensures View() == Apply(old(View()), Begin(t)) && threads[t] == Running(task)
    {
      task := firstTask;
      threads := threads[t := Running(task)];
    }

    /** The argument for getTask. */
    method ChooseTimeout(ghost t: Tid) returns (timeout: int)
      requires Enabled(View(), Choose(t)) && cfg.keepAlive >= 0
      modifies this
      ensures View() == Apply(old(View()), Choose(t))
      ensures threads[t] == Entering(if timeout == 0 then NoWait else if timeout < 0 then Forever else Timed)
    {
      var allowQuit := |mWorkers| > SizeT(cfg.core);
      timeout := if allowQuit then cfg.keepAlive as int else -1;
      threads := threads[t := Entering(ModeFor(cfg, |mWorkers|))];
    }

    /** One stretch of getTask under the queue lock: up to the wait, or from there on. */
    method TryGetTask(ghost t: Tid, timeout: int, ghost mode: Mode, woken: bool)
      returns (task: Option<Task>, waits: bool)
      requires Enabled(View(), GetTask(t)) && threads[t] == (if woken then Woken(mode) else Entering(mode))
      requires mode == if timeout == 0 then NoWait else if timeout < 0 then Forever else Timed
      modifies this
      ensures View() == Apply(old(View()), GetTask(t))
      ensures threads[t] == if task.Some? then Running(task.value) else if waits then Waiting(mode) else Leaving
    {
      if timeout == 0 {
        waits := false;
      } else if timeout < 0 {
        waits := mTaskQueue == [] && !mIsShutdown;
      } else {
        waits := !woken && mTaskQueue == [] && !mIsShutdown;
      }
      task := None;
      if !waits && mTaskQueue != [] {
        task := Some(mTaskQueue[0]);
        mTaskQueue, dequeued := mTaskQueue[1..], dequeued + [mTaskQueue[0]];
      }
      threads := threads[t := if task.Some? then Running(task.value) else if waits then Waiting(mode) else Leaving];
    }

    /** A time-out or a wakeup for no reason. */
    ghost method WaitEnds(t: Tid)
      requires Enabled(View(), Wake(t))
      modifies this
      ensures View() == Apply(old(View()), Wake(t))
    {
      threads := threads[t := Woken(threads[t].mode)];
    }

    ghost method TaskReturns(t: Tid)
      requires Enabled(View(), Finish(t))
      modifies this
      ensures View() == Apply(old(View()), Finish(t))
    {
      threads, completed := threads[t := Ready], completed + [threads[t].task];
    }

    // ---------- onWorkerExit ----------

    method EraseWorker(t: Tid)
      requires Enabled(View(), Erase(t))
      modifies this
      ensures View() == Apply(old(View()), Erase(t))
    {
      mWorkers := mWorkers - {t};
      threads := threads[t := Erased];
    }

    method ReadShutdownFlag(ghost t: Tid) returns (checks: bool)
      requires Enabled(View(), ReadShutdown(t))
      modifies this
      ensures View() == Apply(old(View()), ReadShutdown(t))
      ensures checks <==> t in threads
    {
      checks := mIsShutdown;
      threads := if checks then threads[t := Checking] else threads - {t};
    }

    method TerminationRegion(ghost t: Tid)
      requires Enabled(View(), CheckTermination(t))
      modifies this
      ensures View() == Apply(old(View()), CheckTermination(t))
    {
      if mWorkers == {} {
        mIsTerminated := true;
        blocked := {};
      }
      threads := threads - {t};
    }

    // ---------- the other methods ----------

    method ShutdownRegion()
      modifies this
      ensures View() == Apply(old(View()), Shutdown)
    {
      mIsShutdown := true;
      threads := WakeAll(threads);
    }

    /** Whether the caller of awaitTermination goes to sleep. */
    method AwaitRegion(ghost a: nat) returns (waits: bool)
      requires Enabled(View(), Await(a))
      modifies this
      ensures View() == Apply(old(View()), Await(a))
      ensures waits <==> a in blocked
    {
      waits := !mIsTerminated;
      if waits {
        blocked := blocked + {a};
      }
    }
  }
}
