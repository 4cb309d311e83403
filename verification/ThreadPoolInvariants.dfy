/** What every step of the pool keeps, in every configuration, with any number of callers. */
module ThreadPoolInvariants {
  import opened Options
  import opened Totals
  import opened ThreadPool

  predicate IsWorkerStep(a: Action) {
    a.Begin? || a.Choose? || a.GetTask? || a.Wake? || a.Finish? || a.Erase? || a.ReadShutdown? || a.CheckTermination?
  }

  predicate IsCallStep(a: Action) {
    a.Submit? || a.CheckShutdown? || a.ReadCount? || a.ReadQueue? || a.CreateThread? || a.Emplace? || a.Push?
  }

  /** A step of a worker moves that worker only. */
  lemma WorkerMovesOne(s: State, a: Action)
    requires Enabled(s, a) && IsWorkerStep(a)
    ensures var s' := Apply(s, a);
            a.t in s.threads &&
            s'.threads == if a.t in s'.threads then s.threads[a.t := s'.threads[a.t]] else s.threads - {a.t}
  {
  }

  // ---------- the worker map ----------

  predicate Registered(p: Phase) { !p.Erased? && !p.Checking? }

  /** The thread whose entry is still to be inserted. */
  ghost predicate BeingStarted(s: State, t: Tid) {
    s.workerLock.Some? && s.workerLock.value in s.calls && s.calls[s.workerLock.value] == Starting(t)
  }

  /** The keys of the map are exactly the live threads that have not erased themselves, except
      the one being started; a caller that is starting one holds the lock. */
  ghost predicate MapMatchesThreads(s: State) {
    && (forall t | t in s.workers :: t in s.threads && Registered(s.threads[t]) && !BeingStarted(s, t))
    && (forall t | t in s.threads && Registered(s.threads[t]) :: t in s.workers || BeingStarted(s, t))
    && (forall c | c in s.calls && s.calls[c].Starting? ::
          && s.workerLock == Some(c)
          && s.calls[c].tid in s.threads && Registered(s.threads[s.calls[c].tid]))
    && (s.workerLock.Some? ==> s.workerLock.value in s.calls && s.calls[s.workerLock.value].Starting?)
  }

  /** The invariant sees of a thread whether it is registered, and of a call whether it is
      starting a thread. */
  lemma MapFrame(s: State, s': State)
    requires MapMatchesThreads(s)
    requires s'.workers == s.workers && s'.workerLock == s.workerLock
    requires s'.calls.Keys == s.calls.Keys
    requires forall c | c in s.calls :: s'.calls[c] == s.calls[c] || (!s.calls[c].Starting? && !s'.calls[c].Starting?)
    requires forall t ::
               (t in s.threads && Registered(s.threads[t])) <==> (t in s'.threads && Registered(s'.threads[t]))
    ensures MapMatchesThreads(s')
  {
    assert forall t :: BeingStarted(s, t) <==> BeingStarted(s', t);
  }

  lemma MapCreate(s: State, a: Action)
    requires MapMatchesThreads(s) && Enabled(s, a) && a.CreateThread?
    ensures MapMatchesThreads(Apply(s, a))
  {
    var s' := Apply(s, a);
    assert forall t :: BeingStarted(s', t) <==> t == a.tid;
    assert forall t :: !BeingStarted(s, t);
  }

  lemma MapEmplace(s: State, a: Action)
    requires MapMatchesThreads(s) && Enabled(s, a) && a.Emplace?
    ensures MapMatchesThreads(Apply(s, a))
  {
    var s' := Apply(s, a);
    assert forall t :: BeingStarted(s, t) <==> t == s.calls[a.c].tid;
    assert forall t :: !BeingStarted(s', t);
  }

  lemma MapErase(s: State, a: Action)
    requires MapMatchesThreads(s) && Enabled(s, a) && a.Erase?
    ensures MapMatchesThreads(Apply(s, a))
  {
    var s' := Apply(s, a);
    assert forall t :: !BeingStarted(s, t) && !BeingStarted(s', t);
  }

  lemma MapCallStep(s: State, a: Action)
    requires MapMatchesThreads(s) && Enabled(s, a)
    requires a.Submit? || a.CheckShutdown? || a.ReadCount? || a.ReadQueue? || a.Push?
    ensures MapMatchesThreads(Apply(s, a))
  {
    MapFrame(s, Apply(s, a));
  }

  lemma WorkerStaysRegistered(s: State, a: Action)
    requires Enabled(s, a) && IsWorkerStep(a) && !a.Erase?
    ensures var s' := Apply(s, a);
            && s'.workers == s.workers && s'.workerLock == s.workerLock && s'.calls == s.calls
            && (Registered(s.threads[a.t]) <==> a.t in s'.threads && Registered(s'.threads[a.t]))
  {
  }

  lemma MapWorkerStep(s: State, a: Action)
    requires MapMatchesThreads(s) && Enabled(s, a) && IsWorkerStep(a) && !a.Erase?
    ensures MapMatchesThreads(Apply(s, a))
  {
    WorkerMovesOne(s, a);
    WorkerStaysRegistered(s, a);
    MapFrame(s, Apply(s, a));
  }

  lemma MapStep(s: State, a: Action)
    requires MapMatchesThreads(s) && Enabled(s, a)
    ensures MapMatchesThreads(Apply(s, a))
  {
    if a.CreateThread? {
      MapCreate(s, a);
    } else if a.Emplace? {
      MapEmplace(s, a);
    } else if a.Erase? {
      MapErase(s, a);
    } else if IsWorkerStep(a) {
      MapWorkerStep(s, a);
    } else if a.Shutdown? || a.Await? || a.AwaitReturns? {
      MapFrame(s, Apply(s, a));
    } else {
      MapCallStep(s, a);
    }
  }

  // ---------- flags ----------

  ghost predicate FlagsConsistent(s: State) {
    && (s.isTerminated ==> s.isShutdown && s.blocked == {})
    && (s.isShutdown ==> forall t | t in s.threads :: !s.threads[t].Waiting?)
    && (forall t | t in s.threads && s.threads[t].Checking? :: s.isShutdown)
  }

  lemma FlagsStep(s: State, a: Action)
    requires FlagsConsistent(s) && Enabled(s, a)
    ensures FlagsConsistent(Apply(s, a))
  {
  }

  // ---------- tasks ----------

  function HeldTask(p: Phase): multiset<Task> {
    match p
    case Created(x) => multiset{x}
    case Running(x) => multiset{x}
    case _ => multiset{}
  }

  function OfferedTask(p: Call): multiset<Task> {
    match p
    case Called(x) => multiset{x}
    case Checked(x) => multiset{x}
    case Counted(x, _) => multiset{x}
    case WantStart(x) => multiset{x}
    case WantPush(x) => multiset{x}
    case _ => multiset{}
  }

  /** Every accepted task is with one worker, in the queue, or completed. */
  ghost predicate AcceptedConserved(s: State) {
    multiset(s.accepted) == Bag(s.threads, HeldTask) + multiset(s.queue) + multiset(s.completed)
  }

  /** Every task handed to execute is still in the call, accepted or rejected, and there are no
      two of the same. */
  ghost predicate IssuedConserved(s: State) {
    && multiset(s.issued) == Bag(s.calls, OfferedTask) + multiset(s.accepted) + multiset(s.rejected)
    && forall x :: multiset(s.issued)[x] <= 1
  }

  /** The queue is first in, first out. */
  ghost predicate QueueInOrder(s: State) {
    s.enqueued == s.dequeued + s.queue
  }

  lemma BagAppend(xs: seq<Task>, x: Task)
    ensures multiset(xs + [x]) == multiset(xs) + multiset{x}
  {
  }

  lemma RebalanceIssued(issued: multiset<Task>, bag: multiset<Task>, acc: multiset<Task>, rej: multiset<Task>,
                        bag': multiset<Task>, gone: multiset<Task>, come: multiset<Task>,
                        acc': multiset<Task>, rej': multiset<Task>)
    requires issued == bag + acc + rej && bag' + gone == bag + come
    requires gone == come + acc' + rej'
    ensures issued == bag' + (acc + acc') + (rej + rej')
  {
    forall x ensures issued[x] == (bag' + (acc + acc') + (rej + rej'))[x] {
      assert (bag' + gone)[x] == (bag + come)[x];
      assert gone[x] == (come + acc' + rej')[x];
    }
  }

  lemma RebalanceAccepted(acc: multiset<Task>, bag: multiset<Task>, queue: multiset<Task>, done: multiset<Task>,
                          bag': multiset<Task>, gone: multiset<Task>, come: multiset<Task>,
                          taken: multiset<Task>, queue': multiset<Task>, done': multiset<Task>)
    requires acc == bag + queue + done && bag' + gone == bag + come
    requires queue == taken + queue' && gone + taken == come + done'
    ensures acc == bag' + queue' + (done + done')
  {
    forall x ensures acc[x] == (bag' + queue' + (done + done'))[x] {
      assert (bag' + gone)[x] == (bag + come)[x];
      assert (gone + taken)[x] == (come + done')[x];
    }
  }

  lemma Cancel(x: multiset<Task>, y: multiset<Task>, z: multiset<Task>)
    requires x + z == y + z
    ensures x == y
  {
    forall t ensures x[t] == y[t] { assert (x + z)[t] == (y + z)[t]; }
  }

  /** One call goes on with its task. */
  lemma SameOffered(s: State, s': State, c: Caller, p: Call)
    requires IssuedConserved(s) && c in s.calls && s'.calls == s.calls[c := p]
    requires OfferedTask(s.calls[c]) == OfferedTask(p)
    requires s'.issued == s.issued && s'.accepted == s.accepted && s'.rejected == s.rejected
    ensures IssuedConserved(s')
  {
    BagUpdate(s.calls, OfferedTask, c, p);
    Cancel(Bag(s'.calls, OfferedTask), Bag(s.calls, OfferedTask), OfferedTask(p));
  }

  /** One call changes; what leaves it is accepted or rejected. */
  lemma IssuedFrame(s: State, s': State, c: Caller, p: Call, acc: seq<Task>, rej: seq<Task>)
    requires IssuedConserved(s) && c in s.calls && s'.calls == s.calls[c := p]
    requires s'.issued == s.issued && s'.accepted == s.accepted + acc && s'.rejected == s.rejected + rej
    requires OfferedTask(s.calls[c]) == OfferedTask(p) + multiset(acc) + multiset(rej)
    ensures IssuedConserved(s')
  {
    BagUpdate(s.calls, OfferedTask, c, p);
    RebalanceIssued(multiset(s.issued), Bag(s.calls, OfferedTask), multiset(s.accepted), multiset(s.rejected),
                    Bag(s'.calls, OfferedTask), OfferedTask(s.calls[c]), OfferedTask(p),
                    multiset(acc), multiset(rej));
    assert multiset(s'.accepted) == multiset(s.accepted) + multiset(acc);
    assert multiset(s'.rejected) == multiset(s.rejected) + multiset(rej);
  }

  lemma OneMore(issued: multiset<Task>, bag: multiset<Task>, acc: multiset<Task>, rej: multiset<Task>,
                bag': multiset<Task>, x: Task)
    requires issued == bag + acc + rej && bag' + multiset{} == bag + multiset{x}
    ensures issued + multiset{x} == bag' + acc + rej
  {
    assert bag' == bag + multiset{x};
  }

  lemma StillOnce(issued: seq<Task>, x: Task)
    requires x !in issued && forall y :: multiset(issued)[y] <= 1
    ensures forall y :: multiset(issued + [x])[y] <= 1
  {
    BagAppend(issued, x);
    assert multiset(issued)[x] == 0;
  }

  /** A call begins with a new task. */
  lemma IssuedNew(s: State, s': State, c: Caller, task: Task)
    requires IssuedConserved(s) && c in s.calls && s.calls[c].Idle? && s'.calls == s.calls[c := Called(task)]
    requires task !in s.issued && s'.issued == s.issued + [task]
    requires s'.accepted == s.accepted && s'.rejected == s.rejected
    ensures IssuedConserved(s')
  {
    BagUpdate(s.calls, OfferedTask, c, Called(task));
    OneMore(multiset(s.issued), Bag(s.calls, OfferedTask), multiset(s.accepted), multiset(s.rejected),
            Bag(s'.calls, OfferedTask), task);
    BagAppend(s.issued, task);
    StillOnce(s.issued, task);
  }

  lemma IssuedSubmit(s: State, a: Action)
    requires IssuedConserved(s) && Enabled(s, a) && a.Submit?
    ensures IssuedConserved(Apply(s, a))
  {
    IssuedNew(s, Apply(s, a), a.c, a.task);
  }

  lemma HandsOver(s: State, a: Action)
    requires Enabled(s, a) && (a.CreateThread? || a.Push?)
    ensures var s', x := Apply(s, a), s.calls[a.c].task;
            && s'.calls == s.calls[a.c := s'.calls[a.c]]
            && OfferedTask(s.calls[a.c]) == multiset{x} && OfferedTask(s'.calls[a.c]) == multiset{}
            && s'.issued == s.issued && s'.accepted == s.accepted + [x] && s'.rejected == s.rejected
  {
  }

  lemma IssuedHandOver(s: State, a: Action)
    requires IssuedConserved(s) && Enabled(s, a) && (a.CreateThread? || a.Push?)
    ensures IssuedConserved(Apply(s, a))
  {
    HandsOver(s, a);
    var x := s.calls[a.c].task;
    assert multiset([x]) == multiset{x};
    IssuedFrame(s, Apply(s, a), a.c, Apply(s, a).calls[a.c], [x], []);
  }

  lemma IssuedCheck(s: State, a: Action)
    requires IssuedConserved(s) && Enabled(s, a) && a.CheckShutdown?
    ensures IssuedConserved(Apply(s, a))
  {
    var s' := Apply(s, a);
    IssuedFrame(s, s', a.c, s'.calls[a.c], [], if s'.calls[a.c].Idle? then [s.calls[a.c].task] else []);
  }

  lemma IssuedRead(s: State, a: Action)
    requires IssuedConserved(s) && Enabled(s, a) && (a.ReadCount? || a.ReadQueue?)
    ensures IssuedConserved(Apply(s, a))
  {
    var c := a.c;
    var p := Apply(s, a).calls[c];
    assert p.WantStart? || p.Counted? || p.WantPush?;
    assert p.task == s.calls[c].task;
    SameOffered(s, Apply(s, a), c, p);
  }

  lemma IssuedEmplace(s: State, a: Action)
    requires IssuedConserved(s) && Enabled(s, a) && a.Emplace?
    ensures IssuedConserved(Apply(s, a))
  {
    SameOffered(s, Apply(s, a), a.c, Idle);
  }

  lemma IssuedSame(s: State, s': State)
    requires IssuedConserved(s) && s'.calls == s.calls
    requires s'.issued == s.issued && s'.accepted == s.accepted && s'.rejected == s.rejected
    ensures IssuedConserved(s')
  {
  }

  lemma IssuedCallStep(s: State, a: Action)
    requires IssuedConserved(s) && Enabled(s, a) && IsCallStep(a)
    ensures IssuedConserved(Apply(s, a))
  {
    match a {
      case Submit(_, _) => IssuedSubmit(s, a);
      case CheckShutdown(_) => IssuedCheck(s, a);
      case Emplace(_) => IssuedEmplace(s, a);
      case ReadCount(_) => IssuedRead(s, a);
      case ReadQueue(_) => IssuedRead(s, a);
      case CreateThread(_, _) => IssuedHandOver(s, a);
      case Push(_, _) => IssuedHandOver(s, a);
    }
  }

  /** Outside execute nothing is issued, accepted or rejected. */
  lemma OthersLeaveCalls(s: State, a: Action)
    requires Enabled(s, a) && !IsCallStep(a)
    ensures var s' := Apply(s, a);
            && s'.calls == s.calls && s'.issued == s.issued
            && s'.accepted == s.accepted && s'.rejected == s.rejected
  {
  }

  lemma IssuedStep(s: State, a: Action)
    requires IssuedConserved(s) && Enabled(s, a)
    ensures IssuedConserved(Apply(s, a))
  {
    if IsCallStep(a) {
      IssuedCallStep(s, a);
    } else {
      OthersLeaveCalls(s, a);
      IssuedSame(s, Apply(s, a));
    }
  }

  /** A new thread holds a task that has just been accepted. */
  lemma AcceptedNew(s: State, s': State, t: Tid, x: Task)
    requires AcceptedConserved(s) && t !in s.threads && s'.threads == s.threads[t := Created(x)]
    requires s'.accepted == s.accepted + [x] && s'.queue == s.queue && s'.completed == s.completed
    ensures AcceptedConserved(s')
  {
    BagUpdate(s.threads, HeldTask, t, Created(x));
    OneMore(multiset(s.accepted), Bag(s.threads, HeldTask), multiset(s.queue), multiset(s.completed),
            Bag(s'.threads, HeldTask), x);
    BagAppend(s.accepted, x);
  }

  lemma CreateConserves(s: State, a: Action)
    requires AcceptedConserved(s) && Enabled(s, a) && a.CreateThread?
    ensures AcceptedConserved(Apply(s, a))
  {
    AcceptedNew(s, Apply(s, a), a.tid, s.calls[a.c].task);
  }

  lemma PushKeepsHeld(s: State, a: Action)
    requires Enabled(s, a) && a.Push?
    ensures Bag(Apply(s, a).threads, HeldTask) == Bag(s.threads, HeldTask)
  {
    BagSame(s.threads, Apply(s, a).threads, HeldTask);
  }

  lemma PushConserves(s: State, a: Action)
    requires AcceptedConserved(s) && Enabled(s, a) && a.Push?
    ensures AcceptedConserved(Apply(s, a))
  {
    PushKeepsHeld(s, a);
    BagAppend(s.accepted, s.calls[a.c].task);
    BagAppend(s.queue, s.calls[a.c].task);
  }

  /** One thread changes; the task it gains comes from the queue, the one it gives up is
      completed. */
  lemma AcceptedFrame(s: State, s': State, t: Tid, p: Phase, taken: seq<Task>, done: seq<Task>)
    requires AcceptedConserved(s) && t in s.threads
    requires s'.threads == s.threads[t := p] || (s'.threads == s.threads - {t} && HeldTask(p) == multiset{})
    requires s'.accepted == s.accepted && s.queue == taken + s'.queue && s'.completed == s.completed + done
    requires HeldTask(s.threads[t]) + multiset(taken) == HeldTask(p) + multiset(done)
    ensures AcceptedConserved(s')
  {
    BagUpdate(s.threads, HeldTask, t, p);
    BagRemove(s.threads, HeldTask, t);
    var gone, come := HeldTask(s.threads[t]), HeldTask(p);
    assert Bag(s'.threads, HeldTask) + gone == Bag(s.threads, HeldTask) + come;
    assert multiset(s.queue) == multiset(taken) + multiset(s'.queue);
    assert multiset(s'.completed) == multiset(s.completed) + multiset(done);
    RebalanceAccepted(multiset(s.accepted), Bag(s.threads, HeldTask), multiset(s.queue), multiset(s.completed),
                      Bag(s'.threads, HeldTask), gone, come,
                      multiset(taken), multiset(s'.queue), multiset(done));
  }

  /** One thread changes without gaining or giving up a task. */
  lemma SameHeld(s: State, s': State, t: Tid, p: Phase)
    requires AcceptedConserved(s) && t in s.threads && HeldTask(s.threads[t]) == HeldTask(p)
    requires s'.threads == s.threads[t := p] || (s'.threads == s.threads - {t} && HeldTask(p) == multiset{})
    requires s'.accepted == s.accepted && s'.queue == s.queue && s'.completed == s.completed
    ensures AcceptedConserved(s')
  {
    BagUpdate(s.threads, HeldTask, t, p);
    BagRemove(s.threads, HeldTask, t);
    Cancel(Bag(s.threads[t := p], HeldTask), Bag(s.threads, HeldTask), HeldTask(p));
    assert multiset{} + Bag(s.threads - {t}, HeldTask) == Bag(s.threads - {t}, HeldTask);
  }

  lemma TakeConserves(s: State, s': State, t: Tid)
    requires AcceptedConserved(s) && t in s.threads && HeldTask(s.threads[t]) == multiset{} && s.queue != []
    requires s'.threads == s.threads[t := Running(s.queue[0])] && s'.queue == s.queue[1..]
    requires s'.accepted == s.accepted && s'.completed == s.completed
    ensures AcceptedConserved(s')
  {
    var x := s.queue[0];
    assert multiset([x]) == multiset{x};
    AcceptedFrame(s, s', t, Running(x), [x], []);
  }

  lemma GetTaskConserves(s: State, a: Action)
    requires AcceptedConserved(s) && Enabled(s, a) && a.GetTask?
    ensures AcceptedConserved(Apply(s, a))
  {
    if s.queue == [] {
      SameHeld(s, Apply(s, a), a.t, WithoutTask(s.threads[a.t], s.isShutdown));
    } else {
      TakeConserves(s, Apply(s, a), a.t);
    }
  }

  lemma FinishConserves(s: State, a: Action)
    requires AcceptedConserved(s) && Enabled(s, a) && a.Finish?
    ensures AcceptedConserved(Apply(s, a))
  {
    var task := s.threads[a.t].task;
    assert multiset([task]) == multiset{task};
    AcceptedFrame(s, Apply(s, a), a.t, Ready, [], [task]);
  }

  predicate IsTasklessStep(a: Action) {
    a.Begin? || a.Choose? || a.Wake? || a.Erase? || a.ReadShutdown? || a.CheckTermination?
  }

  lemma TasklessKeeps(s: State, a: Action)
    requires Enabled(s, a) && IsTasklessStep(a)
    ensures var s' := Apply(s, a);
            s'.accepted == s.accepted && s'.queue == s.queue && s'.completed == s.completed
  {
  }

  /** Such a step leaves its thread with the task it holds, if any. */
  lemma TasklessStep(s: State, a: Action)
    requires Enabled(s, a) && IsTasklessStep(a)
    ensures var s' := Apply(s, a);
            HeldTask(s.threads[a.t]) == if a.t in s'.threads then HeldTask(s'.threads[a.t]) else multiset{}
  {
    var p, s' := s.threads[a.t], Apply(s, a);
    if a.Begin? {
      assert s'.threads[a.t] == Running(p.first);
    } else {
      assert !p.Created? && !p.Running?;
      assert a.t in s'.threads ==> !s'.threads[a.t].Created? && !s'.threads[a.t].Running?;
    }
  }

  lemma OtherStepConserves(s: State, a: Action)
    requires AcceptedConserved(s) && Enabled(s, a) && IsTasklessStep(a)
    ensures AcceptedConserved(Apply(s, a))
  {
    var s' := Apply(s, a);
    WorkerMovesOne(s, a);
    TasklessKeeps(s, a);
    TasklessStep(s, a);
    SameHeld(s, s', a.t, if a.t in s'.threads then s'.threads[a.t] else Checking);
  }

  lemma AcceptedStep(s: State, a: Action)
    requires AcceptedConserved(s) && Enabled(s, a)
    ensures AcceptedConserved(Apply(s, a))
  {
    if a.GetTask? {
      GetTaskConserves(s, a);
    } else if a.Finish? {
      FinishConserves(s, a);
    } else if IsWorkerStep(a) {
      OtherStepConserves(s, a);
    } else if a.CreateThread? {
      CreateConserves(s, a);
    } else if a.Push? {
      PushConserves(s, a);
    } else if a.Shutdown? {
      BagSame(s.threads, WakeAll(s.threads), HeldTask);
    }
  }

  lemma QueueStep(s: State, a: Action)
    requires QueueInOrder(s) && Enabled(s, a)
    ensures QueueInOrder(Apply(s, a))
  {
    if a.GetTask? && s.queue != [] {
      assert s.queue == [s.queue[0]] + s.queue[1..];
    }
  }

  // ---------- wakeups ----------

  function IsWoken(p: Phase): nat { if p.Woken? then 1 else 0 }

  /** As long as some worker is blocked, every queued task has a woken worker on its way. */
  ghost predicate NoLostWakeup(s: State) {
    (exists t :: t in s.threads && s.threads[t].Waiting?) ==> |s.queue| <= Total(s.threads, IsWoken)
  }

  lemma WakeupStep(s: State, a: Action)
    requires NoLostWakeup(s) && Enabled(s, a)
    ensures NoLostWakeup(Apply(s, a))
  {
    var s' := Apply(s, a);
    match a {
      case CreateThread(_, t) => TotalUpdate(s.threads, IsWoken, t, s'.threads[t]);
      case Push(_, signalled) =>
        if signalled.Some? {
          TotalUpdate(s.threads, IsWoken, signalled.value, s'.threads[signalled.value]);
        }
      case Shutdown =>
      case _ => if IsWorkerStep(a) { WorkerWakeups(s, a); }
    }
  }

  /** One worker moves: it leaves nothing queued, or goes not to wait and takes at most the task
      it was woken for. */
  lemma WakeupFrame(s: State, s': State, t: Tid, woken: nat)
    requires NoLostWakeup(s) && t in s.threads
    requires s'.threads == if t in s'.threads then s.threads[t := s'.threads[t]] else s.threads - {t}
    requires woken == if t in s'.threads then IsWoken(s'.threads[t]) else 0
    requires s'.queue == [] || ((t in s'.threads ==> !s'.threads[t].Waiting?)
                                && |s'.queue| + IsWoken(s.threads[t]) <= |s.queue| + woken)
    ensures NoLostWakeup(s')
  {
    if t in s'.threads {
      TotalUpdate(s.threads, IsWoken, t, s'.threads[t]);
    } else {
      TotalRemove(s.threads, IsWoken, t);
    }
    forall u | u in s'.threads && s'.threads[u].Waiting? && u != t ensures u in s.threads && s.threads[u].Waiting? {}
  }

  lemma WorkerTakes(s: State, a: Action)
    requires Enabled(s, a) && IsWorkerStep(a)
    ensures var s' := Apply(s, a);
            var woken := if a.t in s'.threads then IsWoken(s'.threads[a.t]) else 0;
            s'.queue == [] || ((a.t in s'.threads ==> !s'.threads[a.t].Waiting?)
                               && |s'.queue| + IsWoken(s.threads[a.t]) <= |s.queue| + woken)
  {
  }

  lemma WorkerWakeups(s: State, a: Action)
    requires NoLostWakeup(s) && Enabled(s, a) && IsWorkerStep(a)
    ensures NoLostWakeup(Apply(s, a))
  {
    var s' := Apply(s, a);
    WorkerMovesOne(s, a);
    WorkerTakes(s, a);
    WakeupFrame(s, s', a.t, if a.t in s'.threads then IsWoken(s'.threads[a.t]) else 0);
  }

  // ---------- the bound on workers ----------

  /** A call that has read a count below the limit and not yet added its worker. */
  function Holds(limit: nat): Call -> nat {
    (p: Call) =>
      match p
      case Counted(_, n) => if n < limit then 1 else 0
      case WantStart(_) => 1
      case Starting(_) => 1
      case _ => 0
  }

  /** Each caller but one can push the pool one worker over the limit. */
  ghost predicate WorkersBounded(s: State) {
    s.calls != map[] ==>
      |s.workers| + Total(s.calls, Holds(Limit(s.cfg))) + 1 <= Limit(s.cfg) + |s.calls|
  }

  /** One call changes its hold; a new worker is one hold less. */
  lemma BoundFrame(s: State, s': State, c: Caller, p: Call)
    requires WorkersBounded(s) && c in s.calls && s'.calls == s.calls[c := p] && s'.cfg == s.cfg
    requires var w := Holds(Limit(s.cfg));
             || |s'.workers| + w(p) <= |s.workers| + w(s.calls[c])
             || (s'.workers == s.workers && |s.workers| < Limit(s.cfg))
    ensures WorkersBounded(s')
  {
    var w := Holds(Limit(s.cfg));
    TotalUpdate(s.calls, w, c, p);
    assert s'.calls.Keys == s.calls.Keys;
    assert |s'.calls| == |s'.calls.Keys| == |s.calls.Keys| == |s.calls|;
    TotalCounts(s'.calls, w);
  }

  lemma BoundCallStep(s: State, a: Action)
    requires WorkersBounded(s) && Enabled(s, a) && IsCallStep(a)
    ensures WorkersBounded(Apply(s, a))
  {
    BoundFrame(s, Apply(s, a), a.c, Apply(s, a).calls[a.c]);
  }

  lemma BoundStep(s: State, a: Action)
    requires WorkersBounded(s) && Enabled(s, a)
    ensures WorkersBounded(Apply(s, a))
  {
    if IsCallStep(a) { BoundCallStep(s, a); }
  }

  // ---------- all of it, over every run ----------

  ghost predicate Inv(s: State) {
    && MapMatchesThreads(s)
    && FlagsConsistent(s)
    && AcceptedConserved(s)
    && IssuedConserved(s)
    && QueueInOrder(s)
    && NoLostWakeup(s)
    && WorkersBounded(s)
  }

  lemma InvInitially(cfg: Config, callers: set<Caller>)
    ensures Inv(Initial(cfg, callers))
  {
    var s := Initial(cfg, callers);
    BagEmpty(s.calls, OfferedTask);
    BagEmpty(s.threads, HeldTask);
    TotalZero(s.calls, Holds(Limit(cfg)));
    if s.calls != map[] {
      assert |s.calls| > 0;
    }
  }

  lemma InvStep(s: State, a: Action)
    requires Inv(s) && Enabled(s, a)
    ensures Inv(Apply(s, a))
  {
    MapStep(s, a);
    FlagsStep(s, a);
    AcceptedStep(s, a);
    IssuedStep(s, a);
    QueueStep(s, a);
    WakeupStep(s, a);
    BoundStep(s, a);
  }

  lemma {:induction false} InvRun(s: State, acts: seq<Action>)
    requires Inv(s) && Runs(s, acts)
    ensures Inv(After(s, acts))
    decreases acts
  {
    if acts != [] {
      InvStep(s, acts[0]);
      InvRun(Apply(s, acts[0]), acts[1..]);
    }
  }
}
