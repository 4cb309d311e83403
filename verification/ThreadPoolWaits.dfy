/** What waits for what: idle workers for a task, a timeout or shutdown, and callers of
    `awaitTermination` for termination. */
module ThreadPoolWaits {
  import opened Options
  import opened ThreadPool
  import opened ThreadPoolInvariants
  import opened ThreadPoolReach
  import opened ThreadPoolShutdown

  // ---------- core workers ----------

  /** In no state of the run are there more workers than the core size. */
  ghost predicate NeverAboveCore(s: State, acts: seq<Action>)
    requires Runs(s, acts)
    decreases acts
  {
    |s.workers| <= SizeT(s.cfg.core) && (acts != [] ==> NeverAboveCore(Apply(s, acts[0]), acts[1..]))
  }

  lemma {:induction false} ResidentRun(s: State, acts: seq<Action>)
    requires AllResident(s) && Runs(s, acts) && NeverAboveCore(s, acts)
    ensures AllResident(After(s, acts)) && |After(s, acts).workers| <= SizeT(After(s, acts).cfg.core)
    decreases acts
  {
    if acts != [] {
      ResidentStep(s, acts[0]);
      ResidentRun(Apply(s, acts[0]), acts[1..]);
    }
  }

  /** Core workers stay, in every configuration, with any number of callers: as long as there have
      never been more workers than the core size, no worker has given up before shutdown; and from
      there no step, before shutdown, ends the wait of an idle worker but by giving it the head of
      the queue, whatever the keep-alive time. */
  lemma CoreWorkersStay(cfg: Config, callers: set<Caller>, acts: seq<Action>, a: Action, t: Tid)
    requires Runs(Initial(cfg, callers), acts) && NeverAboveCore(Initial(cfg, callers), acts)
    requires var s := After(Initial(cfg, callers), acts);
             !s.isShutdown && Enabled(s, a) && t in s.threads
    ensures var s, s' := After(Initial(cfg, callers), acts), Apply(After(Initial(cfg, callers), acts), a);
            && Active(s.threads[t]) && t in s'.threads && Active(s'.threads[t])
            && (s.threads[t].Waiting? || s.threads[t].Woken? ==>
                  || s'.threads[t].Waiting?
                  || s'.threads[t].Woken?
                  || (s.queue != [] && s'.threads[t] == Running(s.queue[0]) && s'.queue == s.queue[1..]))
  {
    ResidentRun(Initial(cfg, callers), acts);
    var s := After(Initial(cfg, callers), acts);
    if IsWorkerStep(a) { IdleWorkerStep(s, a, t); }
  }

  lemma IdleWorkerStep(s: State, a: Action, t: Tid)
    requires AllResident(s) && !s.isShutdown && Enabled(s, a) && IsWorkerStep(a) && t in s.threads
    ensures var s' := Apply(s, a);
            && t in s'.threads && Active(s'.threads[t])
            && (s.threads[t].Waiting? || s.threads[t].Woken? ==>
                  || s'.threads[t].Waiting?
                  || s'.threads[t].Woken?
                  || (s.queue != [] && s'.threads[t] == Running(s.queue[0]) && s'.queue == s.queue[1..]))
  {
    WorkerMovesOne(s, a);
  }

  // ---------- one look into an empty queue ----------

  /** A step of another thread. */
  predicate NotBy(a: Action, t: Tid) {
    IsWorkerStep(a) ==> a.t != t
  }

  ghost predicate NoneBy(acts: seq<Action>, t: Tid) {
    forall i | 0 <= i < |acts| :: NotBy(acts[i], t)
  }

  /** Other threads can only wake a worker that waits. */
  lemma OthersStep(s: State, a: Action, t: Tid)
    requires Enabled(s, a) && NotBy(a, t) && t in s.threads
    ensures var s' := Apply(s, a);
            && s'.cfg == s.cfg && t in s'.threads
            && (s'.threads[t] == s.threads[t]
                || (s.threads[t].Waiting? && s'.threads[t] == Woken(s.threads[t].mode)))
  {
    if IsWorkerStep(a) { WorkerMovesOne(s, a); }
  }

  lemma {:induction false} OthersRun(s: State, acts: seq<Action>, t: Tid)
    requires Runs(s, acts) && NoneBy(acts, t) && t in s.threads
    ensures var s' := After(s, acts);
            && s'.cfg == s.cfg && t in s'.threads
            && (s'.threads[t] == s.threads[t]
                || (s.threads[t].Waiting? && s'.threads[t] == Woken(s.threads[t].mode)))
    decreases acts
  {
    if acts != [] {
      OthersStep(s, acts[0], t);
      forall i | 0 <= i < |acts[1..]| ensures NotBy(acts[1..][i], t) { assert acts[1..][i] == acts[i + 1]; }
      OthersRun(Apply(s, acts[0]), acts[1..], t);
    }
  }

  /** A worker reads the count, others run, it finds the queue empty before shutdown, others run,
      it is woken for whatever reason, others run, and it finds the queue empty before shutdown
      again. The first time it waits if and only if the count was at most the core size or the
      keep-alive time is not 0; the second time if and only if the count was at most the core size.
      When it does not wait it gives up. */
  lemma EmptyQueueLooks(s: State, t: Tid, xs: seq<Action>, ys: seq<Action>)
    requires t in s.threads && s.threads[t].Ready?
    requires Runs(Apply(s, Choose(t)), xs) && NoneBy(xs, t)
    requires var s1 := After(Apply(s, Choose(t)), xs);
             s1.queue == [] && !s1.isShutdown
    ensures var s1 := After(Apply(s, Choose(t)), xs);
            && Enabled(s1, GetTask(t))
            && var s2 := Apply(s1, GetTask(t));
            && t in s2.threads
            && (if |s.workers| <= SizeT(s.cfg.core) || s.cfg.keepAlive != 0
                then s2.threads[t].Waiting? else s2.threads[t].Leaving?)
            && (s2.threads[t].Waiting? && Runs(s2, ys) && NoneBy(ys, t) ==>
                  && var s3 := After(s2, ys);
                  && t in s3.threads && (s3.threads[t].Waiting? || s3.threads[t].Woken?)
                  && (s3.threads[t].Waiting? ==> Enabled(s3, Wake(t)) && Apply(s3, Wake(t)).threads[t].Woken?)
                  && (s3.threads[t].Woken? && s3.queue == [] && !s3.isShutdown ==>
                        && Enabled(s3, GetTask(t))
                        && var s4 := Apply(s3, GetTask(t));
                        && t in s4.threads
                        && (if |s.workers| <= SizeT(s.cfg.core)
                            then s4.threads[t].Waiting? else s4.threads[t].Leaving?)))
  {
    var s0 := Apply(s, Choose(t));
    OthersRun(s0, xs, t);
    var s1 := After(s0, xs);
    assert s1.threads[t] == s0.threads[t] && s1.threads[t].Entering?;
    var s2 := Apply(s1, GetTask(t));
    if s2.threads[t].Waiting? && Runs(s2, ys) && NoneBy(ys, t) { OthersRun(s2, ys, t); }
  }

  // ---------- awaitTermination ----------

  lemma AwaitingStep(s: State, a: Action, n: nat)
    requires FlagsConsistent(s) && Enabled(s, a) && n in s.blocked && a != AwaitReturns(n)
    ensures n in Apply(s, a).blocked <==> !Apply(s, a).isTerminated
  {
  }

  lemma TerminatedStays(s: State, a: Action)
    requires Enabled(s, a) && s.isTerminated
    ensures Apply(s, a).isTerminated
  {
  }

  lemma {:induction false} TerminatedRun(s: State, acts: seq<Action>)
    requires Runs(s, acts) && s.isTerminated
    ensures After(s, acts).isTerminated
    decreases acts
  {
    if acts != [] {
      TerminatedStays(s, acts[0]);
      TerminatedRun(Apply(s, acts[0]), acts[1..]);
    }
  }

  lemma {:induction false} AwaitingRun(s: State, acts: seq<Action>, n: nat)
    requires Inv(s) && Runs(s, acts) && AwaitReturns(n) !in acts && n in s.blocked
    ensures !After(s, acts).isTerminated ==> n in After(s, acts).blocked
    decreases acts
  {
    if acts != [] {
      var s' := Apply(s, acts[0]);
      AwaitingStep(s, acts[0], n);
      InvStep(s, acts[0]);
      if s'.isTerminated { TerminatedRun(s', acts[1..]); } else { AwaitingRun(s', acts[1..], n); }
    }
  }

  /** A call of awaitTermination, exactly: in every reachable state it blocks if and only if
      termination has not been noticed yet; and then, in every run in which its wait does not end
      of its own accord (a timeout, or for no reason), it is blocked at the end if and only if
      termination has still not been noticed. */
  lemma AwaitBlocksUntilTermination(cfg: Config, callers: set<Caller>, s: State, n: nat, acts: seq<Action>)
    requires Reachable(cfg, callers, s) && Enabled(s, Await(n))
    requires Runs(Apply(s, Await(n)), acts) && AwaitReturns(n) !in acts
    ensures n in Apply(s, Await(n)).blocked <==> !s.isTerminated
    ensures !s.isTerminated ==>
              var s' := After(Apply(s, Await(n)), acts);
              n in s'.blocked <==> !s'.isTerminated
  {
    ReachableInv(cfg, callers, s);
    var s0 := Apply(s, Await(n));
    InvStep(s, Await(n));
    if !s.isTerminated {
      AwaitingRun(s0, acts, n);
      InvRun(s0, acts);
    }
  }

  /** The wait of one caller can end at any time, and that frees no other. */
  lemma AwaitEnds(s: State, n: nat)
    requires n in s.blocked
    ensures Enabled(s, AwaitReturns(n))
    ensures n !in Apply(s, AwaitReturns(n)).blocked && Apply(s, AwaitReturns(n)).blocked + {n} == s.blocked
  {
  }

  // ---------- nobody is stuck ----------

  /** In every reachable state each worker can go on, but for one that is leaving while a worker is
      being started; each caller can go on, but for one that wants to start a worker meanwhile; and
      whoever is starting one can go on. */
  lemma NobodyStuck(cfg: Config, callers: set<Caller>, s: State)
    requires Reachable(cfg, callers, s)
    ensures forall t | t in s.threads ::
              Enabled(s, NextStep(t, s.threads[t])) || (s.threads[t].Leaving? && s.workerLock.Some?)
    ensures forall c | c in s.calls :: CanGoOn(s, c) || (s.calls[c].WantStart? && s.workerLock.Some?)
    ensures s.workerLock.Some? ==>
              s.workerLock.value in s.calls && Enabled(s, Emplace(s.workerLock.value))
  {
    ReachableInv(cfg, callers, s);
    forall t | t in s.threads
      ensures Enabled(s, NextStep(t, s.threads[t])) || (s.threads[t].Leaving? && s.workerLock.Some?)
    {
      WorkerGoesOn(s, t);
    }
    forall c | c in s.calls ensures CanGoOn(s, c) || (s.calls[c].WantStart? && s.workerLock.Some?) {
      if !(s.calls[c].WantStart? && s.workerLock.Some?) { CallGoesOn(s, c); }
    }
  }

  lemma WorkerGoesOn(s: State, t: Tid)
    requires t in s.threads
    ensures Enabled(s, NextStep(t, s.threads[t])) || (s.threads[t].Leaving? && s.workerLock.Some?)
  {
  }

  ghost predicate CanGoOn(s: State, c: Caller) {
    exists a :: Enabled(s, a) && IsCallStep(a) && a.c == c
  }

  lemma CallGoesOn(s: State, c: Caller)
    requires c in s.calls && (s.calls[c].WantStart? ==> s.workerLock.None?)
    ensures CanGoOn(s, c)
  {
    var a: Action;
    match s.calls[c] {
      case Idle =>
        var x := FreshNat(set x | x in s.issued);
        a := Submit(c, x);
      case Called(_) => a := CheckShutdown(c);
      case Checked(_) => a := ReadCount(c);
      case Counted(_, _) => a := ReadQueue(c);
      case WantStart(_) =>
        var t := FreshNat(s.threads.Keys);
        a := CreateThread(c, t);
      case Starting(_) => a := Emplace(c);
      case WantPush(_) =>
        if t :| t in s.threads && s.threads[t].Waiting? { a := Push(c, Some(t)); } else { a := Push(c, None); }
    }
    assert Enabled(s, a);
  }
}
