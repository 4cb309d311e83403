/** The pool's guarantees over every run from its construction, and exactly where they end. */
module ThreadPoolLimits {
  import opened Options
  import opened Totals
  import opened ThreadPool
  import opened ThreadPoolInvariants
  import opened ThreadPoolReach
  import opened ThreadPoolShutdown

  // ---------- guarantees ----------

  /** Tasks are conserved: in every reachable state each accepted task is in exactly one place,
      held by one worker (as first task or running), queued, or completed; no two workers hold
      the same one; and the queue is what was pushed and not yet taken, in order. */
  lemma TaskConservation(cfg: Config, callers: set<Caller>, s: State)
    requires Reachable(cfg, callers, s)
    ensures forall x | x in s.accepted ::
              Bag(s.threads, HeldTask)[x] + multiset(s.queue)[x] + multiset(s.completed)[x] == 1
    ensures forall t, u | t in s.threads && u in s.threads && t != u :: HeldTask(s.threads[t]) !! HeldTask(s.threads[u])
    ensures s.enqueued == s.dequeued + s.queue
  {
    ReachableInv(cfg, callers, s);
    forall x | x in s.accepted
      ensures Bag(s.threads, HeldTask)[x] + multiset(s.queue)[x] + multiset(s.completed)[x] == 1
    {
      assert multiset(s.accepted)[x] >= 1;
      assert multiset(s.issued)[x] <= 1;
    }
    forall t, u | t in s.threads && u in s.threads && t != u
      ensures HeldTask(s.threads[t]) !! HeldTask(s.threads[u])
    {
      BagTwo(s.threads, HeldTask, t, u);
      forall x ensures !(x in HeldTask(s.threads[t]) && x in HeldTask(s.threads[u])) {
        assert (HeldTask(s.threads[t]) + HeldTask(s.threads[u]))[x] <= Bag(s.threads, HeldTask)[x];
        assert multiset(s.accepted)[x] <= multiset(s.issued)[x] <= 1;
      }
    }
  }

  /** With k threads that may call execute there are never more than limit + k - 1 workers, calls
      that have read a count below the limit and not yet added theirs included. */
  lemma WorkerBound(cfg: Config, callers: set<Caller>, s: State)
    requires Reachable(cfg, callers, s) && callers != {}
    ensures |s.workers| + Total(s.calls, Holds(Limit(cfg))) <= Limit(cfg) + |callers| - 1
    ensures 0 <= cfg.core <= cfg.max ==> Limit(cfg) == cfg.max
  {
    ReachableInv(cfg, callers, s);
    assert |s.calls| == |s.calls.Keys|;
  }

  /** No wakeup is lost: while a worker is blocked in the condition variable, each queued task
      has a worker that was woken and has not yet relocked. */
  lemma WorkConservation(cfg: Config, callers: set<Caller>, s: State, t: Tid)
    requires Reachable(cfg, callers, s) && t in s.threads && s.threads[t].Waiting?
    ensures |s.queue| <= Total(s.threads, IsWoken)
  {
    ReachableInv(cfg, callers, s);
  }

  /** The worker map under reuse of thread ids: an inserted key is the id of a live thread and
      not yet in the map; the only step that removes a key is its own thread's erase, and that
      finds it. */
  lemma WorkerMapSafety(cfg: Config, callers: set<Caller>, s: State, a: Action)
    requires Reachable(cfg, callers, s) && Enabled(s, a)
    ensures forall t | t in s.workers :: t in s.threads
    ensures a.Emplace? ==> s.calls[a.c].tid !in s.workers && s.calls[a.c].tid in s.threads
    ensures a.Erase? ==> a.t in s.workers
    ensures forall t | t in s.workers && t !in Apply(s, a).workers :: a == Erase(t)
  {
    ReachableInv(cfg, callers, s);
    if a.Emplace? { assert BeingStarted(s, s.calls[a.c].tid); }
    if a.Erase? { assert !BeingStarted(s, a.t); }
  }

  /** Nobody is blocked waiting for a termination that has been noticed. */
  lemma NobodyBlockedAfterTermination(cfg: Config, callers: set<Caller>, s: State)
    requires Reachable(cfg, callers, s) && s.isTerminated
    ensures s.blocked == {} && s.isShutdown
  {
    ReachableInv(cfg, callers, s);
  }

  // ---------- where the guarantees end ----------

  /** The bound is reached, in every configuration and for every number of callers, except that
      a pool of core and maximum size 0 never has a worker. */
  lemma WorkerBoundSharp(cfg: Config, callers: set<Caller>)
    requires callers != {}
    ensures Limit(cfg) >= 1 ==> exists s :: Reachable(cfg, callers, s) && |s.workers| == Limit(cfg) + |callers| - 1
    ensures Limit(cfg) == 0 ==> forall s | Reachable(cfg, callers, s) :: s.workers == {}
  {
    if Limit(cfg) >= 1 {
      var s := ReachMost(cfg, callers);
    } else {
      forall s | Reachable(cfg, callers, s) ensures s.workers == {} {
        var acts :| Runs(Initial(cfg, callers), acts) && After(Initial(cfg, callers), acts) == s;
        NoWorkersRun(Initial(cfg, callers), acts);
      }
    }
  }

  ghost predicate NoWorkers(s: State) {
    Limit(s.cfg) == 0 && s.workers == {} && forall c | c in s.calls :: !s.calls[c].WantStart? && !s.calls[c].Starting?
  }

  lemma {:induction false} NoWorkersRun(s: State, acts: seq<Action>)
    requires NoWorkers(s) && Runs(s, acts)
    ensures NoWorkers(After(s, acts))
    decreases acts
  {
    if acts != [] {
      NoWorkersStep(s, acts[0]);
      NoWorkersRun(Apply(s, acts[0]), acts[1..]);
    }
  }

  lemma NoWorkersStep(s: State, a: Action)
    requires NoWorkers(s) && Enabled(s, a)
    ensures NoWorkers(Apply(s, a))
  {
  }

  /** The pool can be driven above its core size, or has no core: with more than one caller, with
      a maximum above the core size, or with core size 0. */
  predicate CanOutgrow(cfg: Config, callers: set<Caller>) {
    |callers| != 1 || SizeT(cfg.core) < SizeT(cfg.max) || SizeT(cfg.core) == 0
  }

  /** In every such pool a task can be stranded. As many workers as there can be read a count above
      the core size, give up, and have not erased themselves yet; a task pushed now is counted on
      workers that will never look, and shutting down leaves it in the queue for good. */
  lemma TaskStranded(cfg: Config, callers: set<Caller>) returns (s: State)
    requires callers != {} && CanOutgrow(cfg, callers)
    ensures Reachable(cfg, callers, s) && !s.isShutdown && NoneInFlight(s) && |s.queue| == 1
    ensures |s.workers| == if Limit(cfg) == 0 then 0 else Limit(cfg) + |callers| - 1
    ensures Quiet(Apply(s, Shutdown)) && !Drainable(Apply(s, Shutdown))
  {
    if Limit(cfg) == 0 {
      s := Initial(cfg, callers);
      ReachInitial(cfg, callers);
    } else {
      s := AllGiveUp(cfg, callers);
    }
    ReachableInv(cfg, callers, s);
    var c :| c in callers;
    var _, s1 := QueueOne(cfg, callers, s, c);
    s := s1;
    assert WakeAll(s.threads) == s.threads;
  }

  const SESSION_POOL: Config := Configured(4, 16, 60000)

  /** The pool of the session manager, whoever calls it; and the smallest one. */
  lemma TaskStrandedExamples(callers: set<Caller>)
    requires callers != {}
    ensures exists s :: Reachable(SESSION_POOL, callers, s) && !s.isShutdown && NoneInFlight(s) && |s.queue| == 1
                        && |s.workers| == 15 + |callers| && !Drainable(Apply(s, Shutdown))
    ensures exists s :: Reachable(Config(1, 2, 60000), {0}, s) && !s.isShutdown && NoneInFlight(s) && |s.queue| == 1
                        && |s.workers| == 2 && !Drainable(Apply(s, Shutdown))
  {
    var s := TaskStranded(SESSION_POOL, callers);
    var u := TaskStranded(Config(1, 2, 60000), {0});
  }

  /** Whether shutting down with no call in flight always finds someone to empty the queue. */
  lemma DrainableIff(cfg: Config, callers: set<Caller>)
    requires callers != {}
    ensures (forall s | Reachable(cfg, callers, s) && !s.isShutdown && NoneInFlight(s) :: Drainable(Apply(s, Shutdown)))
            <==> !CanOutgrow(cfg, callers)
  {
    if CanOutgrow(cfg, callers) {
      var s := TaskStranded(cfg, callers);
    } else {
      var c := Single(callers);
      forall s | Reachable(cfg, callers, s) && !s.isShutdown && NoneInFlight(s) ensures Drainable(Apply(s, Shutdown)) {
        var acts :| Runs(Initial(cfg, callers), acts) && After(Initial(cfg, callers), acts) == s;
        InvInitially(cfg, callers);
        SteadyRun(Initial(cfg, callers), acts, c);
        SteadyShutdown(s, c);
      }
    }
  }

  lemma Single(callers: set<Caller>) returns (c: Caller)
    requires |callers| == 1
    ensures callers == {c}
  {
    c :| c in callers;
    assert |callers - {c}| == 0;
  }

  /** Drain on shutdown, as a caller sees it: whatever happened before and happens after a shutdown
      that finds no call in flight, once the last worker has exited every accepted task has been
      completed. */
  ghost predicate AlwaysDrains(cfg: Config, callers: set<Caller>) {
    forall s, acts | Reachable(cfg, callers, s) && !s.isShutdown && NoneInFlight(s)
                     && RunsOut(Apply(s, Shutdown), acts) ::
      AllCompleted(After(Apply(s, Shutdown), acts))
  }

  ghost predicate RunsOut(s: State, acts: seq<Action>) {
    Runs(s, acts) && After(s, acts).threads == map[]
  }

  predicate AllCompleted(s: State) {
    multiset(s.completed) == multiset(s.accepted)
  }

  lemma NextProgress(s: State, t: Tid) returns (a: Action)
    requires Inv(s) && Quiet(s) && t in s.threads
    ensures Enabled(s, a) && Inv(Apply(s, a)) && Quiet(Apply(s, a)) && Remaining(Apply(s, a)) < Remaining(s)
  {
    a := NextStep(t, s.threads[t]);
    QuietNoDeadlock(s, t);
    QuietProgress(s, a);
    InvStep(s, a);
    QuietStep(s, a);
  }

  /** From a quiet state the workers can run until none is left. */
  lemma {:induction false} RunOut(s: State) returns (acts: seq<Action>)
    requires Inv(s) && Quiet(s)
    ensures RunsOut(s, acts)
    decreases Remaining(s)
  {
    acts := [];
    if s.threads != map[] {
      var t :| t in s.threads;
      var a := NextProgress(s, t);
      var rest := RunOut(Apply(s, a));
      RunsPrepend(s, a, rest);
      acts := [a] + rest;
    }
  }

  /** Once the last worker has exited, everything is completed exactly if it could be drained. */
  lemma CompletedIff(s: State, acts: seq<Action>)
    requires Inv(s) && Quiet(s) && RunsOut(s, acts)
    ensures AllCompleted(After(s, acts)) <==> Drainable(s)
  {
    QuietRun(s, acts);
    var s' := After(s, acts);
    NothingHeld(s');
    assert multiset{} + multiset(s'.completed) == multiset(s'.completed);
    if s'.queue != [] { assert |multiset(s'.queue)| > 0; }
  }

  /** Exactly which pools drain on shutdown: those with a single caller that can never be driven
      above a core size of at least 1. With sizes that are not negative this means that the core
      size is the maximum. */
  lemma DrainsIff(cfg: Config, callers: set<Caller>)
    requires callers != {}
    ensures AlwaysDrains(cfg, callers) <==> !CanOutgrow(cfg, callers)
    ensures 0 <= cfg.core <= cfg.max ==>
              (AlwaysDrains(cfg, callers) <==> |callers| == 1 && cfg.core == cfg.max >= 1)
  {
    if CanOutgrow(cfg, callers) {
      var s := TaskStranded(cfg, callers);
      ReachableInv(cfg, callers, s);
      var q := Apply(s, Shutdown);
      InvStep(s, Shutdown);
      var acts := RunOut(q);
      CompletedIff(q, acts);
    } else {
      DrainableIff(cfg, callers);
      forall s, acts | Reachable(cfg, callers, s) && !s.isShutdown && NoneInFlight(s)
                       && RunsOut(Apply(s, Shutdown), acts)
        ensures AllCompleted(After(Apply(s, Shutdown), acts))
      {
        ReachableInv(cfg, callers, s);
        InvStep(s, Shutdown);
        CompletedIff(Apply(s, Shutdown), acts);
      }
    }
  }

  /** The same for the arguments of the constructor: the core size is cut to the maximum, a negative
      keep-alive time counts as none. */
  lemma ConstructedPool(core: int32, max: int32, keepAlive: int32, callers: set<Caller>)
    requires 0 <= core && 0 <= max && callers != {}
    ensures var cfg := Configured(core, max, keepAlive);
            && Limit(cfg) == max
            && (if keepAlive <= 0 then cfg.keepAlive == 0 else cfg.keepAlive == keepAlive)
            && (AlwaysDrains(cfg, callers) <==> |callers| == 1 && core >= max >= 1)
            && (forall s | Reachable(cfg, callers, s) :: |s.workers| <= max + |callers| - 1)
  {
    var cfg := Configured(core, max, keepAlive);
    DrainsIff(cfg, callers);
    forall s | Reachable(cfg, callers, s) ensures |s.workers| <= max + |callers| - 1 { WorkerBound(cfg, callers, s); }
  }

  /** A pool shut down before its first task never terminates. */
  lemma UnusedNeverTerminates(cfg: Config, callers: set<Caller>, rest: seq<Action>)
    requires Runs(Apply(Initial(cfg, callers), Shutdown), rest)
    ensures !After(Apply(Initial(cfg, callers), Shutdown), rest).isTerminated
  {
    EmptyStaysUnterminated(Apply(Initial(cfg, callers), Shutdown), rest);
  }
}
