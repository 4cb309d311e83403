/** What happens after `shutdown`: when the queue is drained, when termination is noticed, and
    that the workers do get there. */
module ThreadPoolShutdown {
  import opened Options
  import opened Totals
  import opened ThreadPool
  import opened ThreadPoolInvariants

  /** Past its shutdown check and not yet returned. */
  predicate InFlight(p: Call) { !p.Idle? && !p.Called? }

  ghost predicate NoneInFlight(s: State) {
    forall c | c in s.calls :: !InFlight(s.calls[c])
  }

  /** Shut down, with no call of execute in flight: later calls are rejected. */
  ghost predicate Quiet(s: State) {
    s.isShutdown && NoneInFlight(s)
  }

  /** A worker that will look into the queue again. */
  predicate Active(p: Phase) { !p.Leaving? && !p.Erased? && !p.Checking? }

  ghost predicate SomeActive(s: State) {
    exists t :: t in s.threads && Active(s.threads[t])
  }

  ghost predicate Drainable(s: State) {
    s.queue == [] || SomeActive(s)
  }

  lemma QuietStep(s: State, a: Action)
    requires Quiet(s) && Enabled(s, a)
    ensures var s' := Apply(s, a);
            Quiet(s') && s'.accepted == s.accepted && s'.workers <= s.workers && s'.threads.Keys <= s.threads.Keys
  {
  }

  // ---------- draining ----------

  lemma DrainStep(s: State, a: Action)
    requires Quiet(s) && FlagsConsistent(s) && Enabled(s, a)
    ensures Drainable(s) <==> Drainable(Apply(s, a))
    ensures !Drainable(s) ==> Apply(s, a).queue == s.queue
  {
    var s' := Apply(s, a);
    if a.GetTask? {
      assert Active(s.threads[a.t]);
      if s.queue != [] { assert Active(s'.threads[a.t]); }
    } else {
      assert s'.queue == s.queue;
      ActivityKept(s, a);
    }
  }

  lemma ActivityKept(s: State, a: Action)
    requires Quiet(s) && Enabled(s, a) && !a.GetTask?
    ensures SomeActive(s) <==> SomeActive(Apply(s, a))
  {
    var s' := Apply(s, a);
    forall t | t in s.threads && Active(s.threads[t]) ensures t in s'.threads && Active(s'.threads[t]) {}
    forall t | t in s'.threads && Active(s'.threads[t]) ensures t in s.threads && Active(s.threads[t]) {}
  }

  /** Termination is noticed only when no worker is active any more. */
  ghost predicate TerminatedIsOver(s: State) {
    s.isTerminated ==> s.workers == {} && !SomeActive(s)
  }

  lemma NoWorkersNoActive(s: State)
    requires MapMatchesThreads(s) && Quiet(s) && s.workers == {}
    ensures !SomeActive(s)
  {
    forall t | t in s.threads ensures !Active(s.threads[t]) {
      assert !BeingStarted(s, t);
      assert !Registered(s.threads[t]);
    }
  }

  lemma OverStep(s: State, a: Action)
    requires Inv(s) && Quiet(s) && Enabled(s, a) && TerminatedIsOver(s)
    ensures TerminatedIsOver(Apply(s, a))
  {
    InvStep(s, a);
    QuietStep(s, a);
    if Apply(s, a).workers == {} { NoWorkersNoActive(Apply(s, a)); }
  }

  lemma {:induction false} QuietRun(s: State, acts: seq<Action>)
    requires Inv(s) && Quiet(s) && Runs(s, acts)
    ensures var s' := After(s, acts);
            && Inv(s') && Quiet(s') && s'.accepted == s.accepted
            && (Drainable(s) <==> Drainable(s'))
            && (!Drainable(s) ==> s'.queue == s.queue)
            && (TerminatedIsOver(s) ==> TerminatedIsOver(s'))
    decreases acts
  {
    if acts != [] {
      InvStep(s, acts[0]);
      QuietStep(s, acts[0]);
      DrainStep(s, acts[0]);
      if TerminatedIsOver(s) { OverStep(s, acts[0]); }
      QuietRun(Apply(s, acts[0]), acts[1..]);
    }
  }

  lemma NothingHeld(s: State)
    requires Inv(s) && !SomeActive(s)
    ensures multiset(s.accepted) == multiset(s.queue) + multiset(s.completed)
  {
    forall t | t in s.threads ensures HeldTask(s.threads[t]) == multiset{} {
      assert !Active(s.threads[t]);
    }
    BagEmpty(s.threads, HeldTask);
    assert multiset{} + multiset(s.queue) == multiset(s.queue);
  }

  /** Draining, exactly, in every configuration: take any quiet state in which termination has
      not been noticed yet, and any later state in which it has. Every accepted task has been
      completed, each exactly once, if and only if in the first state the queue was empty or
      some worker was still going to look into it; otherwise the queue is stranded as it was. */
  lemma DrainExact(s: State, acts: seq<Action>)
    requires Inv(s) && Quiet(s) && !s.isTerminated && Runs(s, acts) && After(s, acts).isTerminated
    ensures var s' := After(s, acts);
            && (multiset(s'.completed) == multiset(s'.accepted) <==> Drainable(s))
            && (Drainable(s) ==> s'.queue == [])
            && (!Drainable(s) ==> s'.queue == s.queue != [])
            && (forall x :: multiset(s'.accepted)[x] <= 1)
  {
    QuietRun(s, acts);
    var s' := After(s, acts);
    NothingHeld(s');
    if multiset(s'.completed) == multiset(s'.accepted) {
      assert |multiset(s'.queue)| == 0;
    }
    assert multiset{} + multiset(s'.completed) == multiset(s'.completed);
    forall x ensures multiset(s'.accepted)[x] <= 1 {
      assert multiset(s'.issued)[x] <= 1;
    }
  }

  // ---------- noticing termination ----------

  /** After shutdown, a thread that exits either finds the map empty and sets the flag, or
      leaves a worker behind that will check later. */
  ghost predicate SomeoneWillCheck(s: State) {
    s.isShutdown && (s.isTerminated || s.threads != map[])
  }

  lemma CheckStep(s: State, a: Action)
    requires MapMatchesThreads(s) && SomeoneWillCheck(s) && Enabled(s, a)
    ensures SomeoneWillCheck(Apply(s, a))
  {
    var s' := Apply(s, a);
    if a.CheckTermination? {
      if s.workers != {} {
        var w :| w in s.workers;
        assert w in s'.threads;
      }
    } else if !s.isTerminated {
      var t :| t in s.threads;
      assert t in s'.threads;
    }
  }

  lemma {:induction false} CheckRun(s: State, acts: seq<Action>)
    requires Inv(s) && SomeoneWillCheck(s) && Runs(s, acts)
    ensures Inv(After(s, acts)) && SomeoneWillCheck(After(s, acts))
    decreases acts
  {
    if acts != [] {
      InvStep(s, acts[0]);
      CheckStep(s, acts[0]);
      CheckRun(Apply(s, acts[0]), acts[1..]);
    }
  }

  /** If some worker is registered once the pool is shut down, then in every later state with an
      empty map and no call of execute in flight, termination has been noticed or some worker is
      between its erase and its check. */
  lemma TerminationDetected(s: State, acts: seq<Action>)
    requires Inv(s) && s.isShutdown && s.workers != {} && Runs(s, acts)
    requires var s' := After(s, acts);
             s'.workers == {} && NoneInFlight(s')
    ensures var s' := After(s, acts);
            s'.isTerminated || exists t :: t in s'.threads && (s'.threads[t].Erased? || s'.threads[t].Checking?)
  {
    var w :| w in s.workers;
    assert w in s.threads;
    CheckRun(s, acts);
    var s' := After(s, acts);
    if !s'.isTerminated {
      var t :| t in s'.threads;
      assert !BeingStarted(s', t);
    }
  }

  lemma {:induction false} EmptyStaysUnterminated(s: State, acts: seq<Action>)
    requires Quiet(s) && s.threads == map[] && !s.isTerminated && Runs(s, acts)
    ensures !After(s, acts).isTerminated
    decreases acts
  {
    if acts != [] {
      QuietStep(s, acts[0]);
      assert Apply(s, acts[0]).threads == map[];
      EmptyStaysUnterminated(Apply(s, acts[0]), acts[1..]);
    }
  }

  /** From a quiet state, once every worker thread has exited, termination has been noticed if
      and only if it had been already or there was a worker thread: a pool that has none when
      it is shut down never terminates. */
  lemma TerminationExact(s: State, acts: seq<Action>)
    requires Inv(s) && Quiet(s) && Runs(s, acts) && After(s, acts).threads == map[]
    ensures After(s, acts).isTerminated <==> s.isTerminated || s.threads != map[]
  {
    if s.isTerminated || s.threads != map[] {
      CheckRun(s, acts);
    } else {
      EmptyStaysUnterminated(s, acts);
    }
  }

  // ---------- progress ----------

  function Weight(p: Phase): nat {
    match p
    case Created(_) => 7
    case Running(_) => 6
    case Ready => 5
    case Entering(_) => 4
    case Waiting(_) => 5
    case Woken(_) => 4
    case Leaving => 3
    case Erased => 2
    case Checking => 1
  }

  ghost function Remaining(s: State): nat {
    3 * |s.queue| + Total(s.threads, Weight)
  }

  /** A step of a worker touches no other thread, and brings its own, or the queue, closer to
      the end. */
  lemma QuietWorkerStep(s: State, a: Action)
    requires Quiet(s) && FlagsConsistent(s) && Enabled(s, a) && IsWorkerStep(a)
    ensures var s' := Apply(s, a);
            a.t in s.threads &&
            if a.t in s'.threads
            then s'.threads == s.threads[a.t := s'.threads[a.t]]
                 && 3 * |s'.queue| + Weight(s'.threads[a.t]) < 3 * |s.queue| + Weight(s.threads[a.t])
            else s'.threads == s.threads - {a.t} && s'.queue == s.queue
  {
  }

  /** Every step of a worker in a quiet state is progress; no other step undoes any. */
  lemma QuietProgress(s: State, a: Action)
    requires Quiet(s) && FlagsConsistent(s) && Enabled(s, a)
    ensures if IsWorkerStep(a) then Remaining(Apply(s, a)) < Remaining(s)
            else Remaining(Apply(s, a)) == Remaining(s)
  {
    var s' := Apply(s, a);
    if IsWorkerStep(a) {
      QuietWorkerStep(s, a);
      if a.t in s'.threads {
        TotalUpdate(s.threads, Weight, a.t, s'.threads[a.t]);
      } else {
        TotalRemove(s.threads, Weight, a.t);
      }
    } else if a.Shutdown? {
      assert WakeAll(s.threads) == s.threads;
    }
  }

  /** The step that a worker in some phase takes next. */
  function NextStep(t: Tid, p: Phase): Action {
    match p
    case Created(_) => Begin(t)
    case Running(_) => Finish(t)
    case Ready => Choose(t)
    case Entering(_) => GetTask(t)
    case Waiting(_) => Wake(t)
    case Woken(_) => GetTask(t)
    case Leaving => Erase(t)
    case Erased => ReadShutdown(t)
    case Checking => CheckTermination(t)
  }

  /** In a quiet state no worker is stuck. */
  lemma QuietNoDeadlock(s: State, t: Tid)
    requires MapMatchesThreads(s) && Quiet(s) && t in s.threads
    ensures Enabled(s, NextStep(t, s.threads[t])) && IsWorkerStep(NextStep(t, s.threads[t]))
  {
  }

  function WorkerSteps(acts: seq<Action>): nat {
    if acts == [] then 0 else (if IsWorkerStep(acts[0]) then 1 else 0) + WorkerSteps(acts[1..])
  }

  lemma {:induction false} QuietBudget(s: State, acts: seq<Action>)
    requires Inv(s) && Quiet(s) && Runs(s, acts)
    ensures WorkerSteps(acts) + Remaining(After(s, acts)) <= Remaining(s)
    decreases acts
  {
    if acts != [] {
      QuietProgress(s, acts[0]);
      InvStep(s, acts[0]);
      QuietStep(s, acts[0]);
      QuietBudget(Apply(s, acts[0]), acts[1..]);
    }
  }

  /** From a quiet state with a worker thread, whatever the interleaving, the workers take at
      most `Remaining(s)` more steps; when none can take another, termination has been noticed
      and no thread is blocked waiting for it. */
  lemma QuietTerminates(s: State, acts: seq<Action>)
    requires Inv(s) && Quiet(s) && s.threads != map[] && Runs(s, acts)
    ensures WorkerSteps(acts) <= Remaining(s)
    ensures (forall a :: Enabled(After(s, acts), a) ==> !IsWorkerStep(a))
            ==> After(s, acts).isTerminated && After(s, acts).blocked == {}
  {
    QuietBudget(s, acts);
    QuietRun(s, acts);
    var s' := After(s, acts);
    if forall a :: Enabled(s', a) ==> !IsWorkerStep(a) {
      if s'.threads != map[] {
        var t :| t in s'.threads;
        QuietNoDeadlock(s', t);
      }
      TerminationExact(s, acts);
    }
  }

  // ---------- one caller, a core size that is the limit ----------

  predicate IsForever(p: Phase) {
    (p.Entering? || p.Waiting? || p.Woken?) ==> p.mode.Forever?
  }

  /** Workers wait without a timeout and stay until shutdown. */
  ghost predicate AllResident(s: State) {
    forall t | t in s.threads :: IsForever(s.threads[t]) && (s.isShutdown || Active(s.threads[t]))
  }

  ghost predicate WorkersStay(s: State, caller: Caller) {
    s.calls.Keys == {caller} && 1 <= SizeT(s.cfg.core) == Limit(s.cfg) && AllResident(s)
  }

  /** Until shutdown there is a worker whenever there is, or may soon be, something to do. */
  ghost predicate WorkerPresent(s: State, caller: Caller) {
    caller in s.calls && !s.isShutdown && s.workers == {} && !s.calls[caller].Starting? ==>
      s.accepted == [] && s.queue == [] && !s.calls[caller].WantPush? && !s.calls[caller].Counted?
  }

  ghost predicate Steady(s: State, caller: Caller) {
    WorkersStay(s, caller) && WorkerPresent(s, caller)
  }

  lemma ResidentWorkerStep(s: State, a: Action)
    requires |s.workers| <= SizeT(s.cfg.core) && AllResident(s) && Enabled(s, a) && IsWorkerStep(a)
    ensures AllResident(Apply(s, a))
  {
    var s' := Apply(s, a);
    WorkerMovesOne(s, a);
    if a.t in s'.threads {
      assert IsForever(s'.threads[a.t]) && (s.isShutdown || Active(s'.threads[a.t]));
    }
  }

  /** While there are no more workers than the core size, none of them can give up. */
  lemma ResidentStep(s: State, a: Action)
    requires |s.workers| <= SizeT(s.cfg.core) && AllResident(s) && Enabled(s, a)
    ensures AllResident(Apply(s, a))
  {
    if IsWorkerStep(a) { ResidentWorkerStep(s, a); }
  }

  lemma StayStep(s: State, a: Action, caller: Caller)
    requires WorkersBounded(s) && WorkersStay(s, caller) && Enabled(s, a)
    ensures WorkersStay(Apply(s, a), caller)
  {
    assert |s.calls| == |s.calls.Keys| == 1;
    assert Apply(s, a).calls.Keys == s.calls.Keys && Apply(s, a).cfg == s.cfg;
    ResidentStep(s, a);
  }

  lemma PresentStep(s: State, a: Action, caller: Caller)
    requires WorkersStay(s, caller) && WorkerPresent(s, caller) && Enabled(s, a)
    ensures WorkerPresent(Apply(s, a), caller)
  {
    if a.ReadCount? { assert |s.workers| == 0 <==> s.workers == {}; }
    if a.Emplace? { assert s.calls[a.c].tid in Apply(s, a).workers; }
  }

  lemma {:induction false} SteadyRun(s: State, acts: seq<Action>, caller: Caller)
    requires Inv(s) && Steady(s, caller) && Runs(s, acts)
    ensures Inv(After(s, acts)) && Steady(After(s, acts), caller)
    decreases acts
  {
    if acts != [] {
      StayStep(s, acts[0], caller);
      PresentStep(s, acts[0], caller);
      InvStep(s, acts[0]);
      SteadyRun(Apply(s, acts[0]), acts[1..], caller);
    }
  }

  lemma SteadyShutdown(s: State, caller: Caller)
    requires Inv(s) && Steady(s, caller) && !s.isShutdown && NoneInFlight(s)
    ensures var q := Apply(s, Shutdown);
            && Inv(q) && Quiet(q) && !q.isTerminated && Drainable(q)
            && (q.accepted != [] ==> q.threads != map[])
  {
    var q := Apply(s, Shutdown);
    InvStep(s, Shutdown);
    assert q.threads.Keys == s.threads.Keys;
    if s.workers != {} {
      var w :| w in s.workers;
      assert Active(s.threads[w]) && Active(q.threads[w]);
    }
  }

  /** With one caller and a core size of at least 1 that is the limit, which for sizes that are not
      negative means core = max >= 1, no worker leaves before shutdown. */
  lemma NoWorkerLeavesEarly(cfg: Config, caller: Caller, acts: seq<Action>)
    requires 1 <= SizeT(cfg.core) == Limit(cfg) && Runs(Initial(cfg, {caller}), acts)
    ensures var s := After(Initial(cfg, {caller}), acts);
            !s.isShutdown ==> forall t | t in s.threads :: Active(s.threads[t])
  {
    InvInitially(cfg, {caller});
    SteadyRun(Initial(cfg, {caller}), acts, caller);
  }

  /** In that pool, when shutdown comes with no call in flight: as soon as
      termination is noticed the queue is empty and every accepted task has been completed
      exactly once; and if any task was accepted, termination is noticed, after a bounded number
      of worker steps. */
  lemma DrainOnShutdown(cfg: Config, caller: Caller, before: seq<Action>, rest: seq<Action>)
    requires 1 <= SizeT(cfg.core) == Limit(cfg)
    requires Runs(Initial(cfg, {caller}), before)
    requires var s := After(Initial(cfg, {caller}), before);
             !s.isShutdown && NoneInFlight(s) && Runs(Apply(s, Shutdown), rest)
    ensures var q := Apply(After(Initial(cfg, {caller}), before), Shutdown);
            var s' := After(q, rest);
            && (s'.isTerminated ==>
                  && s'.queue == [] && multiset(s'.completed) == multiset(s'.accepted)
                  && forall x :: multiset(s'.accepted)[x] <= 1)
            && (q.accepted != [] ==>
                  && WorkerSteps(rest) <= Remaining(q)
                  && ((forall a :: Enabled(s', a) ==> !IsWorkerStep(a)) ==> s'.isTerminated))
  {
    var s0 := Initial(cfg, {caller});
    InvInitially(cfg, {caller});
    SteadyRun(s0, before, caller);
    SteadyShutdown(After(s0, before), caller);
    var q := Apply(After(s0, before), Shutdown);
    if After(q, rest).isTerminated { DrainExact(q, rest); }
    if q.accepted != [] { QuietTerminates(q, rest); }
  }
}
