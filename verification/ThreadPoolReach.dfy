/** Reaching states: runs of the pool built step by step, up to the largest number of workers and
    from there to a task that nobody will take. */
module ThreadPoolReach {
  import opened Options
  import opened Totals
  import opened ThreadPool
  import opened ThreadPoolInvariants
  import opened ThreadPoolShutdown

  /** A state that some run of the pool reaches. */
  ghost predicate Reachable(cfg: Config, callers: set<Caller>, s: State) {
    exists acts :: Runs(Initial(cfg, callers), acts) && After(Initial(cfg, callers), acts) == s
  }

  lemma ReachableInv(cfg: Config, callers: set<Caller>, s: State)
    requires Reachable(cfg, callers, s)
    ensures Inv(s) && s.cfg == cfg && s.calls.Keys == callers
  {
    var s0 := Initial(cfg, callers);
    var acts :| Runs(s0, acts) && After(s0, acts) == s;
    InvInitially(cfg, callers);
    InvRun(s0, acts);
    SameCallers(s0, acts);
  }

  lemma {:induction false} SameCallers(s: State, acts: seq<Action>)
    requires Runs(s, acts)
    ensures After(s, acts).calls.Keys == s.calls.Keys && After(s, acts).cfg == s.cfg
    decreases acts
  {
    if acts != [] {
      SameCallersStep(s, acts[0]);
      SameCallers(Apply(s, acts[0]), acts[1..]);
    }
  }

  lemma SameCallersStep(s: State, a: Action)
    requires Enabled(s, a)
    ensures Apply(s, a).calls.Keys == s.calls.Keys && Apply(s, a).cfg == s.cfg
  {
  }

  lemma ReachInitial(cfg: Config, callers: set<Caller>)
    ensures Reachable(cfg, callers, Initial(cfg, callers))
  {
    assert Runs(Initial(cfg, callers), []);
    assert After(Initial(cfg, callers), []) == Initial(cfg, callers);
  }

  lemma ReachStep(cfg: Config, callers: set<Caller>, s: State, a: Action)
    requires Reachable(cfg, callers, s) && Enabled(s, a)
    ensures Reachable(cfg, callers, Apply(s, a))
  {
    var s0 := Initial(cfg, callers);
    var acts :| Runs(s0, acts) && After(s0, acts) == s;
    assert [a][1..] == [];
    assert Runs(Apply(s, a), []) && After(Apply(s, a), []) == Apply(s, a);
    assert Runs(s, [a]) && After(s, [a]) == After(Apply(s, a), []);
    RunsAppend(s0, acts, [a]);
  }

  ghost function Below(n: nat): set<nat> {
    if n == 0 then {} else Below(n - 1) + {n - 1}
  }

  lemma {:induction false} BelowSize(n: nat)
    ensures |Below(n)| == n && forall x | x in Below(n) :: x < n
  {
    if n > 0 { BelowSize(n - 1); }
  }

  lemma FreshNat(xs: set<nat>) returns (x: nat)
    ensures x !in xs
  {
    var below := Below(|xs| + 1);
    BelowSize(|xs| + 1);
    if below <= xs { SubsetSize(below, xs); }
    x :| x in below && x !in xs;
  }

  lemma {:induction false} SubsetSize(a: set<nat>, b: set<nat>)
    requires a <= b
    ensures |a| <= |b|
    decreases |a|
  {
    if a != {} {
      var x :| x in a;
      SubsetSize(a - {x}, b - {x});
    }
  }

  // ---------- one call of execute ----------

  /** Nothing keeps a caller from going on. */
  ghost predicate Open(s: State) {
    !s.isShutdown && !s.isTerminated && s.workerLock.None?
  }

  ghost predicate AllIdle(s: State) { forall c | c in s.calls :: s.calls[c].Idle? }

  /** No worker has begun yet. */
  ghost predicate AllNew(s: State) { forall t | t in s.threads :: s.threads[t].Created? }

  /** A caller that reads the sizes now starts a worker rather than queue its task. */
  ghost predicate Starts(s: State) {
    |s.workers| < SizeT(s.cfg.core) || (s.queue != [] && |s.workers| < SizeT(s.cfg.max))
  }

  /** An idle caller passes its shutdown check with a task of its own. */
  lemma Offer(cfg: Config, callers: set<Caller>, s: State, c: Caller) returns (x: Task, s': State)
    requires Reachable(cfg, callers, s) && Open(s) && c in s.calls && s.calls[c].Idle?
    ensures Reachable(cfg, callers, s')
    ensures s' == s.(calls := s.calls[c := Checked(x)], issued := s.issued + [x])
  {
    x := FreshNat(set x | x in s.issued);
    var s1 := Apply(s, Submit(c, x));
    ReachStep(cfg, callers, s, Submit(c, x));
    s' := Apply(s1, CheckShutdown(c));
    ReachStep(cfg, callers, s1, CheckShutdown(c));
    assert s1.calls[c := Checked(x)] == s.calls[c := Checked(x)];
  }

  /** With enough workers it goes on to read the queue size. */
  lemma CountEnough(cfg: Config, callers: set<Caller>, s: State, c: Caller) returns (x: Task, s': State)
    requires Reachable(cfg, callers, s) && Open(s) && c in s.calls && s.calls[c].Idle?
    requires s.cfg == cfg && |s.workers| >= SizeT(cfg.core)
    ensures Reachable(cfg, callers, s')
    ensures s' == s.(calls := s.calls[c := Counted(x, |s.workers|)], issued := s.issued + [x])
  {
    var s1;
    x, s1 := Offer(cfg, callers, s, c);
    ReachStep(cfg, callers, s1, ReadCount(c));
    s' := Apply(s1, ReadCount(c));
    assert s1.calls[c := Counted(x, |s.workers|)] == s.calls[c := Counted(x, |s.workers|)];
  }

  /** A caller decides to start a worker. */
  lemma Decide(cfg: Config, callers: set<Caller>, s: State, c: Caller) returns (x: Task, s': State)
    requires Reachable(cfg, callers, s) && Open(s) && c in s.calls && s.calls[c].Idle? && s.cfg == cfg && Starts(s)
    ensures Reachable(cfg, callers, s')
    ensures s' == s.(calls := s.calls[c := WantStart(x)], issued := s.issued + [x])
  {
    var s1, a;
    if |s.workers| < SizeT(cfg.core) {
      x, s1 := Offer(cfg, callers, s, c);
      a := ReadCount(c);
    } else {
      x, s1 := CountEnough(cfg, callers, s, c);
      a := ReadQueue(c);
    }
    ReachStep(cfg, callers, s1, a);
    s' := Apply(s1, a);
    assert s1.calls[c := WantStart(x)] == s.calls[c := WantStart(x)];
  }

  /** What a caller that has decided to start a worker with the id t leaves behind. */
  ghost function Started(s: State, c: Caller, t: Tid): State
    requires c in s.calls && s.calls[c].WantStart?
  {
    var x := s.calls[c].task;
    s.(calls := s.calls[c := Idle], workers := s.workers + {t}, threads := s.threads[t := Created(x)],
       accepted := s.accepted + [x])
  }

  lemma StartSteps(s: State, c: Caller, t: Tid)
    requires Open(s) && c in s.calls && s.calls[c].WantStart? && t !in s.threads
    ensures Enabled(s, CreateThread(c, t)) && Enabled(Apply(s, CreateThread(c, t)), Emplace(c))
    ensures Apply(Apply(s, CreateThread(c, t)), Emplace(c)) == Started(s, c, t)
  {
    assert s.calls[c := Starting(t)][c := Idle] == s.calls[c := Idle];
  }

  /** It adds its worker, whatever the count is by now. */
  lemma Start(cfg: Config, callers: set<Caller>, s: State, c: Caller) returns (t: Tid, s': State)
    requires Reachable(cfg, callers, s) && Open(s) && c in s.calls && s.calls[c].WantStart?
    ensures Reachable(cfg, callers, s') && t !in s.threads && s' == Started(s, c, t)
    ensures |s'.workers| == |s.workers| + 1
  {
    ReachableInv(cfg, callers, s);
    t := FreshNat(s.threads.Keys);
    StartSteps(s, c, t);
    ReachStep(cfg, callers, s, CreateThread(c, t));
    ReachStep(cfg, callers, Apply(s, CreateThread(c, t)), Emplace(c));
    s' := Started(s, c, t);
    assert t !in s.workers;
  }

  /** With enough workers and an empty queue a caller queues its task; nobody waits. */
  lemma QueueOne(cfg: Config, callers: set<Caller>, s: State, c: Caller) returns (x: Task, s': State)
    requires Reachable(cfg, callers, s) && Open(s) && c in s.calls && s.calls[c].Idle? && s.cfg == cfg
    requires |s.workers| >= SizeT(cfg.core) && s.queue == [] && forall t | t in s.threads :: !s.threads[t].Waiting?
    ensures Reachable(cfg, callers, s')
    ensures s' == s.(queue := [x], issued := s.issued + [x], accepted := s.accepted + [x], enqueued := s.enqueued + [x])
  {
    var s1;
    x, s1 := CountEnough(cfg, callers, s, c);
    ReachStep(cfg, callers, s1, ReadQueue(c));
    var s2 := Apply(s1, ReadQueue(c));
    ReachStep(cfg, callers, s2, Push(c, None));
    s' := Apply(s2, Push(c, None));
    assert s'.calls == s.calls;
  }

  // ---------- many workers ----------

  /** One caller adds workers one after the other. */
  lemma {:induction false} GrowTo(cfg: Config, callers: set<Caller>, s: State, c: Caller, n: nat) returns (s': State)
    requires Reachable(cfg, callers, s) && Open(s) && AllIdle(s) && AllNew(s) && c in s.calls && s.cfg == cfg
    requires |s.workers| <= n && (n <= SizeT(cfg.core) || (s.queue != [] && n <= SizeT(cfg.max)))
    ensures Reachable(cfg, callers, s') && Open(s') && AllIdle(s') && AllNew(s') && s'.calls.Keys == s.calls.Keys
    ensures |s'.workers| == n && s'.queue == s.queue && s'.cfg == cfg
    decreases n - |s.workers|
  {
    s' := s;
    if |s.workers| < n {
      var _, s1 := Decide(cfg, callers, s, c);
      var _, s2 := Start(cfg, callers, s1, c);
      s' := GrowTo(cfg, callers, s2, c, n);
    }
  }

  /** All these callers read the sizes before any of them adds its worker. */
  lemma {:induction false} DecideAll(cfg: Config, callers: set<Caller>, s: State, cs: set<Caller>) returns (s': State)
    requires Reachable(cfg, callers, s) && Open(s) && AllNew(s) && cs <= s.calls.Keys && s.cfg == cfg && Starts(s)
    requires forall c | c in cs :: s.calls[c].Idle?
    requires forall c | c in s.calls && c !in cs :: s.calls[c].WantStart?
    ensures Reachable(cfg, callers, s') && Open(s') && AllNew(s') && s'.calls.Keys == s.calls.Keys
    ensures s'.workers == s.workers && forall c | c in s'.calls :: s'.calls[c].WantStart?
    decreases |cs|
  {
    s' := s;
    if cs != {} {
      var c :| c in cs;
      var _, s1 := Decide(cfg, callers, s, c);
      s' := DecideAll(cfg, callers, s1, cs - {c});
    }
  }

  lemma {:induction false} StartAll(cfg: Config, callers: set<Caller>, s: State, cs: set<Caller>) returns (s': State)
    requires Reachable(cfg, callers, s) && Open(s) && AllNew(s) && cs <= s.calls.Keys
    requires forall c | c in cs :: s.calls[c].WantStart?
    requires forall c | c in s.calls && c !in cs :: s.calls[c].Idle?
    ensures Reachable(cfg, callers, s') && Open(s') && AllNew(s') && AllIdle(s')
    ensures |s'.workers| == |s.workers| + |cs|
    decreases |cs|
  {
    s' := s;
    if cs != {} {
      var c :| c in cs;
      var _, s1 := Start(cfg, callers, s, c);
      s' := StartAll(cfg, callers, s1, cs - {c});
    }
  }

  /** Up to the core size the first caller starts a worker for each task. When the maximum is
      larger it then queues one task, and with that waiting it starts workers up to one below the
      maximum. There all callers read the same sizes, and each adds a worker. */
  lemma ReachMost(cfg: Config, callers: set<Caller>) returns (s: State)
    requires callers != {} && Limit(cfg) >= 1
    ensures Reachable(cfg, callers, s) && Open(s) && AllIdle(s) && AllNew(s)
    ensures |s.workers| == Limit(cfg) + |callers| - 1
  {
    var c :| c in callers;
    s := Initial(cfg, callers);
    ReachInitial(cfg, callers);
    if SizeT(cfg.core) < SizeT(cfg.max) {
      s := GrowTo(cfg, callers, s, c, SizeT(cfg.core));
      var _, s1 := QueueOne(cfg, callers, s, c);
      s := s1;
    }
    s := GrowTo(cfg, callers, s, c, Limit(cfg) - 1);
    s := DecideAll(cfg, callers, s, callers);
    s := StartAll(cfg, callers, s, callers);
  }

  // ---------- workers that give up ----------

  /** Only one thread, the queue and what is completed may differ. */
  ghost predicate SamePool(s: State, s': State) {
    && s'.cfg == s.cfg && s'.calls == s.calls && s'.workers == s.workers && s'.workerLock == s.workerLock
    && s'.isShutdown == s.isShutdown && s'.isTerminated == s.isTerminated
  }

  lemma FinishTask(cfg: Config, callers: set<Caller>, s: State, t: Tid) returns (m: Mode, s': State)
    requires Reachable(cfg, callers, s) && t in s.threads && s.threads[t].Running?
    requires |s.workers| > SizeT(s.cfg.core)
    ensures Reachable(cfg, callers, s') && SamePool(s, s') && s'.queue == s.queue
    ensures !m.Forever? && s'.threads == s.threads[t := Entering(m)]
  {
    var s1 := Apply(s, Finish(t));
    ReachStep(cfg, callers, s, Finish(t));
    m := ModeFor(s.cfg, |s.workers|);
    s' := Apply(s1, Choose(t));
    ReachStep(cfg, callers, s1, Choose(t));
    assert s1.threads[t := Entering(m)] == s.threads[t := Entering(m)];
  }

  /** A worker that finds the queue empty and does not wait, or waits and times out. */
  lemma TimeOut(cfg: Config, callers: set<Caller>, s: State, t: Tid, m: Mode) returns (s': State)
    requires Reachable(cfg, callers, s) && !s.isShutdown && s.queue == []
    requires t in s.threads && s.threads[t] == Entering(m) && !m.Forever?
    ensures Reachable(cfg, callers, s') && SamePool(s, s') && s'.queue == []
    ensures s'.threads == s.threads[t := Leaving]
  {
    s' := Apply(s, GetTask(t));
    ReachStep(cfg, callers, s, GetTask(t));
    if m.Timed? {
      var s2 := Apply(s', Wake(t));
      ReachStep(cfg, callers, s', Wake(t));
      ReachStep(cfg, callers, s2, GetTask(t));
      s' := Apply(s2, GetTask(t));
      assert s2.threads[t := Leaving] == s.threads[t := Leaving];
    }
  }

  /** Above the core size a worker empties the queue and then gives up. */
  lemma {:induction false} GiveUp(cfg: Config, callers: set<Caller>, s: State, t: Tid, m: Mode) returns (s': State)
    requires Reachable(cfg, callers, s) && !s.isShutdown && |s.workers| > SizeT(s.cfg.core)
    requires t in s.threads && s.threads[t] == Entering(m) && !m.Forever?
    ensures Reachable(cfg, callers, s') && SamePool(s, s') && s'.queue == []
    ensures s'.threads == s.threads[t := Leaving]
    decreases |s.queue|
  {
    if s.queue == [] {
      s' := TimeOut(cfg, callers, s, t, m);
    } else {
      var s1 := Apply(s, GetTask(t));
      ReachStep(cfg, callers, s, GetTask(t));
      var n, s2 := FinishTask(cfg, callers, s1, t);
      s' := GiveUp(cfg, callers, s2, t, n);
    }
  }

  lemma LeaveOne(cfg: Config, callers: set<Caller>, s: State, t: Tid) returns (s': State)
    requires Reachable(cfg, callers, s) && !s.isShutdown && |s.workers| > SizeT(s.cfg.core)
    requires t in s.threads && s.threads[t].Created?
    ensures Reachable(cfg, callers, s') && SamePool(s, s') && s'.queue == []
    ensures s'.threads == s.threads[t := Leaving]
  {
    var s1 := Apply(s, Begin(t));
    ReachStep(cfg, callers, s, Begin(t));
    var m, s2 := FinishTask(cfg, callers, s1, t);
    s' := GiveUp(cfg, callers, s2, t, m);
    assert s'.threads == s.threads[t := Leaving];
  }

  /** They can all do so before the first of them erases itself. */
  lemma {:induction false} LeaveAll(cfg: Config, callers: set<Caller>, s: State, ts: set<Tid>) returns (s': State)
    requires Reachable(cfg, callers, s) && !s.isShutdown && |s.workers| > SizeT(s.cfg.core) && ts <= s.threads.Keys
    requires forall t | t in s.threads :: if t in ts then s.threads[t].Created? else s.threads[t].Leaving?
    ensures Reachable(cfg, callers, s') && SamePool(s, s') && s'.queue == if ts == {} then s.queue else []
    ensures forall t | t in s'.threads :: s'.threads[t].Leaving?
    decreases |ts|
  {
    s' := s;
    if ts != {} {
      var t :| t in ts;
      var s1 := LeaveOne(cfg, callers, s, t);
      s' := LeaveAll(cfg, callers, s1, ts - {t});
    }
  }

  /** All workers have given up and the queue is empty. */
  lemma AllGiveUp(cfg: Config, callers: set<Caller>) returns (s: State)
    requires callers != {} && 1 <= Limit(cfg) && SizeT(cfg.core) < Limit(cfg) + |callers| - 1
    ensures Reachable(cfg, callers, s) && Open(s) && AllIdle(s) && s.queue == []
    ensures forall t | t in s.threads :: s.threads[t].Leaving?
    ensures |s.workers| == Limit(cfg) + |callers| - 1
  {
    var r := ReachMost(cfg, callers);
    ReachableInv(cfg, callers, r);
    var w :| w in r.workers;
    assert w in r.threads;
    s := LeaveAll(cfg, callers, r, r.threads.Keys);
  }
}
