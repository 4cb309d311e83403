/** Calls of `execute` as their callers see them: what one undisturbed call does, and the order in
    which queued tasks come out whatever runs beside it. */
module ThreadPoolCalls {
  import opened Options
  import opened ThreadPool
  import opened ThreadPoolInvariants

  // ---------- one undisturbed call ----------

  /** Steps of c inside one call of execute, up to its end. */
  ghost predicate RestOfCall(s: State, acts: seq<Action>, c: Caller) {
    && Runs(s, acts)
    && (forall i | 0 <= i < |acts| :: IsCallStep(acts[i]) && !acts[i].Submit? && acts[i].c == c)
    && c in After(s, acts).calls && After(s, acts).calls[c].Idle?
  }

  lemma NextOfCall(s: State, acts: seq<Action>, c: Caller)
    requires RestOfCall(s, acts, c) && c in s.calls
    ensures acts == [] <==> s.calls[c].Idle?
    ensures acts != [] ==> Enabled(s, acts[0]) && IsCallStep(acts[0]) && !acts[0].Submit? && acts[0].c == c
    ensures acts != [] ==> RestOfCall(Apply(s, acts[0]), acts[1..], c)
  {
    if acts != [] {
      assert Enabled(s, acts[0]);
      forall i | 0 <= i < |acts[1..]|
        ensures IsCallStep(acts[1..][i]) && !acts[1..][i].Submit? && acts[1..][i].c == c
      {
        assert acts[1..][i] == acts[i + 1];
      }
    }
  }

  ghost predicate StartsWorker(s: State, s': State, x: Task) {
    exists t :: t !in s.threads &&
                s' == s.(workers := s.workers + {t}, threads := s.threads[t := Created(x)],
                         accepted := s.accepted + [x], calls := s'.calls, issued := s'.issued, workerLock := None)
  }

  ghost predicate QueuesTask(s: State, s': State, x: Task) {
    && s' == s.(queue := s.queue + [x], threads := s'.threads, accepted := s.accepted + [x],
                enqueued := s.enqueued + [x], calls := s'.calls, issued := s'.issued)
    && (|| (s'.threads == s.threads && forall t | t in s.threads :: !s.threads[t].Waiting?)
        || (exists t :: t in s.threads && s.threads[t].Waiting?
                        && s'.threads == s.threads[t := Woken(s.threads[t].mode)]))
  }

  ghost predicate RejectsTask(s: State, s': State, x: Task) {
    s' == s.(rejected := s.rejected + [x], calls := s'.calls, issued := s'.issued)
  }

  lemma FromWantStart(s: State, acts: seq<Action>, c: Caller)
    requires c in s.calls && s.calls[c].WantStart? && RestOfCall(s, acts, c)
    ensures StartsWorker(s, After(s, acts), s.calls[c].task)
    ensures After(s, acts).calls == s.calls[c := Idle] && After(s, acts).issued == s.issued
  {
    NextOfCall(s, acts, c);
    var s1 := Apply(s, acts[0]);
    NextOfCall(s1, acts[1..], c);
    var s2 := Apply(s1, acts[1..][0]);
    NextOfCall(s2, acts[1..][1..], c);
    assert s2.calls == s.calls[c := Idle];
    assert acts[0].tid !in s.threads;
  }

  lemma FromWantPush(s: State, acts: seq<Action>, c: Caller)
    requires c in s.calls && s.calls[c].WantPush? && RestOfCall(s, acts, c)
    ensures QueuesTask(s, After(s, acts), s.calls[c].task)
    ensures After(s, acts).calls == s.calls[c := Idle] && After(s, acts).issued == s.issued
  {
    NextOfCall(s, acts, c);
    var s1 := Apply(s, acts[0]);
    NextOfCall(s1, acts[1..], c);
    if acts[0].signalled.Some? {
      var t := acts[0].signalled.value;
      assert t in s.threads && s.threads[t].Waiting? && s1.threads == s.threads[t := Woken(s.threads[t].mode)];
    }
  }

  lemma FromChecked(s: State, acts: seq<Action>, c: Caller)
    requires c in s.calls && s.calls[c].Checked? && RestOfCall(s, acts, c)
    ensures var s', x := After(s, acts), s.calls[c].task;
            && s'.calls == s.calls[c := Idle] && s'.issued == s.issued
            && (if |s.workers| < SizeT(s.cfg.core) || (s.queue != [] && |s.workers| < SizeT(s.cfg.max))
                then StartsWorker(s, s', x) else QueuesTask(s, s', x))
  {
    NextOfCall(s, acts, c);
    var s1, rest, x := Apply(s, acts[0]), acts[1..], s.calls[c].task;
    NextOfCall(s1, rest, c);
    if s1.calls[c].Counted? {
      s1, rest := Apply(s1, rest[0]), rest[1..];
    }
    assert s1.calls[c := Idle] == s.calls[c := Idle];
    if s1.calls[c].WantStart? {
      FromWantStart(s1, rest, c);
      StartsSame(s, s1, After(s, acts), x);
    } else {
      FromWantPush(s1, rest, c);
      QueuesSame(s, s1, After(s, acts), x);
    }
  }

  /** Only the caller's own progress differs between the two. */
  lemma StartsSame(s: State, s1: State, s': State, x: Task)
    requires StartsWorker(s1, s', x) && s1 == s.(calls := s1.calls, issued := s1.issued)
    ensures StartsWorker(s, s', x)
  {
    var t :| t !in s1.threads &&
             s' == s1.(workers := s1.workers + {t}, threads := s1.threads[t := Created(x)],
                       accepted := s1.accepted + [x], calls := s'.calls, issued := s'.issued, workerLock := None);
    assert t !in s.threads;
  }

  lemma QueuesSame(s: State, s1: State, s': State, x: Task)
    requires QueuesTask(s1, s', x) && s1 == s.(calls := s1.calls, issued := s1.issued)
    ensures QueuesTask(s, s', x)
  {
  }

  /** One call of execute during which no other thread takes a step: after shutdown the task is
      rejected and nothing else changes. Otherwise, with fewer workers than the core size, or with
      tasks queued and fewer than the maximum, a new worker starts with the task; else the task goes
      to the end of the queue and exactly one waiting worker is woken if any waits. */
  lemma ExecuteAlone(s: State, acts: seq<Action>, c: Caller, x: Task)
    requires c in s.calls && s.calls[c].Idle? && x !in s.issued
    requires RestOfCall(Apply(s, Submit(c, x)), acts, c)
    ensures var s' := After(Apply(s, Submit(c, x)), acts);
            && s'.calls == s.calls && s'.issued == s.issued + [x]
            && (if s.isShutdown || s.isTerminated then RejectsTask(s, s', x)
                else if |s.workers| < SizeT(s.cfg.core) || (s.queue != [] && |s.workers| < SizeT(s.cfg.max))
                then StartsWorker(s, s', x)
                else QueuesTask(s, s', x))
  {
    var s0 := Apply(s, Submit(c, x));
    NextOfCall(s0, acts, c);
    var s1 := Apply(s0, acts[0]);
    NextOfCall(s1, acts[1..], c);
    if s.isShutdown || s.isTerminated {
      assert s1.calls == s.calls;
    } else {
      FromChecked(s1, acts[1..], c);
      var s' := After(s0, acts);
      assert s1.calls[c := Idle] == s.calls;
      if |s.workers| < SizeT(s.cfg.core) || (s.queue != [] && |s.workers| < SizeT(s.cfg.max)) {
        StartsSame(s, s1, s', x);
      } else {
        QueuesSame(s, s1, s', x);
      }
    }
  }

  // ---------- histories ----------

  /** What `pick` takes from each step of the run, in order. */
  ghost function Collect(s: State, acts: seq<Action>, pick: (State, Action) -> seq<Task>): seq<Task>
    requires Runs(s, acts)
    decreases acts
  {
    if acts == [] then [] else pick(s, acts[0]) + Collect(Apply(s, acts[0]), acts[1..], pick)
  }

  /** A history to which every step appends what `pick` takes from it. */
  ghost predicate Records(history: State -> seq<Task>, pick: (State, Action) -> seq<Task>) {
    forall s, a | Enabled(s, a) :: history(Apply(s, a)) == history(s) + pick(s, a)
  }

  lemma {:induction false} RecordsRun(s: State, acts: seq<Action>, history: State -> seq<Task>,
                                      pick: (State, Action) -> seq<Task>)
    requires Runs(s, acts) && Records(history, pick)
    ensures history(After(s, acts)) == history(s) + Collect(s, acts, pick)
    decreases acts
  {
    if acts != [] {
      assert history(Apply(s, acts[0])) == history(s) + pick(s, acts[0]);
      RecordsRun(Apply(s, acts[0]), acts[1..], history, pick);
    }
  }

  ghost function SubmittedIn(s: State, a: Action): seq<Task> {
    if a.Submit? then [a.task] else []
  }

  /** The task a caller is carrying when it pushes. */
  ghost function PushedIn(s: State, a: Action): seq<Task> {
    if Enabled(s, a) && a.Push? then [s.calls[a.c].task] else []
  }

  /** The task a caller hands to a new worker or to the queue. */
  ghost function AcceptedIn(s: State, a: Action): seq<Task> {
    if Enabled(s, a) && (a.CreateThread? || a.Push?) then [s.calls[a.c].task] else []
  }

  /** The task a caller still has when its shutdown check ends the call. */
  ghost function RejectedIn(s: State, a: Action): seq<Task> {
    if Enabled(s, a) && a.CheckShutdown? && Apply(s, a).calls[a.c].Idle? then [s.calls[a.c].task] else []
  }

  /** The task a worker is running when it comes back from getTask with one. */
  ghost function FetchedIn(s: State, a: Action): seq<Task> {
    if Enabled(s, a) && a.GetTask? && a.t in Apply(s, a).threads && Apply(s, a).threads[a.t].Running?
    then [Apply(s, a).threads[a.t].task] else []
  }

  /** The task a worker has been running when it finishes. */
  ghost function FinishedIn(s: State, a: Action): seq<Task> {
    if Enabled(s, a) && a.Finish? then [s.threads[a.t].task] else []
  }

  ghost function IssuedOf(s: State): seq<Task> { s.issued }

  ghost function AcceptedOf(s: State): seq<Task> { s.accepted }

  ghost function RejectedOf(s: State): seq<Task> { s.rejected }

  ghost function EnqueuedOf(s: State): seq<Task> { s.enqueued }

  ghost function DequeuedOf(s: State): seq<Task> { s.dequeued }

  ghost function CompletedOf(s: State): seq<Task> { s.completed }

  lemma IssuedRecorded()
    ensures Records(IssuedOf, SubmittedIn)
  {
    forall s, a | Enabled(s, a) ensures IssuedOf(Apply(s, a)) == IssuedOf(s) + SubmittedIn(s, a) {}
  }

  lemma AcceptedRecorded()
    ensures Records(AcceptedOf, AcceptedIn)
  {
    forall s, a | Enabled(s, a) ensures AcceptedOf(Apply(s, a)) == AcceptedOf(s) + AcceptedIn(s, a) {}
  }

  lemma RejectedRecorded()
    ensures Records(RejectedOf, RejectedIn)
  {
    forall s, a | Enabled(s, a) ensures RejectedOf(Apply(s, a)) == RejectedOf(s) + RejectedIn(s, a) {}
  }

  lemma EnqueuedRecorded()
    ensures Records(EnqueuedOf, PushedIn)
  {
    forall s, a | Enabled(s, a) ensures EnqueuedOf(Apply(s, a)) == EnqueuedOf(s) + PushedIn(s, a) {}
  }

  lemma DequeuedRecorded()
    ensures Records(DequeuedOf, FetchedIn)
  {
    forall s, a | Enabled(s, a) ensures DequeuedOf(Apply(s, a)) == DequeuedOf(s) + FetchedIn(s, a) {}
  }

  lemma CompletedRecorded()
    ensures Records(CompletedOf, FinishedIn)
  {
    forall s, a | Enabled(s, a) ensures CompletedOf(Apply(s, a)) == CompletedOf(s) + FinishedIn(s, a) {}
  }

  /** The histories are those of the run. */
  lemma HistoriesAre(cfg: Config, callers: set<Caller>, acts: seq<Action>)
    requires Runs(Initial(cfg, callers), acts)
    ensures var s0, s := Initial(cfg, callers), After(Initial(cfg, callers), acts);
            && s.issued == Collect(s0, acts, SubmittedIn)
            && s.accepted == Collect(s0, acts, AcceptedIn)
            && s.rejected == Collect(s0, acts, RejectedIn)
            && s.enqueued == Collect(s0, acts, PushedIn)
            && s.dequeued == Collect(s0, acts, FetchedIn)
            && s.completed == Collect(s0, acts, FinishedIn)
  {
    var s0 := Initial(cfg, callers);
    FromNothing(s0, acts, IssuedOf, SubmittedIn) by { IssuedRecorded(); }
    FromNothing(s0, acts, AcceptedOf, AcceptedIn) by { AcceptedRecorded(); }
    FromNothing(s0, acts, RejectedOf, RejectedIn) by { RejectedRecorded(); }
    FromNothing(s0, acts, EnqueuedOf, PushedIn) by { EnqueuedRecorded(); }
    FromNothing(s0, acts, DequeuedOf, FetchedIn) by { DequeuedRecorded(); }
    FromNothing(s0, acts, CompletedOf, FinishedIn) by { CompletedRecorded(); }
  }

  lemma FromNothing(s: State, acts: seq<Action>, history: State -> seq<Task>, pick: (State, Action) -> seq<Task>)
    requires Runs(s, acts) && Records(history, pick) && history(s) == []
    ensures history(After(s, acts)) == Collect(s, acts, pick)
  {
    RecordsRun(s, acts, history, pick);
    assert [] + Collect(s, acts, pick) == Collect(s, acts, pick);
  }

  /** First in, first out, in every run with any number of callers and workers: the tasks pushed, in
      the order of the pushes, are the tasks fetched, in the order in which workers come back with
      them, followed by what is still queued. */
  lemma FirstInFirstOut(cfg: Config, callers: set<Caller>, acts: seq<Action>)
    requires Runs(Initial(cfg, callers), acts)
    ensures Collect(Initial(cfg, callers), acts, PushedIn)
            == Collect(Initial(cfg, callers), acts, FetchedIn) + After(Initial(cfg, callers), acts).queue
  {
    HistoriesAre(cfg, callers, acts);
    InvInitially(cfg, callers);
    InvRun(Initial(cfg, callers), acts);
  }
}
