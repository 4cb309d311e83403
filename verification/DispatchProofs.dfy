/** Exactly-once, correctly matched delivery, under every interleaving. */
module DispatchProofs {
  import opened Options
  import opened Totals
  import opened Dispatch

  // ---------- numbers ----------

  /** The first n numbers handed out are different from each other and from the number 0 of
      updates if and only if n is below 2^64. */
  lemma NumbersUniqueIff(n: nat)
    ensures (forall i: nat, j: nat | i < j < n :: NumberOf(i) != NumberOf(j))
            && (forall i: nat | i < n :: NumberOf(i) != 0)
            <==> n < UINT64_RANGE
  {
    if n < UINT64_RANGE {
      forall i: nat | i < n ensures NumberOf(i) == i + 1 {}
    } else {
      assert NumberOf(UINT64_RANGE - 1) == 0;
    }
  }

  // ---------- every number is in one place ----------

  function SenderIds(p: Sending): multiset<Id> {
    match p
    case Resting => multiset{}
    case Numbered(id, _) => multiset{id}
    case Ready(id) => multiset{id}
  }

  function LooperIds(l: Looper): multiset<Id> {
    match l
    case Got(id, update) => if update.None? then multiset{id} else multiset{}
    case Found(id, _) => multiset{id}
    case Holding(id, _) => multiset{id}
    case Invoking(id, _) => multiset{id}
    case _ => multiset{}
  }

  ghost predicate NotWrapped(s: State) { |s.wanted| < UINT64_RANGE }

  /** In how many places a number is: with a sender, unanswered at the client, with the looper,
      done. */
  ghost function Places(s: State, id: Id): nat {
    Bag(s.senders, SenderIds)[id] + s.pending[id] + LooperIds(s.looper)[id] + multiset(s.done)[id]
  }

  /** Each number handed out is in exactly one place; updates carry the number 0. */
  ghost predicate NumbersPlaced(s: State) {
    && s.querySequence == NumberOf(|s.wanted|)
    && (forall id: Id :: Places(s, id) == if 1 <= id <= |s.wanted| then 1 else 0)
    && (s.looper.Got? && s.looper.update.Some? ==> s.looper.id == 0)
  }

  predicate IsSenderStep(a: Action) {
    a.TakeNumber? || a.PutCallback? || a.NoCallback? || a.SendOut?
  }

  lemma SenderPlaces(s: State, a: Action, id: Id)
    requires Enabled(s, a) && IsSenderStep(a)
    ensures Places(Apply(s, a), id) == Places(s, id) + if a.TakeNumber? && id == s.querySequence then 1 else 0
  {
    BagUpdateAt(s.senders, SenderIds, a.c, Apply(s, a).senders[a.c], id);
  }

  lemma ReceivePlaces(s: State, a: Action, id: Id)
    requires Enabled(s, a) && (a.Receive? || a.ReceiveUpdate?)
    ensures Places(Apply(s, a), id) == Places(s, id)
  {
    var s' := Apply(s, a);
    if a.Receive? {
      assert s'.pending[id] + (if id == a.id then 1 else 0) == s.pending[id];
    } else {
      assert s'.pending == s.pending;
    }
    assert s'.senders == s.senders && s'.done == s.done && LooperIds(s.looper) == multiset{};
  }

  /** The looper's number is done. */
  lemma DonePlaces(s: State, s': State, i: Id, id: Id)
    requires s'.senders == s.senders && s'.pending == s.pending && s'.done == s.done + [i]
    requires LooperIds(s.looper) == multiset{i} && LooperIds(s'.looper) == multiset{}
    ensures Places(s', id) == Places(s, id)
  {
    DoneAppend(s.done, i, id);
  }

  lemma LookUpPlaces(s: State, a: Action, id: Id)
    requires Enabled(s, a) && a.LookUp? && (s.looper.update.None? <==> s.looper.id != 0)
    ensures Places(Apply(s, a), id) == Places(s, id)
  {
    var s', i := Apply(s, a), s.looper.id;
    if i != 0 && i !in s.backend {
      DonePlaces(s, s', i, id);
    } else {
      assert LooperIds(s'.looper) == LooperIds(s.looper);
    }
  }

  lemma CarryPlaces(s: State, a: Action, id: Id)
    requires Enabled(s, a) && (a.MoveOut? || a.RemoveEntry?)
    requires s.looper.Found? ==> s.looper.addr in s.heap
    ensures Places(Apply(s, a), id) == Places(s, id)
  {
    assert LooperIds(Apply(s, a).looper) == LooperIds(s.looper);
  }

  lemma InvokePlaces(s: State, a: Action, id: Id)
    requires Enabled(s, a) && a.Invoke?
    ensures Places(Apply(s, a), id) == Places(s, id)
  {
    DonePlaces(s, Apply(s, a), s.looper.id, id);
  }

  lemma DoneAppend(done: seq<Id>, i: Id, id: Id)
    ensures multiset(done + [i])[id] == multiset(done)[id] + if i == id then 1 else 0
  {
    assert multiset(done + [i]) == multiset(done) + multiset{i};
  }

  lemma AnswersAreNumbered(s: State)
    requires NumbersPlaced(s) && s.looper.Got?
    ensures s.looper.update.None? <==> s.looper.id != 0
  {
    if s.looper.update.None? { assert Places(s, s.looper.id) >= 1; }
  }

  lemma LooperPlaces(s: State, a: Action, id: Id)
    requires Enabled(s, a) && !IsSenderStep(a)
    requires s.looper.Found? ==> s.looper.addr in s.heap
    requires s.looper.Got? ==> (s.looper.update.None? <==> s.looper.id != 0)
    ensures Places(Apply(s, a), id) == Places(s, id)
  {
    match a {
      case LookUp => LookUpPlaces(s, a, id);
      case Invoke => InvokePlaces(s, a, id);
      case MoveOut => CarryPlaces(s, a, id);
      case RemoveEntry => CarryPlaces(s, a, id);
      case Receive(_) => ReceivePlaces(s, a, id);
      case ReceiveUpdate(_) => ReceivePlaces(s, a, id);
    }
  }

  /** Enough for the numbers to stay placed: only the numbers handed out since are new. */
  lemma StillPlaced(s: State, s': State)
    requires NumbersPlaced(s) && |s.wanted| <= |s'.wanted| && s'.querySequence == NumberOf(|s'.wanted|)
    requires s'.looper.Got? && s'.looper.update.Some? ==> s'.looper.id == 0
    requires forall id: Id :: Places(s', id) == Places(s, id) + if |s.wanted| < id <= |s'.wanted| then 1 else 0
    ensures NumbersPlaced(s')
  {
  }

  /** Which numbers a step hands out. */
  lemma NumbersHandedOut(s: State, a: Action)
    requires Enabled(s, a) && s.querySequence == NumberOf(|s.wanted|)
    requires s.looper.Got? && s.looper.update.Some? ==> s.looper.id == 0
    ensures var s' := Apply(s, a);
            && |s'.wanted| == |s.wanted| + (if a.TakeNumber? then 1 else 0)
            && s'.querySequence == NumberOf(|s'.wanted|)
            && (s'.looper.Got? && s'.looper.update.Some? ==> s'.looper.id == 0)
            && (a.TakeNumber? && NotWrapped(s') ==> s.querySequence == |s'.wanted|)
  {
  }

  lemma PlacesSenderStep(s: State, a: Action)
    requires NumbersPlaced(s) && Enabled(s, a) && NotWrapped(Apply(s, a)) && IsSenderStep(a)
    ensures NumbersPlaced(Apply(s, a))
  {
    var s' := Apply(s, a);
    NumbersHandedOut(s, a);
    forall id: Id ensures Places(s', id) == Places(s, id) + if |s.wanted| < id <= |s'.wanted| then 1 else 0 {
      SenderPlaces(s, a, id);
    }
    StillPlaced(s, s');
  }

  lemma PlacesLooperStep(s: State, a: Action)
    requires NumbersPlaced(s) && Enabled(s, a) && !IsSenderStep(a)
    requires s.looper.Found? ==> s.looper.addr in s.heap
    ensures NumbersPlaced(Apply(s, a))
  {
    var s' := Apply(s, a);
    NumbersHandedOut(s, a);
    if s.looper.Got? { AnswersAreNumbered(s); }
    forall id: Id ensures Places(s', id) == Places(s, id) { LooperPlaces(s, a, id); }
    StillPlaced(s, s');
  }

  lemma PlacesStep(s: State, a: Action)
    requires NumbersPlaced(s) && Enabled(s, a) && NotWrapped(Apply(s, a))
    requires s.looper.Found? ==> s.looper.addr in s.heap
    ensures NumbersPlaced(Apply(s, a))
  {
    if IsSenderStep(a) { PlacesSenderStep(s, a); } else { PlacesLooperStep(s, a); }
  }

  /** The number a looper in the middle of an answer is dealing with. */
  predicate AtLooper(l: Looper, id: Id) {
    match l
    case Got(i, update) => update.None? && i == id
    case Found(i, _) => i == id
    case Holding(i, _) => i == id
    case Invoking(i, _) => i == id
    case _ => false
  }

  /** The places are disjoint. */
  ghost predicate Disjoint(s: State) {
    && (forall c, d | c in s.senders && d in s.senders && c != d && !s.senders[c].Resting? && !s.senders[d].Resting? ::
          s.senders[c].id != s.senders[d].id)
    && (forall c | c in s.senders && !s.senders[c].Resting? ::
          var id := s.senders[c].id;
          1 <= id <= |s.wanted| && id !in s.pending && !AtLooper(s.looper, id) && id !in s.done)
    && (forall id | id in s.pending :: 1 <= id <= |s.wanted| && !AtLooper(s.looper, id) && id !in s.done)
    && (forall id | id in s.done :: 1 <= id <= |s.wanted| && !AtLooper(s.looper, id))
    && (forall id: Id | AtLooper(s.looper, id) :: 1 <= id <= |s.wanted|)
    && (s.looper.Got? ==> (s.looper.update.None? <==> s.looper.id != 0))
  }

  lemma SenderPlaced(s: State, c: Sender)
    requires NumbersPlaced(s) && c in s.senders && !s.senders[c].Resting?
    ensures var id := s.senders[c].id;
            1 <= id <= |s.wanted| && id !in s.pending && LooperIds(s.looper)[id] == 0 && id !in s.done
    ensures forall d | d in s.senders && d != c && !s.senders[d].Resting? :: s.senders[d].id != s.senders[c].id
  {
    var id := s.senders[c].id;
    BagRemove(s.senders, SenderIds, c);
    assert Bag(s.senders, SenderIds)[id] >= 1 && Places(s, id) <= 1;
    forall d | d in s.senders && d != c && !s.senders[d].Resting? ensures s.senders[d].id != id {
      BagTwo(s.senders, SenderIds, c, d);
      assert (SenderIds(s.senders[c]) + SenderIds(s.senders[d]))[id] <= Bag(s.senders, SenderIds)[id];
    }
  }

  lemma OthersPlaced(s: State, id: Id)
    requires NumbersPlaced(s) && (id in s.pending || AtLooper(s.looper, id) || id in s.done)
    ensures 1 <= id <= |s.wanted| && s.pending[id] <= 1 && multiset(s.done)[id] <= 1
    ensures id in s.pending ==> !AtLooper(s.looper, id) && id !in s.done
    ensures id in s.done ==> !AtLooper(s.looper, id)
  {
    assert AtLooper(s.looper, id) <==> LooperIds(s.looper)[id] == 1;
    assert id in s.done <==> multiset(s.done)[id] >= 1;
    assert Places(s, id) >= 1;
  }

  lemma Apart(s: State)
    requires NumbersPlaced(s)
    ensures Disjoint(s)
  {
    if s.looper.Got? { AnswersAreNumbered(s); }
    forall c | c in s.senders && !s.senders[c].Resting?
      ensures var id := s.senders[c].id;
              1 <= id <= |s.wanted| && id !in s.pending && !AtLooper(s.looper, id) && id !in s.done
      ensures forall d | d in s.senders && d != c && !s.senders[d].Resting? :: s.senders[d].id != s.senders[c].id
    {
      SenderPlaced(s, c);
    }
    forall id: Id | id in s.pending || AtLooper(s.looper, id) || id in s.done
      ensures 1 <= id <= |s.wanted|
      ensures id in s.pending ==> !AtLooper(s.looper, id) && id !in s.done
      ensures id in s.done ==> !AtLooper(s.looper, id)
    {
      OthersPlaced(s, id);
    }
  }

  // ---------- the table ----------

  /** The callback asked for with a number. */
  ghost function Wanted(s: State, id: Id): Option<Callback> {
    if 1 <= id <= |s.wanted| then s.wanted[id - 1] else None
  }

  /** Asked for with a callback that has not been put yet. */
  ghost predicate Unput(s: State, id: Id) {
    exists c :: NumberedAt(s, c, id)
  }

  ghost predicate NumberedAt(s: State, c: Sender, id: Id) {
    c in s.senders && s.senders[c].Numbered? && s.senders[c].id == id
  }

  ghost predicate Removed(s: State, id: Id) {
    id in s.done || (s.looper.Invoking? && s.looper.id == id)
  }

  /** From its put until its removal by the looper, and only then, a callback is in the table. */
  ghost predicate TableMatches(s: State) {
    && (forall id: Id :: id in s.backend <==> Wanted(s, id).Some? && !Unput(s, id) && !Removed(s, id))
    && (forall c | c in s.senders && s.senders[c].Numbered? :: s.senders[c].callback == Wanted(s, s.senders[c].id))
  }

  /** Entries are reachable under their own keys and hold what was asked for, until the looper
      moves it out. */
  ghost predicate EntriesMatch(s: State) {
    && (forall id | id in s.backend ::
          && Wanted(s, id).Some? && s.backend[id] in s.heap
          && s.heap[s.backend[id]] == Entry(id, if s.looper.Holding? && s.looper.id == id then None else Wanted(s, id)))
    && (forall p | p in s.heap :: s.heap[p].key in s.backend && s.backend[s.heap[p].key] == p)
  }

  /** The pointer the looper got stays good, and what it carries is the callback for its id. */
  ghost predicate LooperSafe(s: State) {
    match s.looper
    case Found(id, addr) => id in s.backend && s.backend[id] == addr
    case Holding(id, callback) => id in s.backend && callback == Wanted(s, id) && callback.Some?
    case Invoking(id, callback) => id !in s.backend && callback == Wanted(s, id) && callback.Some?
    case Wild => false
    case _ => true
  }

  /** What has been delivered. */
  ghost predicate Delivered(s: State) {
    && (forall k | 0 <= k < |s.invoked| ::
          s.invoked[k].callback.Some? && s.invoked[k].callback == Wanted(s, s.invoked[k].id))
    && (forall id :: multiset(InvokedIds(s.invoked))[id] == if Wanted(s, id).Some? then multiset(s.done)[id] else 0)
    && (forall k | 0 <= k < |s.handled| :: s.handled[k].Some?)
  }

  ghost function InvokedIds(xs: seq<Invocation>): seq<Id> {
    seq(|xs|, k requires 0 <= k < |xs| => xs[k].id)
  }

  ghost predicate Inv(s: State) {
    NumbersPlaced(s) && TableMatches(s) && EntriesMatch(s) && LooperSafe(s) && Delivered(s)
  }

  lemma WantedGrows(s: State, a: Action)
    requires Enabled(s, a)
    ensures forall id | 1 <= id <= |s.wanted| :: Wanted(Apply(s, a), id) == Wanted(s, id)
  {
  }

  /** What a step needs to know. */
  ghost predicate Before(s: State) {
    Disjoint(s) && TableMatches(s) && EntriesMatch(s) && LooperSafe(s)
  }

  lemma TableTakeNumber(s: State, a: Action)
    requires Before(s) && Enabled(s, a) && a.TakeNumber? && s.querySequence == |s.wanted| + 1
    ensures TableMatches(Apply(s, a))
  {
    var s', n := Apply(s, a), s.querySequence;
    WantedGrows(s, a);
    assert NumberedAt(s', a.c, n);
    forall id: Id | id != n ensures Unput(s', id) <==> Unput(s, id) {
      forall c ensures NumberedAt(s', c, id) <==> NumberedAt(s, c, id) {}
    }
  }

  lemma TableSend(s: State, a: Action)
    requires Before(s) && Enabled(s, a) && a.SendOut?
    ensures TableMatches(Apply(s, a))
  {
    var s' := Apply(s, a);
    forall c, id: Id ensures NumberedAt(s', c, id) <==> NumberedAt(s, c, id) {}
    forall id: Id ensures Unput(s', id) <==> Unput(s, id) {}
  }

  /** A sender passes its put, with or without a callback to put. */
  lemma TablePut(s: State, a: Action)
    requires Before(s) && Enabled(s, a) && (a.PutCallback? || a.NoCallback?)
    ensures TableMatches(Apply(s, a))
  {
    var s', i := Apply(s, a), s.senders[a.c].id;
    assert NumberedAt(s, a.c, i);
    forall c, id: Id ensures NumberedAt(s', c, id) <==> NumberedAt(s, c, id) && id != i {}
    forall id: Id ensures Unput(s', id) <==> Unput(s, id) && id != i {}
    forall id: Id ensures Wanted(s', id) == Wanted(s, id) {}
  }

  lemma UnputSame(s: State, s': State)
    requires s'.senders == s.senders
    ensures forall id: Id :: Unput(s', id) <==> Unput(s, id)
  {
    forall c, id: Id ensures NumberedAt(s', c, id) <==> NumberedAt(s, c, id) {}
  }

  lemma TableLookUp(s: State, a: Action)
    requires Before(s) && Enabled(s, a) && a.LookUp?
    ensures TableMatches(Apply(s, a))
  {
    var id := s.looper.id;
    UnputSame(s, Apply(s, a));
    if id != 0 && id !in s.backend {
      assert AtLooper(s.looper, id);
      forall c ensures !NumberedAt(s, c, id) {}
      assert !Unput(s, id);
    }
  }

  lemma TableRemove(s: State, a: Action)
    requires Before(s) && Enabled(s, a) && a.RemoveEntry?
    ensures TableMatches(Apply(s, a))
  {
    UnputSame(s, Apply(s, a));
  }

  lemma TableSame(s: State, s': State)
    requires TableMatches(s) && s'.backend == s.backend && s'.wanted == s.wanted && s'.senders == s.senders
    requires forall id: Id :: Removed(s', id) <==> Removed(s, id)
    ensures TableMatches(s')
  {
    UnputSame(s, s');
    forall id: Id ensures Wanted(s', id) == Wanted(s, id) {}
  }

  lemma TableLooperMoves(s: State, a: Action)
    requires Before(s) && Enabled(s, a) && (a.Receive? || a.ReceiveUpdate? || a.MoveOut? || a.Invoke?)
    ensures TableMatches(Apply(s, a))
  {
    TableSame(s, Apply(s, a));
  }

  lemma EntriesSender(s: State, a: Action)
    requires Before(s) && Enabled(s, a) && IsSenderStep(a) && !a.PutCallback?
    ensures EntriesMatch(Apply(s, a))
  {
    WantedGrows(s, a);
  }

  lemma EntriesPut(s: State, a: Action)
    requires Before(s) && Enabled(s, a) && a.PutCallback?
    ensures EntriesMatch(Apply(s, a))
  {
    assert NumberedAt(s, a.c, s.senders[a.c].id);
  }

  lemma EntriesMoveOut(s: State, a: Action)
    requires Before(s) && Enabled(s, a) && a.MoveOut?
    ensures EntriesMatch(Apply(s, a))
  {
  }

  lemma EntriesRemove(s: State, a: Action)
    requires Before(s) && Enabled(s, a) && a.RemoveEntry?
    ensures EntriesMatch(Apply(s, a))
  {
  }

  lemma EntriesSame(s: State, s': State)
    requires EntriesMatch(s) && s'.backend == s.backend && s'.heap == s.heap && s'.wanted == s.wanted
    requires !s.looper.Holding? && !s'.looper.Holding?
    ensures EntriesMatch(s')
  {
    forall id: Id ensures Wanted(s', id) == Wanted(s, id) {}
  }

  /** Only the steps that move a callback out and remove its entry touch the entries. */
  lemma LooperLeavesEntries(s: State, a: Action)
    requires Enabled(s, a) && (a.Receive? || a.ReceiveUpdate? || a.LookUp? || a.Invoke?)
    ensures var s' := Apply(s, a);
            && s'.backend == s.backend && s'.heap == s.heap && s'.wanted == s.wanted
            && !s.looper.Holding? && !s'.looper.Holding?
  {
  }

  lemma EntriesLooper(s: State, a: Action)
    requires Before(s) && Enabled(s, a) && (a.Receive? || a.ReceiveUpdate? || a.LookUp? || a.Invoke?)
    ensures EntriesMatch(Apply(s, a))
  {
    LooperLeavesEntries(s, a);
    EntriesSame(s, Apply(s, a));
  }

  lemma SafeKept(s: State, a: Action)
    requires Before(s) && Enabled(s, a)
    ensures LooperSafe(Apply(s, a))
  {
    WantedGrows(s, a);
    if a.PutCallback? { assert NumberedAt(s, a.c, s.senders[a.c].id); }
  }

  lemma DeliveredTakeNumber(s: State, a: Action)
    requires Before(s) && Delivered(s) && Enabled(s, a) && a.TakeNumber?
    ensures Delivered(Apply(s, a))
  {
    WantedGrows(s, a);
    forall id: Id | !(1 <= id <= |s.wanted|)
      ensures multiset(s.done)[id] == 0 && multiset(InvokedIds(s.invoked))[id] == 0
    {
      assert id !in s.done;
    }
  }

  lemma DeliveredLookUp(s: State, a: Action)
    requires Before(s) && Delivered(s) && Enabled(s, a) && a.LookUp? && TableMatches(Apply(s, a))
    ensures Delivered(Apply(s, a))
  {
    var s', i := Apply(s, a), s.looper.id;
    forall id: Id ensures Wanted(s', id) == Wanted(s, id) {}
    if i != 0 && i !in s.backend {
      assert AtLooper(s.looper, i);
      forall c ensures !NumberedAt(s, c, i) {}
      assert Wanted(s, i).None?;
      forall id: Id ensures multiset(s'.done)[id] == multiset(s.done)[id] + if i == id then 1 else 0 {
        DoneAppend(s.done, i, id);
      }
    }
  }

  /** One more response dispatched, and one more callback invoked if there was one. */
  lemma DeliveredFrame(s: State, s': State, i: Id, cb: Option<Callback>)
    requires Delivered(s) && s'.wanted == s.wanted && s'.handled == s.handled
    requires s'.done == s.done + [i] && s'.invoked == s.invoked + [Invocation(i, cb)]
    requires cb.Some? && cb == Wanted(s, i)
    ensures Delivered(s')
  {
    forall id: Id ensures Wanted(s', id) == Wanted(s, id) {}
    assert InvokedIds(s'.invoked) == InvokedIds(s.invoked) + [i];
    forall id: Id
      ensures multiset(InvokedIds(s'.invoked))[id] == if Wanted(s', id).Some? then multiset(s'.done)[id] else 0
    {
      DoneAppend(s.done, i, id);
      DoneAppend(InvokedIds(s.invoked), i, id);
    }
  }

  lemma DeliveredInvoke(s: State, a: Action)
    requires Before(s) && Delivered(s) && Enabled(s, a) && a.Invoke?
    ensures Delivered(Apply(s, a))
  {
    DeliveredFrame(s, Apply(s, a), s.looper.id, s.looper.callback);
  }

  lemma DeliveredSame(s: State, s': State)
    requires Delivered(s) && s'.wanted == s.wanted
    requires s'.invoked == s.invoked && s'.done == s.done && s'.handled == s.handled
    ensures Delivered(s')
  {
    forall id: Id ensures Wanted(s', id) == Wanted(s, id) {}
  }

  lemma TableStep(s: State, a: Action)
    requires Before(s) && Enabled(s, a) && (a.TakeNumber? ==> s.querySequence == |s.wanted| + 1)
    ensures TableMatches(Apply(s, a))
  {
    match a {
      case TakeNumber(_, _) => TableTakeNumber(s, a);
      case PutCallback(_, _) => TablePut(s, a);
      case NoCallback(_) => TablePut(s, a);
      case SendOut(_) => TableSend(s, a);
      case LookUp => TableLookUp(s, a);
      case RemoveEntry => TableRemove(s, a);
      case _ => TableLooperMoves(s, a);
    }
  }

  lemma EntriesStep(s: State, a: Action)
    requires Before(s) && Enabled(s, a)
    ensures EntriesMatch(Apply(s, a))
  {
    match a {
      case TakeNumber(_, _) => EntriesSender(s, a);
      case PutCallback(_, _) => EntriesPut(s, a);
      case NoCallback(_) => EntriesSender(s, a);
      case SendOut(_) => EntriesSender(s, a);
      case MoveOut => EntriesMoveOut(s, a);
      case RemoveEntry => EntriesRemove(s, a);
      case _ => EntriesLooper(s, a);
    }
  }

  lemma DeliveredStep(s: State, a: Action)
    requires Before(s) && Delivered(s) && Enabled(s, a) && TableMatches(Apply(s, a))
    ensures Delivered(Apply(s, a))
  {
    match a {
      case TakeNumber(_, _) => DeliveredTakeNumber(s, a);
      case LookUp => DeliveredLookUp(s, a);
      case Invoke => DeliveredInvoke(s, a);
      case _ => DeliveredSame(s, Apply(s, a));
    }
  }

  lemma InvStep(s: State, a: Action)
    requires Inv(s) && Enabled(s, a) && NotWrapped(Apply(s, a))
    ensures Inv(Apply(s, a))
  {
    Apart(s);
    PlacesStep(s, a);
    SafeKept(s, a);
    TableStep(s, a);
    EntriesStep(s, a);
    DeliveredStep(s, a);
  }

  // ---------- every run ----------

  lemma InvInitially(senders: set<Sender>)
    ensures Inv(Initial(senders))
  {
    var s := Initial(senders);
    BagEmpty(s.senders, SenderIds);
    forall c, id: Id ensures !NumberedAt(s, c, id) {}
  }

  lemma {:induction false} InvRun(s: State, acts: seq<Action>)
    requires Inv(s) && Runs(s, acts) && NotWrapped(After(s, acts))
    ensures Inv(After(s, acts)) && |s.wanted| <= |After(s, acts).wanted|
    decreases acts
  {
    if acts != [] {
      OnlyMore(Apply(s, acts[0]), acts[1..]);
      InvStep(s, acts[0]);
      InvRun(Apply(s, acts[0]), acts[1..]);
    }
  }

  lemma {:induction false} OnlyMore(s: State, acts: seq<Action>)
    requires Runs(s, acts)
    ensures |s.wanted| <= |After(s, acts).wanted|
    decreases acts
  {
    if acts != [] { OnlyMore(Apply(s, acts[0]), acts[1..]); }
  }

  /** The table and the entries are each other's mirror image. */
  ghost predicate Mirrored(s: State) {
    && (forall id | id in s.backend :: s.backend[id] in s.heap && s.heap[s.backend[id]].key == id)
    && (forall p | p in s.heap :: s.heap[p].key in s.backend && s.backend[s.heap[p].key] == p)
  }

  lemma MirroredStep(s: State, a: Action)
    requires Mirrored(s) && Enabled(s, a)
    ensures Mirrored(Apply(s, a))
  {
  }

  /** In every run, also when the numbers wrap around: each key leads to an entry that holds it, and
      every entry that has not been freed is reached by its key, so none leaks. */
  lemma {:induction false} TableMirrored(s: State, acts: seq<Action>)
    requires Mirrored(s) && Runs(s, acts)
    ensures Mirrored(After(s, acts))
    decreases acts
  {
    if acts != [] {
      MirroredStep(s, acts[0]);
      TableMirrored(Apply(s, acts[0]), acts[1..]);
    }
  }

  /** In every run with fewer than 2^64 requests, whatever the interleaving: each callback is
      invoked with the response to its own request only, at most once, and by the time the
      dispatch of that response is over exactly once; a request without a callback invokes
      none; no response is taken for an update; and the looper never follows a pointer to a
      freed entry. */
  lemma ExactlyOnce(senders: set<Sender>, acts: seq<Action>)
    requires Runs(Initial(senders), acts) && NotWrapped(After(Initial(senders), acts))
    ensures var s := After(Initial(senders), acts);
            && (forall k | 0 <= k < |s.invoked| ::
                  s.invoked[k].callback.Some? && s.invoked[k].callback == Wanted(s, s.invoked[k].id))
            && (forall j, k | 0 <= j < k < |s.invoked| :: s.invoked[j].id != s.invoked[k].id)
            && (forall id | id in s.done ::
                  Wanted(s, id).Some? <==> exists k :: 0 <= k < |s.invoked| && s.invoked[k].id == id)
            && (forall k | 0 <= k < |s.handled| :: s.handled[k].Some?)
            && !s.looper.Wild?
  {
    InvInitially(senders);
    InvRun(Initial(senders), acts);
    AtMostOnce(After(Initial(senders), acts));
    OnceDone(After(Initial(senders), acts));
  }

  lemma AtMostOnce(s: State)
    requires NumbersPlaced(s) && Delivered(s)
    ensures forall j, k | 0 <= j < k < |s.invoked| :: s.invoked[j].id != s.invoked[k].id
  {
    var ids := InvokedIds(s.invoked);
    forall j, k | 0 <= j < k < |s.invoked| ensures s.invoked[j].id != s.invoked[k].id {
      var id := s.invoked[j].id;
      assert Places(s, id) <= 1;
      if s.invoked[k].id == id { TwiceInSeq(ids, j, k); }
    }
  }

  lemma OnceDone(s: State)
    requires Delivered(s)
    ensures forall id | id in s.done ::
              Wanted(s, id).Some? <==> exists k :: 0 <= k < |s.invoked| && s.invoked[k].id == id
  {
    var ids := InvokedIds(s.invoked);
    forall id | id in s.done
      ensures Wanted(s, id).Some? <==> exists k :: 0 <= k < |s.invoked| && s.invoked[k].id == id
    {
      assert multiset(s.done)[id] >= 1;
      assert id in ids <==> multiset(ids)[id] >= 1;
      if id in ids {
        var k :| 0 <= k < |ids| && ids[k] == id;
        assert s.invoked[k].id == id;
      } else {
        forall k | 0 <= k < |s.invoked| ensures s.invoked[k].id != id { assert ids[k] in ids; }
      }
    }
  }

  lemma TwiceInSeq(xs: seq<Id>, j: nat, k: nat)
    requires j < k < |xs| && xs[j] == xs[k]
    ensures multiset(xs)[xs[j]] >= 2
  {
    assert xs == xs[..k] + [xs[k]] + xs[k + 1..];
    assert xs[..k][j] == xs[j];
    assert xs[j] in multiset(xs[..k]);
  }

  /** The updates of a run, in the order in which they are received. */
  ghost function Updates(acts: seq<Action>): seq<Update> {
    if acts == [] then []
    else (if acts[0].ReceiveUpdate? then [acts[0].update] else []) + Updates(acts[1..])
  }

  /** The update the looper has got and not yet handled. */
  ghost function InHand(l: Looper): seq<Option<Update>> {
    if l.Got? && l.update.Some? then [l.update] else []
  }

  ghost function Somes(us: seq<Update>): seq<Option<Update>> {
    seq(|us|, i requires 0 <= i < |us| => Some(us[i]))
  }

  ghost function NewUpdate(a: Action): seq<Option<Update>> {
    if a.ReceiveUpdate? then [Some(a.update)] else []
  }

  lemma UpdatesFirst(acts: seq<Action>)
    requires acts != []
    ensures Somes(Updates(acts)) == NewUpdate(acts[0]) + Somes(Updates(acts[1..]))
  {
  }

  /** Only receiving and looking up concern updates. */
  lemma LeavesUpdates(s: State, a: Action)
    requires Enabled(s, a) && !a.Receive? && !a.ReceiveUpdate? && !a.LookUp?
    ensures Apply(s, a).handled == s.handled && InHand(Apply(s, a).looper) == InHand(s.looper)
  {
    if !IsSenderStep(a) { assert !s.looper.Got? && !Apply(s, a).looper.Got?; }
  }

  lemma UpdateStep(s: State, a: Action)
    requires Enabled(s, a) && (s.looper.Got? ==> (s.looper.update.None? <==> s.looper.id != 0))
    ensures Apply(s, a).handled + InHand(Apply(s, a).looper) == s.handled + InHand(s.looper) + NewUpdate(a)
  {
    match a {
      case Receive(_) =>
      case ReceiveUpdate(_) =>
      case LookUp =>
      case _ => LeavesUpdates(s, a);
    }
  }

  lemma SeqGlue<T>(h: seq<T>, h': seq<T>, end: seq<T>, first: seq<T>, rest: seq<T>)
    requires h' == h + first && end == h' + rest
    ensures end == h + (first + rest)
  {
  }

  lemma {:induction false} UpdatesRun(s: State, acts: seq<Action>)
    requires Inv(s) && Runs(s, acts) && NotWrapped(After(s, acts))
    ensures After(s, acts).handled + InHand(After(s, acts).looper)
            == s.handled + InHand(s.looper) + Somes(Updates(acts))
    decreases acts
  {
    if acts != [] {
      var s', end := Apply(s, acts[0]), After(s, acts);
      OnlyMore(s', acts[1..]);
      if s.looper.Got? { AnswersAreNumbered(s); }
      UpdateStep(s, acts[0]);
      InvStep(s, acts[0]);
      UpdatesRun(s', acts[1..]);
      UpdatesFirst(acts);
      SeqGlue(s.handled + InHand(s.looper), s'.handled + InHand(s'.looper), end.handled + InHand(end.looper),
                  NewUpdate(acts[0]), Somes(Updates(acts[1..])));
    }
  }

  /** What the senders of the run ask for, in the order of their numbers. */
  ghost function Asked(acts: seq<Action>): seq<Option<Callback>> {
    if acts == [] then []
    else (if acts[0].TakeNumber? then [acts[0].callback] else []) + Asked(acts[1..])
  }

  /** The answers of the run, in the order in which they are received. */
  ghost function Answers(acts: seq<Action>): seq<Id> {
    if acts == [] then []
    else (if acts[0].Receive? then [acts[0].id] else []) + Answers(acts[1..])
  }

  /** The answer the looper is dealing with. */
  ghost function Dealing(l: Looper): seq<Id> {
    match l
    case Got(id, update) => if update.None? then [id] else []
    case Found(id, _) => [id]
    case Holding(id, _) => [id]
    case Invoking(id, _) => [id]
    case _ => []
  }

  lemma AskedStep(s: State, a: Action)
    requires Enabled(s, a)
    ensures Apply(s, a).wanted == s.wanted + if a.TakeNumber? then [a.callback] else []
  {
  }

  lemma {:induction false} AskedRun(s: State, acts: seq<Action>)
    requires Runs(s, acts)
    ensures After(s, acts).wanted == s.wanted + Asked(acts)
    decreases acts
  {
    if acts != [] {
      AskedStep(s, acts[0]);
      AskedRun(Apply(s, acts[0]), acts[1..]);
    }
  }

  lemma SenderLeavesAnswers(s: State, a: Action)
    requires Enabled(s, a) && IsSenderStep(a)
    ensures Apply(s, a).done == s.done && Apply(s, a).looper == s.looper
  {
  }

  lemma AnswerStep(s: State, a: Action)
    requires Enabled(s, a) && !Apply(s, a).looper.Wild?
    requires s.looper.Got? ==> (s.looper.update.None? <==> s.looper.id != 0)
    ensures Apply(s, a).done + Dealing(Apply(s, a).looper)
            == s.done + Dealing(s.looper) + if a.Receive? then [a.id] else []
  {
    match a {
      case LookUp =>
      case Invoke =>
      case MoveOut =>
      case RemoveEntry =>
      case Receive(_) =>
      case ReceiveUpdate(_) =>
      case _ => SenderLeavesAnswers(s, a);
    }
  }

  lemma {:induction false} AnswersRun(s: State, acts: seq<Action>)
    requires Inv(s) && Runs(s, acts) && NotWrapped(After(s, acts))
    ensures After(s, acts).done + Dealing(After(s, acts).looper) == s.done + Dealing(s.looper) + Answers(acts)
    decreases acts
  {
    if acts != [] {
      var s', end := Apply(s, acts[0]), After(s, acts);
      OnlyMore(s', acts[1..]);
      if s.looper.Got? { AnswersAreNumbered(s); }
      InvStep(s, acts[0]);
      AnswerStep(s, acts[0]);
      AnswersRun(s', acts[1..]);
      SeqGlue(s.done + Dealing(s.looper), s'.done + Dealing(s'.looper), end.done + Dealing(end.looper),
                  if acts[0].Receive? then [acts[0].id] else [], Answers(acts[1..]));
    }
  }

  /** The histories are those of the run: what was asked for is what the senders asked for, in the
      order of their numbers, and the answers dealt with are those received, in order, the one the
      looper is still dealing with last. */
  lemma HistoryIs(senders: set<Sender>, acts: seq<Action>)
    requires Runs(Initial(senders), acts) && NotWrapped(After(Initial(senders), acts))
    ensures var s := After(Initial(senders), acts);
            s.wanted == Asked(acts) && s.done + Dealing(s.looper) == Answers(acts)
  {
    InvInitially(senders);
    AskedRun(Initial(senders), acts);
    AnswersRun(Initial(senders), acts);
    assert [] + Asked(acts) == Asked(acts) && [] + Answers(acts) == Answers(acts);
  }

  /** In every run with fewer than 2^64 requests the updates received are the updates handled, each
      once and in order, followed by the one in the looper's hand if there is one. */
  lemma UpdatesHandled(senders: set<Sender>, acts: seq<Action>)
    requires Runs(Initial(senders), acts) && NotWrapped(After(Initial(senders), acts))
    ensures var s := After(Initial(senders), acts);
            Somes(Updates(acts)) == s.handled + InHand(s.looper)
  {
    InvInitially(senders);
    UpdatesRun(Initial(senders), acts);
    assert [] + Somes(Updates(acts)) == Somes(Updates(acts));
  }

  /** When all requests have been sent and answered and the looper is idle again, every callback
      asked for has been invoked, every update received has been handled, and the table is empty. */
  lemma NothingForgotten(senders: set<Sender>, acts: seq<Action>)
    requires Runs(Initial(senders), acts) && NotWrapped(After(Initial(senders), acts))
    requires var s := After(Initial(senders), acts);
             s.looper.Polling? && s.pending == multiset{} && forall c | c in s.senders :: s.senders[c].Resting?
    ensures var s := After(Initial(senders), acts);
            && s.backend == map[] && s.heap == map[]
            && s.handled == Somes(Updates(acts))
            && forall n | 0 <= n < |s.wanted| && s.wanted[n].Some? ::
                 exists k :: 0 <= k < |s.invoked| && s.invoked[k] == Invocation(n + 1, s.wanted[n])
  {
    InvInitially(senders);
    InvRun(Initial(senders), acts);
    ExactlyOnce(senders, acts);
    UpdatesHandled(senders, acts);
    var s := After(Initial(senders), acts);
    BagEmpty(s.senders, SenderIds);
    forall id: Id | 1 <= id <= |s.wanted| ensures id in s.done { assert Places(s, id) == 1; }
    forall id: Id ensures id !in s.backend {
      if 1 <= id <= |s.wanted| { assert Removed(s, id); }
    }
    assert s.backend == map[];
    assert s.heap == map[];
    forall n | 0 <= n < |s.wanted| && s.wanted[n].Some?
      ensures exists k :: 0 <= k < |s.invoked| && s.invoked[k] == Invocation(n + 1, s.wanted[n])
    {
      assert n + 1 in s.done && Wanted(s, n + 1) == s.wanted[n];
      var k :| 0 <= k < |s.invoked| && s.invoked[k].id == n + 1;
      assert s.invoked[k] == Invocation(n + 1, s.wanted[n]);
    }
  }

  /** Steps the looper has before it to the end of a dispatch. */
  function Ahead(l: Looper): nat {
    match l
    case Got(_, _) => 4
    case Found(_, _) => 3
    case Holding(_, _) => 2
    case Invoking(_, _) => 1
    case _ => 0
  }

  predicate IsDispatchStep(a: Action) { a.LookUp? || a.MoveOut? || a.RemoveEntry? || a.Invoke? }

  ghost predicate SenderCanGoOn(s: State, c: Sender) {
    exists a :: Enabled(s, a) && IsSenderStep(a) && a.c == c
  }

  lemma SenderGoesOn(s: State, c: Sender, free: Addr)
    requires c in s.senders && free !in s.heap
    ensures SenderCanGoOn(s, c)
  {
    var a := match s.senders[c]
             case Resting => TakeNumber(c, None)
             case Numbered(_, callback) => if callback.Some? then PutCallback(c, free) else NoCallback(c)
             case Ready(_) => SendOut(c);
    assert Enabled(s, a) && IsSenderStep(a);
  }

  ghost predicate LooperCanGoOn(s: State) {
    exists a :: Enabled(s, a) && IsDispatchStep(a)
  }

  lemma LooperGoesOn(s: State)
    requires !s.looper.Polling? && !s.looper.Wild?
    ensures LooperCanGoOn(s)
  {
    var a := match s.looper
             case Got(_, _) => LookUp
             case Found(_, _) => MoveOut
             case Holding(_, _) => RemoveEntry
             case _ => Invoke;
    assert Enabled(s, a) && IsDispatchStep(a);
  }

  lemma StepAhead(s: State, a: Action)
    requires Enabled(s, a)
    ensures IsDispatchStep(a) ==> Ahead(Apply(s, a).looper) < Ahead(s.looper)
    ensures IsSenderStep(a) ==> Apply(s, a).looper == s.looper
  {
  }

  /** Nobody is stuck: a sender can always go on, whatever the looper does, as long as there is memory
      for an entry; an idle looper can receive any update and any answer that is due; and a looper
      that has received something has a next step, which brings it closer to being idle. */
  lemma NobodyStuck(s: State, free: Addr)
    requires Inv(s) && free !in s.heap
    ensures forall c | c in s.senders :: SenderCanGoOn(s, c)
    ensures s.looper.Polling? ==> forall id | id in s.pending :: Enabled(s, Receive(id))
    ensures s.looper.Polling? ==> forall u: Update :: Enabled(s, ReceiveUpdate(u))
    ensures !s.looper.Polling? ==> LooperCanGoOn(s)
    ensures forall a | Enabled(s, a) && IsDispatchStep(a) :: Ahead(Apply(s, a).looper) < Ahead(s.looper)
    ensures forall a | Enabled(s, a) && IsSenderStep(a) :: Apply(s, a).looper == s.looper
  {
    forall c | c in s.senders ensures SenderCanGoOn(s, c) { SenderGoesOn(s, c, free); }
    if !s.looper.Polling? { LooperGoesOn(s); }
    forall a | Enabled(s, a)
      ensures IsDispatchStep(a) ==> Ahead(Apply(s, a).looper) < Ahead(s.looper)
      ensures IsSenderStep(a) ==> Apply(s, a).looper == s.looper
    {
      StepAhead(s, a);
    }
  }

  /** A response finds the callback its request asked for, and only then a callback. */
  lemma LookUpFinds(s: State)
    requires Inv(s) && NotWrapped(s) && s.looper.Got? && s.looper.update.None?
    ensures Apply(s, LookUp).looper.Found? <==> Wanted(s, s.looper.id).Some?
  {
    Apart(s);
    var id := s.looper.id;
    assert AtLooper(s.looper, id);
    forall c ensures !NumberedAt(s, c, id) {}
    assert !Unput(s, id);
  }

  /** Between the lookup and the move no step of any sender frees or changes the entry that the
      looper points to. */
  lemma PointerStable(s: State, a: Action)
    requires Inv(s) && s.looper.Found? && Enabled(s, a) && !a.MoveOut? && NotWrapped(Apply(s, a))
    ensures var s' := Apply(s, a);
            && IsSenderStep(a) && s'.looper == s.looper && s.looper.addr in s.heap && s.looper.addr in s'.heap
            && s'.heap[s.looper.addr] == s.heap[s.looper.addr] == Entry(s.looper.id, Wanted(s, s.looper.id))
  {
    if a.PutCallback? { assert NumberedAt(s, a.c, s.senders[a.c].id); }
  }
}
