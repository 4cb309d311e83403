/** The session manager's callback table. Each method is one atomic region of the source's code,
    on the object's own fields and the locals passed between regions; ghost fields record where
    every thread is. */
module SessionManager {
  import opened Options
  import opened Dispatch

  class SessionManager {
    var mQuerySequence: nat
    var backend: map<Id, Addr>       // mQueryCallbacks: key to entry
    var heap: map<Addr, Entry>       // the entries

    ghost var senders: map<Sender, Sending>
    ghost var pending: multiset<Id>
    ghost var looper: Looper
    ghost var wanted: seq<Option<Callback>>
    ghost var done: seq<Id>
    ghost var invoked: seq<Invocation>
    ghost var handled: seq<Option<Update>>

    ghost function View(): State
      reads this
    {
      State(mQuerySequence, backend, heap, senders, pending, looper, wanted, done, invoked, handled)
    }

    constructor (ghost threads: set<Sender>)
      ensures View() == Initial(threads)
    {
      mQuerySequence, backend, heap := 1, map[], map[];
      senders, pending, looper := map c | c in threads :: Resting, multiset{}, Polling;
      wanted, done, invoked, handled := [], [], [], [];
    }

    // ---------- sendRequestWithClientId ----------

    method NextQueryId(ghost c: Sender, ghost callback: Option<Callback>) returns (requestId: Id)
      requires Enabled(View(), TakeNumber(c, callback))
      modifies this
      ensures View() == Apply(old(View()), TakeNumber(c, callback))
      ensures senders[c] == Numbered(requestId, callback)
    {
      requestId := mQuerySequence;
      mQuerySequence := (mQuerySequence + 1) % UINT64_RANGE;
      senders, wanted := senders[c := Numbered(requestId, callback)], wanted + [callback];
    }

    /** `put` of a callback that is not empty, in a new entry at `addr`. */
    method Register(ghost c: Sender, requestId: Id, callback: Option<Callback>, addr: Addr)
      requires c in senders && senders[c] == Numbered(requestId, callback) && addr !in heap
      modifies this
      ensures View() == Apply(old(View()), if callback.Some? then PutCallback(c, addr) else NoCallback(c))
    {
      if callback.Some? {
        if requestId in backend {
          heap := heap - {backend[requestId]};
        }
        heap := heap[addr := Entry(requestId, callback)];
        backend := backend[requestId := addr];
      }
      senders := senders[c := Ready(requestId)];
    }

    ghost method ClientSend(c: Sender)
      requires Enabled(View(), SendOut(c))
      modifies this
      ensures View() == Apply(old(View()), SendOut(c))
    {
      pending, senders := pending + multiset{senders[c].id}, senders[c := Resting];
    }

    // ---------- runLooper, dispatchResponse ----------

    /** What `receive` returned: an answer to a pending request, or an update. */
    ghost method ClientReceive(requestId: Id, update: Option<Update>)
      requires Enabled(View(), if update.None? then Receive(requestId) else ReceiveUpdate(update.value))
      requires update.Some? ==> requestId == 0
      modifies this
      ensures View() == Apply(old(View()), if update.None? then Receive(requestId) else ReceiveUpdate(update.value))
      ensures looper == Got(requestId, update)
    {
      looper := Got(requestId, update);
      if update.None? {
        pending := pending - multiset{requestId};
      }
    }

    /** `get`; None is the null pointer. The dispatch of an update, or of a response without a
        callback, ends here. */
    method FindCallback(requestId: Id) returns (pCallback: Option<Addr>)
      requires looper.Got? && looper.id == requestId
      modifies this
      ensures View() == Apply(old(View()), LookUp)
      ensures pCallback.Some? <==> looper.Found?
      ensures pCallback.Some? ==> looper == Found(requestId, pCallback.value)
    {
      pCallback := None;
      if requestId != 0 {
        if requestId in backend {
          pCallback := Some(backend[requestId]);
          looper := Found(requestId, pCallback.value);
        } else {
          looper, done := Polling, done + [requestId];
        }
      } else {
        looper, handled := Polling, handled + [looper.update];
      }
    }

    /** `std::move(*pCallback)`, without the lock: the entry must not have been freed. */
    method MoveCallback(requestId: Id, pCallback: Addr) returns (callback: Option<Callback>)
      requires looper == Found(requestId, pCallback) && pCallback in heap
      modifies this
      ensures View() == Apply(old(View()), MoveOut)
      ensures looper == Holding(requestId, callback)
    {
      callback := heap[pCallback].value;
      heap := heap[pCallback := Entry(heap[pCallback].key, None)];
      looper := Holding(requestId, callback);
    }

    method Remove(requestId: Id, ghost callback: Option<Callback>)
      requires looper == Holding(requestId, callback)
      modifies this
      ensures View() == Apply(old(View()), RemoveEntry)
    {
      if requestId in backend {
        heap := heap - {backend[requestId]};
      }
      backend := backend - {requestId};
      looper := Invoking(requestId, callback);
    }

    ghost method CallbackReturns(requestId: Id, callback: Option<Callback>)
      requires looper == Invoking(requestId, callback)
      modifies this
      ensures View() == Apply(old(View()), Invoke)
    {
      invoked, done := invoked + [Invocation(requestId, callback)], done + [requestId];
      looper := Polling;
    }
  }
}
