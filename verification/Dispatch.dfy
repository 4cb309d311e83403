/** Request and response dispatch: any number of senders and one looper share the callback
    table through pointers into its entries. */
module Dispatch {
  import opened Options

  const UINT64_RANGE: nat := 0x1_0000_0000_0000_0000

  type Id = nat         // a request id, below 2^64
  type Addr = nat       // the address of a map entry
  type Callback = nat
  type Sender = nat     // a thread that may send, the looper inside a callback included
  type Update = nat     // an update, with the client it is for

  /** A map entry; a callback that has been moved out leaves None. */
  datatype Entry = Entry(key: Id, value: Option<Callback>)

  /** Where a call of sendRequestWithClientId is. */
  datatype Sending =
    | Resting
    | Numbered(id: Id, callback: Option<Callback>)   // about to put the callback, if there is one
    | Ready(id: Id)                                  // about to hand the request to the client

  /** Where the looper is. `update` is None for a response, which the code cannot see. */
  datatype Looper =
    | Polling
    | Got(id: Id, update: Option<Update>)            // about to look the id up
    | Found(id: Id, addr: Addr)                      // holds a pointer into the table, no lock
    | Holding(id: Id, callback: Option<Callback>)    // has moved the callback out
    | Invoking(id: Id, callback: Option<Callback>)   // has removed the entry
    | Wild                                           // followed a pointer to a freed entry

  datatype Invocation = Invocation(id: Id, callback: Option<Callback>)

  datatype State = State(
    querySequence: nat,
    backend: map<Id, Addr>,
    heap: map<Addr, Entry>,          // the entries that have not been freed
    senders: map<Sender, Sending>,
    pending: multiset<Id>,           // requests the client has not answered
    looper: Looper,
    // history
    wanted: seq<Option<Callback>>,   // what was asked for with each number handed out
    done: seq<Id>,                   // responses whose dispatch is over
    invoked: seq<Invocation>,
    handled: seq<Option<Update>>)    // everything taken for an update; None is a response

  datatype Action =
    | TakeNumber(c: Sender, callback: Option<Callback>)
    | PutCallback(c: Sender, addr: Addr)
    | NoCallback(c: Sender)
    | SendOut(c: Sender)
    | Receive(id: Id)
    | ReceiveUpdate(update: Update)
    | LookUp
    | MoveOut
    | RemoveEntry
    | Invoke

  function Initial(senders: set<Sender>): State {
    State(1, map[], map[], map c | c in senders :: Resting, multiset{}, Polling, [], [], [], [])
  }

  predicate Enabled(s: State, a: Action) {
    match a
    case TakeNumber(c, _) => c in s.senders && s.senders[c].Resting?
    case PutCallback(c, addr) =>
      c in s.senders && s.senders[c].Numbered? && s.senders[c].callback.Some? && addr !in s.heap
    case NoCallback(c) => c in s.senders && s.senders[c].Numbered? && s.senders[c].callback.None?
    case SendOut(c) => c in s.senders && s.senders[c].Ready?
    case Receive(id) => s.looper.Polling? && id in s.pending
    case ReceiveUpdate(_) => s.looper.Polling?
    case LookUp => s.looper.Got?
    case MoveOut => s.looper.Found?
    case RemoveEntry => s.looper.Holding?
    case Invoke => s.looper.Invoking?
  }

  /** The number the n-th request gets, counting from 0: the counter starts at 1 and wraps. */
  function NumberOf(n: nat): Id { (n + 1) % UINT64_RANGE }

  /** insert_or_assign frees the entry it replaces. */
  function WithoutEntry(s: State, id: Id): map<Addr, Entry> {
    if id in s.backend then s.heap - {s.backend[id]} else s.heap
  }

  function Apply(s: State, a: Action): State
    requires Enabled(s, a)
  {
    match a
    case TakeNumber(c, callback) =>
      s.(senders := s.senders[c := Numbered(s.querySequence, callback)],
         querySequence := (s.querySequence + 1) % UINT64_RANGE, wanted := s.wanted + [callback])
    case PutCallback(c, addr) =>
      var id := s.senders[c].id;
      s.(senders := s.senders[c := Ready(id)], backend := s.backend[id := addr],
         heap := WithoutEntry(s, id)[addr := Entry(id, s.senders[c].callback)])
    case NoCallback(c) =>
      s.(senders := s.senders[c := Ready(s.senders[c].id)])
    case SendOut(c) =>
      s.(senders := s.senders[c := Resting], pending := s.pending + multiset{s.senders[c].id})
    case Receive(id) =>
      s.(looper := Got(id, None), pending := s.pending - multiset{id})
    case ReceiveUpdate(update) =>
      s.(looper := Got(0, Some(update)))
    case LookUp =>
      var id := s.looper.id;
      if id == 0 then s.(looper := Polling, handled := s.handled + [s.looper.update])
      else if id in s.backend then s.(looper := Found(id, s.backend[id]))
      else s.(looper := Polling, done := s.done + [id])
    case MoveOut =>
      var Found(id, addr) := s.looper;
      if addr in s.heap
      then s.(looper := Holding(id, s.heap[addr].value), heap := s.heap[addr := s.heap[addr].(value := None)])
      else s.(looper := Wild)
    case RemoveEntry =>
      var Holding(id, callback) := s.looper;
      s.(looper := Invoking(id, callback), backend := s.backend - {id}, heap := WithoutEntry(s, id))
    case Invoke =>
      var Invoking(id, callback) := s.looper;
      s.(looper := Polling, invoked := s.invoked + [Invocation(id, callback)], done := s.done + [id])
  }

  /** Every step of the run is enabled where it is taken. */
  ghost predicate Runs(s: State, acts: seq<Action>)
    decreases acts
  {
    acts != [] ==> Enabled(s, acts[0]) && Runs(Apply(s, acts[0]), acts[1..])
  }

  ghost function After(s: State, acts: seq<Action>): State
    requires Runs(s, acts)
    decreases acts
  {
    if acts == [] then s else After(Apply(s, acts[0]), acts[1..])
  }
}
