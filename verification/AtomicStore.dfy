/** What the store of one key is meant to be: a value on which each call takes effect at one
    instant. */
module AtomicStore {
  import opened Options
  import opened DriveProtocol

  datatype Call =
    | NoCall
    | Pending(op: Op)                // invoked, no effect yet
    | Done(op: Op, result: Result)   // took effect, not returned yet

  datatype Store = Store(value: Option<Bytes>, calls: map<Node, Call>) {
    function CallOf(n: Node): Call {
      if n in calls then calls[n] else NoCall
    }
  }

  /** What an observer sees of a step: calls starting, returning and being cut off by a crash. */
  datatype Event =
    | Silent
    | Starts(n: Node, op: Op)
    | Returns(n: Node, op: Op, result: Result)
    | Dies(n: Node)

  /** The effect of a whole call on the value, and its answer. */
  function Effect(op: Op, v: Option<Bytes>): (Option<Bytes>, Result) {
    match op
    case Put(_, data, skip) => if skip && v == Some(data) then (v, Written(false)) else (Some(data), Written(true))
    case Get(_, _) => (v, Value(v))
    case Delete(_) => (None, Deleted(v.Some?))
  }

  /** The exceptions a call may raise on value `v`: the lock's timeout, and for a get without the
      lock the loss of the file between its test and its read. */
  predicate MayFail(op: Op, v: Option<Bytes>, r: Result) {
    if op.LockFree() then r == NotFound && v.None? else r == LockTimeout
  }

  /** One step of the atomic store under a given event; a silent step changes nothing, applies
      one pending call, or fails one pending call and leaves the value alone. */
  ghost predicate Next(x: Store, e: Event, y: Store) {
    match e
    case Starts(n, op) => x.CallOf(n) == NoCall && Moves(x, n, Pending(op), y) && y.value == x.value
    case Returns(n, op, r) => x.CallOf(n) == Done(op, r) && Moves(x, n, NoCall, y) && y.value == x.value
    case Dies(n) => Moves(x, n, NoCall, y) && y.value == x.value
    case Silent =>
      || Same(x, y)
      || (exists n :: Applies(x, n, y))
      || (exists n :: Fails(x, n, y))
  }

  ghost predicate Same(x: Store, y: Store) {
    y.value == x.value && forall m :: y.CallOf(m) == x.CallOf(m)
  }

  ghost predicate Moves(x: Store, n: Node, call: Call, y: Store) {
    y.CallOf(n) == call && forall m :: m != n ==> y.CallOf(m) == x.CallOf(m)
  }

  ghost predicate Applies(x: Store, n: Node, y: Store) {
    && x.CallOf(n).Pending?
    && var (v, r) := Effect(x.CallOf(n).op, x.value);
       y.value == v && Moves(x, n, Done(x.CallOf(n).op, r), y)
  }

  ghost predicate Fails(x: Store, n: Node, y: Store) {
    && x.CallOf(n).Pending?
    && y.value == x.value
    && y.CallOf(n).Done?
    && MayFail(x.CallOf(n).op, x.value, y.CallOf(n).result)
    && Moves(x, n, Done(x.CallOf(n).op, y.CallOf(n).result), y)
  }

  /** A run of the atomic store: the states passed through and the events seen in between. */
  ghost predicate History(stores: seq<Store>, events: seq<Event>) {
    && |stores| == |events| + 1
    && forall i :: 0 <= i < |events| ==> Next(stores[i], events[i], stores[i + 1])
  }

  datatype Entry = Entry(n: Node, op: Op, result: Result)

  /** Executing the logged calls one after the other, alone, starting from `v`, gives every
      logged answer and ends in `w`. */
  predicate Explains(v: Option<Bytes>, log: seq<Entry>, w: Option<Bytes>)
    decreases |log|
  {
    if log == [] then v == w
    else Effect(log[0].op, v).1 == log[0].result && Explains(Effect(log[0].op, v).0, log[1..], w)
  }
}
