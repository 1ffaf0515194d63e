/** Every run of the shared-mount protocol looks, call by call, like a run of the atomic store. */
module DriveRefinement {
  import opened Options
  import opened DriveProtocol
  import opened DriveExclusion
  import AtomicStore

  /** How far the call of a program point is, seen from the atomic store. */
  function CallAt(p: Pc): AtomicStore.Call {
    match p
    case Idle => AtomicStore.NoCall
    case Finished(op, r) => AtomicStore.Done(op, r)
    case Locked(op, _, _, Release(r)) => AtomicStore.Done(op, r)
    case Locked(op, _, _, Unlock(r)) => AtomicStore.Done(op, r)
    case _ => AtomicStore.Pending(p.op)
  }

  function Abstract(s: State): AtomicStore.Store {
    AtomicStore.Store(s.value, map n | n in s.pc :: CallAt(s.pc[n]))
  }

  function Observe(s: State, a: Action): AtomicStore.Event {
    match a
    case Invoke(n, op) => AtomicStore.Starts(n, op)
    case Return(n) =>
      if s.At(n).Finished? then AtomicStore.Returns(n, s.At(n).op, s.At(n).result) else AtomicStore.Silent
    case Crash(n) => AtomicStore.Dies(n)
    case CrashCreating(n) => AtomicStore.Dies(n)
    case _ => AtomicStore.Silent
  }

  /** No live holder has outlasted `t`. */
  ghost predicate NoOverrun(s: State, t: real) {
    forall n :: s.At(n).Locked? ==> Fresh(s, n, t)
  }

  ghost predicate CollisionFree(c: Config) {
    forall x: Bytes, y: Bytes :: c.sum(x) == c.sum(y) ==> x == y
  }

  ghost predicate Deployment(c: Config, t: real) {
    c.Valid() && OneTier(c) && OneSpelling(c) && LockFileSafe(c) && Covers(c, t) && CollisionFree(c)
  }

  /** What the holder of the lock knows about the value and the staging file, stage by stage. */
  predicate Knows(s: State, n: Node)
    requires s.At(n).Locked?
  {
    var op := s.At(n).op;
    match s.At(n).stage
    case Act => s.value.Some? && (op.Put? ==> op.skipIfSame) && !op.LockFree()
    case Check => !op.LockFree()
    case Fill => op.Put? && (op.skipIfSame ==> s.value != Some(op.data))
    case Publish => op.Put? && (op.skipIfSame ==> s.value != Some(op.data)) && s.tmp == Some(op.data)
    case Release(_) => true
    case Unlock(_) => true
  }

  predicate Waits(p: Pc) {
    && (p.AskServer? || p.Inspect? || p.Unlink? || p.Create? || p.Stamp? ==> !p.op.LockFree())
    && (p.Compare? ==> p.op.Put? && p.op.skipIfSame)
    && (p.ReadPlain? ==> p.op.LockFree())
  }

  ghost predicate HolderKnows(s: State) {
    forall n :: Waits(s.At(n)) && (s.At(n).Locked? ==> Knows(s, n))
  }

  lemma SoleHolder(c: Config, s: State, t: real, m: Node, n: Node)
    requires Deployment(c, t) && Inv(c, s, t) && NoOverrun(s, t)
    requires s.At(m).Locked? && s.At(n).Locked?
    ensures m == n
  {
    InvExcludes(c, s, t);
    assert Fresh(s, m, t) && Fresh(s, n, t);
  }

  lemma HolderKnowsOther(c: Config, s: State, t: real, a: Action, n: Node)
    requires Deployment(c, t) && Inv(c, s, t) && NoOverrun(s, t) && HolderKnows(s) && Enabled(c, s, a)
    requires a.Tick? || n != a.n
    ensures var s' := Do(c, s, a);
            Waits(s'.At(n)) && (s'.At(n).Locked? ==> Knows(s', n))
  {
    assert Waits(s.At(n)) && (s.At(n).Locked? ==> Knows(s, n));
    OthersUnmoved(c, s, a, n);
    if s.At(n).Locked? {
      if !a.Tick? && s.At(a.n).Locked? {
        SoleHolder(c, s, t, n, a.n);
      }
      OnlyHoldersWrite(c, s, a);
    }
  }

  lemma HolderKnowsWaiting(c: Config, s: State, a: Action)
    requires Enabled(c, s, a) && !a.Tick? && !s.At(a.n).Locked? && Waits(s.At(a.n))
    ensures var s' := Do(c, s, a);
            Waits(s'.At(a.n)) && (s'.At(a.n).Locked? ==> Knows(s', a.n))
  {
  }

  lemma HolderKnowsLocked(c: Config, s: State, a: Action)
    requires CollisionFree(c) && Enabled(c, s, a) && !a.Tick? && s.At(a.n).Locked? && Knows(s, a.n)
    ensures var s' := Do(c, s, a);
            Waits(s'.At(a.n)) && (s'.At(a.n).Locked? ==> Knows(s', a.n))
  {
  }

  lemma HolderKnowsStep(c: Config, s: State, t: real, a: Action)
    requires Deployment(c, t) && Inv(c, s, t) && NoOverrun(s, t) && HolderKnows(s) && Enabled(c, s, a)
    ensures HolderKnows(Do(c, s, a))
  {
    var s' := Do(c, s, a);
    forall n
      ensures Waits(s'.At(n)) && (s'.At(n).Locked? ==> Knows(s', n))
    {
      if a.Tick? || n != a.n {
        HolderKnowsOther(c, s, t, a, n);
      } else {
        assert Waits(s.At(n)) && (s.At(n).Locked? ==> Knows(s, n));
        if s.At(n).Locked? {
          HolderKnowsLocked(c, s, a);
        } else {
          HolderKnowsWaiting(c, s, a);
        }
      }
    }
  }

  lemma AbstractAt(s: State, n: Node)
    ensures Abstract(s).CallOf(n) == CallAt(s.At(n))
  {
  }

  /** What one action may do to the value and to its own node's call: nothing, the whole effect
      of the call at once, or a failure that leaves the value alone. */
  predicate CallStep(v: Option<Bytes>, p: AtomicStore.Call, w: Option<Bytes>, q: AtomicStore.Call) {
    || (q == p && w == v)
    || (p.Pending? && q.Done? && q.op == p.op && AtomicStore.Effect(p.op, v) == (w, q.result))
    || (p.Pending? && q.Done? && q.op == p.op && w == v && AtomicStore.MayFail(p.op, v, q.result))
  }

  lemma WaitingCallStep(c: Config, s: State, a: Action)
    requires CollisionFree(c) && Enabled(c, s, a) && !a.Tick? && Observe(s, a).Silent?
    requires !s.At(a.n).Locked? && Waits(s.At(a.n))
    ensures CallStep(s.value, CallAt(s.At(a.n)), Do(c, s, a).value, CallAt(Do(c, s, a).At(a.n)))
  {
    OnlyHoldersWrite(c, s, a);
  }

  lemma LockedCallStep(c: Config, s: State, a: Action)
    requires CollisionFree(c) && Enabled(c, s, a) && !a.Tick? && Observe(s, a).Silent?
    requires s.At(a.n).Locked? && Knows(s, a.n)
    ensures CallStep(s.value, CallAt(s.At(a.n)), Do(c, s, a).value, CallAt(Do(c, s, a).At(a.n)))
  {
  }

  lemma OwnCallStep(c: Config, s: State, a: Action)
    requires CollisionFree(c) && HolderKnows(s) && Enabled(c, s, a) && !a.Tick? && Observe(s, a).Silent?
    ensures CallStep(s.value, CallAt(s.At(a.n)), Do(c, s, a).value, CallAt(Do(c, s, a).At(a.n)))
  {
    assert Waits(s.At(a.n)) && (s.At(a.n).Locked? ==> Knows(s, a.n));
    if s.At(a.n).Locked? {
      LockedCallStep(c, s, a);
    } else {
      WaitingCallStep(c, s, a);
    }
  }

  /** An observable action moves its own call as the event says and leaves the value alone. */
  lemma OwnEventStep(c: Config, s: State, a: Action)
    requires Enabled(c, s, a) && !a.Tick? && !Observe(s, a).Silent?
    ensures Do(c, s, a).value == s.value
    ensures var p, q := CallAt(s.At(a.n)), CallAt(Do(c, s, a).At(a.n));
            match Observe(s, a)
            case Silent => true
            case Starts(n, op) => n == a.n && p == AtomicStore.NoCall && q == AtomicStore.Pending(op)
            case Returns(n, op, r) => n == a.n && p == AtomicStore.Done(op, r) && q == AtomicStore.NoCall
            case Dies(n) => n == a.n && q == AtomicStore.NoCall
  {
  }

  lemma OtherCalls(c: Config, s: State, a: Action)
    requires Enabled(c, s, a)
    ensures forall m :: a.Tick? || m != a.n ==> Abstract(Do(c, s, a)).CallOf(m) == Abstract(s).CallOf(m)
  {
    forall m | a.Tick? || m != a.n
      ensures Abstract(Do(c, s, a)).CallOf(m) == Abstract(s).CallOf(m)
    {
      OthersUnmoved(c, s, a, m);
      AbstractAt(s, m);
      AbstractAt(Do(c, s, a), m);
    }
  }

  lemma SilentRefines(x: AtomicStore.Store, y: AtomicStore.Store, n: Node)
    requires forall m :: m != n ==> y.CallOf(m) == x.CallOf(m)
    requires CallStep(x.value, x.CallOf(n), y.value, y.CallOf(n))
    ensures AtomicStore.Next(x, AtomicStore.Silent, y)
  {
    assert AtomicStore.Same(x, y) || AtomicStore.Applies(x, n, y) || AtomicStore.Fails(x, n, y);
  }

  /** Every action of the protocol is one step of the atomic store, with the same event. */
  lemma StepRefines(c: Config, s: State, a: Action)
    requires CollisionFree(c) && HolderKnows(s) && Enabled(c, s, a)
    ensures AtomicStore.Next(Abstract(s), Observe(s, a), Abstract(Do(c, s, a)))
  {
    var x, y := Abstract(s), Abstract(Do(c, s, a));
    OtherCalls(c, s, a);
    if a.Tick? {
      assert AtomicStore.Same(x, y);
    } else {
      AbstractAt(s, a.n);
      AbstractAt(Do(c, s, a), a.n);
      if Observe(s, a).Silent? {
        OwnCallStep(c, s, a);
        SilentRefines(x, y, a.n);
      } else {
        OwnEventStep(c, s, a);
      }
    }
  }

  // ----- whole runs

  /** A run in whose every state no live holder has outlasted `t`. */
  ghost predicate Timely(c: Config, s: State, t: real, acts: seq<Action>)
    decreases |acts|
  {
    && NoOverrun(s, t)
    && (acts == [] || (Enabled(c, s, acts[0]) && Timely(c, Do(c, s, acts[0]), t, acts[1..])))
  }

  lemma {:induction false} TimelyRuns(c: Config, s: State, t: real, acts: seq<Action>)
    requires Timely(c, s, t, acts)
    ensures Run(c, s, acts)
    decreases |acts|
  {
    if acts != [] {
      TimelyRuns(c, Do(c, s, acts[0]), t, acts[1..]);
    }
  }

  ghost function Stores(c: Config, s: State, acts: seq<Action>): (r: seq<AtomicStore.Store>)
    requires Run(c, s, acts)
    ensures |r| == |acts| + 1 && r[0] == Abstract(s)
    decreases |acts|
  {
    [Abstract(s)] + if acts == [] then [] else Stores(c, Do(c, s, acts[0]), acts[1..])
  }

  function Events(c: Config, s: State, acts: seq<Action>): (r: seq<AtomicStore.Event>)
    requires Run(c, s, acts)
    ensures |r| == |acts|
    decreases |acts|
  {
    if acts == [] then [] else [Observe(s, acts[0])] + Events(c, Do(c, s, acts[0]), acts[1..])
  }

  /** What every state of a timely run satisfies. */
  ghost predicate Good(c: Config, s: State, t: real) {
    Inv(c, s, t) && HolderKnows(s)
  }

  lemma GoodStep(c: Config, s: State, t: real, a: Action)
    requires Deployment(c, t) && Good(c, s, t) && NoOverrun(s, t) && Enabled(c, s, a)
    ensures Good(c, Do(c, s, a), t)
  {
    InvStep(c, s, t, a);
    HolderKnowsStep(c, s, t, a);
  }

  lemma {:induction false} HistoryFrom(c: Config, s: State, t: real, acts: seq<Action>)
    requires Deployment(c, t) && Good(c, s, t) && Timely(c, s, t, acts) && Run(c, s, acts)
    ensures AtomicStore.History(Stores(c, s, acts), Events(c, s, acts))
    decreases |acts|
  {
    if acts != [] {
      var a, rest := acts[0], acts[1..];
      StepRefines(c, s, a);
      GoodStep(c, s, t, a);
      HistoryFrom(c, Do(c, s, a), t, rest);
      var xs, ys := Stores(c, s, acts), Stores(c, Do(c, s, a), rest);
      var es, fs := Events(c, s, acts), Events(c, Do(c, s, a), rest);
      forall i | 0 <= i < |es|
        ensures AtomicStore.Next(xs[i], es[i], xs[i + 1])
      {
        if i > 0 {
          assert xs[i] == ys[i - 1] && es[i] == fs[i - 1] && xs[i + 1] == ys[i];
        }
      }
    }
  }

  /** Every interleaving of put, get and delete, with crashes, lost replies and stale locks, is a
      history of the atomic store with the same calls, answers and crashes. */
  lemma RunRefines(c: Config, s: State, t: real, acts: seq<Action>)
    requires Deployment(c, t) && Initial(s) && Timely(c, s, t, acts)
    ensures Run(c, s, acts)
    ensures AtomicStore.History(Stores(c, s, acts), Events(c, s, acts))
  {
    TimelyRuns(c, s, t, acts);
    HistoryFrom(c, s, t, acts);
  }

  function Point(n: Node, p: AtomicStore.Call, q: AtomicStore.Call): seq<AtomicStore.Entry> {
    if p.Pending? && q.Done? && !q.result.LockTimeout? && !q.result.NotFound?
    then [AtomicStore.Entry(n, q.op, q.result)] else []
  }

  function PointOf(c: Config, s: State, a: Action): seq<AtomicStore.Entry>
    requires Enabled(c, s, a)
  {
    if a.Tick? then [] else Point(a.n, CallAt(s.At(a.n)), CallAt(Do(c, s, a).At(a.n)))
  }

  /** The calls of a run that took effect, in the order of the instants at which they did. */
  function Log(c: Config, s: State, acts: seq<Action>): seq<AtomicStore.Entry>
    requires Run(c, s, acts)
    decreases |acts|
  {
    if acts == [] then [] else PointOf(c, s, acts[0]) + Log(c, Do(c, s, acts[0]), acts[1..])
  }

  lemma EventHasNoPoint(c: Config, s: State, a: Action)
    requires Enabled(c, s, a) && (a.Tick? || !Observe(s, a).Silent?)
    ensures PointOf(c, s, a) == [] && Do(c, s, a).value == s.value
  {
    if !a.Tick? {
      OwnEventStep(c, s, a);
    }
  }

  /** A logged action is the whole effect of its call; any other leaves the value alone. */
  lemma PointExplains(c: Config, s: State, a: Action)
    requires CollisionFree(c) && HolderKnows(s) && Enabled(c, s, a)
    ensures AtomicStore.Explains(s.value, PointOf(c, s, a), Do(c, s, a).value)
  {
    if a.Tick? || !Observe(s, a).Silent? {
      EventHasNoPoint(c, s, a);
    } else {
      OwnCallStep(c, s, a);
    }
  }

  lemma {:induction false} ExplainsBoth(u: Option<Bytes>, a: seq<AtomicStore.Entry>, v: Option<Bytes>,
                                        b: seq<AtomicStore.Entry>, w: Option<Bytes>)
    requires AtomicStore.Explains(u, a, v) && AtomicStore.Explains(v, b, w)
    ensures AtomicStore.Explains(u, a + b, w)
    decreases |a|
  {
    if a == [] {
      assert a + b == b;
    } else {
      assert (a + b)[0] == a[0] && (a + b)[1..] == a[1..] + b;
      ExplainsBoth(AtomicStore.Effect(a[0].op, u).0, a[1..], v, b, w);
    }
  }

  lemma {:induction false} LogFrom(c: Config, s: State, t: real, acts: seq<Action>)
    requires Deployment(c, t) && Good(c, s, t) && Timely(c, s, t, acts) && Run(c, s, acts)
    ensures AtomicStore.Explains(s.value, Log(c, s, acts), After(c, s, acts).value)
    decreases |acts|
  {
    if acts != [] {
      var a, rest := acts[0], acts[1..];
      var s' := Do(c, s, a);
      GoodStep(c, s, t, a);
      PointExplains(c, s, a);
      LogFrom(c, s', t, rest);
      ExplainsBoth(s.value, PointOf(c, s, a), s'.value, Log(c, s', rest), After(c, s', rest).value);
    }
  }

  /** The final value and all answers are those of the calls that took effect executed one at a
      time; calls that timed out or failed leave no trace in it. */
  lemma EffectsAreSequential(c: Config, s: State, t: real, acts: seq<Action>)
    requires Deployment(c, t) && Initial(s) && Timely(c, s, t, acts)
    ensures Run(c, s, acts)
    ensures AtomicStore.Explains(s.value, Log(c, s, acts), After(c, s, acts).value)
  {
    TimelyRuns(c, s, t, acts);
    LogFrom(c, s, t, acts);
  }

  // ----- no torn values

  /** Every value stored, answered or about to be written is one of `known`. */
  ghost predicate AllKnown(s: State, known: set<Bytes>) {
    && (s.value.Some? ==> s.value.value in known)
    && forall n :: PcKnown(s.At(n), known)
  }

  predicate AnswerKnown(call: AtomicStore.Call, known: set<Bytes>) {
    call.Done? && call.result.Value? && call.result.found.Some? ==> call.result.found.value in known
  }

  /** The data of every put invoked in a run. */
  function PutData(acts: seq<Action>): (r: set<Bytes>)
    ensures forall d :: d in r ==>
              exists i :: 0 <= i < |acts| && acts[i].Invoke? && acts[i].op.Put? && acts[i].op.data == d
  {
    set i | 0 <= i < |acts| && acts[i].Invoke? && acts[i].op.Put? :: acts[i].op.data
  }

  predicate PcKnown(p: Pc, known: set<Bytes>) {
    (!p.Idle? && p.op.Put? ==> p.op.data in known) && AnswerKnown(CallAt(p), known)
  }

  lemma OwnKnownWaiting(c: Config, s: State, a: Action, known: set<Bytes>)
    requires Enabled(c, s, a) && !a.Tick? && !s.At(a.n).Locked? && PcKnown(s.At(a.n), known)
    requires s.value.Some? ==> s.value.value in known
    requires a.Invoke? && a.op.Put? ==> a.op.data in known
    ensures PcKnown(Do(c, s, a).At(a.n), known)
  {
  }

  lemma OwnKnownLocked(c: Config, s: State, a: Action, known: set<Bytes>)
    requires Enabled(c, s, a) && !a.Tick? && s.At(a.n).Locked? && Knows(s, a.n) && PcKnown(s.At(a.n), known)
    requires s.value.Some? ==> s.value.value in known
    ensures PcKnown(Do(c, s, a).At(a.n), known)
    ensures Do(c, s, a).value.Some? ==> Do(c, s, a).value.value in known
  {
  }

  lemma AllKnownStep(c: Config, s: State, a: Action, known: set<Bytes>)
    requires HolderKnows(s) && Enabled(c, s, a) && AllKnown(s, known)
    requires a.Invoke? && a.op.Put? ==> a.op.data in known
    ensures AllKnown(Do(c, s, a), known)
  {
    var s' := Do(c, s, a);
    if !a.Tick? {
      assert PcKnown(s.At(a.n), known);
      if s.At(a.n).Locked? {
        OwnKnownLocked(c, s, a, known);
      } else {
        OwnKnownWaiting(c, s, a, known);
      }
    }
    if a.Tick? || !s.At(a.n).Locked? {
      OnlyHoldersWrite(c, s, a);
    }
    forall n
      ensures PcKnown(s'.At(n), known)
    {
      if a.Tick? || n != a.n {
        OthersUnmoved(c, s, a, n);
        assert PcKnown(s.At(n), known);
      }
    }
  }

  lemma {:induction false} AllKnownFrom(c: Config, s: State, t: real, acts: seq<Action>, known: set<Bytes>)
    requires Deployment(c, t) && Good(c, s, t) && Timely(c, s, t, acts) && Run(c, s, acts)
    requires AllKnown(s, known)
    requires forall i :: 0 <= i < |acts| && acts[i].Invoke? && acts[i].op.Put? ==> acts[i].op.data in known
    ensures AllKnown(After(c, s, acts), known)
    decreases |acts|
  {
    if acts != [] {
      GoodStep(c, s, t, acts[0]);
      AllKnownStep(c, s, acts[0], known);
      AllKnownFrom(c, Do(c, s, acts[0]), t, acts[1..], known);
    }
  }

  /** After every run, crashes in the middle of a staging write included, the stored value is
      absent, the initial one or the complete data of one put, and so is what any get, with or
      without the lock, is about to answer. */
  lemma NoTornValues(c: Config, s: State, t: real, acts: seq<Action>)
    requires Deployment(c, t) && Initial(s) && Timely(c, s, t, acts)
    ensures Run(c, s, acts)
    ensures AllKnown(After(c, s, acts), PutData(acts) + if s.value.Some? then {s.value.value} else {})
  {
    TimelyRuns(c, s, t, acts);
    AllKnownFrom(c, s, t, acts, PutData(acts) + if s.value.Some? then {s.value.value} else {});
  }

  // ----- calls that need no lock

  /** A call up to the point where it has answered, when it needs no lock. */
  function Unlocked(n: Node, op: Op, last: seq<Action>): seq<Action> {
    Begin(n, op) + last
  }

  /** While the value stands still: a put of the stored data, a get without the lock, and a get or a
      delete of nothing answer without touching any lock. */
  lemma AnswersWithoutLock(c: Config, s: State, n: Node, op: Op)
    requires n in c.ttl && op.key in c.keys && s.At(n).Idle?
    ensures op.Put? && op.skipIfSame && s.value == Some(op.data) ==>
              && Run(c, s, Unlocked(n, op, [FastCompare(n)]))
              && After(c, s, Unlocked(n, op, [FastCompare(n)])) == s.Goto(n, Finished(op, Written(false)))
    ensures op.LockFree() && s.value.Some? ==>
              && Run(c, s, Unlocked(n, op, [PlainRead(n)]))
              && After(c, s, Unlocked(n, op, [PlainRead(n)])) == s.Goto(n, Finished(op, Value(s.value)))
    ensures !op.Put? && s.value.None? ==>
              && Run(c, s, Unlocked(n, op, []))
              && After(c, s, Unlocked(n, op, []))
                 == s.Goto(n, Finished(op, if op.Get? then Value(None) else Deleted(false)))
  {
    var s1 := s.Goto(n, Probe(op));
    var s2 := Do(c, s1, TestExists(n));
    GotoTwice(s, n, Probe(op), s2.At(n));
    RunCons(c, s1, TestExists(n), []);
    RunCons(c, s, Invoke(n, op), [TestExists(n)]);
    assert Begin(n, op) + [] == Begin(n, op);
    if op.Put? && op.skipIfSame && s.value == Some(op.data) {
      GotoTwice(s, n, Compare(op), Finished(op, Written(false)));
      RunCons(c, s2, FastCompare(n), []);
      RunConcat(c, s, Begin(n, op), [FastCompare(n)] + []);
      assert [FastCompare(n)] + [] == [FastCompare(n)];
    }
    if op.LockFree() && s.value.Some? {
      GotoTwice(s, n, ReadPlain(op), Finished(op, Value(s.value)));
      RunCons(c, s2, PlainRead(n), []);
      RunConcat(c, s, Begin(n, op), [PlainRead(n)] + []);
      assert [PlainRead(n)] + [] == [PlainRead(n)];
    }
  }

  /** A call that waits for the lock may time out at any moment; the caller sees the timeout, and
      nothing but the call has changed. */
  lemma TimeoutLeavesNoTrace(c: Config, s: State, n: Node)
    requires s.At(n).AskServer? || s.At(n).Inspect?
    ensures var acts := [GiveUp(n)] + [Return(n)];
            && Run(c, s, acts) && After(c, s, acts) == s.Goto(n, Idle)
            && Observe(Do(c, s, GiveUp(n)), Return(n)) == AtomicStore.Returns(n, s.At(n).op, LockTimeout)
  {
    GotoTwice(s, n, Finished(s.At(n).op, LockTimeout), Idle);
    RunCons(c, s.Goto(n, Finished(s.At(n).op, LockTimeout)), Return(n), []);
    RunCons(c, s, GiveUp(n), [Return(n)]);
  }

  /** A request whose reply is lost keeps the lock from everybody, while its node goes on to the
      file: the next request for the same spelling is refused. */
  lemma LostReplyBlocks(c: Config, s: State, n: Node, m: Node)
    requires c.Valid() && n in c.misses && m in c.reaches && m != n && c.ttl[n] >= 0.0
    requires s.At(n).AskServer? && s.At(m).AskServer? && s.At(n).op.key == s.At(m).op.key
    requires Available(s.ServerAt(s.At(n).op.key), s.clock)
    ensures Enabled(c, s, Ask(n, ReplyLost))
    ensures var s' := Do(c, s, Ask(n, ReplyLost));
            && s'.At(n).Inspect? && Enabled(c, s', Ask(m, Answered)) && Do(c, s', Ask(m, Answered)) == s'
  {
  }

  // ----- what happens to a holder that outlasts its lock

  function Overwrite(k: Key, b: Byte): Op {
    Put(k, [b, b], false)
  }

  function WriteOut(m: Node, wait: real): seq<Action> {
    [TestLocked(m)] + ([CloseTmp(m)] + [Tick(wait)])
  }

  /** The holder fills the staging file and then sleeps. */
  lemma WriteOutRuns(c: Config, s: State, m: Node, wait: real)
    requires wait >= 0.0 && AtStage(s, m, Check) && s.At(m).op.Put? && !s.At(m).op.skipIfSame
    ensures Run(c, s, WriteOut(m, wait))
    ensures After(c, s, WriteOut(m, wait))
            == s.ToStage(m, Publish).(tmp := Some(s.At(m).op.data), clock := s.clock + wait)
  {
    var s1 := s.ToStage(m, Fill);
    GotoTwice(s, m, s1.At(m), s1.At(m).(stage := Publish));
    var s2 := s.ToStage(m, Publish).(tmp := Some(s.At(m).op.data));
    RunCons(c, s2, Tick(wait), []);
    RunCons(c, s1, CloseTmp(m), [Tick(wait)]);
    RunCons(c, s, TestLocked(m), [CloseTmp(m)] + [Tick(wait)]);
  }

  function TearAndRename(n: Node, m: Node): seq<Action> {
    [TestLocked(n)] + ([WriteSome(n, 1)] + [Rename(m)])
  }

  /** `n` starts to fill the shared staging file, which `m` then renames. */
  lemma TearAndRenameRuns(c: Config, s: State, n: Node, m: Node, b: Byte)
    requires m != n && AtStage(s, m, Publish) && s.At(m).op.Put?
    requires AtStage(s, n, Check) && s.At(n).op == Overwrite(s.At(n).op.key, b)
    ensures Run(c, s, TearAndRename(n, m)) && After(c, s, TearAndRename(n, m)).value == Some([b])
  {
    var s1 := s.ToStage(n, Fill);
    var s2 := s1.(tmp := Some([b]));
    assert [b, b][..1] == [b];
    RunCons(c, s2, Rename(m), []);
    RunCons(c, s1, WriteSome(n, 1), [Rename(m)]);
    RunCons(c, s, TestLocked(n), [WriteSome(n, 1)] + [Rename(m)]);
  }

  lemma PutDataConcat(a: seq<Action>, b: seq<Action>)
    ensures PutData(a + b) == PutData(a) + PutData(b)
  {
    forall d | d in PutData(b)
      ensures d in PutData(a + b)
    {
      var i :| 0 <= i < |b| && b[i].Invoke? && b[i].op.Put? && b[i].op.data == d;
      assert (a + b)[|a| + i] == b[i];
    }
    forall d | d in PutData(a)
      ensures d in PutData(a + b)
    {
      var i :| 0 <= i < |a| && a[i].Invoke? && a[i].op.Put? && a[i].op.data == d;
      assert (a + b)[i] == a[i];
    }
  }

  lemma AcquirePutData(c: Config, n: Node, op: Op, tier: Tier)
    requires op.Put?
    ensures PutData(Acquire(c, n, op, tier)) <= {op.data}
  {
    PutDataConcat(Begin(n, op), Take(c, n, tier));
  }

  function LateRename(c: Config, m: Node, n: Node, k: Key, wait: real, tier: Tier): seq<Action> {
    Acquire(c, m, Overwrite(k, 0), tier) + WriteOut(m, wait)
    + Acquire(c, n, Overwrite(k, 1), tier) + TearAndRename(n, m)
  }

  lemma PutDataParts(a: seq<Action>, b: seq<Action>, x: seq<Action>, y: seq<Action>)
    ensures PutData(a + b + x + y) == PutData(a) + PutData(b) + PutData(x) + PutData(y)
  {
    PutDataConcat(a, b);
    PutDataConcat(a + b, x);
    PutDataConcat(a + b + x, y);
  }

  lemma LateRenameData(c: Config, m: Node, n: Node, k: Key, wait: real, tier: Tier)
    ensures PutData(LateRename(c, m, n, k, wait, tier)) <= {[0, 0], [1, 1]}
  {
    var x, y := Overwrite(k, 0), Overwrite(k, 1);
    AcquirePutData(c, m, x, tier);
    AcquirePutData(c, n, y, tier);
    assert PutData(WriteOut(m, wait)) == {} && PutData(TearAndRename(n, m)) == {};
    PutDataParts(Acquire(c, m, x, tier), WriteOut(m, wait), Acquire(c, n, y, tier), TearAndRename(n, m));
  }

  lemma LateRenameRuns(c: Config, m: Node, n: Node, k: Key, wait: real, tier: Tier)
    requires c.Valid() && OneTier(c) && LockFileSafe(c) && k in c.keys && m != n
    requires CanUse(c, m, tier) && CanUse(c, n, tier) && wait > c.ttl[m] && wait > c.ttl[n] && wait >= 0.0
    ensures Run(c, EMPTY, LateRename(c, m, n, k, wait, tier))
    ensures After(c, EMPTY, LateRename(c, m, n, k, wait, tier)).value == Some([1])
  {
    var x, y := Overwrite(k, 0), Overwrite(k, 1);
    var a, b := Acquire(c, m, x, tier), Acquire(c, n, y, tier);
    AcquireRuns(c, EMPTY, m, x, tier);
    var s1 := Granted(c, EMPTY, m, x, tier);
    WriteOutRuns(c, s1, m, wait);
    RunConcat(c, EMPTY, a, WriteOut(m, wait));
    var s2 := After(c, s1, WriteOut(m, wait));
    AcquireRuns(c, s2, n, y, tier);
    RunConcat(c, EMPTY, a + WriteOut(m, wait), b);
    var s3 := Granted(c, s2, n, y, tier);
    TearAndRenameRuns(c, s3, n, m, 1);
    RunConcat(c, EMPTY, a + WriteOut(m, wait) + b, TearAndRename(n, m));
  }

  /** Without the time bound the store tears, in every deployment of two or more nodes: a holder
      that sleeps past its ttl renames the staging file that its successor has half written. */
  lemma TornWhenOverrun(c: Config) returns (acts: seq<Action>)
    requires c.Valid() && |c.nodes| >= 2 && OneTier(c) && LockFileSafe(c)
    ensures Run(c, EMPTY, acts) && !AllKnown(After(c, EMPTY, acts), PutData(acts))
  {
    var m :| m in c.nodes;
    var n := OtherNode(c.nodes, m);
    var k :| k in c.keys;
    var wait := (if c.ttl[m] < c.ttl[n] then c.ttl[n] else c.ttl[m]) + 1.0;
    wait := if wait < 0.0 then 0.0 else wait;
    var tier := if c.misses == {} then Redis else Fs;
    LateRenameRuns(c, m, n, k, wait, tier);
    LateRenameData(c, m, n, k, wait, tier);
    acts := LateRename(c, m, n, k, wait, tier);
  }

  // ----- nothing is left behind

  /** No crash, no lost reply, and every release is delivered. */
  predicate Smooth(a: Action) {
    match a
    case Crash(_) => false
    case CrashCreating(_) => false
    case Ask(_, link) => !link.ReplyLost?
    case ReleaseLock(_, delivered) => delivered
    case _ => true
  }

  predicate Writes(p: Pc) {
    p.Locked? && (p.stage.Fill? || p.stage.Publish?)
  }

  predicate HoldsTier(p: Pc, tier: Tier) {
    p.Locked? && p.tier == tier
  }

  predicate HoldsKey(p: Pc, k: Key) {
    HoldsTier(p, Redis) && p.op.key == k
  }

  /** The staging file exists only while a put writes it, and each lock only while it is held. */
  ghost predicate Tidy(s: State) {
    && (s.tmp.Some? ==> exists n :: Writes(s.At(n)))
    && (!s.lockFile.NoLock? ==> exists n :: HoldsTier(s.At(n), Fs))
    && (forall k: Key :: !s.ServerAt(k).Free? ==> exists n :: HoldsKey(s.At(n), k))
  }

  lemma TidyTmp(c: Config, s: State, t: real, a: Action)
    requires Deployment(c, t) && Good(c, s, t) && NoOverrun(s, t) && Enabled(c, s, a) && Smooth(a) && Tidy(s)
    requires !a.Tick? && Do(c, s, a).tmp.Some?
    ensures exists n :: Writes(Do(c, s, a).At(n))
  {
    var s', m := Do(c, s, a), a.n;
    assert s.At(m).Locked? ==> Knows(s, m);
    if !Writes(s'.At(m)) {
      var n :| Writes(s.At(n));
      if s.At(m).Locked? {
        SoleHolder(c, s, t, m, n);
      }
      OthersUnmoved(c, s, a, n);
      assert Writes(s'.At(n));
    }
  }

  lemma TidyLocks(c: Config, s: State, t: real, a: Action)
    requires Deployment(c, t) && Good(c, s, t) && NoOverrun(s, t) && Enabled(c, s, a) && Smooth(a) && Tidy(s)
    requires !a.Tick?
    ensures !Do(c, s, a).lockFile.NoLock? ==> exists n :: HoldsTier(Do(c, s, a).At(n), Fs)
  {
    var s', m := Do(c, s, a), a.n;
    assert TierAllowed(c, s.At(m), m) && (s.At(m).Locked? ==> Fresh(s, m, t) && Owns(c, s, m));
    if !s'.lockFile.NoLock? && !HoldsTier(s'.At(m), Fs) {
      var n :| HoldsTier(s.At(n), Fs);
      OthersUnmoved(c, s, a, n);
      assert HoldsTier(s'.At(n), Fs);
    }
  }

  /** A smooth action leaves an entry only where one was, or where its node now holds the lock. */
  lemma EntryKept(c: Config, s: State, a: Action, k: Key)
    requires Enabled(c, s, a) && Smooth(a) && !a.Tick? && !Do(c, s, a).ServerAt(k).Free?
    ensures HoldsKey(Do(c, s, a).At(a.n), k) || Do(c, s, a).ServerAt(k) == s.ServerAt(k)
  {
  }

  /** A node that stops holding the server's lock frees its entry. */
  lemma EntryFreed(c: Config, s: State, a: Action, k: Key)
    requires Enabled(c, s, a) && Smooth(a) && !a.Tick? && HoldsKey(s.At(a.n), k)
    requires TierAllowed(c, s.At(a.n), a.n) && Owns(c, s, a.n) && !HoldsKey(Do(c, s, a).At(a.n), k)
    ensures Do(c, s, a).ServerAt(k).Free?
  {
  }

  lemma TidyServer(c: Config, s: State, t: real, a: Action, k: Key)
    requires Deployment(c, t) && Good(c, s, t) && NoOverrun(s, t) && Enabled(c, s, a) && Smooth(a) && Tidy(s)
    requires !a.Tick? && !Do(c, s, a).ServerAt(k).Free?
    ensures exists n :: HoldsKey(Do(c, s, a).At(n), k)
  {
    var s', m := Do(c, s, a), a.n;
    assert TierAllowed(c, s.At(m), m) && (s.At(m).Locked? ==> Fresh(s, m, t) && Owns(c, s, m));
    EntryKept(c, s, a, k);
    if !HoldsKey(s'.At(m), k) {
      var n :| HoldsKey(s.At(n), k);
      if n == m {
        EntryFreed(c, s, a, k);
      } else {
        OthersUnmoved(c, s, a, n);
        assert HoldsKey(s'.At(n), k);
      }
    }
  }

  lemma TidyStep(c: Config, s: State, t: real, a: Action)
    requires Deployment(c, t) && Good(c, s, t) && NoOverrun(s, t) && Enabled(c, s, a) && Smooth(a) && Tidy(s)
    ensures Tidy(Do(c, s, a))
  {
    var s' := Do(c, s, a);
    if a.Tick? {
      assert forall n :: s'.At(n) == s.At(n);
      forall k: Key | !s'.ServerAt(k).Free?
        ensures exists n :: HoldsKey(s'.At(n), k)
      {
        assert s'.ServerAt(k) == s.ServerAt(k);
        var n :| HoldsKey(s.At(n), k);
        assert HoldsKey(s'.At(n), k);
      }
    } else {
      if s'.tmp.Some? {
        TidyTmp(c, s, t, a);
      }
      TidyLocks(c, s, t, a);
      forall k: Key | !s'.ServerAt(k).Free?
        ensures exists n :: HoldsKey(s'.At(n), k)
      {
        TidyServer(c, s, t, a, k);
      }
    }
  }

  lemma {:induction false} TidyFrom(c: Config, s: State, t: real, acts: seq<Action>)
    requires Deployment(c, t) && Good(c, s, t) && Timely(c, s, t, acts) && Run(c, s, acts) && Tidy(s)
    requires forall i :: 0 <= i < |acts| ==> Smooth(acts[i])
    ensures Tidy(After(c, s, acts))
    decreases |acts|
  {
    if acts != [] {
      GoodStep(c, s, t, acts[0]);
      TidyStep(c, s, t, acts[0]);
      TidyFrom(c, Do(c, s, acts[0]), t, acts[1..]);
    }
  }

  /** Every call cleans up, however it ends: after a run without crashes and losses that started
      clean, a state with no call in progress has no staging file and no lock of either tier. */
  lemma CallsLeaveNothingBehind(c: Config, s: State, t: real, acts: seq<Action>)
    requires Deployment(c, t) && Initial(s) && Timely(c, s, t, acts)
    requires s.tmp.None? && s.lockFile.NoLock? && forall k: Key :: s.ServerAt(k).Free?
    requires forall i :: 0 <= i < |acts| ==> Smooth(acts[i])
    ensures Run(c, s, acts)
    ensures var s' := After(c, s, acts);
            (forall n :: s'.At(n).Idle?) ==>
              s'.tmp.None? && s'.lockFile.NoLock? && forall k: Key :: s'.ServerAt(k).Free?
  {
    TimelyRuns(c, s, t, acts);
    TidyFrom(c, s, t, acts);
  }
}
