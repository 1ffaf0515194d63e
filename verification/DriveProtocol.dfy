/** The blob store of one file on the shared mount, as a step relation.

    Every node runs at most one call (`put`, `get` or `delete`) on the file at a time, and names it
    by some key; several spellings of a key may name the same file. One action below is one
    instant at which a node touches the shared state: the value file, the staging file next to it,
    the `.xiolock` file and the server's lock entries, which are per spelling. A run is any sequence of
    enabled actions, so it interleaves the nodes, the clock and crashes in every possible way.
    Deadlines are not tracked: a waiting node may give up, or go on waiting, at any moment. */
module DriveProtocol {
  import opened Options

  type Node = string
  type Key = string   // a key as the caller spells it

  datatype Op =
    | Put(key: Key, data: Bytes, skipIfSame: bool)
    | Get(key: Key, lock: bool)
    | Delete(key: Key)
  {
    predicate LockFree() {
      Get? && !lock
    }
  }

  datatype Result =
    | Written(written: bool)
    | Value(found: Option<Bytes>)
    | Deleted(deleted: bool)
    | LockTimeout   // XIOLockTimeout
    | NotFound      // FileNotFoundError out of a read, an unlink or a rename

  datatype Tier = Redis | Fs

  /** The `.xiolock` file. `Garbled` is a file whose contents are not JSON; `Opened` is the empty
      file that a node has created and still has to write its record into. */
  datatype LockFile = NoLock | Garbled | Opened(node: Node) | Record(node: Node, acquiredAt: real) {
    predicate Unreadable() {
      Garbled? || Opened?
    }
  }

  /** The server's entry: set if absent, expiring after the ttl of the node that set it. */
  datatype ServerLock = Free | Entry(node: Node, acquiredAt: real, ttl: real)

  /** What a node's request to the lock server met. */
  datatype Link = Answered | Unreachable | ReplyLost

  /** Where a call stands while it holds the lock. */
  datatype Stage =
    | Check                     // about to test whether the value exists
    | Act                       // about to read (put, get) or unlink (delete) it
    | Fill                      // writing the staging file
    | Publish                   // about to rename the staging file
    | Release(result: Result)   // about to release the lock
    | Unlock(result: Result)    // has read its own .xiolock, about to unlink it

  datatype Pc =
    | Idle
    | Probe(op: Op)             // about to test, without the lock, whether the value exists
    | Compare(op: Op)           // put: about to read for the lock-free comparison
    | ReadPlain(op: Op)         // get without a lock: about to read
    | AskServer(op: Op)
    | Inspect(op: Op)           // about to look for a stale .xiolock
    | Unlink(op: Op)            // has seen a stale .xiolock, about to unlink it
    | Create(op: Op)            // about to create the .xiolock exclusively
    | Stamp(op: Op)             // has created it, about to write its record into it
    | Locked(op: Op, tier: Tier, at: real, stage: Stage)
    | Finished(op: Op, result: Result)

  /** `ttl` is each node's own lock_ttl; `reaches` and `misses` list the nodes whose requests to
      the lock server may get through, and may fail; `keys` are the spellings in use for the file;
      `sum` is the checksum. `atomicUnlink` says that reading the .xiolock and unlinking it, and
      `atomicCreate` that creating it and writing the record into it, happen with nothing in
      between; the code takes several system calls for each. */
  datatype Config = Config(nodes: set<Node>, ttl: map<Node, real>, reaches: set<Node>, misses: set<Node>,
                           keys: set<Key>, sum: Bytes -> string, atomicUnlink: bool, atomicCreate: bool)
  {
    ghost predicate Valid() {
      && nodes == ttl.Keys
      && reaches + misses == nodes
      && keys != {}
    }
  }

  datatype State = State(clock: real, lockFile: LockFile, server: map<Key, ServerLock>,
                         value: Option<Bytes>, tmp: Option<Bytes>, pc: map<Node, Pc>)
  {
    function At(n: Node): Pc {
      if n in pc then pc[n] else Idle
    }

    function ServerAt(k: Key): ServerLock {
      if k in server then server[k] else Free
    }

    function Goto(n: Node, p: Pc): State {
      this.(pc := pc[n := p])
    }

    function ToStage(n: Node, g: Stage): State
      requires At(n).Locked?
    {
      Goto(n, At(n).(stage := g))
    }
  }

  datatype Action =
    | Tick(dt: real)
    | Invoke(n: Node, op: Op)
    | TestExists(n: Node)
    | FastCompare(n: Node)
    | PlainRead(n: Node)
    | Ask(n: Node, link: Link)
    | GiveUp(n: Node)
    | BreakStale(n: Node)
    | UnlinkStale(n: Node)
    | CreateLock(n: Node)
    | StampLock(n: Node)
    | TestLocked(n: Node)
    | ActLocked(n: Node)
    | WriteSome(n: Node, k: nat)
    | CloseTmp(n: Node)
    | Rename(n: Node)
    | ReleaseLock(n: Node, delivered: bool)
    | UnlinkOwn(n: Node)
    | Return(n: Node)
    | Crash(n: Node)
    | CrashCreating(n: Node)

  predicate AtStage(s: State, n: Node, g: Stage) {
    s.At(n).Locked? && s.At(n).stage == g
  }

  predicate Enabled(c: Config, s: State, a: Action) {
    match a
    case Tick(dt) => dt >= 0.0
    case Invoke(n, op) => n in c.ttl && op.key in c.keys && s.At(n).Idle?
    case TestExists(n) => s.At(n).Probe?
    case FastCompare(n) => s.At(n).Compare? && s.At(n).op.Put?
    case PlainRead(n) => s.At(n).ReadPlain?
    case Ask(n, link) =>
      && s.At(n).AskServer?
      && n in c.ttl
      && (if link.Answered? then n in c.reaches else n in c.misses)
    case GiveUp(n) => s.At(n).AskServer? || s.At(n).Inspect?
    case BreakStale(n) => s.At(n).Inspect? && n in c.ttl
    case UnlinkStale(n) => s.At(n).Unlink?
    case CreateLock(n) => s.At(n).Create?
    case StampLock(n) => s.At(n).Stamp?
    case TestLocked(n) => AtStage(s, n, Check)
    case ActLocked(n) => AtStage(s, n, Act)
    case WriteSome(n, k) => AtStage(s, n, Fill) && s.At(n).op.Put? && k <= |s.At(n).op.data|
    case CloseTmp(n) => AtStage(s, n, Fill) && s.At(n).op.Put?
    case Rename(n) => AtStage(s, n, Publish) && s.At(n).op.Put?
    case ReleaseLock(n, _) => s.At(n).Locked? && s.At(n).stage.Release?
    case UnlinkOwn(n) => s.At(n).Locked? && s.At(n).stage.Unlock?
    case Return(n) => s.At(n).Finished?
    case Crash(n) => !s.At(n).Idle?
    case CrashCreating(n) => s.At(n).Create? && s.lockFile.NoLock?
  }

  function Do(c: Config, s: State, a: Action): State
    requires Enabled(c, s, a)
  {
    match a
    case Tick(dt) => s.(clock := s.clock + dt)
    case Invoke(n, op) => s.Goto(n, Probe(op))
    case TestExists(n) => s.Goto(n, AfterProbe(s.At(n).op, s.value))
    case FastCompare(n) => s.Goto(n, AfterCompare(c, s.At(n).op, s.value))
    case PlainRead(n) =>
      s.Goto(n, Finished(s.At(n).op, if s.value.Some? then Value(s.value) else NotFound))
    case Ask(n, link) => DoAsk(c, s, n, link)
    case GiveUp(n) => s.Goto(n, Finished(s.At(n).op, LockTimeout))
    case BreakStale(n) =>
      if c.atomicUnlink || !Stale(s.lockFile, s.clock, c.ttl[n])
      then s.Goto(n, Create(s.At(n).op)).(lockFile := Inspected(s.lockFile, s.clock, c.ttl[n]))
      else s.Goto(n, Unlink(s.At(n).op))
    case UnlinkStale(n) => s.Goto(n, Create(s.At(n).op)).(lockFile := NoLock)
    case CreateLock(n) =>
      if !s.lockFile.NoLock? then s.Goto(n, Inspect(s.At(n).op))
      else if c.atomicCreate then s.Goto(n, Locked(s.At(n).op, Fs, s.clock, Check)).(lockFile := Record(n, s.clock))
      else s.Goto(n, Stamp(s.At(n).op)).(lockFile := Opened(n))
    case StampLock(n) =>
      s.Goto(n, Locked(s.At(n).op, Fs, s.clock, Check)).(lockFile := Stamped(s.lockFile, n, s.clock))
    case TestLocked(n) => s.ToStage(n, AfterCheck(s.At(n).op, s.value))
    case ActLocked(n) => DoAct(c, s, n)
    case WriteSome(n, k) => s.(tmp := Some(s.At(n).op.data[..k]))
    case CloseTmp(n) => s.ToStage(n, Publish).(tmp := Some(s.At(n).op.data))
    case Rename(n) =>
      if s.tmp.Some?
      then s.ToStage(n, Release(Written(true))).(value := s.tmp, tmp := None)
      else s.ToStage(n, Release(NotFound))
    case ReleaseLock(n, delivered) => DoRelease(c, s, n, delivered)
    case UnlinkOwn(n) => s.Goto(n, Finished(s.At(n).op, s.At(n).stage.result)).(lockFile := NoLock)
    case Return(n) => s.Goto(n, Idle)
    case Crash(n) => s.Goto(n, Idle)
    case CrashCreating(n) => s.Goto(n, Idle).(lockFile := Garbled)
  }

  /** put, get and delete each start with an `exists` test that takes no lock. */
  function AfterProbe(op: Op, value: Option<Bytes>): Pc {
    match op
    case Put(_, _, skip) => if skip && value.Some? then Compare(op) else AskServer(op)
    case Get(_, lock) =>
      if value.None? then Finished(op, Value(None)) else if lock then AskServer(op) else ReadPlain(op)
    case Delete(_) => if value.None? then Finished(op, Deleted(false)) else AskServer(op)
  }

  /** A value that vanished since the test raises OSError, which put ignores. */
  function AfterCompare(c: Config, op: Op, value: Option<Bytes>): Pc
    requires op.Put?
  {
    if value.Some? && c.sum(value.value) == c.sum(op.data) then Finished(op, Written(false)) else AskServer(op)
  }

  /** An entry that has expired counts for nothing. */
  predicate Available(e: ServerLock, clock: real) {
    e.Free? || clock - e.acquiredAt > e.ttl
  }

  /** One request to the server. A lost reply may leave an entry behind that its node ignores. */
  function DoAsk(c: Config, s: State, n: Node, link: Link): State
    requires s.At(n).AskServer? && n in c.ttl
  {
    var op := s.At(n).op;
    var free := Available(s.ServerAt(op.key), s.clock);
    var server := if free && !link.Unreachable? then s.server[op.key := Entry(n, s.clock, c.ttl[n])] else s.server;
    if link.Answered? then
      if free then s.Goto(n, Locked(op, Redis, s.clock, Check)).(server := server) else s
    else
      s.Goto(n, Inspect(op)).(server := server)
  }

  /** The inspecting node judges staleness by its own ttl. */
  predicate Stale(l: LockFile, clock: real, ttl: real) {
    l.Unreadable() || (l.Record? && clock - l.acquiredAt > ttl)
  }

  /** The record reaches the file that was created, which may have been unlinked meanwhile. */
  function Stamped(l: LockFile, n: Node, clock: real): LockFile {
    if l == Opened(n) then Record(n, clock) else l
  }

  function Inspected(l: LockFile, clock: real, ttl: real): LockFile {
    if Stale(l, clock, ttl) then NoLock else l
  }

  function AfterCheck(op: Op, value: Option<Bytes>): Stage {
    match op
    case Put(_, _, skip) => if skip && value.Some? then Act else Fill
    case Get(_, _) => if value.Some? then Act else Release(Value(None))
    case Delete(_) => if value.Some? then Act else Release(Deleted(false))
  }

  function DoAct(c: Config, s: State, n: Node): State
    requires s.At(n).Locked?
  {
    match s.At(n).op
    case Put(_, data, _) =>
      s.ToStage(n, if s.value.Some? && c.sum(s.value.value) == c.sum(data) then Release(Written(false)) else Fill)
    case Get(_, _) => s.ToStage(n, Release(if s.value.Some? then Value(s.value) else NotFound))
    case Delete(_) =>
      if s.value.Some? then s.ToStage(n, Release(Deleted(true))).(value := None) else s.ToStage(n, Release(NotFound))
  }

  /** Both tiers release by owner only; the file tier also removes an unreadable file. A release is
      best effort: when it is not delivered, the lock stays until it goes stale. */
  function DoRelease(c: Config, s: State, n: Node, delivered: bool): State
    requires s.At(n).Locked? && s.At(n).stage.Release?
  {
    var s' := s.Goto(n, Finished(s.At(n).op, s.At(n).stage.result));
    if !delivered then s'
    else if s.At(n).tier.Fs? then
      if s.lockFile.Unreadable() || (s.lockFile.Record? && s.lockFile.node == n)
      then if c.atomicUnlink then s'.(lockFile := NoLock) else s.ToStage(n, Unlock(s.At(n).stage.result))
      else s'
    else
      var k := s.At(n).op.key;
      if s.ServerAt(k).Entry? && s.ServerAt(k).node == n then s'.(server := s.server[k := Free]) else s'
  }

  // ----- what an action leaves alone

  /** Only waiting changes the clock. */
  lemma ClockKept(c: Config, s: State, a: Action)
    requires Enabled(c, s, a) && !a.Tick?
    ensures Do(c, s, a).clock == s.clock
  {
  }

  lemma WaiterMovesItself(c: Config, s: State, a: Action, n: Node)
    requires Enabled(c, s, a) && !a.Tick? && !s.At(a.n).Locked? && n != a.n
    ensures Do(c, s, a).At(n) == s.At(n)
  {
  }

  lemma HolderMovesItself(c: Config, s: State, a: Action, n: Node)
    requires Enabled(c, s, a) && !a.Tick? && s.At(a.n).Locked? && n != a.n
    ensures Do(c, s, a).At(n) == s.At(n)
  {
  }

  /** An action moves only its own node. */
  lemma OthersUnmoved(c: Config, s: State, a: Action, n: Node)
    requires Enabled(c, s, a) && (a.Tick? || n != a.n)
    ensures Do(c, s, a).At(n) == s.At(n)
  {
    if !a.Tick? {
      if s.At(a.n).Locked? {
        HolderMovesItself(c, s, a, n);
      } else {
        WaiterMovesItself(c, s, a, n);
      }
    }
  }

  /** Only the holder of a lock touches the value and the staging file. */
  lemma OnlyHoldersWrite(c: Config, s: State, a: Action)
    requires Enabled(c, s, a) && (a.Tick? || !s.At(a.n).Locked?)
    ensures Do(c, s, a).value == s.value && Do(c, s, a).tmp == s.tmp
  {
  }

  // ----- runs

  /** No call is in progress; the files and the server may hold anything a past run left. */
  predicate Initial(s: State) {
    s.pc == map[]
  }

  predicate Run(c: Config, s: State, acts: seq<Action>)
    decreases |acts|
  {
    acts == [] || (Enabled(c, s, acts[0]) && Run(c, Do(c, s, acts[0]), acts[1..]))
  }

  function After(c: Config, s: State, acts: seq<Action>): State
    requires Run(c, s, acts)
    decreases |acts|
  {
    if acts == [] then s else After(c, Do(c, s, acts[0]), acts[1..])
  }

  lemma RunCons(c: Config, s: State, a: Action, rest: seq<Action>)
    requires Enabled(c, s, a) && Run(c, Do(c, s, a), rest)
    ensures Run(c, s, [a] + rest) && After(c, s, [a] + rest) == After(c, Do(c, s, a), rest)
  {
    assert ([a] + rest)[1..] == rest;
  }

  lemma {:induction false} RunConcat(c: Config, s: State, a: seq<Action>, b: seq<Action>)
    requires Run(c, s, a) && Run(c, After(c, s, a), b)
    ensures Run(c, s, a + b) && After(c, s, a + b) == After(c, After(c, s, a), b)
    decreases |a|
  {
    if a == [] {
      assert a + b == b;
    } else {
      assert (a + b)[0] == a[0] && (a + b)[1..] == a[1..] + b;
      RunConcat(c, Do(c, s, a[0]), a[1..], b);
    }
  }

  lemma {:induction false} RunPrefix(c: Config, s: State, a: seq<Action>, i: nat)
    requires Run(c, s, a) && i <= |a|
    ensures Run(c, s, a[..i])
    decreases i
  {
    if i > 0 {
      RunPrefix(c, Do(c, s, a[0]), a[1..], i - 1);
      assert a[..i][0] == a[0] && a[..i][1..] == a[1..][..i - 1];
    }
  }
}
