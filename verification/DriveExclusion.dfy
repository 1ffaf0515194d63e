/** Mutual exclusion of the two-tier lock: what holds in every reachable state, and exactly for
    which deployments. */
module DriveExclusion {
  import opened Options
  import opened DriveProtocol

  /** Node `n` holds the lock and took it at most `t` seconds ago. */
  predicate Fresh(s: State, n: Node, t: real) {
    s.At(n).Locked? && s.clock - s.At(n).at <= t
  }

  ghost predicate OneFreshHolder(s: State, t: real) {
    forall m, n :: Fresh(s, m, t) && Fresh(s, n, t) ==> m == n
  }

  /** The nodes agree on a tier: either no request ever fails, or none ever gets through. */
  predicate OneTier(c: Config) {
    c.misses == {} || c.reaches == {}
  }

  /** Neither read-then-unlink nor create-then-write of the .xiolock is interleaved, if the file
      tier is in use at all. */
  predicate LockFileSafe(c: Config) {
    c.misses == {} || (c.atomicUnlink && c.atomicCreate)
  }

  /** The file has one spelling, if the server is in use at all. */
  predicate OneSpelling(c: Config) {
    c.reaches == {} || forall k, l :: k in c.keys && l in c.keys ==> k == l
  }

  ghost predicate Covers(c: Config, t: real)
    requires c.Valid()
  {
    forall n :: n in c.nodes ==> t <= c.ttl[n]
  }

  /** The tier that node `n` was told it holds really is recorded as its own. */
  predicate Owns(c: Config, s: State, n: Node)
    requires s.At(n).Locked?
  {
    if s.At(n).tier.Fs? then s.lockFile == Record(n, s.At(n).at)
    else n in c.ttl && s.ServerAt(s.At(n).op.key) == Entry(n, s.At(n).at, c.ttl[n])
  }

  predicate TierAllowed(c: Config, p: Pc, n: Node) {
    && (!p.Idle? ==> n in c.nodes && p.op.key in c.keys)
    && (p.Inspect? || p.Create? ==> n in c.misses)
    && !p.Unlink? && !p.Stamp?
    && (p.Locked? ==> n in (if p.tier.Fs? then c.misses else c.reaches) && !p.stage.Unlock?)
  }

  ghost predicate TiersAllowed(c: Config, s: State) {
    forall n :: TierAllowed(c, s.At(n), n)
  }

  ghost predicate FreshOwn(c: Config, s: State, t: real) {
    forall n :: Fresh(s, n, t) ==> Owns(c, s, n)
  }

  ghost predicate Inv(c: Config, s: State, t: real) {
    TiersAllowed(c, s) && FreshOwn(c, s, t)
  }

  lemma TiersStep(c: Config, s: State, a: Action, n: Node)
    requires c.Valid() && LockFileSafe(c) && TiersAllowed(c, s) && Enabled(c, s, a)
    ensures TierAllowed(c, Do(c, s, a).At(n), n)
  {
    assert TierAllowed(c, s.At(n), n);
    if a.Tick? || n != a.n {
      OthersUnmoved(c, s, a, n);
    }
  }

  /** The lock of a fresh holder survives every action of other nodes. */
  lemma OthersSpareLock(c: Config, s: State, t: real, a: Action, n: Node)
    requires c.Valid() && LockFileSafe(c) && Covers(c, t) && Inv(c, s, t) && Enabled(c, s, a)
    requires Fresh(s, n, t) && (a.Tick? || n != a.n)
    ensures Do(c, s, a).At(n) == s.At(n) && Owns(c, Do(c, s, a), n)
  {
    OthersUnmoved(c, s, a, n);
    assert Owns(c, s, n) && TierAllowed(c, s.At(n), n);
    if !a.Tick? {
      assert TierAllowed(c, s.At(a.n), a.n);
    }
  }

  /** A node that takes the lock or keeps it across its own action owns it. */
  lemma OwnLockStep(c: Config, s: State, a: Action)
    requires c.Valid() && Enabled(c, s, a) && !a.Tick? && TierAllowed(c, s.At(a.n), a.n)
    requires s.At(a.n).Locked? ==> Owns(c, s, a.n)
    requires Do(c, s, a).At(a.n).Locked?
    ensures Owns(c, Do(c, s, a), a.n)
  {
  }

  /** The lock of a fresh holder survives every action. */
  lemma FreshOwnStep(c: Config, s: State, t: real, a: Action, n: Node)
    requires c.Valid() && LockFileSafe(c) && Covers(c, t) && Inv(c, s, t) && Enabled(c, s, a)
    requires Fresh(Do(c, s, a), n, t)
    ensures Owns(c, Do(c, s, a), n)
  {
    if a.Tick? || n != a.n {
      OthersUnmoved(c, s, a, n);
      assert Fresh(s, n, t);
      OthersSpareLock(c, s, t, a, n);
    } else {
      ClockKept(c, s, a);
      if s.At(n).Locked? {
        AtKept(c, s, a);
        assert Fresh(s, n, t) && Owns(c, s, n);
      }
      assert TierAllowed(c, s.At(n), n);
      OwnLockStep(c, s, a);
    }
  }

  /** The acquire time of a lock does not change while it is held. */
  lemma AtKept(c: Config, s: State, a: Action)
    requires Enabled(c, s, a) && !a.Tick? && s.At(a.n).Locked? && Do(c, s, a).At(a.n).Locked?
    ensures Do(c, s, a).At(a.n).at == s.At(a.n).at
  {
  }

  lemma InvStep(c: Config, s: State, t: real, a: Action)
    requires c.Valid() && LockFileSafe(c) && Covers(c, t) && Inv(c, s, t) && Enabled(c, s, a)
    ensures Inv(c, Do(c, s, a), t)
  {
    var s' := Do(c, s, a);
    forall n
      ensures TierAllowed(c, s'.At(n), n)
    {
      TiersStep(c, s, a, n);
    }
    forall n | Fresh(s', n, t)
      ensures Owns(c, s', n)
    {
      FreshOwnStep(c, s, t, a, n);
    }
  }

  lemma {:induction false} InvRun(c: Config, s: State, t: real, acts: seq<Action>)
    requires c.Valid() && LockFileSafe(c) && Covers(c, t) && Inv(c, s, t) && Run(c, s, acts)
    ensures Inv(c, After(c, s, acts), t)
    decreases |acts|
  {
    if acts != [] {
      InvStep(c, s, t, acts[0]);
      InvRun(c, Do(c, s, acts[0]), t, acts[1..]);
    }
  }

  lemma InvExcludes(c: Config, s: State, t: real)
    requires c.Valid() && OneTier(c) && OneSpelling(c) && Inv(c, s, t)
    ensures OneFreshHolder(s, t)
  {
    forall m, n | Fresh(s, m, t) && Fresh(s, n, t)
      ensures m == n
    {
      assert Owns(c, s, m) && Owns(c, s, n);
      assert TierAllowed(c, s.At(m), m) && TierAllowed(c, s.At(n), n);
      assert s.At(m).tier == s.At(n).tier;
    }
  }

  /** Whatever the tiers, a node within the shortest ttl of its acquire time still has its own
      lock in place after every run, so no late release or stale-lock break of another node
      ever removed it. */
  lemma FreshHolderKeepsItsLock(c: Config, s: State, t: real, acts: seq<Action>, n: Node)
    requires c.Valid() && LockFileSafe(c) && Covers(c, t) && Initial(s) && Run(c, s, acts)
    requires Fresh(After(c, s, acts), n, t)
    ensures Owns(c, After(c, s, acts), n)
  {
    InvRun(c, s, t, acts);
  }

  /** A release, however late, leaves every other node's lock as it was. */
  lemma LateReleaseSparesSuccessor(c: Config, s: State, t: real, acts: seq<Action>, late: Node, delivered: bool,
                                   n: Node)
    requires c.Valid() && LockFileSafe(c) && Covers(c, t) && Initial(s) && Run(c, s, acts)
    requires Enabled(c, After(c, s, acts), ReleaseLock(late, delivered))
    requires n != late && Fresh(After(c, s, acts), n, t)
    ensures var s' := Do(c, After(c, s, acts), ReleaseLock(late, delivered));
            Fresh(s', n, t) && Owns(c, s', n)
  {
    InvRun(c, s, t, acts);
  }

  // ----- the condition is necessary

  /** A put that always writes. */
  function Nothing(k: Key): Op {
    Put(k, [], false)
  }

  const EMPTY: State := State(0.0, NoLock, map[], None, None, map[])

  /** Creating the .xiolock and writing the record into it. */
  function Creation(c: Config, n: Node): seq<Action> {
    [CreateLock(n)] + if c.atomicCreate then [] else [StampLock(n)]
  }

  /** Taking the lock of the given tier. */
  function Take(c: Config, n: Node, tier: Tier): seq<Action> {
    if tier.Fs? then [Ask(n, Unreachable)] + ([BreakStale(n)] + Creation(c, n)) else [Ask(n, Answered)]
  }

  function Begin(n: Node, op: Op): seq<Action> {
    [Invoke(n, op)] + [TestExists(n)]
  }

  /** A call by `n` up to the point where it holds the lock of the given tier. */
  function Acquire(c: Config, n: Node, op: Op, tier: Tier): seq<Action> {
    Begin(n, op) + Take(c, n, tier)
  }

  predicate CanUse(c: Config, n: Node, tier: Tier) {
    n in (if tier.Fs? then c.misses else c.reaches)
  }

  predicate Grabbable(c: Config, s: State, n: Node, k: Key, tier: Tier)
    requires n in c.ttl
  {
    if tier.Fs? then s.lockFile.NoLock? || (c.atomicUnlink && Stale(s.lockFile, s.clock, c.ttl[n]))
    else Available(s.ServerAt(k), s.clock)
  }

  /** The state after such a call has been granted the lock. */
  function Granted(c: Config, s: State, n: Node, op: Op, tier: Tier): State
    requires n in c.ttl
  {
    var s' := s.Goto(n, Locked(op, tier, s.clock, Check));
    if tier.Fs? then s'.(lockFile := Record(n, s.clock))
    else s'.(server := s.server[op.key := Entry(n, s.clock, c.ttl[n])])
  }

  lemma GotoTwice(s: State, n: Node, p: Pc, q: Pc)
    ensures s.Goto(n, p).Goto(n, q) == s.Goto(n, q)
  {
    assert s.pc[n := p][n := q] == s.pc[n := q];
  }

  lemma CreationRuns(c: Config, s: State, n: Node, op: Op)
    requires s.At(n) == Create(op) && s.lockFile.NoLock?
    ensures Run(c, s, Creation(c, n))
    ensures After(c, s, Creation(c, n)) == s.Goto(n, Locked(op, Fs, s.clock, Check)).(lockFile := Record(n, s.clock))
  {
    if c.atomicCreate {
      RunCons(c, s, CreateLock(n), []);
    } else {
      GotoTwice(s, n, Stamp(op), Locked(op, Fs, s.clock, Check));
      var s1 := s.Goto(n, Stamp(op)).(lockFile := Opened(n));
      RunCons(c, s1, StampLock(n), []);
      RunCons(c, s, CreateLock(n), [StampLock(n)]);
    }
  }

  lemma TakeFsRuns(c: Config, s: State, n: Node, op: Op)
    requires c.Valid() && n in c.misses && s.At(n) == AskServer(op) && Grabbable(c, s, n, op.key, Fs)
    ensures Run(c, s, Take(c, n, Fs)) && After(c, s, Take(c, n, Fs)) == Granted(c, s, n, op, Fs)
  {
    var s1 := Do(c, s, Ask(n, Unreachable));
    assert s1 == s.Goto(n, Inspect(op));
    var s2 := Do(c, s1, BreakStale(n));
    assert s2 == s1.Goto(n, Create(op)).(lockFile := NoLock);
    CreationRuns(c, s2, n, op);
    RunCons(c, s1, BreakStale(n), Creation(c, n));
    RunCons(c, s, Ask(n, Unreachable), [BreakStale(n)] + Creation(c, n));
    GotoTwice(s, n, Inspect(op), Create(op));
    GotoTwice(s, n, Create(op), Locked(op, Fs, s.clock, Check));
  }

  lemma TakeRuns(c: Config, s: State, n: Node, op: Op, tier: Tier)
    requires c.Valid() && CanUse(c, n, tier) && s.At(n) == AskServer(op) && Grabbable(c, s, n, op.key, tier)
    ensures Run(c, s, Take(c, n, tier)) && After(c, s, Take(c, n, tier)) == Granted(c, s, n, op, tier)
  {
    if tier.Fs? {
      TakeFsRuns(c, s, n, op);
    } else {
      RunCons(c, s, Ask(n, Answered), []);
    }
  }

  /** A node that waits for the file's lock takes it once it is stale, or gone: it goes back to
      inspecting it. */
  lemma StaleLockTaken(c: Config, s: State, n: Node, op: Op)
    requires c.Valid() && n in c.nodes && c.atomicUnlink && s.At(n) == Create(op)
    requires Stale(s.lockFile, s.clock, c.ttl[n])
    ensures var acts := [CreateLock(n)] + ([BreakStale(n)] + Creation(c, n));
            Run(c, s, acts) && After(c, s, acts).At(n) == Locked(op, Fs, s.clock, Check)
  {
    var s1 := s.Goto(n, Inspect(op));
    var s2 := s1.Goto(n, Create(op)).(lockFile := NoLock);
    CreationRuns(c, s2, n, op);
    RunCons(c, s1, BreakStale(n), Creation(c, n));
    RunCons(c, s, CreateLock(n), [BreakStale(n)] + Creation(c, n));
  }

  lemma BeginRuns(c: Config, s: State, n: Node, op: Op)
    requires c.Valid() && n in c.nodes && op.key in c.keys && s.At(n).Idle? && op.Put? && !op.skipIfSame
    ensures Run(c, s, Begin(n, op)) && After(c, s, Begin(n, op)) == s.Goto(n, AskServer(op))
  {
    var s1 := s.Goto(n, Probe(op));
    GotoTwice(s, n, Probe(op), AskServer(op));
    RunCons(c, s1, TestExists(n), []);
    RunCons(c, s, Invoke(n, op), [TestExists(n)]);
  }

  lemma AcquireRuns(c: Config, s: State, n: Node, op: Op, tier: Tier)
    requires c.Valid() && CanUse(c, n, tier) && s.At(n).Idle? && Grabbable(c, s, n, op.key, tier)
    requires op.key in c.keys && op.Put? && !op.skipIfSame
    ensures Run(c, s, Acquire(c, n, op, tier)) && After(c, s, Acquire(c, n, op, tier)) == Granted(c, s, n, op, tier)
  {
    BeginRuns(c, s, n, op);
    TakeRuns(c, s.Goto(n, AskServer(op)), n, op, tier);
    RunConcat(c, s, Begin(n, op), Take(c, n, tier));
    GotoTwice(s, n, AskServer(op), Locked(op, tier, s.clock, Check));
  }

  /** `m` takes the lock of one tier, `wait` seconds pass, `n` takes the lock of a tier. */
  lemma TwoHolders(c: Config, m: Node, k: Key, mTier: Tier, wait: real, n: Node, l: Key, nTier: Tier)
    returns (acts: seq<Action>)
    requires c.Valid() && m != n && wait >= 0.0 && k in c.keys && l in c.keys
    requires CanUse(c, m, mTier) && CanUse(c, n, nTier)
    requires || mTier != nTier
             || (mTier.Redis? && k != l)
             || wait > (if mTier.Fs? then c.ttl[n] else c.ttl[m])
    requires mTier.Fs? && nTier.Fs? ==> c.atomicUnlink
    ensures Run(c, EMPTY, acts) && !OneFreshHolder(After(c, EMPTY, acts), wait)
  {
    var first, second := Acquire(c, m, Nothing(k), mTier), Acquire(c, n, Nothing(l), nTier);
    AcquireRuns(c, EMPTY, m, Nothing(k), mTier);
    var s1 := Granted(c, EMPTY, m, Nothing(k), mTier);
    var s2 := Do(c, s1, Tick(wait));
    RunCons(c, s1, Tick(wait), []);
    RunConcat(c, EMPTY, first, [Tick(wait)] + []);
    AcquireRuns(c, s2, n, Nothing(l), nTier);
    acts := first + ([Tick(wait)] + []) + second;
    RunConcat(c, EMPTY, first + ([Tick(wait)] + []), second);
    var s3 := Granted(c, s2, n, Nothing(l), nTier);
    assert Fresh(s3, m, wait) && Fresh(s3, n, wait);
  }

  ghost predicate AlwaysExcludes(c: Config, t: real) {
    forall s, acts :: Initial(s) && Run(c, s, acts) ==> OneFreshHolder(After(c, s, acts), t)
  }

  /** A run that ends with two fresh holders, from a store whose server has no entries yet. */
  ghost predicate Violates(c: Config, t: real, s: State, acts: seq<Action>) {
    && Initial(s) && s.server == map[]
    && Run(c, s, acts) && !OneFreshHolder(After(c, s, acts), t)
  }

  lemma OtherNode(nodes: set<Node>, m: Node) returns (n: Node)
    requires |nodes| >= 2
    ensures n in nodes && n != m
  {
    assert |nodes - {m}| >= |nodes| - 1;
    n :| n in nodes - {m};
  }

  lemma LongerIsFresh(s: State, t: real, u: real)
    requires !OneFreshHolder(s, t) && t <= u
    ensures !OneFreshHolder(s, u)
  {
    var m, n :| Fresh(s, m, t) && Fresh(s, n, t) && m != n;
    assert Fresh(s, m, u) && Fresh(s, n, u);
  }

  lemma BrokenWhenTiersMix(c: Config, t: real) returns (s: State, acts: seq<Action>)
    requires c.Valid() && |c.nodes| >= 2 && t >= 0.0 && !OneTier(c)
    ensures Violates(c, t, s, acts)
  {
    var m :| m in c.reaches;
    var n :| n in c.misses;
    var k :| k in c.keys;
    s := EMPTY;
    if m != n {
      acts := TwoHolders(c, m, k, Redis, 0.0, n, k, Fs);
    } else {
      var other := OtherNode(c.nodes, m);
      if other in c.misses {
        acts := TwoHolders(c, m, k, Redis, 0.0, other, k, Fs);
      } else {
        acts := TwoHolders(c, other, k, Redis, 0.0, n, k, Fs);
      }
    }
    LongerIsFresh(After(c, EMPTY, acts), 0.0, t);
  }

  /** Two nodes spell the key differently: the server grants each of them its own lock. */
  lemma BrokenWhenSpellingsMix(c: Config, t: real) returns (s: State, acts: seq<Action>)
    requires c.Valid() && |c.nodes| >= 2 && t >= 0.0 && OneTier(c) && !OneSpelling(c)
    ensures Violates(c, t, s, acts)
  {
    var k, l :| k in c.keys && l in c.keys && k != l;
    var m :| m in c.nodes;
    var n := OtherNode(c.nodes, m);
    s := EMPTY;
    acts := TwoHolders(c, m, k, Redis, 0.0, n, l, Redis);
    LongerIsFresh(After(c, EMPTY, acts), 0.0, t);
  }

  lemma BrokenWhenTtlShort(c: Config, t: real) returns (s: State, acts: seq<Action>)
    requires c.Valid() && |c.nodes| >= 2 && t >= 0.0 && OneTier(c) && LockFileSafe(c) && !Covers(c, t)
    ensures Violates(c, t, s, acts)
  {
    var m :| m in c.nodes && t > c.ttl[m];
    var n := OtherNode(c.nodes, m);
    var k :| k in c.keys;
    s := EMPTY;
    if c.misses == {} {
      acts := TwoHolders(c, m, k, Redis, t, n, k, Redis);
    } else {
      acts := TwoHolders(c, n, k, Fs, t, m, k, Fs);
    }
  }

  /** A call of `n` up to the point where it has inspected the .xiolock. */
  function Look(n: Node, op: Op): seq<Action> {
    Begin(n, op) + ([Ask(n, Unreachable)] + [BreakStale(n)])
  }

  lemma LookRuns(c: Config, s: State, n: Node, op: Op)
    requires c.Valid() && n in c.misses && s.At(n).Idle? && op.key in c.keys && op.Put? && !op.skipIfSame
    requires s.lockFile.NoLock? || Stale(s.lockFile, s.clock, c.ttl[n])
    ensures Run(c, s, Look(n, op))
    ensures After(c, s, Look(n, op))
            == if c.atomicUnlink || s.lockFile.NoLock? then s.Goto(n, Create(op)).(lockFile := NoLock)
               else s.Goto(n, Unlink(op))
  {
    var s2 := s.Goto(n, AskServer(op));
    BeginRuns(c, s, n, op);
    var s3 := s2.Goto(n, Inspect(op));
    RunCons(c, s3, BreakStale(n), []);
    RunCons(c, s2, Ask(n, Unreachable), [BreakStale(n)]);
    RunConcat(c, s, Begin(n, op), [Ask(n, Unreachable)] + [BreakStale(n)]);
    GotoTwice(s, n, AskServer(op), Inspect(op));
    GotoTwice(s, n, Inspect(op), Create(op));
    GotoTwice(s, n, Inspect(op), Unlink(op));
  }

  function UnlinkAndCreate(c: Config, n: Node): seq<Action> {
    [UnlinkStale(n)] + Creation(c, n)
  }

  lemma UnlinkAndCreateRuns(c: Config, s: State, n: Node, op: Op)
    requires s.At(n) == Unlink(op)
    ensures Run(c, s, UnlinkAndCreate(c, n))
    ensures After(c, s, UnlinkAndCreate(c, n))
            == s.Goto(n, Locked(op, Fs, s.clock, Check)).(lockFile := Record(n, s.clock))
  {
    var s1 := Do(c, s, UnlinkStale(n));
    CreationRuns(c, s1, n, op);
    RunCons(c, s, UnlinkStale(n), Creation(c, n));
    GotoTwice(s, n, Create(op), Locked(op, Fs, s.clock, Check));
  }

  lemma BothLook(c: Config, m: Node, n: Node, op: Op, s: State)
    requires c.Valid() && m in c.misses && n in c.misses && m != n && !c.atomicUnlink
    requires op.key in c.keys && op.Put? && !op.skipIfSame
    requires s.lockFile == Garbled && s.At(m).Idle? && s.At(n).Idle?
    ensures Run(c, s, Look(m, op) + Look(n, op))
    ensures After(c, s, Look(m, op) + Look(n, op)) == s.Goto(m, Unlink(op)).Goto(n, Unlink(op))
  {
    LookRuns(c, s, m, op);
    LookRuns(c, s.Goto(m, Unlink(op)), n, op);
    RunConcat(c, s, Look(m, op), Look(n, op));
  }

  lemma BothUnlink(c: Config, m: Node, n: Node, op: Op, s: State)
    requires m != n && s.At(m) == s.At(n) == Unlink(op)
    ensures Run(c, s, UnlinkAndCreate(c, n) + UnlinkAndCreate(c, m))
    ensures var s' := After(c, s, UnlinkAndCreate(c, n) + UnlinkAndCreate(c, m));
            s'.clock == s.clock && s'.At(m) == s'.At(n) == Locked(op, Fs, s.clock, Check)
  {
    var s1 := s.Goto(n, Locked(op, Fs, s.clock, Check)).(lockFile := Record(n, s.clock));
    UnlinkAndCreateRuns(c, s, n, op);
    UnlinkAndCreateRuns(c, s1, m, op);
    RunConcat(c, s, UnlinkAndCreate(c, n), UnlinkAndCreate(c, m));
  }

  /** Two nodes see the same garbled lock; the slower one unlinks the faster one's new lock. */
  lemma BrokenWhenUnlinkSplits(c: Config, t: real) returns (s: State, acts: seq<Action>)
    requires c.Valid() && |c.nodes| >= 2 && t >= 0.0 && OneTier(c) && c.misses != {} && !c.atomicUnlink
    ensures Violates(c, t, s, acts)
  {
    var m :| m in c.misses;
    var n := OtherNode(c.nodes, m);
    var k :| k in c.keys;
    var op := Nothing(k);
    s := EMPTY.(lockFile := Garbled);
    BothLook(c, m, n, op, s);
    BothUnlink(c, m, n, op, s.Goto(m, Unlink(op)).Goto(n, Unlink(op)));
    acts := Look(m, op) + Look(n, op) + (UnlinkAndCreate(c, n) + UnlinkAndCreate(c, m));
    RunConcat(c, s, Look(m, op) + Look(n, op), UnlinkAndCreate(c, n) + UnlinkAndCreate(c, m));
    assert Fresh(After(c, s, acts), m, t) && Fresh(After(c, s, acts), n, t);
  }

  /** A holder's put, up to the point where its release has read its own .xiolock. */
  function WriteUntilUnlock(m: Node): seq<Action> {
    ([TestLocked(m)] + [CloseTmp(m)]) + ([Rename(m)] + [ReleaseLock(m, true)])
  }

  /** Where such a put then stands. */
  function BeforeUnlock(s: State, m: Node, op: Op): State
    requires op.Put?
  {
    s.Goto(m, Locked(op, Fs, s.clock, Unlock(Written(true)))).(value := Some(op.data), tmp := None)
  }

  function BeforePublish(s: State, m: Node, op: Op): State
    requires op.Put?
  {
    s.Goto(m, Locked(op, Fs, s.clock, Publish)).(tmp := Some(op.data))
  }

  lemma FillRuns(c: Config, s: State, m: Node, op: Op)
    requires s.At(m) == Locked(op, Fs, s.clock, Check) && op.Put? && !op.skipIfSame
    ensures Run(c, s, [TestLocked(m)] + [CloseTmp(m)])
    ensures After(c, s, [TestLocked(m)] + [CloseTmp(m)]) == BeforePublish(s, m, op)
  {
    var fill := Locked(op, Fs, s.clock, Fill);
    GotoTwice(s, m, fill, Locked(op, Fs, s.clock, Publish));
    RunCons(c, s.Goto(m, fill), CloseTmp(m), []);
    RunCons(c, s, TestLocked(m), [CloseTmp(m)]);
  }

  lemma PublishRuns(c: Config, s: State, m: Node, op: Op)
    requires !c.atomicUnlink && op.Put? && s.lockFile == Record(m, s.clock)
    requires s.At(m) == Locked(op, Fs, s.clock, Publish) && s.tmp == Some(op.data)
    ensures Run(c, s, [Rename(m)] + [ReleaseLock(m, true)])
    ensures After(c, s, [Rename(m)] + [ReleaseLock(m, true)]) == BeforeUnlock(s, m, op)
  {
    var released := Locked(op, Fs, s.clock, Release(Written(true)));
    GotoTwice(s, m, released, Locked(op, Fs, s.clock, Unlock(Written(true))));
    RunCons(c, s.Goto(m, released).(value := Some(op.data), tmp := None), ReleaseLock(m, true), []);
    RunCons(c, s, Rename(m), [ReleaseLock(m, true)]);
  }

  lemma WriteUntilUnlockRuns(c: Config, s: State, m: Node, op: Op)
    requires !c.atomicUnlink && op.Put? && !op.skipIfSame
    requires s.At(m) == Locked(op, Fs, s.clock, Check) && s.lockFile == Record(m, s.clock)
    ensures Run(c, s, WriteUntilUnlock(m)) && After(c, s, WriteUntilUnlock(m)) == BeforeUnlock(s, m, op)
  {
    FillRuns(c, s, m, op);
    PublishRuns(c, BeforePublish(s, m, op), m, op);
    RunConcat(c, s, [TestLocked(m)] + [CloseTmp(m)], [Rename(m)] + [ReleaseLock(m, true)]);
    GotoTwice(s, m, Locked(op, Fs, s.clock, Publish), Locked(op, Fs, s.clock, Unlock(Written(true))));
  }

  /** `m` holds the lock, writes, reads its own .xiolock to release it, and sleeps. */
  lemma ReleaserSleeps(c: Config, m: Node, op: Op, wait: real) returns (acts: seq<Action>)
    requires c.Valid() && m in c.misses && !c.atomicUnlink && wait >= 0.0
    requires op.key in c.keys && op.Put? && !op.skipIfSame
    ensures Run(c, EMPTY, acts)
    ensures After(c, EMPTY, acts) == BeforeUnlock(Granted(c, EMPTY, m, op, Fs), m, op).(clock := wait)
  {
    var s1 := Granted(c, EMPTY, m, op, Fs);
    AcquireRuns(c, EMPTY, m, op, Fs);
    WriteUntilUnlockRuns(c, s1, m, op);
    RunConcat(c, EMPTY, Acquire(c, m, op, Fs), WriteUntilUnlock(m));
    var first := Acquire(c, m, op, Fs) + WriteUntilUnlock(m);
    RunCons(c, BeforeUnlock(s1, m, op), Tick(wait), []);
    RunConcat(c, EMPTY, first, [Tick(wait)] + []);
    acts := first + ([Tick(wait)] + []);
  }

  /** Where the release's own read and unlink are interleaved, a late release does remove its
      successor's lock: it read its own record before it slept past its ttl. */
  lemma LateReleaseTakesSuccessors(c: Config, t: real) returns (acts: seq<Action>, late: Node, n: Node)
    requires c.Valid() && |c.nodes| >= 2 && t >= 0.0 && OneTier(c) && c.misses != {} && !c.atomicUnlink
    ensures Run(c, EMPTY, acts) && n != late
    ensures var s := After(c, EMPTY, acts);
            && Fresh(s, n, t) && Owns(c, s, n) && Enabled(c, s, UnlinkOwn(late))
            && Fresh(Do(c, s, UnlinkOwn(late)), n, t) && !Owns(c, Do(c, s, UnlinkOwn(late)), n)
  {
    late :| late in c.misses;
    n := OtherNode(c.nodes, late);
    var k :| k in c.keys;
    var op, wait := Nothing(k), if c.ttl[n] < 0.0 then 1.0 else c.ttl[n] + 1.0;
    var first := ReleaserSleeps(c, late, op, wait);
    var s1 := After(c, EMPTY, first);
    LookRuns(c, s1, n, op);
    UnlinkAndCreateRuns(c, s1.Goto(n, Unlink(op)), n, op);
    RunConcat(c, s1, Look(n, op), UnlinkAndCreate(c, n));
    RunConcat(c, EMPTY, first, Look(n, op) + UnlinkAndCreate(c, n));
    acts := first + (Look(n, op) + UnlinkAndCreate(c, n));
  }

  /** `m` creates its .xiolock; before it writes the record, `n` finds the file empty, unlinks it
      and takes the lock. The record of `m` then goes into the unlinked file. */
  lemma CreateRaces(c: Config, m: Node, n: Node, op: Op, s0: State) returns (acts: seq<Action>)
    requires c.Valid() && m in c.misses && n in c.misses && m != n && c.atomicUnlink && !c.atomicCreate
    requires op.key in c.keys && op.Put? && !op.skipIfSame && s0 == EMPTY
    ensures Run(c, s0, acts) && After(c, s0, acts).clock == 0.0
    ensures After(c, s0, acts).At(m) == After(c, s0, acts).At(n) == Locked(op, Fs, 0.0, Check)
  {
    var held := Locked(op, Fs, 0.0, Check);
    var s1 := s0.Goto(m, Create(op));
    LookRuns(c, s0, m, op);
    var s2 := s0.Goto(m, Stamp(op)).(lockFile := Opened(m));
    GotoTwice(s0, m, Create(op), Stamp(op));
    RunCons(c, s1, CreateLock(m), []);
    var a2 := Look(m, op) + ([CreateLock(m)] + []);
    RunConcat(c, s0, Look(m, op), [CreateLock(m)] + []);
    AcquireRuns(c, s2, n, op, Fs);
    var s3 := Granted(c, s2, n, op, Fs);
    var a3 := a2 + Acquire(c, n, op, Fs);
    RunConcat(c, s0, a2, Acquire(c, n, op, Fs));
    RunCons(c, s3, StampLock(m), []);
    RunConcat(c, s0, a3, [StampLock(m)] + []);
    acts := a3 + ([StampLock(m)] + []);
  }

  /** The lock file is empty between its creation and the writing of its record. */
  lemma BrokenWhenCreateSplits(c: Config, t: real) returns (s: State, acts: seq<Action>)
    requires c.Valid() && |c.nodes| >= 2 && t >= 0.0 && OneTier(c) && c.misses != {} && !c.atomicCreate
    ensures Violates(c, t, s, acts)
  {
    if !c.atomicUnlink {
      s, acts := BrokenWhenUnlinkSplits(c, t);
    } else {
      var m :| m in c.misses;
      var n := OtherNode(c.nodes, m);
      var k :| k in c.keys;
      s := EMPTY;
      acts := CreateRaces(c, m, n, Nothing(k), s);
      assert Fresh(After(c, s, acts), m, t) && Fresh(After(c, s, acts), n, t);
    }
  }

  predicate Safe(c: Config) {
    OneTier(c) && OneSpelling(c) && LockFileSafe(c)
  }

  lemma Violation(c: Config, t: real) returns (s: State, acts: seq<Action>)
    requires c.Valid() && |c.nodes| >= 2 && t >= 0.0 && !(Safe(c) && Covers(c, t))
    ensures Violates(c, t, s, acts)
  {
    if !OneTier(c) {
      s, acts := BrokenWhenTiersMix(c, t);
    } else if !OneSpelling(c) {
      s, acts := BrokenWhenSpellingsMix(c, t);
    } else if c.misses != {} && !c.atomicUnlink {
      s, acts := BrokenWhenUnlinkSplits(c, t);
    } else if c.misses != {} && !c.atomicCreate {
      s, acts := BrokenWhenCreateSplits(c, t);
    } else {
      s, acts := BrokenWhenTtlShort(c, t);
    }
  }

  lemma SafeExcludes(c: Config, s: State, t: real, acts: seq<Action>)
    requires c.Valid() && Safe(c) && Covers(c, t) && Initial(s) && Run(c, s, acts)
    ensures OneFreshHolder(After(c, s, acts), t)
  {
    InvRun(c, s, t, acts);
    InvExcludes(c, After(c, s, acts), t);
  }

  /** In a deployment of two or more nodes, the lock of a file always has at most one holder within
      `t` seconds of its acquire time exactly when all nodes use one tier, no ttl is below `t`, the
      file has one spelling (if the server is used), and (if the file tier is used) no other node
      acts between reading a .xiolock and unlinking it, or between creating one and writing it. */
  lemma ExclusionExactlyWhen(c: Config, t: real)
    requires c.Valid() && |c.nodes| >= 2 && t >= 0.0
    ensures AlwaysExcludes(c, t) <==> OneTier(c) && OneSpelling(c) && LockFileSafe(c) && Covers(c, t)
  {
    if Safe(c) && Covers(c, t) {
      forall s, acts | Initial(s) && Run(c, s, acts)
        ensures OneFreshHolder(After(c, s, acts), t)
      {
        SafeExcludes(c, s, t, acts);
      }
    } else {
      var s, acts := Violation(c, t);
    }
  }
}
