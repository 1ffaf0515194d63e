/** The whole mount: many files, each under one or more spellings of its key, one clock, one
    directory tree and one lock server. Each file's protocol runs on the files that belong to it and
    on the server entries of its spellings. */
module DriveMount {
  import opened Options
  import opened DriveProtocol
  import opened DrivePaths
  import X = DriveExclusion
  import R = DriveRefinement
  import AtomicStore

  datatype File =
    | Blob(data: Bytes)
    | LockOpened(node: Node)                   // a .xiolock whose record is still to be written
    | LockText(node: Node, acquiredAt: real)   // a well-formed .xiolock

  /** The server's entries are under the key as the caller spells it; files are under paths. */
  datatype Mount = Mount(clock: real, files: map<Path, File>, servers: map<Key, ServerLock>,
                         pcs: map<Path, map<Node, Pc>>)

  /** A deployment: the root and, in `c.keys`, every key in use as it is spelled. */
  datatype Site = Site(root: Path, c: Config) {
    function FileOf(k: Key): Path {
      Resolve(root, k)
    }

    function Paths(): set<Path> {
      set k | k in c.keys :: FileOf(k)
    }

    /** The deployment as the protocol of one file sees it. */
    function For(p: Path): Config {
      c.(keys := set k | k in c.keys && FileOf(k) == p)
    }

    /** No key in use names a lock or staging file, or the top directory. */
    ghost predicate Plain() {
      PlainKeys(Paths())
    }
  }

  ghost predicate PlainKeys(keys: set<Path>) {
    forall p :: p in keys ==> IsFile(p) && !Internal(p)
  }

  function BlobAt(files: map<Path, File>, p: Path): Option<Bytes> {
    if p in files && files[p].Blob? then Some(files[p].data) else None
  }

  function LockAt(files: map<Path, File>, p: Path): LockFile {
    if p !in files then NoLock
    else
      match files[p]
      case Blob(_) => Garbled
      case LockOpened(n) => Opened(n)
      case LockText(n, at) => Record(n, at)
  }

  /** The three files of a key. */
  datatype Slots = Slots(value: Path, lock: Path, tmp: Path) {
    predicate Distinct() {
      value != lock && value != tmp && lock != tmp
    }

    function All(): set<Path> {
      {value, lock, tmp}
    }
  }

  function SlotsOf(p: Path): Slots
    requires IsFile(p)
  {
    Slots(p, LockPath(p), TmpPath(p))
  }

  /** The server's entries for the spellings of one file. */
  function EntriesOf(root: Path, servers: map<Key, ServerLock>, p: Path): map<Key, ServerLock> {
    map k | k in servers && Resolve(root, k) == p :: servers[k]
  }

  /** Replaces these entries by `now`. */
  function ReplaceEntries(root: Path, servers: map<Key, ServerLock>, p: Path, now: map<Key, ServerLock>)
    : map<Key, ServerLock>
  {
    (map k | k in servers && Resolve(root, k) != p :: servers[k]) + now
  }

  function View(root: Path, m: Mount, p: Path, k: Slots): State {
    State(m.clock, LockAt(m.files, k.lock), EntriesOf(root, m.servers, p),
          BlobAt(m.files, k.value), BlobAt(m.files, k.tmp),
          if p in m.pcs then m.pcs[p] else map[])
  }

  /** The part of the mount that the protocol of one file sees. */
  function Project(root: Path, m: Mount, p: Path): State
    requires IsFile(p)
  {
    View(root, m, p, SlotsOf(p))
  }

  function OneBlob(p: Path, b: Option<Bytes>): map<Path, File> {
    if b.Some? then map[p := Blob(b.value)] else map[]
  }

  function OneLock(p: Path, l: LockFile): map<Path, File> {
    match l
    case NoLock => map[]
    case Garbled => map[p := Blob([])]
    case Opened(n) => map[p := LockOpened(n)]
    case Record(n, at) => map[p := LockText(n, at)]
  }

  /** The files of one key when its protocol is in state `s`. */
  function FilesAt(k: Slots, s: State): (r: map<Path, File>)
    ensures r.Keys <= k.All()
  {
    OneLock(k.lock, s.lockFile) + OneBlob(k.value, s.value) + OneBlob(k.tmp, s.tmp)
  }

  /** Replaces the files in `owned` by `now`. */
  function Replace(files: map<Path, File>, owned: set<Path>, now: map<Path, File>): map<Path, File> {
    (files - owned) + now
  }

  /** The mount after the protocol of one file has moved to state `s`: only that file, its lock and
      staging files, the server entries of its spellings and its calls are written. */
  function Write(root: Path, m: Mount, p: Path, k: Slots, s: State): Mount {
    Mount(s.clock, Replace(m.files, k.All(), FilesAt(k, s)), ReplaceEntries(root, m.servers, p, s.server),
          m.pcs[p := s.pc])
  }

  function Embed(root: Path, m: Mount, p: Path, s: State): Mount
    requires IsFile(p)
  {
    Write(root, m, p, SlotsOf(p), s)
  }

  datatype Move =
    | Wait(dt: real)
    | On(k: Key, a: Action)   // a step of a call that spells its key `k`

  /** The spelling that the acting call uses. */
  predicate Spells(s: State, a: Action, k: Key)
    requires !a.Tick?
  {
    if a.Invoke? then a.op.key == k else !s.At(a.n).Idle? && s.At(a.n).op.key == k
  }

  predicate CanMove(site: Site, m: Mount, v: Move) {
    match v
    case Wait(dt) => dt >= 0.0
    case On(k, a) =>
      && k in site.c.keys && IsFile(site.FileOf(k)) && !a.Tick?
      && Spells(Project(site.root, m, site.FileOf(k)), a, k)
      && Enabled(site.For(site.FileOf(k)), Project(site.root, m, site.FileOf(k)), a)
  }

  function DoMove(site: Site, m: Mount, v: Move): Mount
    requires CanMove(site, m, v)
  {
    match v
    case Wait(dt) => m.(clock := m.clock + dt)
    case On(k, a) =>
      var p := site.FileOf(k);
      Embed(site.root, m, p, Do(site.For(p), Project(site.root, m, p), a))
  }

  predicate MountRun(site: Site, m: Mount, vs: seq<Move>)
    decreases |vs|
  {
    vs == [] || (CanMove(site, m, vs[0]) && MountRun(site, DoMove(site, m, vs[0]), vs[1..]))
  }

  function MountAfter(site: Site, m: Mount, vs: seq<Move>): Mount
    requires MountRun(site, m, vs)
    decreases |vs|
  {
    if vs == [] then m else MountAfter(site, DoMove(site, m, vs[0]), vs[1..])
  }

  /** The moves of a run that one file's protocol notices. */
  function Noticed(root: Path, p: Path, vs: seq<Move>): seq<Action>
    decreases |vs|
  {
    if vs == [] then []
    else
      match vs[0]
      case Wait(dt) => [Tick(dt)] + Noticed(root, p, vs[1..])
      case On(k, a) => (if p == Resolve(root, k) then [a] else []) + Noticed(root, p, vs[1..])
  }

  lemma LookupLock(files: map<Path, File>, k: Slots, s: State)
    requires k.Distinct()
    ensures LockAt(Replace(files, k.All(), FilesAt(k, s)), k.lock) == s.lockFile
  {
  }

  lemma LookupValue(files: map<Path, File>, k: Slots, s: State)
    requires k.Distinct()
    ensures BlobAt(Replace(files, k.All(), FilesAt(k, s)), k.value) == s.value
  {
    assert k.value !in OneLock(k.lock, s.lockFile) && k.value !in OneBlob(k.tmp, s.tmp);
  }

  lemma LookupTmp(files: map<Path, File>, k: Slots, s: State)
    requires k.Distinct()
    ensures BlobAt(Replace(files, k.All(), FilesAt(k, s)), k.tmp) == s.tmp
  {
    assert k.tmp !in OneLock(k.lock, s.lockFile) && k.tmp !in OneBlob(k.value, s.value);
  }

  /** The entries belong to spellings of the file. */
  ghost predicate OwnEntries(root: Path, p: Path, s: State) {
    forall k :: k in s.server ==> Resolve(root, k) == p
  }

  lemma EntriesBack(root: Path, servers: map<Key, ServerLock>, p: Path, now: map<Key, ServerLock>)
    requires forall k :: k in now ==> Resolve(root, k) == p
    ensures EntriesOf(root, ReplaceEntries(root, servers, p, now), p) == now
  {
  }

  lemma EntriesElsewhere(root: Path, servers: map<Key, ServerLock>, p: Path, now: map<Key, ServerLock>, q: Path)
    requires (forall k :: k in now ==> Resolve(root, k) == p) && p != q
    ensures EntriesOf(root, ReplaceEntries(root, servers, p, now), q) == EntriesOf(root, servers, q)
  {
  }

  /** An action writes no server entry but the one of its own call's spelling. */
  lemma EntryWritten(c: Config, s: State, a: Action, k: Key)
    requires Enabled(c, s, a) && !a.Tick? && Spells(s, a, k)
    ensures Do(c, s, a).server.Keys <= s.server.Keys + {k}
  {
  }

  lemma OwnEntriesStep(root: Path, p: Path, c: Config, s: State, a: Action, k: Key)
    requires Enabled(c, s, a) && !a.Tick? && Spells(s, a, k)
    requires OwnEntries(root, p, s) && Resolve(root, k) == p
    ensures OwnEntries(root, p, Do(c, s, a))
  {
    EntryWritten(c, s, a, k);
  }

  lemma WriteView(root: Path, m: Mount, p: Path, k: Slots, s: State)
    requires k.Distinct() && OwnEntries(root, p, s)
    ensures View(root, Write(root, m, p, k, s), p, k) == s
  {
    LookupLock(m.files, k, s);
    LookupValue(m.files, k, s);
    LookupTmp(m.files, k, s);
    EntriesBack(root, m.servers, p, s.server);
  }

  lemma FilesElsewhere(files: map<Path, File>, owned: set<Path>, now: map<Path, File>, f: Path)
    requires now.Keys <= owned && f !in owned
    ensures BlobAt(Replace(files, owned, now), f) == BlobAt(files, f)
    ensures LockAt(Replace(files, owned, now), f) == LockAt(files, f)
  {
  }

  lemma WriteElsewhere(root: Path, m: Mount, p: Path, k: Slots, s: State, q: Path, l: Slots)
    requires p != q && k.All() !! l.All() && s.clock == m.clock && OwnEntries(root, p, s)
    ensures View(root, Write(root, m, p, k, s), q, l) == View(root, m, q, l)
  {
    assert l.value in l.All() && l.lock in l.All() && l.tmp in l.All();
    FilesElsewhere(m.files, k.All(), FilesAt(k, s), l.value);
    FilesElsewhere(m.files, k.All(), FilesAt(k, s), l.lock);
    FilesElsewhere(m.files, k.All(), FilesAt(k, s), l.tmp);
    EntriesElsewhere(root, m.servers, p, s.server, q);
  }

  lemma SlotsDistinct(p: Path)
    requires IsFile(p)
    ensures SlotsOf(p).Distinct()
  {
    OwnFilesDiffer(p);
  }

  lemma PathIsPlain(site: Site, p: Path)
    requires site.Plain() && p in site.Paths()
    ensures IsFile(p) && !Internal(p)
  {
  }

  lemma SlotsDisjoint(site: Site, p: Path, q: Path)
    requires site.Plain() && p in site.Paths() && q in site.Paths() && p != q
    ensures IsFile(p) && IsFile(q) && SlotsOf(p).All() !! SlotsOf(q).All()
  {
    PathIsPlain(site, p);
    PathIsPlain(site, q);
    PlainKeysDisjoint(p, q);
  }

  lemma OwnWriteSeen(root: Path, m: Mount, p: Path, s: State)
    requires IsFile(p) && OwnEntries(root, p, s)
    ensures Project(root, Embed(root, m, p, s), p) == s
  {
    SlotsDistinct(p);
    WriteView(root, m, p, SlotsOf(p), s);
  }

  lemma OtherWriteUnseen(site: Site, m: Mount, q: Path, s: State, p: Path)
    requires site.Plain() && p in site.Paths() && q in site.Paths() && p != q
    requires IsFile(p) && IsFile(q) && s.clock == m.clock && OwnEntries(site.root, q, s)
    ensures Project(site.root, Embed(site.root, m, q, s), p) == Project(site.root, m, p)
  {
    SlotsDisjoint(site, q, p);
    WriteElsewhere(site.root, m, q, SlotsOf(q), s, p, SlotsOf(p));
  }

  /** What a move on spelling `k` makes of the file it names. */
  lemma MoveSeenByItsFile(site: Site, m: Mount, k: Key, a: Action)
    requires CanMove(site, m, On(k, a))
    ensures var p := site.FileOf(k);
            var s' := Do(site.For(p), Project(site.root, m, p), a);
            && OwnEntries(site.root, p, s') && s'.clock == m.clock
            && Project(site.root, DoMove(site, m, On(k, a)), p) == s'
  {
    var p := site.FileOf(k);
    var s := Project(site.root, m, p);
    OwnEntriesStep(site.root, p, site.For(p), s, a, k);
    ClockKept(site.For(p), s, a);
    OwnWriteSeen(site.root, m, p, Do(site.For(p), s, a));
  }

  lemma MoveUnseenElsewhere(site: Site, m: Mount, k: Key, a: Action, p: Path)
    requires site.Plain() && p in site.Paths() && IsFile(p) && p != site.FileOf(k) && CanMove(site, m, On(k, a))
    ensures Project(site.root, DoMove(site, m, On(k, a)), p) == Project(site.root, m, p)
  {
    var q := site.FileOf(k);
    MoveSeenByItsFile(site, m, k, a);
    OtherWriteUnseen(site, m, q, Do(site.For(q), Project(site.root, m, q), a), p);
  }

  lemma RunVia(c: Config, s: State, now: seq<Action>, s': State, rest: seq<Action>)
    requires Run(c, s', rest)
    requires if now == [] then s' == s else now == [now[0]] && Enabled(c, s, now[0]) && Do(c, s, now[0]) == s'
    ensures Run(c, s, now + rest) && After(c, s, now + rest) == After(c, s', rest)
  {
    if now == [] {
      assert now + rest == rest;
    } else {
      RunCons(c, s, now[0], rest);
    }
  }

  function Notices(root: Path, p: Path, v: Move): seq<Action> {
    match v
    case Wait(dt) => [Tick(dt)]
    case On(k, a) => if p == Resolve(root, k) then [a] else []
  }

  /** How one move looks to the protocol of file `p`. */
  lemma MoveSeenBy(site: Site, m: Mount, v: Move, p: Path)
    requires site.Plain() && p in site.Paths() && IsFile(p) && CanMove(site, m, v)
    ensures var now := Notices(site.root, p, v);
            var s, s' := Project(site.root, m, p), Project(site.root, DoMove(site, m, v), p);
            if now == [] then s' == s
            else now == [now[0]] && Enabled(site.For(p), s, now[0]) && Do(site.For(p), s, now[0]) == s'
  {
    match v
    case Wait(dt) =>
    case On(k, a) =>
      if site.FileOf(k) == p {
        MoveSeenByItsFile(site, m, k, a);
      } else {
        MoveUnseenElsewhere(site, m, k, a, p);
      }
  }

  /** A file's view of a run of the whole mount is a run of its own protocol. */
  lemma {:induction false} KeyRuns(site: Site, m: Mount, vs: seq<Move>, p: Path)
    requires site.Plain() && p in site.Paths() && IsFile(p) && MountRun(site, m, vs)
    ensures Run(site.For(p), Project(site.root, m, p), Noticed(site.root, p, vs))
    ensures After(site.For(p), Project(site.root, m, p), Noticed(site.root, p, vs))
            == Project(site.root, MountAfter(site, m, vs), p)
    decreases |vs|
  {
    if vs != [] {
      var m' := DoMove(site, m, vs[0]);
      MoveSeenBy(site, m, vs[0], p);
      KeyRuns(site, m', vs[1..], p);
      assert Noticed(site.root, p, vs) == Notices(site.root, p, vs[0]) + Noticed(site.root, p, vs[1..]);
      RunVia(site.For(p), Project(site.root, m, p), Notices(site.root, p, vs[0]),
             Project(site.root, m', p), Noticed(site.root, p, vs[1..]));
    }
  }

  /** The store of every file refines its own atomic store, whatever happens on the others; on the
      server tier the file must have one spelling, which is part of `Deployment`. */
  lemma EveryKeyRefines(site: Site, m: Mount, vs: seq<Move>, p: Path, t: real)
    requires site.Plain() && p in site.Paths() && IsFile(p) && MountRun(site, m, vs)
    requires R.Deployment(site.For(p), t) && Initial(Project(site.root, m, p))
    requires R.Timely(site.For(p), Project(site.root, m, p), t, Noticed(site.root, p, vs))
    ensures var c, s, acts := site.For(p), Project(site.root, m, p), Noticed(site.root, p, vs);
            && Run(c, s, acts)
            && AtomicStore.History(R.Stores(c, s, acts), R.Events(c, s, acts))
            && AtomicStore.Explains(BlobAt(m.files, p), R.Log(c, s, acts), BlobAt(MountAfter(site, m, vs).files, p))
  {
    KeyRuns(site, m, vs, p);
    R.RunRefines(site.For(p), Project(site.root, m, p), t, Noticed(site.root, p, vs));
    R.EffectsAreSequential(site.For(p), Project(site.root, m, p), t, Noticed(site.root, p, vs));
  }

  /** Steps of calls on different files commute. */
  lemma KeysCommute(site: Site, m: Mount, k: Key, a: Action, l: Key, b: Action)
    requires site.Plain() && site.FileOf(k) != site.FileOf(l)
    requires CanMove(site, m, On(k, a)) && CanMove(site, m, On(l, b))
    ensures CanMove(site, DoMove(site, m, On(k, a)), On(l, b))
    ensures CanMove(site, DoMove(site, m, On(l, b)), On(k, a))
    ensures DoMove(site, DoMove(site, m, On(k, a)), On(l, b)) == DoMove(site, DoMove(site, m, On(l, b)), On(k, a))
  {
    var p, q := site.FileOf(k), site.FileOf(l);
    var x, y := Do(site.For(p), Project(site.root, m, p), a), Do(site.For(q), Project(site.root, m, q), b);
    MoveSeenByItsFile(site, m, k, a);
    MoveSeenByItsFile(site, m, l, b);
    MoveUnseenElsewhere(site, m, k, a, q);
    MoveUnseenElsewhere(site, m, l, b, p);
    SlotsDisjoint(site, p, q);
    WritesCommute(site.root, m, p, SlotsOf(p), x, q, SlotsOf(q), y);
  }

  lemma WritesCommute(root: Path, m: Mount, p: Path, k: Slots, x: State, q: Path, l: Slots, y: State)
    requires p != q && k.All() !! l.All() && x.clock == m.clock == y.clock
    requires OwnEntries(root, p, x) && OwnEntries(root, q, y)
    ensures Write(root, Write(root, m, p, k, x), q, l, y) == Write(root, Write(root, m, q, l, y), p, k, x)
  {
    ReplacesCommute(m.files, k.All(), FilesAt(k, x), l.All(), FilesAt(l, y));
    EntriesCommute(root, m.servers, p, x.server, q, y.server);
    assert m.pcs[p := x.pc][q := y.pc] == m.pcs[q := y.pc][p := x.pc];
  }

  lemma ReplacesCommute(files: map<Path, File>, a: set<Path>, x: map<Path, File>, b: set<Path>, y: map<Path, File>)
    requires x.Keys <= a && y.Keys <= b && a !! b
    ensures Replace(Replace(files, a, x), b, y) == Replace(Replace(files, b, y), a, x)
  {
  }

  lemma EntryAt(root: Path, servers: map<Key, ServerLock>, p: Path, now: map<Key, ServerLock>, k: Key)
    ensures var r := ReplaceEntries(root, servers, p, now);
            && (k in r <==> k in now || (k in servers && Resolve(root, k) != p))
            && (k in r ==> r[k] == if k in now then now[k] else servers[k])
  {
  }

  lemma EntriesCommute(root: Path, servers: map<Key, ServerLock>, p: Path, x: map<Key, ServerLock>,
                       q: Path, y: map<Key, ServerLock>)
    requires p != q
    requires (forall k :: k in x ==> Resolve(root, k) == p) && (forall k :: k in y ==> Resolve(root, k) == q)
    ensures ReplaceEntries(root, ReplaceEntries(root, servers, p, x), q, y)
            == ReplaceEntries(root, ReplaceEntries(root, servers, q, y), p, x)
  {
    var xs, ys := ReplaceEntries(root, servers, p, x), ReplaceEntries(root, servers, q, y);
    var left, right := ReplaceEntries(root, xs, q, y), ReplaceEntries(root, ys, p, x);
    forall k
      ensures (k in left <==> k in right) && (k in left ==> left[k] == right[k])
    {
      EntryAt(root, servers, p, x, k);
      EntryAt(root, servers, q, y, k);
      EntryAt(root, xs, q, y, k);
      EntryAt(root, ys, p, x, k);
    }
    assert left.Keys == right.Keys;
  }

  // ----- exclusion on the whole mount

  /** Every file always has at most one holder within `t` seconds of its acquire time. */
  ghost predicate ExcludesEverywhere(site: Site, t: real)
    requires site.Plain()
  {
    forall m: Mount, vs, p :: p in site.Paths() && m.pcs == map[] && MountRun(site, m, vs) ==>
      IsFile(p) && X.OneFreshHolder(Project(site.root, MountAfter(site, m, vs), p), t)
  }

  /** No two spellings in use name the same file. */
  ghost predicate SpelledOnce(site: Site) {
    forall k, l :: k in site.c.keys && l in site.c.keys && site.FileOf(k) == site.FileOf(l) ==> k == l
  }

  ghost predicate CallsNamed(c: Config, s: State) {
    forall n :: !s.At(n).Idle? ==> s.At(n).op.key in c.keys
  }

  lemma CallsNamedStep(c: Config, s: State, a: Action)
    requires CallsNamed(c, s) && Enabled(c, s, a)
    ensures CallsNamed(c, Do(c, s, a))
  {
    forall n | !Do(c, s, a).At(n).Idle?
      ensures Do(c, s, a).At(n).op.key in c.keys
    {
      if a.Tick? || n != a.n {
        OthersUnmoved(c, s, a, n);
      } else {
        KeyKept(c, s, a);
      }
    }
  }

  /** A call keeps the spelling it started with. */
  lemma KeyKept(c: Config, s: State, a: Action)
    requires Enabled(c, s, a) && !a.Tick? && !Do(c, s, a).At(a.n).Idle?
    ensures a.Invoke? || !s.At(a.n).Idle?
    ensures Do(c, s, a).At(a.n).op.key == (if a.Invoke? then a.op.key else s.At(a.n).op.key)
  {
  }

  lemma ActorBusy(c: Config, s: State, a: Action)
    requires Enabled(c, s, a) && !a.Tick?
    ensures a.Invoke? || !s.At(a.n).Idle?
  {
  }

  function MoveOf(s: State, a: Action): Move
    requires a.Tick? || a.Invoke? || !s.At(a.n).Idle?
  {
    if a.Tick? then Wait(a.dt) else On(if a.Invoke? then a.op.key else s.At(a.n).op.key, a)
  }

  /** Every step of one file's protocol is a move of the mount. */
  lemma StepLifts(site: Site, m: Mount, p: Path, a: Action)
    requires IsFile(p) && CallsNamed(site.For(p), Project(site.root, m, p))
    requires Enabled(site.For(p), Project(site.root, m, p), a)
    ensures a.Tick? || a.Invoke? || !Project(site.root, m, p).At(a.n).Idle?
    ensures var v := MoveOf(Project(site.root, m, p), a);
            && CanMove(site, m, v)
            && Project(site.root, DoMove(site, m, v), p) == Do(site.For(p), Project(site.root, m, p), a)
  {
    if !a.Tick? {
      var s := Project(site.root, m, p);
      ActorBusy(site.For(p), s, a);
      var k := MoveOf(s, a).k;
      assert k in site.For(p).keys;
      MoveSeenByItsFile(site, m, k, a);
    }
  }

  /** Every run of one file's protocol is what the file sees of some run of the mount. */
  lemma {:induction false} RunLifts(site: Site, m: Mount, p: Path, acts: seq<Action>) returns (vs: seq<Move>)
    requires IsFile(p) && CallsNamed(site.For(p), Project(site.root, m, p))
    requires Run(site.For(p), Project(site.root, m, p), acts)
    ensures MountRun(site, m, vs)
    ensures Project(site.root, MountAfter(site, m, vs), p) == After(site.For(p), Project(site.root, m, p), acts)
    decreases |acts|
  {
    if acts == [] {
      vs := [];
    } else {
      var s := Project(site.root, m, p);
      StepLifts(site, m, p, acts[0]);
      CallsNamedStep(site.For(p), s, acts[0]);
      var v := MoveOf(s, acts[0]);
      var rest := RunLifts(site, DoMove(site, m, v), p, acts[1..]);
      vs := [v] + rest;
      assert vs[1..] == rest;
    }
  }

  lemma StartSeen(root: Path, p: Path, s: State)
    requires IsFile(p) && s.pc == map[] && s.server == map[]
    ensures Project(root, Mount(s.clock, FilesAt(SlotsOf(p), s), map[], map[]), p) == s
  {
    SlotsDistinct(p);
    var k := SlotsOf(p);
    LookupLock(map[], k, s);
    LookupValue(map[], k, s);
    LookupTmp(map[], k, s);
    assert Replace(map[], k.All(), FilesAt(k, s)) == FilesAt(k, s);
  }

  /** A run of one file that ends with two holders makes one of the mount. */
  lemma ViolationLifts(site: Site, p: Path, t: real)
    requires site.Plain() && p in site.Paths() && site.For(p).Valid() && |site.c.nodes| >= 2 && t >= 0.0
    requires !(X.Safe(site.For(p)) && X.Covers(site.For(p), t))
    ensures !ExcludesEverywhere(site, t)
  {
    PathIsPlain(site, p);
    var s, acts := X.Violation(site.For(p), t);
    var m := Mount(s.clock, FilesAt(SlotsOf(p), s), map[], map[]);
    StartSeen(site.root, p, s);
    var vs := RunLifts(site, m, p, acts);
  }

  lemma FileExcludes(site: Site, m: Mount, vs: seq<Move>, p: Path, t: real)
    requires site.Plain() && p in site.Paths() && IsFile(p) && m.pcs == map[] && MountRun(site, m, vs)
    requires site.For(p).Valid() && X.Safe(site.For(p)) && X.Covers(site.For(p), t)
    ensures X.OneFreshHolder(Project(site.root, MountAfter(site, m, vs), p), t)
  {
    var c, s, acts := site.For(p), Project(site.root, m, p), Noticed(site.root, p, vs);
    KeyRuns(site, m, vs, p);
    X.SafeExcludes(c, s, t, acts);
  }

  /** With two or more nodes, every file of the mount always has at most one holder within `t`
      seconds exactly when all nodes use one tier, no ttl is below `t`, the lock file is handled
      without interleaving (if the file tier is used), and no two spellings in use name the same
      file (if the server is used). */
  lemma MountExcludesExactlyWhen(site: Site, t: real)
    requires site.Plain() && site.c.Valid() && |site.c.nodes| >= 2 && t >= 0.0
    ensures ExcludesEverywhere(site, t)
            <==> X.OneTier(site.c) && X.LockFileSafe(site.c) && X.Covers(site.c, t)
                 && (site.c.reaches == {} || SpelledOnce(site))
  {
    var apart := X.OneTier(site.c) && X.LockFileSafe(site.c) && X.Covers(site.c, t);
    if apart && (site.c.reaches == {} || SpelledOnce(site)) {
      forall m: Mount, vs, p | p in site.Paths() && m.pcs == map[] && MountRun(site, m, vs)
        ensures IsFile(p) && X.OneFreshHolder(Project(site.root, MountAfter(site, m, vs), p), t)
      {
        PathIsPlain(site, p);
        ForValid(site, p);
        FileExcludes(site, m, vs, p, t);
      }
    } else if apart {
      var k, l :| k in site.c.keys && l in site.c.keys && site.FileOf(k) == site.FileOf(l) && k != l;
      TwoSpellingsTwoHolders(site, k, l, t);
    } else {
      var k :| k in site.c.keys;
      ForValid(site, site.FileOf(k));
      ViolationLifts(site, site.FileOf(k), t);
    }
  }

  lemma ForValid(site: Site, p: Path)
    requires site.c.Valid() && p in site.Paths()
    ensures site.For(p).Valid()
  {
    var k :| k in site.c.keys && site.FileOf(k) == p;
    assert k in site.For(p).keys;
  }

  /** Where the server is used, two spellings of one file let two nodes hold it at once. */
  lemma TwoSpellingsTwoHolders(site: Site, k: Key, l: Key, t: real)
    requires site.Plain() && site.c.Valid() && |site.c.nodes| >= 2 && t >= 0.0 && site.c.reaches != {}
    requires k in site.c.keys && l in site.c.keys && k != l && site.FileOf(k) == site.FileOf(l)
    ensures !ExcludesEverywhere(site, t)
  {
    var p := site.FileOf(k);
    ForValid(site, p);
    assert k in site.For(p).keys && l in site.For(p).keys;
    ViolationLifts(site, p, t);
  }

  // ----- which files are there

  /** The keys that hold a value. */
  function Stored(m: Mount, keys: set<Path>): set<Path> {
    set p | p in keys && BlobAt(m.files, p).Some?
  }

  /** Every file on the mount belongs to one of the keys, and value files are blobs. */
  ghost predicate OnlyKeyFiles(m: Mount, keys: set<Path>)
    requires PlainKeys(keys)
  {
    && (forall f :: f in m.files ==> exists p :: p in keys && f in SlotsOf(p).All())
    && (forall p :: p in keys && p in m.files ==> m.files[p].Blob?)
  }

  lemma OnlyKeyFilesMove(site: Site, m: Mount, v: Move)
    requires site.Plain() && OnlyKeyFiles(m, site.Paths()) && CanMove(site, m, v)
    ensures OnlyKeyFiles(DoMove(site, m, v), site.Paths())
  {
    if v.On? {
      var p := site.FileOf(v.k);
      WriteKeepsFiles(site.root, m, site.Paths(), p, Do(site.For(p), Project(site.root, m, p), v.a));
    }
  }

  lemma WriteKeepsFiles(root: Path, m: Mount, keys: set<Path>, p: Path, s: State)
    requires PlainKeys(keys) && OnlyKeyFiles(m, keys) && p in keys
    ensures OnlyKeyFiles(Embed(root, m, p, s), keys)
  {
    var k, m' := SlotsOf(p), Embed(root, m, p, s);
    forall f | f in m'.files
      ensures exists q :: q in keys && f in SlotsOf(q).All()
    {
      assert f in m.files || f in k.All();
    }
    forall q | q in keys && q in m'.files
      ensures m'.files[q].Blob?
    {
      if q == p {
        SlotsDistinct(p);
        ValueSlotIsBlob(m.files, k, s);
      } else {
        PlainKeysDisjoint(p, q);
        assert q in SlotsOf(q).All() && q !in k.All();
      }
    }
  }

  lemma ValueNeverLock(k: Slots, s: State)
    requires k.Distinct() && k.value in FilesAt(k, s)
    ensures FilesAt(k, s)[k.value].Blob?
  {
    assert k.value !in OneLock(k.lock, s.lockFile) && k.value !in OneBlob(k.tmp, s.tmp);
  }

  lemma ValueSlotIsBlob(files: map<Path, File>, k: Slots, s: State)
    requires k.Distinct() && k.value in Replace(files, k.All(), FilesAt(k, s))
    ensures Replace(files, k.All(), FilesAt(k, s))[k.value].Blob?
  {
    LookupValue(files, k, s);
    ValueNeverLock(k, s);
  }

  lemma {:induction false} OnlyKeyFilesRun(site: Site, m: Mount, vs: seq<Move>)
    requires site.Plain() && OnlyKeyFiles(m, site.Paths()) && MountRun(site, m, vs)
    ensures OnlyKeyFiles(MountAfter(site, m, vs), site.Paths())
    decreases |vs|
  {
    if vs != [] {
      OnlyKeyFilesMove(site, m, vs[0]);
      OnlyKeyFilesRun(site, DoMove(site, m, vs[0]), vs[1..]);
    }
  }

  /** A file of a key is either its value or internal. */
  lemma SlotKind(p: Path, f: Path)
    requires IsFile(p) && f in SlotsOf(p).All()
    ensures f == p || (IsFile(f) && Internal(f))
  {
    InternalFiles(p);
  }

  lemma ListedIsStored(m: Mount, keys: set<Path>, f: Path)
    requires PlainKeys(keys) && OnlyKeyFiles(m, keys)
    requires f in m.files && IsFile(f) && !Internal(f)
    ensures f in keys && BlobAt(m.files, f).Some?
  {
    var p :| p in keys && f in SlotsOf(p).All();
    SlotKind(p, f);
  }
}
