/** The loop both rename scripts share: every listed file is kept, left as unknown, or moved to
    the name a plan gives it unless that name is taken. */
module Migration {
  import opened Options

  type Name = string
  type Dir = map<Name, Bytes>

  datatype Plan =
    | Keep          // already canonical
    | Unknown       // no canonical name known
    | To(target: Name)

  datatype Tally = Tally(renamed: nat, skipped: nat, unknown: nat)

  /** The target is another existing file. */
  predicate Taken(dir: Dir, f: Name, t: Name) {
    t in dir && t != f
  }

  function Move(plan: Name -> Plan, dir: Dir, f: Name): Dir
    requires f in dir
  {
    match plan(f)
    case To(t) => if Taken(dir, f, t) then dir else (dir - {f})[t := dir[f]]
    case _ => dir
  }

  function Count(plan: Name -> Plan, dir: Dir, f: Name, c: Tally): Tally {
    match plan(f)
    case Keep => c.(skipped := c.skipped + 1)
    case Unknown => c.(unknown := c.unknown + 1)
    case To(t) => if Taken(dir, f, t) then c.(unknown := c.unknown + 1) else c.(renamed := c.renamed + 1)
  }

  /** The files of a listing exist and are listed once. */
  predicate Listed(dir: Dir, files: seq<Name>) {
    && (forall i :: 0 <= i < |files| ==> files[i] in dir)
    && (forall i, j :: 0 <= i < j < |files| ==> files[i] != files[j])
  }

  lemma ListedRest(plan: Name -> Plan, dir: Dir, files: seq<Name>)
    requires Listed(dir, files) && files != []
    ensures Listed(Move(plan, dir, files[0]), files[1..]) && Listed(dir, files[1..])
  {
  }

  /** A live run. */
  function Migrate(plan: Name -> Plan, dir: Dir, files: seq<Name>): Dir
    requires Listed(dir, files)
    decreases |files|
  {
    if files == [] then dir
    else
      ListedRest(plan, dir, files);
      Migrate(plan, Move(plan, dir, files[0]), files[1..])
  }

  function Tallied(plan: Name -> Plan, dir: Dir, files: seq<Name>, c: Tally): Tally
    requires Listed(dir, files)
    decreases |files|
  {
    if files == [] then c
    else
      ListedRest(plan, dir, files);
      Tallied(plan, Move(plan, dir, files[0]), files[1..], Count(plan, dir, files[0], c))
  }

  function MoveOf(plan: Name -> Plan, f: Name): seq<(Name, Name)> {
    if plan(f).To? then [(f, plan(f).target)] else []
  }

  /** The files of a listing that a plan moves, with their targets. */
  function Moves(plan: Name -> Plan, files: seq<Name>): seq<(Name, Name)>
    decreases |files|
  {
    if files == [] then [] else MoveOf(plan, files[0]) + Moves(plan, files[1..])
  }

  lemma Associates(a: seq<(Name, Name)>, b: seq<(Name, Name)>, c: seq<(Name, Name)>)
    ensures a + b + c == a + (b + c)
  {
  }

  lemma {:induction false} MovesConcat(plan: Name -> Plan, a: seq<Name>, b: seq<Name>)
    ensures Moves(plan, a + b) == Moves(plan, a) + Moves(plan, b)
    decreases |a|
  {
    if a == [] {
      assert a + b == b;
    } else {
      assert (a + b)[0] == a[0] && (a + b)[1..] == a[1..] + b;
      MovesConcat(plan, a[1..], b);
      Associates(MoveOf(plan, a[0]), Moves(plan, a[1..]), Moves(plan, b));
    }
  }

  lemma MovesNext(plan: Name -> Plan, files: seq<Name>, f: Name)
    ensures Moves(plan, files + [f]) == Moves(plan, files) + MoveOf(plan, f)
  {
    MovesConcat(plan, files, [f]);
    assert [f][1..] == [] && Moves(plan, []) == [];
    assert Moves(plan, [f]) == MoveOf(plan, f) + [];
  }

  lemma {:induction false} MovesAre(plan: Name -> Plan, files: seq<Name>)
    ensures forall f, t :: (f, t) in Moves(plan, files) <==> f in files && plan(f) == To(t)
    decreases |files|
  {
    if files != [] {
      MovesAre(plan, files[1..]);
      assert files == [files[0]] + files[1..];
    }
  }

  /** How many of the files have a property. */
  function Number(files: seq<Name>, p: Name -> bool): nat
    decreases |files|
  {
    if files == [] then 0
    else Number(files[..|files| - 1], p) + if p(files[|files| - 1]) then 1 else 0
  }

  lemma NumberNext(files: seq<Name>, i: nat, p: Name -> bool)
    requires i < |files|
    ensures Number(files[..i + 1], p) == Number(files[..i], p) + if p(files[i]) then 1 else 0
  {
    assert files[..i + 1][..i] == files[..i];
  }

  function IsKept(plan: Name -> Plan): Name -> bool {
    f => plan(f).Keep?
  }

  /** The plan gives the file a name that is free, or its own, in the directory as it is. */
  function CanMove(plan: Name -> Plan, dir: Dir): Name -> bool {
    f => plan(f).To? && (plan(f).target in dir ==> plan(f).target == f)
  }

  class Folder {
    var dir: Dir

    constructor (dir: Dir)
      ensures this.dir == dir
    {
      this.dir := dir;
    }

    /** One round of the rename loop of `main`. */
    method RenameOne(plan: Name -> Plan, f: Name, dry: bool, was: Tally) returns (c: Tally)
      requires f in dir
      modifies this
      ensures dir == if dry then old(dir) else Move(plan, old(dir), f)
      ensures c == Count(plan, old(dir), f, was)
    {
      match plan(f) {
        case Keep => return was.(skipped := was.skipped + 1);
        case Unknown => return was.(unknown := was.unknown + 1);
        case To(t) =>
          if t in dir && t != f {
            return was.(unknown := was.unknown + 1);
          }
          if !dry {
            dir := (dir - {f})[t := dir[f]];
          }
          return was.(renamed := was.renamed + 1);
      }
    }

    /** The rename loop; a dry run only counts. */
    method Run(plan: Name -> Plan, files: seq<Name>, dry: bool) returns (c: Tally)
      requires Listed(dir, files)
      modifies this
      ensures dry ==> dir == old(dir)
      ensures !dry ==> dir == Migrate(plan, old(dir), files) && c == Tallied(plan, old(dir), files, Tally(0, 0, 0))
      ensures c.renamed + c.skipped + c.unknown == |files| && c.skipped == Number(files, IsKept(plan))
      ensures dry ==> c.renamed == Number(files, CanMove(plan, dir))
    {
      c := Tally(0, 0, 0);
      for i := 0 to |files|
        invariant dry ==> dir == old(dir)
        invariant Listed(dir, files[i..])
        invariant !dry ==> Migrate(plan, dir, files[i..]) == Migrate(plan, old(dir), files)
        invariant !dry ==> Tallied(plan, dir, files[i..], c) == Tallied(plan, old(dir), files, Tally(0, 0, 0))
        invariant c.renamed + c.skipped + c.unknown == i && c.skipped == Number(files[..i], IsKept(plan))
        invariant dry ==> c.renamed == Number(files[..i], CanMove(plan, dir))
      {
        NumberNext(files, i, IsKept(plan));
        NumberNext(files, i, CanMove(plan, dir));
        assert files[i..][0] == files[i] && files[i..][1..] == files[i + 1..];
        ListedRest(plan, dir, files[i..]);
        c := RenameOne(plan, files[i], dry, c);
      }
      assert files[..|files|] == files;
    }
  }

  // ----- conservation

  /** Every file of `a` is found in `b`, unchanged, under its name in `w`. */
  ghost predicate Keeps(a: Dir, b: Dir, w: map<Name, Name>) {
    w.Keys == a.Keys && forall n :: n in w ==> n in a && w[n] in b && b[w[n]] == a[n]
  }

  ghost predicate OneToOne(w: map<Name, Name>) {
    forall m, n :: m in w && n in w && w[m] == w[n] ==> m == n
  }

  /** `b` has no other files. */
  ghost predicate Onto(b: Dir, w: map<Name, Name>) {
    forall k :: k in b ==> exists n :: n in w && w[n] == k
  }

  /** `w` says under which name each file is found afterwards: every file of `a` is one file of
      `b` with the same contents, and `b` has no others. */
  ghost predicate Rearranged(a: Dir, b: Dir, w: map<Name, Name>) {
    Keeps(a, b, w) && OneToOne(w) && Onto(b, w)
  }

  function Follow(v: map<Name, Name>, w: map<Name, Name>): map<Name, Name> {
    map n | n in v && v[n] in w :: w[v[n]]
  }

  lemma KeepsTwice(a: Dir, b: Dir, c: Dir, v: map<Name, Name>, w: map<Name, Name>)
    requires Keeps(a, b, v) && Keeps(b, c, w)
    ensures Keeps(a, c, Follow(v, w))
  {
    assert forall n :: n in v ==> v[n] in w;
  }

  lemma OneToOneTwice(v: map<Name, Name>, w: map<Name, Name>)
    requires OneToOne(v) && OneToOne(w)
    ensures OneToOne(Follow(v, w))
  {
  }

  lemma OntoTwice(a: Dir, b: Dir, c: Dir, v: map<Name, Name>, w: map<Name, Name>)
    requires Keeps(b, c, w) && Onto(b, v) && Onto(c, w)
    ensures Onto(c, Follow(v, w))
  {
    forall k | k in c
      ensures exists n :: n in Follow(v, w) && Follow(v, w)[n] == k
    {
      var m :| m in w && w[m] == k;
      var n :| n in v && v[n] == m;
      assert Follow(v, w)[n] == k;
    }
  }

  lemma RearrangedTwice(a: Dir, b: Dir, c: Dir, v: map<Name, Name>, w: map<Name, Name>)
    requires Rearranged(a, b, v) && Rearranged(b, c, w)
    ensures Rearranged(a, c, Follow(v, w))
  {
    KeepsTwice(a, b, c, v, w);
    OneToOneTwice(v, w);
    OntoTwice(a, b, c, v, w);
  }

  /** Where one move puts each file. */
  function MovedBy(plan: Name -> Plan, dir: Dir, f: Name): map<Name, Name>
    requires f in dir
  {
    var same := map n | n in dir :: n;
    if plan(f).To? && !Taken(dir, f, plan(f).target) then same[f := plan(f).target] else same
  }

  lemma MoveRearranges(plan: Name -> Plan, dir: Dir, f: Name) returns (w: map<Name, Name>)
    requires f in dir
    ensures Rearranged(dir, Move(plan, dir, f), w) && w == MovedBy(plan, dir, f)
  {
    w := MovedBy(plan, dir, f);
    var dir' := Move(plan, dir, f);
    forall k | k in dir'
      ensures exists n :: n in w && w[n] == k
    {
      if k in dir && w[k] == k {
      } else {
        assert w[f] == k;
      }
    }
  }

  /** A file keeps its name or, if it is listed, gets the one that the plan gives it. */
  ghost predicate AsPlanned(plan: Name -> Plan, files: seq<Name>, w: map<Name, Name>) {
    forall n :: n in w ==> w[n] == n || (n in files && plan(n) == To(w[n]))
  }

  lemma AsPlannedOn(plan: Name -> Plan, dir: Dir, files: seq<Name>, v: map<Name, Name>, u: map<Name, Name>)
    requires Listed(dir, files) && files != [] && v.Keys == dir.Keys
    requires v == MovedBy(plan, dir, files[0]) && AsPlanned(plan, files[1..], u)
    ensures AsPlanned(plan, files, Follow(v, u))
  {
    var f := files[0];
    assert files == [f] + files[1..];
    forall n | n in Follow(v, u)
      ensures Follow(v, u)[n] == n || (n in files && plan(n) == To(Follow(v, u)[n]))
    {
      assert v[n] in u;
      if n == f {
        assert v[f] !in files[1..];
      }
    }
  }

  /** A live run loses, invents and overwrites nothing, whatever names collide: each file is
      afterwards found, unchanged, under one name of its own, its old one or the planned one. */
  lemma {:induction false} MigrateRearranges(plan: Name -> Plan, dir: Dir, files: seq<Name>)
    returns (w: map<Name, Name>)
    requires Listed(dir, files)
    ensures Rearranged(dir, Migrate(plan, dir, files), w) && AsPlanned(plan, files, w)
    decreases |files|
  {
    if files == [] {
      w := map n | n in dir :: n;
      forall k | k in dir
        ensures exists n :: n in w && w[n] == k
      {
        assert w[k] == k;
      }
    } else {
      ListedRest(plan, dir, files);
      var v := MoveRearranges(plan, dir, files[0]);
      var u := MigrateRearranges(plan, Move(plan, dir, files[0]), files[1..]);
      RearrangedTwice(dir, Move(plan, dir, files[0]), Migrate(plan, dir, files), v, u);
      w := Follow(v, u);
      AsPlannedOn(plan, dir, files, v, u);
    }
  }

  /** A file that is not listed stays. */
  lemma {:induction false} UnlistedKept(plan: Name -> Plan, dir: Dir, files: seq<Name>, k: Name)
    requires Listed(dir, files) && k in dir && k !in files
    ensures k in Migrate(plan, dir, files) && Migrate(plan, dir, files)[k] == dir[k]
    decreases |files|
  {
    if files != [] {
      ListedRest(plan, dir, files);
      assert files == [files[0]] + files[1..];
      UnlistedKept(plan, Move(plan, dir, files[0]), files[1..], k);
    }
  }

  /** A listed file whose planned name is free, and planned for no other listed file, gets it. */
  lemma {:induction false} FreeTargetsReached(plan: Name -> Plan, dir: Dir, files: seq<Name>, n: Name, t: Name)
    requires Listed(dir, files) && n in files && plan(n) == To(t) && !(t in dir && t != n)
    requires forall m :: m in files && m != n ==> plan(m) != To(t)
    ensures t in Migrate(plan, dir, files) && Migrate(plan, dir, files)[t] == dir[n]
    ensures t != n ==> n !in Migrate(plan, dir, files) || n in Targets(plan, files)
    decreases |files|
  {
    var f, rest := files[0], files[1..];
    var dir' := Move(plan, dir, f);
    ListedRest(plan, dir, files);
    assert files == [f] + rest;
    if f == n {
      assert dir' == (dir - {n})[t := dir[n]] && t !in rest;
      UnlistedKept(plan, dir', rest, t);
      if t != n && n in Migrate(plan, dir', rest) {
        NewAreTargets(plan, dir', rest, n);
      }
    } else {
      assert dir'[n] == dir[n] && !(t in dir' && t != n);
      FreeTargetsReached(plan, dir', rest, n, t);
    }
  }

  function Targets(plan: Name -> Plan, files: seq<Name>): set<Name> {
    set f | f in files && plan(f).To? :: plan(f).target
  }

  lemma {:induction false} NewAreTargets(plan: Name -> Plan, dir: Dir, files: seq<Name>, k: Name)
    requires Listed(dir, files) && k !in dir && k in Migrate(plan, dir, files)
    ensures k in Targets(plan, files)
    decreases |files|
  {
    if files != [] {
      ListedRest(plan, dir, files);
      assert files == [files[0]] + files[1..];
      if k !in Move(plan, dir, files[0]) {
        NewAreTargets(plan, Move(plan, dir, files[0]), files[1..], k);
      }
    }
  }

  /** All file contents of a directory, with repetitions. */
  ghost function Contents(dir: Dir): multiset<Bytes>
    decreases dir.Keys
  {
    if dir == map[] then multiset{}
    else
      var k :| k in dir;
      Contents(dir - {k}) + multiset{dir[k]}
  }

  lemma {:induction false} ContentsWithout(dir: Dir, k: Name)
    requires k in dir
    ensures Contents(dir) == Contents(dir - {k}) + multiset{dir[k]}
    decreases dir.Keys
  {
    var j :| j in dir && Contents(dir) == Contents(dir - {j}) + multiset{dir[j]};
    if j != k {
      var noJ, noK := dir - {j}, dir - {k};
      assert noJ.Keys == dir.Keys - {j} && noK.Keys == dir.Keys - {k};
      assert noJ - {k} == noK - {j};
      ContentsWithout(noJ, k);
      ContentsWithout(noK, j);
      SwapContents(Contents(noJ - {k}), dir[j], dir[k]);
    }
  }

  lemma SwapContents(m: multiset<Bytes>, x: Bytes, y: Bytes)
    ensures m + multiset{y} + multiset{x} == m + multiset{x} + multiset{y}
  {
  }

  lemma RenameKeepsContents(dir: Dir, f: Name, t: Name)
    requires f in dir && !Taken(dir, f, t)
    ensures Contents((dir - {f})[t := dir[f]]) == Contents(dir)
  {
    var less := dir - {f};
    assert t !in less;
    assert less[t := dir[f]] - {t} == less;
    ContentsWithout(dir, f);
    ContentsWithout(less[t := dir[f]], t);
  }

  lemma MoveKeepsContents(plan: Name -> Plan, dir: Dir, f: Name)
    requires f in dir
    ensures Contents(Move(plan, dir, f)) == Contents(dir)
  {
    if plan(f).To? && !Taken(dir, f, plan(f).target) {
      RenameKeepsContents(dir, f, plan(f).target);
    }
  }

  /** A live run preserves the multiset of file contents. */
  lemma {:induction false} MigrateKeepsContents(plan: Name -> Plan, dir: Dir, files: seq<Name>)
    requires Listed(dir, files)
    ensures Contents(Migrate(plan, dir, files)) == Contents(dir)
    decreases |files|
  {
    if files != [] {
      ListedRest(plan, dir, files);
      MoveKeepsContents(plan, dir, files[0]);
      MigrateKeepsContents(plan, Move(plan, dir, files[0]), files[1..]);
    }
  }

  // ----- running again

  /** `files` lists the candidates of a directory, in any order. */
  ghost predicate Lists(dir: Dir, candidate: Name -> bool, files: seq<Name>) {
    && Listed(dir, files)
    && forall n :: n in files <==> n in dir && candidate(n)
  }

  /** A run on the result of a run changes nothing, in any directory and any order of files. */
  ghost predicate SecondRunIdle(plan: Name -> Plan, candidate: Name -> bool) {
    forall dir, files, again ::
      Lists(dir, candidate, files) && Lists(Migrate(plan, dir, files), candidate, again)
      ==> Migrate(plan, Migrate(plan, dir, files), again) == Migrate(plan, dir, files)
  }

  /** No name that a candidate is moved to is itself moved elsewhere. */
  ghost predicate TargetsStay(plan: Name -> Plan, candidate: Name -> bool) {
    forall f :: candidate(f) && plan(f).To? && plan(f).target != f && candidate(plan(f).target)
      ==> var t := plan(f).target; plan(t).To? ==> plan(t).target == t
  }

  /** A run would leave `n` where it is. */
  predicate Stays(plan: Name -> Plan, dir: Dir, n: Name) {
    plan(n).To? ==> plan(n).target in dir
  }

  ghost predicate RestStays(plan: Name -> Plan, candidate: Name -> bool, dir: Dir, files: seq<Name>) {
    forall n :: n in dir && candidate(n) && n !in files ==> Stays(plan, dir, n)
  }

  lemma MoveRestStays(plan: Name -> Plan, candidate: Name -> bool, dir: Dir, files: seq<Name>)
    requires TargetsStay(plan, candidate) && Listed(dir, files) && files != []
    requires RestStays(plan, candidate, dir, files) && forall n :: n in files ==> candidate(n)
    ensures RestStays(plan, candidate, Move(plan, dir, files[0]), files[1..])
  {
    var f := files[0];
    assert f in files && files == [f] + files[1..];
    var dir' := Move(plan, dir, f);
    forall n | n in dir' && candidate(n) && n !in files[1..]
      ensures Stays(plan, dir', n)
    {
      if n != f && n in dir {
        assert n !in files;
        assert Stays(plan, dir, n);
      }
    }
  }

  lemma {:induction false} MigrateStays(plan: Name -> Plan, candidate: Name -> bool, dir: Dir, files: seq<Name>)
    requires TargetsStay(plan, candidate) && Listed(dir, files)
    requires RestStays(plan, candidate, dir, files) && forall n :: n in files ==> candidate(n)
    ensures RestStays(plan, candidate, Migrate(plan, dir, files), [])
    decreases |files|
  {
    if files != [] {
      ListedRest(plan, dir, files);
      MoveRestStays(plan, candidate, dir, files);
      MigrateStays(plan, candidate, Move(plan, dir, files[0]), files[1..]);
    }
  }

  lemma {:induction false} StayingIdle(plan: Name -> Plan, dir: Dir, files: seq<Name>)
    requires Listed(dir, files) && forall n :: n in files ==> Stays(plan, dir, n)
    ensures Migrate(plan, dir, files) == dir
    decreases |files|
  {
    if files != [] {
      ListedRest(plan, dir, files);
      assert files[0] in files && Stays(plan, dir, files[0]);
      assert Move(plan, dir, files[0]) == dir;
      StayingIdle(plan, dir, files[1..]);
    }
  }

  lemma MovesOn(plan: Name -> Plan, candidate: Name -> bool, f: Name)
    requires candidate(f) && plan(f).To? && plan(f).target != f && candidate(plan(f).target)
    requires var t := plan(f).target; plan(t).To? && plan(t).target != t
    ensures !SecondRunIdle(plan, candidate)
  {
    var t := plan(f).target;
    var dir, dir': Dir := map[f := []], map[t := []];
    assert Move(plan, dir, f) == dir' && [f][1..] == [] && [t][1..] == [];
    assert Migrate(plan, dir, [f]) == dir';
    assert Lists(dir, candidate, [f]) && Lists(dir', candidate, [t]);
    assert Migrate(plan, dir', [t]) == Move(plan, dir', t);
    assert plan(t).target in Move(plan, dir', t);
  }

  /** A second run is idle, in every directory, exactly when no target is moved elsewhere. */
  lemma SecondRunIdleExactlyWhen(plan: Name -> Plan, candidate: Name -> bool)
    ensures SecondRunIdle(plan, candidate) <==> TargetsStay(plan, candidate)
  {
    if TargetsStay(plan, candidate) {
      forall dir, files, again | Lists(dir, candidate, files) && Lists(Migrate(plan, dir, files), candidate, again)
        ensures Migrate(plan, Migrate(plan, dir, files), again) == Migrate(plan, dir, files)
      {
        MigrateStays(plan, candidate, dir, files);
        StayingIdle(plan, Migrate(plan, dir, files), again);
      }
    } else {
      var f :| candidate(f) && plan(f).To? && plan(f).target != f && candidate(plan(f).target)
               && !(var t := plan(f).target; plan(t).To? ==> plan(t).target == t);
      MovesOn(plan, candidate, f);
    }
  }
}
