/** The migration of Tailscale state files: node names and the plan of the rename loop. Paths are
    relative to the drive root. */
module TsStates {
  import opened Options
  import opened Migration

  const STATE: string := ".state"
  const TS_DIR: string := "ts_states/"

  // ----- _normalise_node_name

  /** The first matching pattern of the prefix map wins. `$` also matches before a final line break. */
  function NormaliseNode(raw: string): string {
    if "xiobr--" <= raw then "xiosync--" + raw[7..]
    else if "xiogrid--" <= raw then "xiosync--" + raw[9..]
    else if raw == "colab-master" || raw == "colab-master\n" then "xiosync--default--worker" + raw[12..]
    else if "colab-" <= raw then "xiosync--default--" + raw[6..]
    else raw
  }

  predicate LegacyNode(raw: string) {
    "xiobr--" <= raw || "xiogrid--" <= raw || "colab-" <= raw
  }

  lemma SyncIsCanonical(rest: string)
    ensures !LegacyNode("xiosync--" + rest) && !LegacyNode("xiosync--default--" + rest)
    ensures !LegacyNode("xiosync--default--worker" + rest)
  {
    assert "xiosync--"[3] == 's' && "xiobr--"[3] == 'b' && "xiogrid--"[3] == 'g' && "colab-"[0] == 'c';
  }

  /** Normalising is idempotent, and changes exactly the names with a legacy prefix. */
  lemma NormaliseFixedExactlyWhen(raw: string)
    ensures NormaliseNode(NormaliseNode(raw)) == NormaliseNode(raw)
    ensures NormaliseNode(raw) == raw <==> !LegacyNode(raw)
  {
    assert "colab-master"[..6] == "colab-" && "colab-master\n"[..6] == "colab-";
    if LegacyNode(raw) {
      if "xiobr--" <= raw {
        SyncIsCanonical(raw[7..]);
      } else if "xiogrid--" <= raw {
        SyncIsCanonical(raw[9..]);
      } else if raw == "colab-master" || raw == "colab-master\n" {
        SyncIsCanonical(raw[12..]);
      } else {
        SyncIsCanonical(raw[6..]);
      }
    }
  }

  /** What the legacy names become. */
  lemma NormaliseSpelled(rest: string)
    ensures NormaliseNode("xiobr--" + rest) == "xiosync--" + rest
    ensures NormaliseNode("xiogrid--" + rest) == "xiosync--" + rest
    ensures rest != "master" && rest != "master\n" ==> NormaliseNode("colab-" + rest) == "xiosync--default--" + rest
    ensures NormaliseNode("colab-master") == "xiosync--default--worker"
  {
    assert ("xiobr--" + rest)[7..] == rest && ("xiogrid--" + rest)[9..] == rest && ("colab-" + rest)[6..] == rest;
    assert "xiogrid--"[3] != "xiobr--"[3] && "colab-"[0] != "xiobr--"[0] && "colab-"[0] != "xiogrid--"[0];
    assert "colab-master"[6..] == "master" && "colab-master\n"[6..] == "master\n";
  }

  // ----- _gather

  predicate EndsWithState(name: string) {
    |name| >= |STATE| && name[|name| - |STATE|..] == STATE
  }

  /** The part of a path after `ts_states/`, or the path itself. */
  function FileName(path: Name): string {
    if TS_DIR <= path then path[|TS_DIR|..] else path
  }

  /** A state file of the drive root, or one of ts_states/ that is not canonical yet. */
  predicate Candidate(path: Name) {
    && '/' !in FileName(path)
    && EndsWithState(FileName(path))
    && !(TS_DIR <= path && "TS_" <= FileName(path))
  }

  /** Path.stem of a name that ends in `.state`; a leading dot starts no suffix. */
  function StateStem(name: string): string
    requires EndsWithState(name)
  {
    if |name| > |STATE| then name[..|name| - |STATE|] else name
  }

  function KeyOf(name: string): Name
    requires EndsWithState(name)
  {
    TS_DIR + "TS_" + NormaliseNode(StateStem(name)) + STATE
  }

  function CanonicalKey(path: Name): Name
    requires EndsWithState(FileName(path))
  {
    KeyOf(FileName(path))
  }

  function PlanFor(path: Name): Plan {
    if Candidate(path) then To(CanonicalKey(path)) else Keep
  }

  predicate CanonicalFile(name: string) {
    "TS_" <= name
  }

  function InSub(names: seq<string>): (r: seq<Name>)
    ensures |r| == |names|
  {
    seq(|names|, i requires 0 <= i < |names| => TS_DIR + names[i])
  }

  predicate FileNames(names: seq<string>) {
    forall i :: 0 <= i < |names| ==> '/' !in names[i]
  }

  lemma RootFile(name: string)
    requires '/' !in name
    ensures FileName(name) == name && !(TS_DIR <= name)
    ensures Candidate(name) <==> EndsWithState(name)
  {
    assert TS_DIR[9] == '/';
  }

  lemma SubFile(name: string)
    requires '/' !in name
    ensures FileName(TS_DIR + name) == name
    ensures Candidate(TS_DIR + name) <==> EndsWithState(name) && !CanonicalFile(name)
  {
  }

  /** What the first scan makes of one name. */
  function SubMove(name: string): seq<(Name, Name)> {
    if EndsWithState(name) && !CanonicalFile(name) then [(TS_DIR + name, KeyOf(name))] else []
  }

  lemma SubMoves(name: string)
    requires '/' !in name
    ensures MoveOf(PlanFor, TS_DIR + name) == SubMove(name)
  {
    SubFile(name);
  }

  lemma InSubNext(names: seq<string>, i: nat)
    requires i < |names|
    ensures InSub(names[..i + 1]) == InSub(names[..i]) + [TS_DIR + names[i]]
  {
  }

  lemma SubNext(names: seq<string>, i: nat)
    requires i < |names| && '/' !in names[i]
    ensures Moves(PlanFor, InSub(names[..i + 1])) == Moves(PlanFor, InSub(names[..i])) + SubMove(names[i])
  {
    SubMoves(names[i]);
    MovesNext(PlanFor, InSub(names[..i]), TS_DIR + names[i]);
    InSubNext(names, i);
  }

  /** What the second scan makes of one name. */
  function RootMove(name: string): seq<(Name, Name)> {
    if EndsWithState(name) then [(name, KeyOf(name))] else []
  }

  lemma RootMoves(name: string)
    requires '/' !in name
    ensures MoveOf(PlanFor, name) == RootMove(name)
  {
    RootFile(name);
  }

  lemma PrefixNext(names: seq<string>, i: nat)
    requires i < |names|
    ensures names[..i + 1] == names[..i] + [names[i]]
  {
  }

  lemma RootNext(names: seq<string>, i: nat)
    requires i < |names| && '/' !in names[i]
    ensures Moves(PlanFor, names[..i + 1]) == Moves(PlanFor, names[..i]) + RootMove(names[i])
  {
    RootMoves(names[i]);
    MovesNext(PlanFor, names[..i], names[i]);
    PrefixNext(names, i);
  }

  /** The scan of ts_states/. */
  method GatherSub(names: seq<string>) returns (found: seq<(Name, Name)>)
    requires FileNames(names)
    ensures found == Moves(PlanFor, InSub(names))
  {
    found := [];
    for i := 0 to |names|
      invariant found == Moves(PlanFor, InSub(names[..i]))
    {
      SubNext(names, i);
      if EndsWithState(names[i]) && !CanonicalFile(names[i]) {
        found := found + [(TS_DIR + names[i], KeyOf(names[i]))];
      }
    }
    assert names[..|names|] == names;
  }

  /** The scan of the drive root. */
  method GatherRoot(names: seq<string>) returns (found: seq<(Name, Name)>)
    requires FileNames(names)
    ensures found == Moves(PlanFor, names)
  {
    found := [];
    for i := 0 to |names|
      invariant found == Moves(PlanFor, names[..i])
    {
      RootNext(names, i);
      if EndsWithState(names[i]) {
        found := found + [(names[i], KeyOf(names[i]))];
      }
    }
    assert names[..|names|] == names;
  }

  /** Candidates of ts_states/ first, then those of the drive root, each in the order of its sorted
      listing; `sub` is None when ts_states/ does not exist. */
  method Gather(sub: Option<seq<string>>, root: seq<string>) returns (candidates: seq<(Name, Name)>)
    requires (sub.Some? ==> FileNames(sub.value)) && FileNames(root)
    ensures candidates == Moves(PlanFor, (if sub.Some? then InSub(sub.value) else []) + root)
  {
    candidates := [];
    if sub.Some? {
      candidates := GatherSub(sub.value);
    }
    var atRoot := GatherRoot(root);
    MovesConcat(PlanFor, if sub.Some? then InSub(sub.value) else [], root);
    candidates := candidates + atRoot;
  }

  /** No canonical key needs renaming again. */
  lemma CanonicalKeyStays(path: Name)
    requires Candidate(path)
    ensures !Candidate(CanonicalKey(path))
  {
    var key := CanonicalKey(path);
    var rest := "TS_" + NormaliseNode(StateStem(FileName(path))) + STATE;
    assert key == TS_DIR + rest;
    assert FileName(key) == rest;
    assert "TS_" <= rest;
  }

  /** Running the migration again is idle, in every directory, even where legacy names collide. */
  lemma StatesIdle()
    ensures SecondRunIdle(PlanFor, Candidate)
  {
    forall f | Candidate(f)
      ensures !Candidate(CanonicalKey(f))
    {
      CanonicalKeyStays(f);
    }
    SecondRunIdleExactlyWhen(PlanFor, Candidate);
  }

  /** After a live run over all candidates, every state file that is still a candidate lost its
      canonical key to another file, and every file's contents are kept. */
  lemma LeftoversConflict(dir: Dir, files: seq<Name>) returns (w: map<Name, Name>)
    requires Lists(dir, Candidate, files)
    ensures forall n :: n in Migrate(PlanFor, dir, files) && Candidate(n) ==>
              CanonicalKey(n) in Migrate(PlanFor, dir, files)
    ensures Rearranged(dir, Migrate(PlanFor, dir, files), w)
  {
    forall f | Candidate(f)
      ensures !Candidate(CanonicalKey(f))
    {
      CanonicalKeyStays(f);
    }
    MigrateStays(PlanFor, Candidate, dir, files);
    forall n | n in Migrate(PlanFor, dir, files) && Candidate(n)
      ensures CanonicalKey(n) in Migrate(PlanFor, dir, files)
    {
      assert Stays(PlanFor, Migrate(PlanFor, dir, files), n);
    }
    w := MigrateRearranges(PlanFor, dir, files);
  }

  // ----- which names collide

  /** The state file of a node. */
  function StateFile(node: string): string {
    node + STATE
  }

  lemma KeyOfFile(node: string)
    requires node != ""
    ensures EndsWithState(StateFile(node)) && KeyOf(StateFile(node)) == TS_DIR + "TS_" + NormaliseNode(node) + STATE
  {
    var name := StateFile(node);
    assert name[|name| - |STATE|..] == STATE && name[..|name| - |STATE|] == node;
  }

  /** A leading dot starts no suffix. */
  lemma DotStateKept()
    ensures EndsWithState(".state") && KeyOf(".state") == "ts_states/TS_.state.state"
  {
    assert "xiobr--"[0] != '.' && "xiogrid--"[0] != '.' && "colab-"[0] != '.' && ".state"[0] == '.';
    assert !LegacyNode(".state") && NormaliseNode(".state") == ".state";
  }

  lemma SameEnds(head: string, a: string, b: string, tail: string)
    ensures head + a + tail == head + b + tail <==> a == b
  {
    var x, y := head + a + tail, head + b + tail;
    if x == y {
      assert |a| == |b|;
      assert x[|head|..|head| + |a|] == a && y[|head|..|head| + |b|] == b;
    }
  }

  lemma KeysFollowNodes(a: string, b: string)
    requires a != "" && b != ""
    ensures KeyOf(StateFile(a)) == KeyOf(StateFile(b)) <==> NormaliseNode(a) == NormaliseNode(b)
  {
    KeyOfFile(a);
    KeyOfFile(b);
    SameEnds(TS_DIR + "TS_", NormaliseNode(a), NormaliseNode(b), STATE);
  }

  lemma SameTails(head: string, a: string, b: string)
    ensures head + a == head + b <==> a == b
  {
    assert (head + a)[|head|..] == a && (head + b)[|head|..] == b;
  }

  /** Two nodes of one grid keep different canonical keys. */
  lemma GridKeysApart(a: string, b: string)
    ensures KeyOf(StateFile("xiobr--" + a)) == KeyOf(StateFile("xiobr--" + b)) <==> a == b
    ensures KeyOf(StateFile("xiogrid--" + a)) == KeyOf(StateFile("xiogrid--" + b)) <==> a == b
    ensures KeyOf(StateFile("xiobr--" + a)) == KeyOf(StateFile("xiogrid--" + a))
  {
    NormaliseSpelled(a);
    NormaliseSpelled(b);
    SameTails("xiosync--", a, b);
    KeysFollowNodes("xiobr--" + a, "xiobr--" + b);
    KeysFollowNodes("xiogrid--" + a, "xiogrid--" + b);
    KeysFollowNodes("xiobr--" + a, "xiogrid--" + a);
  }

  /** The name that `colab-master` takes. */
  function ColabName(rest: string): string {
    if rest == "master" then "worker" else if rest == "master\n" then "worker\n" else rest
  }

  lemma ColabNormalised(rest: string)
    ensures NormaliseNode("colab-" + rest) == "xiosync--default--" + ColabName(rest)
  {
    NormaliseSpelled(rest);
    MasterNormalised();
  }

  lemma MasterNormalised()
    ensures NormaliseNode("colab-" + "master") == "xiosync--default--" + "worker"
    ensures NormaliseNode("colab-" + "master\n") == "xiosync--default--" + "worker\n"
  {
    assert "colab-" + "master" == "colab-master" && "colab-" + "master\n" == "colab-master\n";
    NormaliseSpelled("master");
    assert "colab-master\n"[12..] == "\n" && "colab-master\n"[0] == 'c';
    assert "xiobr--"[0] == 'x' && "xiogrid--"[0] == 'x';
    assert NormaliseNode("colab-master\n") == "xiosync--default--worker" + "\n";
  }

  /** Two colab nodes get one canonical key exactly when one is the master and the other is called
      `worker`, with or without a line break. */
  lemma ColabKeysMeetExactlyWhen(a: string, b: string)
    requires a != b
    ensures KeyOf(StateFile("colab-" + a)) == KeyOf(StateFile("colab-" + b))
            <==> {a, b} == {"master", "worker"} || {a, b} == {"master\n", "worker\n"}
  {
    ColabNormalised(a);
    ColabNormalised(b);
    KeysFollowNodes("colab-" + a, "colab-" + b);
    SameTails("xiosync--default--", ColabName(a), ColabName(b));
  }
}
