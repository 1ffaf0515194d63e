/** From keys to files: how a key is resolved against the root of the mount, which keys are
    refused, and which files belong to a key. Symbolic links are not modelled. */
module DrivePaths {
  /** An absolute path as its components, the root directory being the empty sequence. */
  type Path = seq<string>

  predicate CleanName(name: string) {
    name != "" && '/' !in name
  }

  predicate Clean(p: Path) {
    forall i :: 0 <= i < |p| ==> CleanName(p[i])
  }

  // ----- resolving a key

  function UpTo(s: string): (r: string)
    ensures r <= s && '/' !in r && (|r| < |s| ==> s[|r|] == '/')
  {
    if s == "" || s[0] == '/' then "" else [s[0]] + UpTo(s[1..])
  }

  function Step(at: Path, name: string): Path {
    if name == "" || name == "." then at
    else if name == ".." then (if at == [] then [] else at[..|at| - 1])
    else at + [name]
  }

  /** Follows the slash-separated names of `key` from a directory. */
  function Walk(at: Path, key: string): (r: Path)
    decreases |key|
  {
    var name := UpTo(key);
    var next := Step(at, name);
    if |name| == |key| then next else Walk(next, key[|name| + 1..])
  }

  /** An absolute key forgets the root. */
  function Resolve(root: Path, key: string): Path {
    Walk(if key != "" && key[0] == '/' then [] else root, key)
  }

  function Render(p: Path): string
    decreases |p|
  {
    if p == [] then "/" else (if |p| == 1 then "" else Render(p[..|p| - 1])) + "/" + p[|p| - 1]
  }

  function StripSlashes(s: string): string
    decreases |s|
  {
    if s != "" && s[|s| - 1] == '/' then StripSlashes(s[..|s| - 1]) else s
  }

  /** The test of _abspath, on strings. */
  predicate Accepts(root: Path, key: string) {
    StripSlashes(Render(root)) + "/" <= Render(Resolve(root, key)) + "/"
  }

  lemma {:induction false} WalkClean(at: Path, key: string)
    requires Clean(at)
    ensures Clean(Walk(at, key))
    decreases |key|
  {
    var name := UpTo(key);
    assert Clean(Step(at, name));
    if |name| < |key| {
      WalkClean(Step(at, name), key[|name| + 1..]);
    }
  }

  /** Every component followed by a slash. */
  function Slashed(p: Path): string
    decreases |p|
  {
    if p == [] then "" else p[0] + "/" + Slashed(p[1..])
  }

  lemma {:induction false} SlashedSnoc(p: Path, name: string)
    ensures Slashed(p + [name]) == Slashed(p) + name + "/"
    decreases |p|
  {
    if p == [] {
      assert [name][1..] == [] && p + [name] == [name];
    } else {
      assert (p + [name])[1..] == p[1..] + [name];
      SlashedSnoc(p[1..], name);
    }
  }

  lemma {:induction false} RenderSlashed(p: Path)
    requires p != []
    ensures Render(p) + "/" == "/" + Slashed(p)
    decreases |p|
  {
    var init, name := p[..|p| - 1], p[|p| - 1];
    assert p == init + [name];
    SlashedSnoc(init, name);
    if |p| > 1 {
      RenderSlashed(init);
      assert Render(p) + "/" == (Render(init) + "/") + (name + "/");
      assert "/" + Slashed(p) == ("/" + Slashed(init)) + (name + "/");
    } else {
      assert init == [] && Slashed(init) == "";
    }
  }

  lemma RootPrefix(root: Path)
    requires Clean(root)
    ensures StripSlashes(Render(root)) + "/" == "/" + Slashed(root)
  {
    if root != [] {
      var name := root[|root| - 1];
      assert CleanName(name) && name[|name| - 1] != '/';
      assert Render(root)[|Render(root)| - 1] == name[|name| - 1];
      RenderSlashed(root);
    } else {
      assert StripSlashes("") == "" && "/"[..0] == "";
    }
  }

  /** Slash-free names are delimited by their first slash. */
  lemma NamesDelimited(a: string, b: string, x: string, y: string)
    requires '/' !in a && '/' !in b
    requires a + "/" + x <= b + "/" + y
    ensures a == b && x <= y
  {
    var s, t := a + "/" + x, b + "/" + y;
    assert s[|a|] == '/' && t[|b|] == '/';
    assert a == s[..|a|] == t[..|a|] == b;
    assert x == s[|a| + 1..] && y == t[|a| + 1..];
  }

  lemma {:induction false} SlashedPrefix(p: Path, q: Path)
    requires Clean(p) && Clean(q)
    ensures Slashed(p) <= Slashed(q) <==> p <= q
    decreases |p|
  {
    if p != [] && q != [] {
      var x, y := Slashed(p[1..]), Slashed(q[1..]);
      SlashedPrefix(p[1..], q[1..]);
      assert CleanName(p[0]) && CleanName(q[0]);
      if Slashed(p) <= Slashed(q) {
        NamesDelimited(p[0], q[0], x, y);
        assert p == [p[0]] + p[1..] && q == [q[0]] + q[1..];
      }
      if p <= q {
        assert p[0] == q[0] && p[1..] <= q[1..];
        assert y == x + y[|x|..];
        assert Slashed(q) == Slashed(p) + y[|x|..];
      }
    } else if p != [] {
      assert |Slashed(p)| > 0;
    }
  }

  /** A key is accepted exactly when the components of its resolved path extend the root's, for
      every key with empty, `.`, `..` or absolute parts; a sibling directory whose name merely
      starts with the root's name is refused. */
  lemma AcceptsExactlyInside(root: Path, key: string)
    requires Clean(root)
    ensures Accepts(root, key) <==> root <= Resolve(root, key)
  {
    var p := Resolve(root, key);
    WalkClean(if key != "" && key[0] == '/' then [] else root, key);
    RootPrefix(root);
    SlashedPrefix(root, p);
    if p == [] {
      assert Render(p) + "/" == "//";
      if root != [] {
        assert CleanName(root[0]);
        assert ("/" + Slashed(root))[1] == root[0][0];
      }
    } else {
      RenderSlashed(p);
      assert "/" + Slashed(root) <= "/" + Slashed(p) <==> Slashed(root) <= Slashed(p) by {
        assert ("/" + Slashed(root))[1..] == Slashed(root) && ("/" + Slashed(p))[1..] == Slashed(p);
      }
    }
  }

  // ----- the files of a key

  const LOCK_SUFFIX: string := ".xiolock"
  const TMP_SUFFIX: string := ".xiotmp"

  predicate EndsWith(s: string, suffix: string) {
    |s| >= |suffix| && s[|s| - |suffix|..] == suffix
  }

  /** The index of the last dot, or -1. */
  function LastDot(name: string): (i: int)
    ensures -1 <= i < |name|
    ensures i >= 0 ==> name[i] == '.'
    decreases |name|
  {
    if name == "" then -1 else if name[|name| - 1] == '.' then |name| - 1 else LastDot(name[..|name| - 1])
  }

  /** The suffix of a file name: nothing for names that start or end with their last dot. */
  function Suffix(name: string): string {
    var i := LastDot(name);
    if 0 < i < |name| - 1 then name[i..] else ""
  }

  function WithSuffix(name: string, suffix: string): string {
    name[..|name| - |Suffix(name)|] + suffix
  }

  predicate IsFile(p: Path) {
    p != []
  }

  function Sibling(p: Path, name: string): Path
    requires IsFile(p)
  {
    p[..|p| - 1] + [name]
  }

  function LockPath(p: Path): Path
    requires IsFile(p)
  {
    Sibling(p, p[|p| - 1] + LOCK_SUFFIX)
  }

  function TmpPath(p: Path): Path
    requires IsFile(p)
  {
    Sibling(p, WithSuffix(p[|p| - 1], Suffix(p[|p| - 1]) + TMP_SUFFIX))
  }

  /** Replacing the suffix by itself plus `.xiotmp` appends `.xiotmp`, whatever the name. */
  lemma TmpAppends(p: Path)
    requires IsFile(p)
    ensures TmpPath(p) == Sibling(p, p[|p| - 1] + TMP_SUFFIX)
  {
    var name := p[|p| - 1];
    assert name == name[..|name| - |Suffix(name)|] + Suffix(name);
    assert WithSuffix(name, Suffix(name) + TMP_SUFFIX) == name + TMP_SUFFIX;
  }

  function FilesOf(p: Path): set<Path>
    requires IsFile(p)
  {
    {p, LockPath(p), TmpPath(p)}
  }

  predicate Internal(p: Path)
    requires IsFile(p)
  {
    EndsWith(p[|p| - 1], LOCK_SUFFIX) || EndsWith(p[|p| - 1], TMP_SUFFIX)
  }

  lemma SuffixedDiffer(a: string, b: string)
    ensures a + LOCK_SUFFIX != b + TMP_SUFFIX
    ensures a + LOCK_SUFFIX == b + LOCK_SUFFIX ==> a == b
    ensures a + TMP_SUFFIX == b + TMP_SUFFIX ==> a == b
  {
    var x, y := a + LOCK_SUFFIX, b + TMP_SUFFIX;
    assert x[|x| - 1] == 'k' && y[|y| - 1] == 'p';
    if a + LOCK_SUFFIX == b + LOCK_SUFFIX {
      assert a == (a + LOCK_SUFFIX)[..|a|];
    }
    if a + TMP_SUFFIX == b + TMP_SUFFIX {
      assert a == (a + TMP_SUFFIX)[..|a|];
    }
  }

  lemma SelfSibling(p: Path)
    requires IsFile(p)
    ensures Sibling(p, p[|p| - 1]) == p
  {
  }

  /** A key as its directory and its name, with the three files spelled out. */
  lemma FilesSpelled(p: Path)
    requires IsFile(p)
    ensures var dir, a := p[..|p| - 1], p[|p| - 1];
            FilesOf(p) == {dir + [a], dir + [a + LOCK_SUFFIX], dir + [a + TMP_SUFFIX]}
            && p == dir + [a] && LockPath(p) == dir + [a + LOCK_SUFFIX] && TmpPath(p) == dir + [a + TMP_SUFFIX]
  {
    TmpAppends(p);
    SelfSibling(p);
  }

  lemma NamesDiffer(dir: Path, a: string, other: Path, b: string)
    ensures dir + [a] == other + [b] <==> dir == other && a == b
  {
    var x, y := dir + [a], other + [b];
    if x == y {
      assert x[..|x| - 1] == dir && y[..|y| - 1] == other && x[|x| - 1] == a && y[|y| - 1] == b;
    }
  }

  lemma OwnFilesDiffer(p: Path)
    requires IsFile(p)
    ensures p != LockPath(p) && p != TmpPath(p) && LockPath(p) != TmpPath(p)
  {
    var dir, a := p[..|p| - 1], p[|p| - 1];
    FilesSpelled(p);
    SuffixedDiffer(a, a);
    NamesDiffer(dir, a, dir, a + LOCK_SUFFIX);
    NamesDiffer(dir, a, dir, a + TMP_SUFFIX);
    NamesDiffer(dir, a + LOCK_SUFFIX, dir, a + TMP_SUFFIX);
    assert |a + LOCK_SUFFIX| > |a| && |a + TMP_SUFFIX| > |a|;
  }

  /** Two different keys have different lock and staging files. */
  lemma SideFilesDiffer(p: Path, q: Path)
    requires IsFile(p) && IsFile(q) && p != q
    ensures LockPath(p) != LockPath(q) && TmpPath(p) != TmpPath(q)
    ensures LockPath(p) != TmpPath(q) && TmpPath(p) != LockPath(q)
  {
    var dir, a, other, b := p[..|p| - 1], p[|p| - 1], q[..|q| - 1], q[|q| - 1];
    FilesSpelled(p);
    FilesSpelled(q);
    SuffixedDiffer(a, b);
    SuffixedDiffer(b, a);
    NamesDiffer(dir, a + LOCK_SUFFIX, other, b + LOCK_SUFFIX);
    NamesDiffer(dir, a + TMP_SUFFIX, other, b + TMP_SUFFIX);
    NamesDiffer(dir, a + LOCK_SUFFIX, other, b + TMP_SUFFIX);
    NamesDiffer(dir, a + TMP_SUFFIX, other, b + LOCK_SUFFIX);
  }

  /** The value, staging and lock files of two different keys overlap exactly when one key is the
      other's lock or staging file; the three files of one key always differ. */
  lemma FilesOverlapExactlyWhen(p: Path, q: Path)
    requires IsFile(p) && IsFile(q)
    ensures p != LockPath(p) && p != TmpPath(p) && LockPath(p) != TmpPath(p)
    ensures p != q ==> (!(FilesOf(p) !! FilesOf(q)) <==> q in FilesOf(p) || p in FilesOf(q))
  {
    OwnFilesDiffer(p);
    if p != q {
      SideFilesDiffer(p, q);
      assert p in FilesOf(p) && q in FilesOf(q);
    }
  }

  /** Keys without an internal suffix share no file. */
  lemma PlainKeysDisjoint(p: Path, q: Path)
    requires IsFile(p) && IsFile(q) && !Internal(p) && !Internal(q) && p != q
    ensures FilesOf(p) !! FilesOf(q)
  {
    FilesOverlapExactlyWhen(p, q);
    InternalFiles(p);
    InternalFiles(q);
  }

  lemma InternalFiles(p: Path)
    requires IsFile(p)
    ensures Internal(LockPath(p)) && Internal(TmpPath(p))
  {
    TmpAppends(p);
    var a := p[|p| - 1];
    assert (a + LOCK_SUFFIX)[|a|..] == LOCK_SUFFIX;
    assert (a + TMP_SUFFIX)[|a|..] == TMP_SUFFIX;
  }

  /** The lock and staging files of an accepted key stay inside the root, except for the keys
      that resolve to the root itself: theirs lie beside it. */
  lemma FilesInsideExactlyWhen(root: Path, key: string)
    requires Clean(root) && Accepts(root, key) && IsFile(Resolve(root, key))
    ensures root <= LockPath(Resolve(root, key)) <==> Resolve(root, key) != root
    ensures root <= TmpPath(Resolve(root, key)) <==> Resolve(root, key) != root
  {
    var p := Resolve(root, key);
    AcceptsExactlyInside(root, key);
    TmpAppends(p);
    if p == root {
      assert LockPath(p)[|p| - 1] != p[|p| - 1] && TmpPath(p)[|p| - 1] != p[|p| - 1];
    } else {
      assert root <= p[..|p| - 1];
    }
  }

  // ----- what the parts of a key do

  lemma {:induction false} UpToName(a: string, rest: string)
    requires '/' !in a
    ensures UpTo(a + "/" + rest) == a && UpTo(a) == a
    decreases |a|
  {
    if a != "" {
      assert (a + "/" + rest)[1..] == a[1..] + "/" + rest;
      UpToName(a[1..], rest);
    }
  }

  lemma WalkStep(at: Path, name: string, rest: string)
    requires '/' !in name
    ensures Walk(at, name + "/" + rest) == Walk(Step(at, name), rest) && Walk(at, name) == Step(at, name)
  {
    UpToName(name, rest);
    assert (name + "/" + rest)[|name| + 1..] == rest;
  }

  /** A name that is a component of some resolved path. */
  predicate PlainName(name: string) {
    CleanName(name) && name != "." && name != ".."
  }

  /** `..` undoes the name before it, so that `a/../b` is `b`. */
  lemma ParentUndoes(root: Path, name: string, rest: string)
    requires PlainName(name) && (rest == "" || rest[0] != '/')
    ensures Resolve(root, name + "/../" + rest) == Resolve(root, rest)
  {
    var key := name + "/../" + rest;
    assert key == name + "/" + ("../" + rest) && "../" + rest == ".." + "/" + rest;
    assert key[0] == name[0] && name[0] in name;
    WalkStep(root, name, "../" + rest);
    WalkStep(root + [name], "..", rest);
    assert (root + [name])[..|root|] == root;
  }

  /** A key that leaves the root upwards is accepted exactly when it comes back into it. */
  lemma EscapeRefusedExactlyWhen(root: Path, name: string)
    requires Clean(root) && root != [] && PlainName(name)
    ensures Resolve(root, "../" + name) == root[..|root| - 1] + [name]
    ensures Accepts(root, "../" + name) <==> name == root[|root| - 1]
  {
    var key := "../" + name;
    assert key == ".." + "/" + name;
    WalkStep(root, "..", name);
    WalkStep(root[..|root| - 1], name, "");
    AcceptsExactlyInside(root, key);
    SiblingInside(root, name);
  }

  lemma SiblingInside(root: Path, name: string)
    requires root != []
    ensures root <= root[..|root| - 1] + [name] <==> name == root[|root| - 1]
  {
    var p := root[..|root| - 1] + [name];
    assert |p| == |root| && p[|root| - 1] == name;
    assert root == root[..|root| - 1] + [root[|root| - 1]];
  }

  /** At the top, `..` stays at the top. */
  lemma TopHasNoParent(rest: string)
    ensures Walk([], "../" + rest) == Walk([], rest)
  {
    assert "../" + rest == ".." + "/" + rest;
    WalkStep([], "..", rest);
  }

  /** An absolute key names the same file under every root: the one its parts lead to from the top. */
  lemma AbsoluteForgetsRoot(root: Path, other: Path, rest: string)
    ensures Resolve(root, "/" + rest) == Resolve(other, "/" + rest)
    ensures rest == "" || rest[0] != '/' ==> Resolve(root, "/" + rest) == Resolve([], rest)
    ensures PlainName(rest) ==> Resolve(root, "/" + rest) == [rest]
  {
    assert "/" + rest == "" + "/" + rest;
    WalkStep([], "", rest);
    if PlainName(rest) {
      WalkStep([], rest, "");
    }
  }

  /** Doubled and trailing slashes and `.` change nothing. */
  lemma EmptyPartsIgnored(root: Path, name: string, rest: string)
    requires PlainName(name)
    ensures Resolve(root, name + "//" + rest) == Resolve(root, name + "/./" + rest) == Resolve(root, name + "/" + rest)
    ensures Resolve(root, name + "/") == Resolve(root, name) == root + [name]
  {
    assert name + "//" + rest == name + "/" + ("" + "/" + rest);
    assert name + "/./" + rest == name + "/" + ("." + "/" + rest);
    assert name + "/" == name + "/" + "";
    assert name[0] in name && (name + "/" + rest)[0] == name[0];
    WalkStep(root, name, "" + "/" + rest);
    WalkStep(root, name, "." + "/" + rest);
    WalkStep(root, name, rest);
    WalkStep(root, name, "");
    WalkStep(root + [name], "", rest);
    WalkStep(root + [name], ".", rest);
  }

  /** The key `.` is accepted, and its lock and staging files lie beside the root. */
  lemma RootKeyLocksOutside(root: Path)
    requires Clean(root) && root != []
    ensures Accepts(root, ".") && Resolve(root, ".") == root
    ensures !(root <= LockPath(root)) && !(root <= TmpPath(root))
  {
    assert UpTo(".") == "." && Resolve(root, ".") == root;
    AcceptsExactlyInside(root, ".");
    FilesInsideExactlyWhen(root, ".");
  }

  /** Every relative key has a second spelling: the server takes it for another key, while it names
      the same file. */
  lemma SpellingsShareFile(root: Path, key: string)
    requires key == "" || key[0] != '/'
    ensures "./" + key != key && Resolve(root, "./" + key) == Resolve(root, key)
  {
    var other := "./" + key;
    assert other[0] == '.' && other[1] == '/' && other[2..] == key;
    assert UpTo(other[1..]) == "" && UpTo(other) == ".";
    assert |other| == |key| + 2;
  }
}
