/** list_prefix: which keys a listing reports after a run of the whole mount, how they are spelled,
    and in which order. */
module DriveListing {
  import opened Options
  import opened DrivePaths
  import opened DriveProtocol
  import opened DriveMount
  import X = DriveExclusion

  // ----- the order of strings

  predicate Before(a: string, b: string)
    decreases |a|
  {
    b != "" && (a == "" || a[0] < b[0] || (a[0] == b[0] && Before(a[1..], b[1..])))
  }

  /** The texts differ first at position `i`, and `a` has the smaller character there. */
  predicate SmallerAt(a: string, b: string, i: nat) {
    i < |a| && i < |b| && a[..i] == b[..i] && a[i] < b[i]
  }

  lemma SmallerLater(a: string, b: string, i: nat)
    requires a != "" && b != "" && a[0] == b[0]
    ensures SmallerAt(a, b, i + 1) <==> SmallerAt(a[1..], b[1..], i)
  {
    if i < |a| - 1 && i < |b| - 1 {
      assert a[..i + 1] == [a[0]] + a[1..][..i] && b[..i + 1] == [b[0]] + b[1..][..i];
      assert a[..i + 1][1..] == a[1..][..i] && b[..i + 1][1..] == b[1..][..i];
    }
  }

  lemma {:induction false} BeforeAt(a: string, b: string, i: nat)
    requires SmallerAt(a, b, i)
    ensures Before(a, b)
    decreases i
  {
    if i > 0 {
      assert a[0] == a[..i][0] && b[0] == b[..i][0];
      SmallerLater(a, b, i - 1);
      BeforeAt(a[1..], b[1..], i - 1);
    }
  }

  lemma {:induction false} PrefixBefore(a: string, b: string)
    requires a < b
    ensures Before(a, b)
    decreases |a|
  {
    if a != "" {
      assert a[0] == b[0] && a[1..] < b[1..];
      PrefixBefore(a[1..], b[1..]);
    }
  }

  lemma {:induction false} BeforeWhere(a: string, b: string)
    requires Before(a, b)
    ensures a < b || exists i :: SmallerAt(a, b, i)
    decreases |a|
  {
    if a != "" {
      if a[0] < b[0] {
        assert SmallerAt(a, b, 0);
      } else {
        BeforeWhere(a[1..], b[1..]);
        if i :| SmallerAt(a[1..], b[1..], i) {
          SmallerLater(a, b, i);
        } else {
          assert a == [a[0]] + a[1..] && b == [b[0]] + b[1..];
        }
      }
    }
  }

  /** One text comes before another exactly when it is a proper beginning of it, or has the smaller
      character at the first place where they differ. */
  lemma BeforeExactlyWhen(a: string, b: string)
    ensures Before(a, b) <==> a < b || exists i :: SmallerAt(a, b, i)
  {
    if Before(a, b) {
      BeforeWhere(a, b);
    }
    if a < b {
      PrefixBefore(a, b);
    }
    if i :| SmallerAt(a, b, i) {
      BeforeAt(a, b, i);
    }
  }

  predicate Ascending(xs: seq<string>)
    decreases |xs|
  {
    xs == [] || ((forall y :: y in xs[1..] ==> Before(xs[0], y)) && Ascending(xs[1..]))
  }

  lemma {:induction false} BeforeTotal(a: string, b: string)
    ensures Before(a, b) || Before(b, a) || a == b
    ensures !(Before(a, b) && Before(b, a))
    decreases |a|
  {
    if a != "" && b != "" {
      BeforeTotal(a[1..], b[1..]);
      assert a == [a[0]] + a[1..] && b == [b[0]] + b[1..];
    }
  }

  lemma {:induction false} BeforeTransitive(a: string, b: string, c: string)
    requires Before(a, b) && Before(b, c)
    ensures Before(a, c)
    decreases |a|
  {
    if a != "" && a[0] == b[0] == c[0] {
      BeforeTransitive(a[1..], b[1..], c[1..]);
    }
  }

  function Insert(x: string, xs: seq<string>): seq<string>
    decreases |xs|
  {
    if xs == [] || Before(x, xs[0]) then [x] + xs else [xs[0]] + Insert(x, xs[1..])
  }

  function Sort(xs: seq<string>): seq<string>
    decreases |xs|
  {
    if xs == [] then [] else Insert(xs[0], Sort(xs[1..]))
  }

  lemma {:induction false} InsertHas(x: string, xs: seq<string>, y: string)
    ensures y in Insert(x, xs) <==> y == x || y in xs
    decreases |xs|
  {
    if xs != [] {
      assert xs == [xs[0]] + xs[1..];
      InsertHas(x, xs[1..], y);
    }
  }

  lemma {:induction false} InsertAscends(x: string, xs: seq<string>)
    requires Ascending(xs) && x !in xs
    ensures Ascending(Insert(x, xs))
    decreases |xs|
  {
    if xs != [] {
      assert xs == [xs[0]] + xs[1..];
      if Before(x, xs[0]) {
        forall y | y in xs
          ensures Before(x, y)
        {
          if y != xs[0] {
            BeforeTransitive(x, xs[0], y);
          }
        }
      } else {
        BeforeTotal(x, xs[0]);
        InsertAscends(x, xs[1..]);
        forall y | y in Insert(x, xs[1..])
          ensures Before(xs[0], y)
        {
          InsertHas(x, xs[1..], y);
        }
      }
    }
  }

  predicate Distinct(xs: seq<string>) {
    forall i, j :: 0 <= i < j < |xs| ==> xs[i] != xs[j]
  }

  lemma {:induction false} SortHas(xs: seq<string>, y: string)
    ensures y in Sort(xs) <==> y in xs
    decreases |xs|
  {
    if xs != [] {
      assert xs == [xs[0]] + xs[1..];
      SortHas(xs[1..], y);
      InsertHas(xs[0], Sort(xs[1..]), y);
    }
  }

  lemma {:induction false} SortAscends(xs: seq<string>)
    requires Distinct(xs)
    ensures Ascending(Sort(xs))
    decreases |xs|
  {
    if xs != [] {
      SortAscends(xs[1..]);
      SortHas(xs[1..], xs[0]);
      InsertAscends(xs[0], Sort(xs[1..]));
    }
  }

  lemma FirstIsLeast(xs: seq<string>, y: string)
    requires Ascending(xs) && y in xs
    ensures y == xs[0] || Before(xs[0], y)
  {
    assert xs == [xs[0]] + xs[1..];
  }

  /** An ascending sequence is determined by its elements. */
  lemma {:induction false} AscendingUnique(xs: seq<string>, ys: seq<string>)
    requires Ascending(xs) && Ascending(ys) && (forall x :: x in xs <==> x in ys)
    ensures xs == ys
    decreases |xs|
  {
    if xs == [] {
      assert forall i :: 0 <= i < |ys| ==> ys[i] in xs;
    } else {
      assert xs[0] in xs && xs[0] in ys && ys[0] in xs;
      FirstIsLeast(xs, ys[0]);
      FirstIsLeast(ys, xs[0]);
      BeforeTotal(xs[0], ys[0]);
      TailsAgree(xs, ys);
      AscendingUnique(xs[1..], ys[1..]);
    }
  }

  lemma TailsAgree(xs: seq<string>, ys: seq<string>)
    requires xs != [] && ys != [] && xs[0] == ys[0]
    requires Ascending(xs) && Ascending(ys) && (forall x :: x in xs <==> x in ys)
    ensures forall x :: x in xs[1..] <==> x in ys[1..]
  {
    TailHas(xs);
    TailHas(ys);
  }

  lemma TailHas(xs: seq<string>)
    requires xs != [] && Ascending(xs)
    ensures forall x :: x in xs[1..] <==> x in xs && x != xs[0]
  {
    BeforeTotal(xs[0], xs[0]);
    assert xs == [xs[0]] + xs[1..];
    assert xs[0] !in xs[1..];
  }

  // ----- how a key is spelled

  predicate PlainPath(p: Path) {
    forall i :: 0 <= i < |p| ==> PlainName(p[i])
  }

  function Join(p: Path): string
    requires p != []
    decreases |p|
  {
    if |p| == 1 then p[0] else p[0] + "/" + Join(p[1..])
  }

  /** A path below the root as list_prefix spells it. */
  function NameOf(root: Path, p: Path): string
    requires root < p
  {
    Join(p[|root|..])
  }

  lemma WalkFirst(at: Path, name: string, rest: string)
    requires PlainName(name)
    ensures Walk(at, name + "/" + rest) == Walk(at + [name], rest) && Walk(at, name) == at + [name]
  {
    UpToName(name, rest);
    assert (name + "/" + rest)[|name| + 1..] == rest;
  }

  lemma JoinCons(at: Path, name: string, rest: Path)
    requires PlainName(name)
    ensures Walk(at, Join([name] + rest)) == if rest == [] then at + [name] else Walk(at + [name], Join(rest))
  {
    assert ([name] + rest)[1..] == rest;
    WalkFirst(at, name, if rest == [] then "" else Join(rest));
  }

  lemma Append(at: Path, name: string, rest: Path)
    ensures at + [name] + rest == at + ([name] + rest)
  {
  }

  lemma PlainCons(p: Path)
    requires p != [] && PlainPath(p)
    ensures p == [p[0]] + p[1..] && PlainName(p[0]) && PlainPath(p[1..])
  {
  }

  lemma {:induction false} JoinWalks(at: Path, p: Path)
    requires p != [] && PlainPath(p)
    ensures Walk(at, Join(p)) == at + p
    decreases |p|
  {
    var name, rest := p[0], p[1..];
    PlainCons(p);
    JoinCons(at, name, rest);
    if rest != [] {
      JoinWalks(at + [name], rest);
      Append(at, name, rest);
    }
  }

  /** The spelling has no root, no `.` and no doubled slash: the names below the root, with a slash
      between each two. */
  lemma NameSpelled(root: Path, name: string, more: Path)
    ensures NameOf(root, root + [name]) == name
    ensures more != [] ==>
              NameOf(root, root + [name] + more) == name + "/" + NameOf(root + [name], root + [name] + more)
  {
    assert (root + [name])[|root|..] == [name];
    if more != [] {
      var p := root + [name] + more;
      assert p[|root|..] == [name] + more && ([name] + more)[1..] == more == p[|root| + 1..];
    }
  }

  /** The spelling in a listing leads back to the file it was made from. */
  lemma NameResolves(root: Path, p: Path)
    requires root < p && PlainPath(p)
    ensures Resolve(root, NameOf(root, p)) == p
  {
    var below := p[|root|..];
    assert PlainName(below[0]) by {
      assert below[0] == p[|root|];
    }
    assert Join(below)[0] == below[0][0];
    JoinWalks(root, below);
    assert root + below == p;
  }

  // ----- a listing

  predicate Once(scan: seq<Path>) {
    forall i, j :: 0 <= i < j < |scan| ==> scan[i] != scan[j]
  }

  /** A directory tree: `scan` walks over all its entries, each once. */
  ghost predicate Tree(files: map<Path, File>, dirs: set<Path>, scan: seq<Path>) {
    && files.Keys !! dirs
    && (forall f, d :: f in files && d < f ==> d in dirs)
    && (forall p :: p in scan <==> p in files || p in dirs)
    && Once(scan)
  }

  predicate Listed(files: map<Path, File>, base: Path, p: Path) {
    base < p && p in files && !Internal(p)
  }

  function Names(root: Path, base: Path, files: map<Path, File>, scan: seq<Path>): seq<string>
    requires root <= base
    decreases |scan|
  {
    if scan == [] then []
    else
      var rest := Names(root, base, files, scan[1..]);
      if Listed(files, base, scan[0]) then [NameOf(root, scan[0])] + rest else rest
  }

  function ListFrom(root: Path, base: Path, prefix: string, files: map<Path, File>, dirs: set<Path>, scan: seq<Path>)
    : seq<string>
    requires root <= base
  {
    if base !in files && base !in dirs then []
    else if base in files then [prefix]
    else Sort(Names(root, base, files, scan))
  }

  /** list_prefix; None when the prefix is refused. */
  function ListPrefix(root: Path, prefix: string, files: map<Path, File>, dirs: set<Path>, scan: seq<Path>)
    : Option<seq<string>>
    requires Clean(root)
  {
    if prefix != "" && !Accepts(root, prefix) then None
    else
      AcceptsExactlyInside(root, prefix);
      Some(ListFrom(root, Resolve(root, prefix), prefix, files, dirs, scan))
  }

  /** A name is reported for every listed entry of the scan, and for nothing else. */
  lemma {:induction false} NamesHas(root: Path, base: Path, files: map<Path, File>, scan: seq<Path>, name: string)
    requires root <= base
    ensures name in Names(root, base, files, scan)
            <==> exists p :: p in scan && Listed(files, base, p) && name == NameOf(root, p)
    decreases |scan|
  {
    if scan != [] {
      NamesHas(root, base, files, scan[1..], name);
      assert scan == [scan[0]] + scan[1..];
    }
  }

  ghost predicate PlainTree(files: map<Path, File>) {
    forall p :: p in files ==> PlainPath(p)
  }

  lemma NamesDifferBelow(root: Path, p: Path, q: Path)
    requires root < p && root < q && PlainPath(p) && PlainPath(q) && p != q
    ensures NameOf(root, p) != NameOf(root, q)
  {
    NameResolves(root, p);
    NameResolves(root, q);
  }

  lemma {:induction false} NamesDistinct(root: Path, base: Path, files: map<Path, File>, scan: seq<Path>)
    requires root <= base && Once(scan) && PlainTree(files)
    ensures Distinct(Names(root, base, files, scan))
    decreases |scan|
  {
    if scan != [] && Listed(files, base, scan[0]) {
      var rest := Names(root, base, files, scan[1..]);
      NamesDistinct(root, base, files, scan[1..]);
      if NameOf(root, scan[0]) in rest {
        NamesHas(root, base, files, scan[1..], NameOf(root, scan[0]));
        var p :| p in scan[1..] && Listed(files, base, p) && NameOf(root, scan[0]) == NameOf(root, p);
        NamesDifferBelow(root, scan[0], p);
      }
    } else if scan != [] {
      NamesDistinct(root, base, files, scan[1..]);
    }
  }

  /** What listing a directory reports: ascending, every spelling leads back to a listed file, and
      no listed file is missing. */
  lemma DirectoryListing(root: Path, base: Path, files: map<Path, File>, scan: seq<Path>)
    requires root <= base && Once(scan) && PlainTree(files) && forall p :: p in files ==> p in scan
    ensures Lists(root, base, files, Sort(Names(root, base, files, scan)))
  {
    var found := Names(root, base, files, scan);
    NamesDistinct(root, base, files, scan);
    SortAscends(found);
    forall name | name in Sort(found)
      ensures SpellsListed(root, base, files, name)
    {
      SortHas(found, name);
      NamesHas(root, base, files, scan, name);
      var p :| p in scan && Listed(files, base, p) && name == NameOf(root, p);
      NameResolves(root, p);
    }
    forall p | p in files && Listed(files, base, p)
      ensures NameOf(root, p) in Sort(found)
    {
      NamesHas(root, base, files, scan, NameOf(root, p));
      SortHas(found, NameOf(root, p));
    }
  }

  ghost predicate Lists(root: Path, base: Path, files: map<Path, File>, names: seq<string>)
    requires root <= base
  {
    && Ascending(names)
    && (forall name :: name in names ==> SpellsListed(root, base, files, name))
    && (forall p :: p in files && Listed(files, base, p) ==> NameOf(root, p) in names)
  }

  predicate SpellsListed(root: Path, base: Path, files: map<Path, File>, name: string)
    requires root <= base
  {
    var p := Resolve(root, name);
    Listed(files, base, p) && name == NameOf(root, p)
  }

  /** The answer does not depend on the order in which the directories are scanned. */
  lemma ScanOrderIrrelevant(root: Path, prefix: string, files: map<Path, File>, dirs: set<Path>,
                            scan: seq<Path>, other: seq<Path>)
    requires Clean(root) && PlainTree(files) && Tree(files, dirs, scan) && Tree(files, dirs, other)
    ensures ListPrefix(root, prefix, files, dirs, scan) == ListPrefix(root, prefix, files, dirs, other)
  {
    var base := Resolve(root, prefix);
    AcceptsExactlyInside(root, prefix);
    if root <= base {
      DirectoryListing(root, base, files, scan);
      DirectoryListing(root, base, files, other);
      AscendingUnique(Sort(Names(root, base, files, scan)), Sort(Names(root, base, files, other)));
    }
  }

  // ----- a listing after a run

  predicate NamesInternal(files: map<Path, File>, base: Path) {
    base in files && IsFile(base) && Internal(base)
  }

  ghost predicate KeysBelow(root: Path, keys: set<Path>) {
    forall p :: p in keys ==> root <= p && PlainPath(p)
  }

  /** Resolving never leaves a `.`, `..` or empty component behind. */
  lemma {:induction false} WalkPlain(at: Path, key: string)
    requires PlainPath(at)
    ensures PlainPath(Walk(at, key))
    decreases |key|
  {
    var name := UpTo(key);
    assert PlainPath(Step(at, name));
    if |name| < |key| {
      WalkPlain(Step(at, name), key[|name| + 1..]);
    }
  }

  /** Every accepted key is spelled in a listing by a name that resolves to the same file. */
  lemma AcceptedKeyNamed(root: Path, key: string)
    requires PlainPath(root) && Accepts(root, key) && Resolve(root, key) != root
    ensures root < Resolve(root, key) && Resolve(root, NameOf(root, Resolve(root, key))) == Resolve(root, key)
  {
    PlainIsClean(root);
    AcceptsExactlyInside(root, key);
    WalkPlain(if key != "" && key[0] == '/' then [] else root, key);
    NameResolves(root, Resolve(root, key));
  }

  lemma PlainIsClean(p: Path)
    requires PlainPath(p)
    ensures Clean(p)
  {
    forall i | 0 <= i < |p|
      ensures CleanName(p[i])
    {
      assert PlainName(p[i]);
    }
  }

  lemma SlotsPlain(p: Path, f: Path)
    requires IsFile(p) && PlainPath(p) && f in SlotsOf(p).All()
    ensures PlainPath(f)
  {
    FilesSpelled(p);
    var name := p[|p| - 1];
    assert PlainName(name) && PlainName(name + LOCK_SUFFIX) && PlainName(name + TMP_SUFFIX);
    assert PlainPath(p[..|p| - 1]);
  }

  lemma FilesPlain(m: Mount, keys: set<Path>, root: Path)
    requires PlainKeys(keys) && OnlyKeyFiles(m, keys) && KeysBelow(root, keys)
    ensures PlainTree(m.files)
  {
    forall f | f in m.files
      ensures PlainPath(f)
    {
      var p :| p in keys && f in SlotsOf(p).All();
      SlotsPlain(p, f);
    }
  }

  ghost predicate Sound(root: Path, base: Path, stored: set<Path>, names: seq<string>) {
    forall name :: name in names ==> base <= Resolve(root, name) && Resolve(root, name) in stored
  }

  ghost predicate Complete(root: Path, base: Path, stored: set<Path>, names: seq<string>) {
    forall p :: p in stored && base <= p ==> exists name :: name in names && Resolve(root, name) == p
  }

  lemma ListsSound(m: Mount, keys: set<Path>, root: Path, base: Path, names: seq<string>)
    requires PlainKeys(keys) && OnlyKeyFiles(m, keys)
    requires root <= base && Lists(root, base, m.files, names)
    ensures Sound(root, base, Stored(m, keys), names)
  {
    forall name | name in names
      ensures base <= Resolve(root, name) && Resolve(root, name) in Stored(m, keys)
    {
      assert SpellsListed(root, base, m.files, name);
      ListedIsStored(m, keys, Resolve(root, name));
    }
  }

  lemma ListsSpelled(files: map<Path, File>, root: Path, base: Path, names: seq<string>)
    requires root <= base && Lists(root, base, files, names)
    ensures Spelled(root, names)
  {
    assert forall name :: name in names ==> SpellsListed(root, base, files, name);
  }

  lemma ListsComplete(m: Mount, keys: set<Path>, root: Path, base: Path, names: seq<string>)
    requires PlainKeys(keys) && KeysBelow(root, keys) && base !in m.files
    requires root <= base && Lists(root, base, m.files, names)
    ensures Complete(root, base, Stored(m, keys), names)
  {
    forall p | p in Stored(m, keys) && base <= p
      ensures exists name :: name in names && Resolve(root, name) == p
    {
      assert |base| == |p| ==> base == p;
      assert Listed(m.files, base, p);
      NameResolves(root, p);
      assert NameOf(root, p) in names;
    }
  }

  lemma DirectoryListsStored(m: Mount, keys: set<Path>, root: Path, base: Path, dirs: set<Path>, scan: seq<Path>)
    requires PlainKeys(keys) && OnlyKeyFiles(m, keys) && KeysBelow(root, keys)
    requires root <= base && Tree(m.files, dirs, scan) && base in dirs
    ensures Answers(m, keys, root, base, Sort(Names(root, base, m.files, scan)))
  {
    var names := Sort(Names(root, base, m.files, scan));
    FilesPlain(m, keys, root);
    DirectoryListing(root, base, m.files, scan);
    ListsSound(m, keys, root, base, names);
    ListsComplete(m, keys, root, base, names);
    ListsSpelled(m.files, root, base, names);
  }

  lemma OneName(root: Path, prefix: string, stored: set<Path>)
    ensures Sound(root, Resolve(root, prefix), stored, [prefix]) <==> Resolve(root, prefix) in stored
  {
    assert prefix in [prefix];
  }

  lemma OneNameEnough(root: Path, prefix: string, base: Path, stored: set<Path>)
    requires Resolve(root, prefix) == base && forall p :: p in stored ==> !(base < p)
    ensures Complete(root, base, stored, [prefix])
  {
    assert prefix in [prefix];
  }

  /** A file of a key is stored exactly when it is not internal. */
  lemma FileKind(m: Mount, keys: set<Path>, base: Path, p: Path)
    requires base in m.files && IsFile(p) && !Internal(p) && base in SlotsOf(p).All()
    requires base == p ==> p in keys && m.files[p].Blob?
    requires base in keys && IsFile(base) ==> !Internal(base)
    ensures base in Stored(m, keys) <==> !NamesInternal(m.files, base)
  {
    SlotKind(p, base);
  }

  /** Every name is the one spelling that a listing uses for its file. */
  ghost predicate Spelled(root: Path, names: seq<string>) {
    forall name :: name in names ==> root < Resolve(root, name) && name == NameOf(root, Resolve(root, name))
  }

  /** What a listing promises: ascending, every stored key below the base, nothing else exactly
      when the base is not an internal file, and one spelling per key unless the base is a file. */
  ghost predicate Answers(m: Mount, keys: set<Path>, root: Path, base: Path, names: seq<string>) {
    && Ascending(names)
    && Complete(root, base, Stored(m, keys), names)
    && (Sound(root, base, Stored(m, keys), names) <==> !NamesInternal(m.files, base))
    && (base !in m.files ==> Spelled(root, names))
  }

  lemma StoredAreFiles(m: Mount, keys: set<Path>, dirs: set<Path>, scan: seq<Path>, base: Path)
    requires Tree(m.files, dirs, scan) && base !in dirs
    ensures forall p :: p in Stored(m, keys) ==> p in m.files && !(base < p)
  {
  }

  /** A prefix that is a file is reported as it stands. */
  lemma FileListsItself(m: Mount, keys: set<Path>, root: Path, base: Path, prefix: string, dirs: set<Path>,
                        scan: seq<Path>)
    requires Tree(m.files, dirs, scan) && Resolve(root, prefix) == base && base in m.files
    requires base in Stored(m, keys) <==> !NamesInternal(m.files, base)
    ensures Answers(m, keys, root, base, [prefix])
  {
    OneName(root, prefix, Stored(m, keys));
    StoredAreFiles(m, keys, dirs, scan, base);
    OneNameEnough(root, prefix, base, Stored(m, keys));
  }

  lemma NothingListed(m: Mount, keys: set<Path>, root: Path, base: Path, dirs: set<Path>, scan: seq<Path>)
    requires Tree(m.files, dirs, scan) && base !in dirs && base !in m.files
    ensures Answers(m, keys, root, base, [])
  {
    StoredAreFiles(m, keys, dirs, scan, base);
    assert forall p :: p in Stored(m, keys) ==> p != base && !(base <= p);
  }

  lemma ListingAt(m: Mount, keys: set<Path>, root: Path, base: Path, prefix: string, dirs: set<Path>, scan: seq<Path>)
    requires PlainKeys(keys) && OnlyKeyFiles(m, keys) && KeysBelow(root, keys)
    requires Tree(m.files, dirs, scan) && Resolve(root, prefix) == base && root <= base
    ensures Answers(m, keys, root, base, ListFrom(root, base, prefix, m.files, dirs, scan))
  {
    if base in m.files {
      var p :| p in keys && base in SlotsOf(p).All();
      FileKind(m, keys, base, p);
      FileListsItself(m, keys, root, base, prefix, dirs, scan);
    } else if base in dirs {
      DirectoryListsStored(m, keys, root, base, dirs, scan);
    } else {
      NothingListed(m, keys, root, base, dirs, scan);
    }
  }

  /** After every run, crashes included, a listing below any prefix is refused exactly when the
      prefix leads outside the root; otherwise it is in ascending order and reports every stored key
      below the prefix, spelled in one way. It reports nothing else exactly when the prefix does not
      itself name a lock or staging file that is there. */
  lemma ListPrefixExactly(site: Site, m: Mount, vs: seq<Move>, prefix: string, dirs: set<Path>, scan: seq<Path>)
    requires site.Plain() && OnlyKeyFiles(m, site.Paths()) && MountRun(site, m, vs)
    requires KeysBelow(site.root, site.Paths()) && Clean(site.root)
    requires Tree(MountAfter(site, m, vs).files, dirs, scan)
    ensures var m' := MountAfter(site, m, vs);
            var base, r := Resolve(site.root, prefix), ListPrefix(site.root, prefix, m'.files, dirs, scan);
            (r.Some? <==> site.root <= base) && (r.Some? ==> Answers(m', site.Paths(), site.root, base, r.value))
  {
    OnlyKeyFilesRun(site, m, vs);
    AcceptsExactlyInside(site.root, prefix);
    if site.root <= Resolve(site.root, prefix) {
      ListingAt(MountAfter(site, m, vs), site.Paths(), site.root, Resolve(site.root, prefix), prefix, dirs, scan);
    }
  }

  // ----- a lock file that a crash left behind

  const LEFT: string := "a.xiolock"

  lemma LeftResolves(root: Path)
    ensures Resolve(root, "a") == root + ["a"] && Resolve(root, LEFT) == root + [LEFT]
    ensures LockPath(root + ["a"]) == root + [LEFT] && IsFile(root + ["a"])
  {
    assert PlainName("a") && PlainName(LEFT);
    EmptyPartsIgnored(root, "a", "");
    EmptyPartsIgnored(root, LEFT, "");
    assert (root + ["a"])[..|root|] == root && "a" + LOCK_SUFFIX == LEFT;
  }

  /** A call on the key `a` that crashes while it creates its lock file. */
  function CrashCreatingLock(n: Node): seq<Action> {
    X.Look(n, X.Nothing("a")) + ([CrashCreating(n)] + [])
  }

  lemma CrashLeavesLock(c: Config, n: Node)
    requires c.Valid() && n in c.misses && "a" in c.keys
    ensures Run(c, X.EMPTY, CrashCreatingLock(n)) && After(c, X.EMPTY, CrashCreatingLock(n)).lockFile == Garbled
  {
    var op := X.Nothing("a");
    X.LookRuns(c, X.EMPTY, n, op);
    RunCons(c, X.EMPTY.Goto(n, Create(op)), CrashCreating(n), []);
    RunConcat(c, X.EMPTY, X.Look(n, op), [CrashCreating(n)] + []);
  }

  /** From an empty mount, one crash makes `a.xiolock` a key of the listing. */
  lemma CrashedLockListed(site: Site, n: Node, dirs: set<Path>, scan: seq<Path>) returns (vs: seq<Move>)
    requires site.c.Valid() && n in site.c.misses && "a" in site.c.keys && Clean(site.root)
    ensures var empty := Mount(0.0, map[], map[], map[]);
            && MountRun(site, empty, vs)
            && ListPrefix(site.root, LEFT, MountAfter(site, empty, vs).files, dirs, scan) == Some([LEFT])
  {
    var p, empty := site.root + ["a"], Mount(0.0, map[], map[], map[]);
    LeftResolves(site.root);
    ForValid(site, p);
    assert Project(site.root, empty, p) == X.EMPTY;
    CrashLeavesLock(site.For(p), n);
    vs := RunLifts(site, empty, p, CrashCreatingLock(n));
    assert LockAt(MountAfter(site, empty, vs).files, SlotsOf(p).lock) == Garbled;
    AcceptsExactlyInside(site.root, LEFT);
  }
}
