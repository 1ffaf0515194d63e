/** The profile migration: user names, canonical file names, and the plan of the rename loop.
    Names are matched as ASCII; the identity maps come from the database and are inputs. */
module Profiles {
  import opened Options
  import opened Decimal
  import opened Migration

  predicate IsLower(c: char) {
    'a' <= c <= 'z'
  }

  predicate IsUpper(c: char) {
    'A' <= c <= 'Z'
  }

  predicate IsAlnum(c: char) {
    IsLower(c) || IsUpper(c) || IsDigit(c)
  }

  function LowerChar(c: char): char {
    if IsUpper(c) then c + 32 as char else c
  }

  function Lower(s: string): (r: string)
    ensures |r| == |s|
  {
    seq(|s|, i requires 0 <= i < |s| => LowerChar(s[i]))
  }

  // ----- _normalize_username

  /** The part before the first '@'. */
  function BeforeAt(s: string): string {
    if s == "" || s[0] == '@' then "" else [s[0]] + BeforeAt(s[1..])
  }

  function CountDigits(s: string): (n: nat)
    ensures n <= |s| && AllDigits(s[..n]) && (n < |s| ==> !IsDigit(s[n]))
  {
    if s == "" || !IsDigit(s[0]) then 0 else 1 + CountDigits(s[1..])
  }

  /** Removes one leading `PRFL-<digits>_`, in any case. */
  function StripSerial(s: string): string {
    if |s| < 5 || Lower(s[..5]) != "prfl-" then s
    else
      var n := CountDigits(s[5..]);
      if n > 0 && 5 + n < |s| && s[5 + n] == '_' then s[5 + n + 1..] else s
  }

  /** Other characters become underscores. */
  function Clean(s: string): (r: string)
    ensures |r| == |s|
  {
    seq(|s|, i requires 0 <= i < |s| => if IsAlnum(s[i]) then s[i] else '_')
  }

  /** A run of underscores becomes one. */
  function Collapse(s: string): string
    decreases |s|
  {
    if |s| >= 2 && s[0] == '_' && s[1] == '_' then Collapse(s[1..])
    else if s == "" then "" else [s[0]] + Collapse(s[1..])
  }

  function StripLeft(s: string): string {
    if s != "" && s[0] == '_' then StripLeft(s[1..]) else s
  }

  function StripRight(s: string): string
    decreases |s|
  {
    if s != "" && s[|s| - 1] == '_' then StripRight(s[..|s| - 1]) else s
  }

  function Normalize(identifier: string): string {
    Lower(StripRight(StripLeft(Collapse(Clean(StripSerial(BeforeAt(identifier)))))))
  }

  /** Lower-case letters, digits and single inner underscores. */
  predicate NormalForm(s: string) {
    && (forall i :: 0 <= i < |s| ==> IsLower(s[i]) || IsDigit(s[i]) || s[i] == '_')
    && (forall i :: 0 <= i < |s| - 1 ==> s[i] != '_' || s[i + 1] != '_')
    && (s != "" ==> s[0] != '_' && s[|s| - 1] != '_')
  }

  /** Letters, digits and single underscores, in any case. */
  predicate Spaced(s: string) {
    && (forall i :: 0 <= i < |s| ==> IsAlnum(s[i]) || s[i] == '_')
    && (forall i :: 0 <= i < |s| - 1 ==> s[i] != '_' || s[i + 1] != '_')
  }

  lemma {:induction false} CollapseSpaces(s: string)
    requires forall i :: 0 <= i < |s| ==> IsAlnum(s[i]) || s[i] == '_'
    ensures Spaced(Collapse(s))
    ensures s != "" ==> Collapse(s) != "" && Collapse(s)[0] == s[0]
    decreases |s|
  {
    if s != "" {
      CollapseSpaces(s[1..]);
    }
  }

  lemma {:induction false} CollapseFixed(s: string)
    requires Spaced(s)
    ensures Collapse(s) == s
    decreases |s|
  {
    if s != "" {
      CollapseFixed(s[1..]);
      assert s == [s[0]] + s[1..];
    }
  }

  lemma {:induction false} StripLeftSpaced(s: string)
    requires Spaced(s)
    ensures Spaced(StripLeft(s)) && (StripLeft(s) != "" ==> StripLeft(s)[0] != '_')
    decreases |s|
  {
    if s != "" && s[0] == '_' {
      StripLeftSpaced(s[1..]);
    }
  }

  lemma {:induction false} StripRightSpaced(s: string)
    requires Spaced(s) && (s != "" ==> s[0] != '_')
    ensures var r := StripRight(s);
            Spaced(r) && (r != "" ==> r[0] != '_' && r[|r| - 1] != '_')
    decreases |s|
  {
    if s != "" && s[|s| - 1] == '_' {
      StripRightSpaced(s[..|s| - 1]);
    }
  }

  lemma NormalizeNormal(identifier: string)
    ensures NormalForm(Normalize(identifier))
  {
    var cleaned := Clean(StripSerial(BeforeAt(identifier)));
    CollapseSpaces(cleaned);
    StripLeftSpaced(Collapse(cleaned));
    StripRightSpaced(StripLeft(Collapse(cleaned)));
  }

  lemma {:induction false} BeforeAtFixed(s: string)
    requires '@' !in s
    ensures BeforeAt(s) == s && forall rest: string :: BeforeAt(s + ("@" + rest)) == s
    decreases |s|
  {
    if s != "" {
      BeforeAtFixed(s[1..]);
      assert forall rest: string :: (s + ("@" + rest))[1..] == s[1..] + ("@" + rest);
      assert s == [s[0]] + s[1..];
    }
  }

  /** The steps after the serial has been stripped leave a normal form alone. */
  lemma TailFixed(s: string)
    requires NormalForm(s)
    ensures Lower(StripRight(StripLeft(Collapse(Clean(s))))) == s
  {
    CleanFixed(s);
    CollapseFixed(s);
    StripsFixed(s);
    LowerFixed(s);
  }

  lemma StripsFixed(s: string)
    requires s != "" ==> s[0] != '_' && s[|s| - 1] != '_'
    ensures StripLeft(s) == s && StripRight(s) == s
  {
  }

  lemma CleanFixed(s: string)
    requires NormalForm(s)
    ensures Clean(s) == s && Spaced(s)
  {
  }

  lemma LowerFixed(s: string)
    requires NormalForm(s)
    ensures Lower(s) == s
  {
  }

  lemma NoDash(s: string)
    requires NormalForm(s)
    ensures '@' !in s && StripSerial(s) == s
  {
    if |s| >= 5 {
      assert Lower(s[..5])[4] == LowerChar(s[4]) && s[4] != '-';
      assert "prfl-"[4] == '-';
    }
  }

  /** Normalisation is idempotent, and its fixed points are exactly the normal forms. */
  lemma NormalizeFixedExactlyWhen(s: string)
    ensures Normalize(Normalize(s)) == Normalize(s)
    ensures Normalize(s) == s <==> NormalForm(s)
  {
    NormalizeNormal(s);
    NormalFormFixed(Normalize(s));
    if NormalForm(s) {
      NormalFormFixed(s);
    }
  }

  lemma NormalFormFixed(s: string)
    requires NormalForm(s)
    ensures Normalize(s) == s && forall rest: string :: Normalize(s + ("@" + rest)) == s
  {
    NoDash(s);
    BeforeAtFixed(s);
    TailFixed(s);
  }

  // ----- what becomes of other characters

  function UpperChar(c: char): char {
    if IsLower(c) then c - 32 as char else c
  }

  function Upper(s: string): (r: string)
    ensures |r| == |s|
  {
    seq(|s|, i requires 0 <= i < |s| => UpperChar(s[i]))
  }

  lemma NotSerial(s: string)
    requires |s| >= 5 ==> !(s[4] == '-' && Lower(s[..4]) == "prfl")
    ensures StripSerial(s) == s
  {
    if |s| >= 5 {
      assert Lower(s[..5])[4] == LowerChar(s[4]);
      assert Lower(s[..4]) == Lower(s[..5])[..4];
      assert "prfl-"[..4] == "prfl" && "prfl-"[4] == '-';
    }
  }

  lemma UpperForm(u: string)
    requires NormalForm(u)
    ensures var s := Upper(u);
            && '@' !in s && '-' !in s && Clean(s) == s && Spaced(s)
            && (s != "" ==> s[0] != '_' && s[|s| - 1] != '_')
  {
  }

  lemma LowerUpper(u: string)
    requires NormalForm(u)
    ensures Lower(Upper(u)) == u
  {
    assert forall i :: 0 <= i < |u| ==> LowerChar(UpperChar(u[i])) == u[i];
  }

  /** Case does not matter. */
  lemma UpperNormalizes(u: string)
    requires NormalForm(u)
    ensures Normalize(Upper(u)) == u
  {
    var s := Upper(u);
    UpperForm(u);
    LowerUpper(u);
    BeforeAtFixed(s);
    assert |s| >= 5 ==> s[4] in s;
    NotSerial(s);
    CollapseFixed(s);
    StripsFixed(s);
    UpperTail(s, u);
  }

  lemma UpperTail(s: string, u: string)
    requires BeforeAt(s) == s && StripSerial(s) == s && Clean(s) == s && Collapse(s) == s
    requires StripLeft(s) == s && StripRight(s) == s && Lower(s) == u
    ensures Normalize(s) == u
  {
  }

  lemma SeparatorClean(u: string, c: char, v: string)
    requires NormalForm(u) && NormalForm(v) && u != "" && v != "" && !IsAlnum(c)
    ensures Clean(u + [c] + v) == u + "_" + v
  {
  }

  lemma JoinedForm(u: string, v: string)
    requires NormalForm(u) && NormalForm(v) && u != "" && v != ""
    ensures NormalForm(u + "_" + v)
  {
  }

  /** Digits and an underscore follow, which with `prfl-` before them are a serial. */
  predicate StartsWithSerial(v: string) {
    exists n :: 0 < n < |v| && AllDigits(v[..n]) && v[n] == '_'
  }

  lemma NoSerialAhead(s: string, v: string)
    requires |s| >= 5 && s[5..] == v && !StartsWithSerial(v)
    ensures StripSerial(s) == s
  {
    var n := CountDigits(v);
    assert n < |v| ==> s[5 + n] == v[n];
  }

  lemma SeparatorNoSerial(u: string, c: char, v: string)
    requires NormalForm(u) && NormalForm(v) && !(u == "prfl" && c == '-' && StartsWithSerial(v))
    ensures StripSerial(u + [c] + v) == u + [c] + v
  {
    var s := u + [c] + v;
    assert forall i :: 0 <= i < |s| && s[i] == '-' ==> i == |u|;
    if |u| == 4 {
      assert s[..4] == u;
      LowerFixed(u);
    }
    if u == "prfl" && c == '-' {
      assert s[5..] == v;
      NoSerialAhead(s, v);
    } else {
      NotSerial(s);
    }
  }

  /** Any other character between two parts of the user name becomes an underscore, unless it makes
      a serial of them. */
  lemma SeparatorNormalizes(u: string, c: char, v: string)
    requires NormalForm(u) && NormalForm(v) && u != "" && v != ""
    requires !IsAlnum(c) && c != '@' && !(u == "prfl" && c == '-' && StartsWithSerial(v))
    ensures Normalize(u + [c] + v) == u + "_" + v
  {
    var s, w := u + [c] + v, u + "_" + v;
    assert '@' !in s;
    BeforeAtFixed(s);
    SeparatorNoSerial(u, c, v);
    SeparatorClean(u, c, v);
    JoinedForm(u, v);
    TailFixed(w);
    CleanFixed(w);
  }

  lemma CollapseFirst(s: string)
    requires s != "" && s[0] != '_'
    ensures Collapse(s) == [s[0]] + Collapse(s[1..])
  {
  }

  lemma {:induction false} CollapsePast(head: string, tail: string)
    requires '_' !in head
    ensures Collapse(head + tail) == head + Collapse(tail)
    decreases |head|
  {
    if head == "" {
      assert head + tail == tail;
    } else {
      var rest := head[1..];
      assert head[0] in head;
      assert (head + tail)[0] == head[0] && (head + tail)[1..] == rest + tail;
      CollapseFirst(head + tail);
      CollapsePast(rest, tail);
      assert head + Collapse(tail) == [head[0]] + (rest + Collapse(tail));
    }
  }

  lemma CollapseTwo(v: string)
    requires NormalForm(v)
    ensures Collapse("prfl" + ("__" + v)) == "prfl" + ("_" + v)
  {
    CollapsePast("prfl", "__" + v);
    assert ("__" + v)[1..] == "_" + v;
    assert Spaced("_" + v);
    CollapseFixed("_" + v);
  }

  lemma NormalizeBy(s: string, cleaned: string, r: string)
    requires BeforeAt(s) == s && StripSerial(s) == s && Clean(s) == cleaned && Collapse(cleaned) == r && NormalForm(r)
    ensures Normalize(s) == r
  {
    StripsFixed(r);
    LowerFixed(r);
  }

  lemma UnderscoreNoSerial(v: string)
    ensures !StartsWithSerial("_" + v)
  {
    forall n | 0 < n < |"_" + v|
      ensures !AllDigits(("_" + v)[..n])
    {
      assert ("_" + v)[..n][0] == '_';
    }
  }

  lemma DashClean(v: string)
    requires NormalForm(v)
    ensures Clean("prfl-_" + v) == "prfl" + ("__" + v) && '@' !in "prfl-_" + v && ("prfl-_" + v)[5..] == "_" + v
  {
  }

  /** Without digits there is no serial; and neighbouring underscores become one. */
  lemma NoDigitsNoSerial(v: string)
    requires NormalForm(v) && v != ""
    ensures Normalize("prfl-_" + v) == "prfl_" + v
  {
    var s := "prfl-_" + v;
    DashClean(v);
    BeforeAtFixed(s);
    UnderscoreNoSerial(v);
    NoSerialAhead(s, "_" + v);
    CollapseTwo(v);
    assert NormalForm("prfl");
    JoinedForm("prfl", v);
    assert "prfl" + ("_" + v) == "prfl" + "_" + v == "prfl_" + v;
    NormalizeBy(s, "prfl" + ("__" + v), "prfl_" + v);
  }

  // ----- canonical names

  const TAR: string := ".tar.gz"

  datatype Identity = Identity(serial: nat, identifier: string)

  function Stem(i: Identity): string {
    "PRFL-" + Pad(Show(i.serial), 3) + "_" + Normalize(i.identifier)
  }

  function CanonicalName(i: Identity): Name {
    Stem(i) + TAR
  }

  predicate EndsWithTar(name: Name) {
    |name| >= |TAR| && name[|name| - |TAR|..] == TAR
  }

  /** What a non-empty `.+` can match: anything without a line break. */
  predicate Line(s: string) {
    s != "" && '\n' !in s
  }

  /** `^PRFL-(\d{3})_(.+)\.tar\.gz$`, with its two groups. */
  function MatchCanonical(name: Name): Option<(string, string)> {
    if |name| >= 9 + |TAR| && name[..5] == "PRFL-" && AllDigits(name[5..8]) && name[8] == '_'
       && EndsWithTar(name) && Line(name[9..|name| - |TAR|])
    then Some((name[5..8], name[9..|name| - |TAR|]))
    else None
  }

  predicate IsHex(c: char) {
    IsDigit(c) || 'a' <= c <= 'f'
  }

  predicate IsSlug(s: string) {
    |s| == 16 && forall i :: 0 <= i < 16 ==> IsHex(s[i])
  }

  /** `^PRFL_([0-9a-f]{16})\.tar\.gz$` in any case, for names that end in `.tar.gz`. */
  function MatchSlug(name: Name): Option<string> {
    if |name| == 21 + |TAR| && EndsWithTar(name) && Lower(name[..5]) == "prfl_" && IsSlug(Lower(name[5..21]))
    then Some(Lower(name[5..21]))
    else None
  }

  /** `^(.+)\.tar\.gz$` */
  function MatchLegacy(name: Name): Option<string> {
    if EndsWithTar(name) && Line(name[..|name| - |TAR|]) then Some(name[..|name| - |TAR|]) else None
  }

  lemma NameParts(head: string, d: string, mid: string, u: string)
    ensures var name := head + d + mid + u + TAR;
            && name[..|head|] == head && name[|head|..|head| + |d|] == d
            && name[|head| + |d|..|head| + |d| + |mid|] == mid
            && name[|head| + |d| + |mid|..|name| - |TAR|] == u && EndsWithTar(name)
  {
    var name := head + d + mid + u + TAR;
    assert name[|name| - |TAR|..] == TAR;
  }

  /** The canonical names are those of this shape. */
  lemma MatchCanonicalExactlyWhen(name: Name, d: string, u: string)
    ensures MatchCanonical(name) == Some((d, u))
            <==> name == "PRFL-" + d + "_" + u + ".tar.gz" && |d| == 3 && AllDigits(d) && u != "" && '\n' !in u
  {
    NameParts("PRFL-", d, "_", u);
    if MatchCanonical(name) == Some((d, u)) {
      assert name == name[..5] + name[5..8] + [name[8]] + name[9..|name| - |TAR|] + name[|name| - |TAR|..];
    }
  }

  /** Slug files are those of this shape, in any case. */
  lemma MatchSlugExactlyWhen(name: Name, k: string)
    ensures MatchSlug(name) == Some(k)
            <==> exists p, h :: name == p + h + ".tar.gz" && Lower(p) == "prfl_" && Lower(h) == k && IsSlug(k)
  {
    if MatchSlug(name) == Some(k) {
      assert name == name[..5] + name[5..21] + name[|name| - |TAR|..];
    }
    if p, h :| name == p + h + ".tar.gz" && Lower(p) == "prfl_" && Lower(h) == k && IsSlug(k) {
      NameParts(p, h, "", "");
      assert name == p + h + "" + "" + TAR;
    }
  }

  /** Legacy names are those of this shape. */
  lemma MatchLegacyExactlyWhen(name: Name, raw: string)
    ensures MatchLegacy(name) == Some(raw) <==> name == raw + ".tar.gz" && raw != "" && '\n' !in raw
  {
    NameParts(raw, "", "", "");
    assert raw + "" + "" + "" + TAR == raw + TAR;
    if MatchLegacy(name) == Some(raw) {
      assert name == name[..|name| - |TAR|] + name[|name| - |TAR|..];
    }
  }

  /** The two maps from the database: by normalised user name and by slug. */
  datatype Identities = Identities(byName: map<string, Identity>, bySlug: map<string, Identity>) {
    /** What the loader makes of its rows: every row is entered under its own normalised user name,
        where a later row of the same name replaces it, and under its slug. */
    ghost predicate Valid() {
      && (forall k :: k in byName ==> Normalize(byName[k].identifier) == k)
      && (forall k :: k in bySlug ==> IsSlug(k) && Normalize(bySlug[k].identifier) in byName)
    }

    /** The identity that goes by the user name of `i`. */
    function Namesake(i: Identity): Identity
      requires Normalize(i.identifier) in byName
    {
      byName[Normalize(i.identifier)]
    }
  }

  /** What the rename loop does with one file. */
  function PlanFor(ids: Identities, name: Name): Plan {
    var slug, legacy := MatchSlug(name), MatchLegacy(name);
    if MatchCanonical(name).Some? then Keep
    else if slug.Some? then
      if slug.value in ids.bySlug then To(CanonicalName(ids.bySlug[slug.value])) else Unknown
    else if legacy.Some? && Normalize(legacy.value) in ids.byName then
      To(CanonicalName(ids.byName[Normalize(legacy.value)]))
    else Unknown
  }

  lemma JoinedParts(d: string, u: string)
    ensures var s := "PRFL-" + d + "_" + u;
            s[..5] == "PRFL-" && s[5..5 + |d|] == d && s[5 + |d|] == '_' && s[6 + |d|..] == u
  {
  }

  lemma JoinedPlain(d: string, u: string)
    requires AllDigits(d) && NormalForm(u)
    ensures var s := "PRFL-" + d + "_" + u; '@' !in s && '\n' !in s
  {
    var head := "PRFL-" + d + "_";
    assert forall c :: c in head ==> c in "PRFL-" || c in d || c == '_';
    assert '@' !in u && '\n' !in u && '@' !in d && '\n' !in d;
  }

  lemma StemParts(i: Identity)
    ensures var d, u := Pad(Show(i.serial), 3), Normalize(i.identifier);
            && Stem(i)[..5] == "PRFL-" && Stem(i)[5..5 + |d|] == d
            && Stem(i)[5 + |d|] == '_' && Stem(i)[6 + |d|..] == u
            && |d| >= 3 && AllDigits(d) && '@' !in Stem(i) && '\n' !in Stem(i)
  {
    var d, u := Pad(Show(i.serial), 3), Normalize(i.identifier);
    NormalizeNormal(i.identifier);
    JoinedParts(d, u);
    JoinedPlain(d, u);
  }

  lemma {:induction false} CountAllDigits(d: string, rest: string)
    requires AllDigits(d) && (rest != "" ==> !IsDigit(rest[0]))
    ensures CountDigits(d + rest) == |d|
    decreases |d|
  {
    if d == "" {
      assert d + rest == rest;
    } else {
      assert (d + rest)[1..] == d[1..] + rest;
      CountAllDigits(d[1..], rest);
    }
  }

  lemma StripSerialOf(s: string, d: string, u: string)
    requires AllDigits(d) && d != "" && |s| >= 5 && Lower(s[..5]) == "prfl-" && s[5..] == d + ("_" + u)
    ensures StripSerial(s) == u
  {
    CountAllDigits(d, "_" + u);
    assert s[5 + |d|] == s[5..][|d|] == '_';
    assert s[5 + |d| + 1..] == s[5..][|d| + 1..] == u;
  }

  lemma SerialDropped(s: string, d: string, u: string)
    requires '@' !in s && NormalForm(u)
    requires AllDigits(d) && d != "" && |s| >= 5 && Lower(s[..5]) == "prfl-" && s[5..] == d + ("_" + u)
    ensures Normalize(s) == u
  {
    BeforeAtFixed(s);
    StripSerialOf(s, d, u);
    TailFixed(u);
  }

  lemma StemTail(s: string, d: string, u: string)
    requires |s| >= 6 + |d| && s[5..5 + |d|] == d && s[5 + |d|] == '_' && s[6 + |d|..] == u
    ensures s[5..] == d + ("_" + u)
  {
  }

  lemma PrflLower()
    ensures Lower("PRFL-") == "prfl-"
  {
  }

  lemma SpelledStemNormalizes(s: string, d: string, u: string)
    requires '@' !in s && NormalForm(u) && AllDigits(d) && d != ""
    requires |s| >= 6 + |d| && s[..5] == "PRFL-" && s[5..5 + |d|] == d && s[5 + |d|] == '_' && s[6 + |d|..] == u
    ensures Normalize(s) == u
  {
    StemTail(s, d, u);
    PrflLower();
    SerialDropped(s, d, u);
  }

  /** Normalising a canonical stem gives the user name back, whatever the serial. */
  lemma StemNormalizes(i: Identity)
    ensures Normalize(Stem(i)) == Normalize(i.identifier)
  {
    var d, u := Pad(Show(i.serial), 3), Normalize(i.identifier);
    StemParts(i);
    NormalizeNormal(i.identifier);
    SpelledStemNormalizes(Stem(i), d, u);
  }

  /** The canonical pattern recognises a canonical name, and recovers serial and user name from
      it, exactly when the serial has at most three digits and the user name is not empty. */
  lemma CanonicalRecoversExactlyWhen(i: Identity)
    ensures MatchCanonical(CanonicalName(i)).Some? <==> i.serial <= 999 && Normalize(i.identifier) != ""
    ensures var m := MatchCanonical(CanonicalName(i));
            m.Some? ==> Parse(m.value.0) == Some(i.serial) && m.value.1 == Normalize(i.identifier)
  {
    var d, u := Pad(Show(i.serial), 3), Normalize(i.identifier);
    ShowLength(i.serial);
    ParseShow(i.serial);
    ParsePad(Show(i.serial), 3);
    NormalizeNormal(i.identifier);
    if |d| == 3 && u != "" {
      MatchCanonicalExactlyWhen(CanonicalName(i), d, u);
    } else {
      NotCanonical(CanonicalName(i), d, u);
    }
  }

  lemma NotCanonical(name: Name, d: string, u: string)
    requires name == "PRFL-" + d + "_" + u + TAR && AllDigits(d) && (|d| > 3 || (|d| == 3 && u == ""))
    ensures MatchCanonical(name).None?
  {
    NameParts("PRFL-", d, "_", u);
    if |d| > 3 {
      assert name[8] == name[5..5 + |d|][3] == d[3];
    } else {
      assert name[9..|name| - |TAR|] == "";
    }
  }

  predicate Recognised(i: Identity) {
    i.serial <= 999 && Normalize(i.identifier) != ""
  }

  /** A canonical name that the pattern does not recognise is planned by its user name. */
  lemma PlanOfCanonical(ids: Identities, i: Identity)
    ensures PlanFor(ids, CanonicalName(i)) ==
            if Recognised(i) then Keep
            else if Normalize(i.identifier) in ids.byName then To(CanonicalName(ids.byName[Normalize(i.identifier)]))
            else Unknown
  {
    CanonicalRecoversExactlyWhen(i);
    StemParts(i);
    StemNormalizes(i);
    var name := CanonicalName(i);
    assert name[..|name| - |TAR|] == Stem(i) && name[|name| - |TAR|..] == TAR;
    assert name[..5] == Stem(i)[..5];
    assert Lower(name[..5]) == "prfl-" != "prfl_" by {
      assert Lower("PRFL-") == "prfl-" && "prfl-"[4] != "prfl_"[4];
    }
  }

  /** Every identity that another one of the same user name has replaced under that name has a
      canonical name that the pattern recognises, or the other's serial. */
  ghost predicate Settled(ids: Identities)
    requires ids.Valid()
  {
    forall k :: k in ids.bySlug ==>
      Recognised(ids.bySlug[k]) || ids.Namesake(ids.bySlug[k]).serial == ids.bySlug[k].serial
  }

  /** Of two identities with the same user name, canonical names tell the serials apart. */
  lemma CanonicalNamesDiffer(i: Identity, j: Identity)
    requires Normalize(i.identifier) == Normalize(j.identifier)
    ensures CanonicalName(i) == CanonicalName(j) <==> i.serial == j.serial
  {
    var d, e, u := Pad(Show(i.serial), 3), Pad(Show(j.serial), 3), Normalize(i.identifier);
    ParseShow(i.serial);
    ParseShow(j.serial);
    ParsePad(Show(i.serial), 3);
    ParsePad(Show(j.serial), 3);
    if CanonicalName(i) == CanonicalName(j) {
      StemParts(i);
      StemParts(j);
      assert |Stem(i)| == |Stem(j)| == 6 + |d| + |u| && |d| == |e|;
      assert Stem(i) == CanonicalName(i)[..|Stem(i)|] == Stem(j);
      assert d == e;
    }
  }

  /** Where the canonical name of an identity leads in a second run. */
  lemma PlanOfKnown(ids: Identities, i: Identity)
    requires ids.Valid() && Normalize(i.identifier) in ids.byName
    ensures PlanFor(ids, CanonicalName(i)) == if Recognised(i) then Keep else To(CanonicalName(ids.Namesake(i)))
    ensures CanonicalName(ids.Namesake(i)) == CanonicalName(i) <==> ids.Namesake(i).serial == i.serial
  {
    PlanOfCanonical(ids, i);
    CanonicalNamesDiffer(i, ids.Namesake(i));
  }

  function SlugFile(k: string): Name {
    "PRFL_" + k + TAR
  }

  lemma CanonicalIsTar(i: Identity)
    ensures EndsWithTar(CanonicalName(i)) && "PRFL-" <= CanonicalName(i)
  {
    StemParts(i);
    assert CanonicalName(i)[..5] == Stem(i)[..5];
  }

  lemma LegacyMatches(u: string, rest: string)
    requires NormalForm(u) && '\n' !in rest
    ensures var f := u + ("@" + rest) + TAR;
            EndsWithTar(f) && MatchCanonical(f).None? && MatchLegacy(f) == Some(u + ("@" + rest))
  {
    var f := u + ("@" + rest) + TAR;
    assert f[..|f| - |TAR|] == u + ("@" + rest) && f[|f| - |TAR|..] == TAR;
    assert f[0] != 'P' && "PRFL-"[0] == 'P' && (|f| >= 5 ==> f[..5][0] == f[0]);
    assert '\n' !in u + ("@" + rest);
  }

  lemma LegacyIsNoSlug(u: string, rest: string)
    requires NormalForm(u)
    ensures MatchSlug(u + ("@" + rest) + TAR).None?
  {
    var f, at := u + ("@" + rest) + TAR, |u|;
    assert f[at] == '@' && !IsHex('@');
    if |f| == 28 && at < 5 {
      assert Lower(f[..5])[at] == '@' && '@' !in "prfl_";
    } else if |f| == 28 {
      assert at < 21 && f[5..21][at - 5] == '@' && Lower(f[5..21])[at - 5] == '@';
    }
  }

  /** A legacy file, named by an address of a known user, is renamed to the canonical name. */
  lemma LegacyPlan(ids: Identities, u: string, rest: string)
    requires ids.Valid() && u in ids.byName && '\n' !in rest
    ensures PlanFor(ids, u + ("@" + rest) + TAR) == To(CanonicalName(ids.byName[u]))
  {
    NormalizeNormal(ids.byName[u].identifier);
    NormalFormFixed(u);
    LegacyMatches(u, rest);
    LegacyIsNoSlug(u, rest);
  }

  /** A slug file without an identity stays as unknown, even if a user goes by its name. */
  lemma UnknownSlugStays(ids: Identities, k: string)
    requires IsSlug(k) && k !in ids.bySlug
    ensures PlanFor(ids, "PRFL_" + k + TAR).Unknown?
  {
    var f := "PRFL_" + k + TAR;
    assert f[..5] == "PRFL_" && f[5..21] == k && f[|f| - |TAR|..] == TAR;
    assert Lower("PRFL_") == "prfl_" && Lower(k) == k;
    assert f[4] == '_' && f[..5][4] == '_';
  }

  /** A slug file is renamed to the canonical name of its identity. */
  lemma SlugPlan(ids: Identities, k: string)
    requires k in ids.bySlug && IsSlug(k)
    ensures EndsWithTar(SlugFile(k)) && !("PRFL-" <= SlugFile(k))
    ensures PlanFor(ids, SlugFile(k)) == To(CanonicalName(ids.bySlug[k]))
  {
    var f := SlugFile(k);
    assert f[..5] == "PRFL_" && f[5..21] == k && f[|f| - |TAR|..] == TAR;
    assert Lower("PRFL_") == "prfl_" && Lower(k) == k;
    assert f[4] == '_' && f[..5][4] == '_';
  }

  function Planner(ids: Identities): Name -> Plan {
    name => PlanFor(ids, name)
  }

  /** A second migration is idle, in every directory, exactly when each identity known by its slug
      has a serial of at most three digits and a user name, or the serial of the identity that goes
      by its user name. */
  lemma ProfilesIdleExactlyWhen(ids: Identities)
    requires ids.Valid()
    ensures SecondRunIdle(Planner(ids), EndsWithTar) <==> Settled(ids)
  {
    var plan := Planner(ids);
    SecondRunIdleExactlyWhen(plan, EndsWithTar);
    if Settled(ids) {
      forall f | EndsWithTar(f) && plan(f).To? && plan(f).target != f && EndsWithTar(plan(f).target)
        ensures var t := plan(f).target; plan(t).To? ==> plan(t).target == t
      {
        TargetSettled(ids, f);
      }
    }
    if TargetsStay(plan, EndsWithTar) {
      forall k | k in ids.bySlug
        ensures Recognised(ids.bySlug[k]) || ids.Namesake(ids.bySlug[k]).serial == ids.bySlug[k].serial
      {
        SlugPlan(ids, k);
        CanonicalIsTar(ids.bySlug[k]);
        PlanOfKnown(ids, ids.bySlug[k]);
        var f, t := SlugFile(k), CanonicalName(ids.bySlug[k]);
        assert plan(f) == To(t) && EndsWithTar(f) && f != t && EndsWithTar(t);
      }
    }
  }

  lemma TargetSettled(ids: Identities, f: Name)
    requires ids.Valid() && Settled(ids) && PlanFor(ids, f).To?
    ensures var t := PlanFor(ids, f).target; PlanFor(ids, t).To? ==> PlanFor(ids, t).target == t
  {
    if MatchSlug(f).Some? {
      PlanOfKnown(ids, ids.bySlug[MatchSlug(f).value]);
    } else {
      PlanOfKnown(ids, ids.byName[Normalize(MatchLegacy(f).value)]);
    }
  }

  /** With serials 0 to 999 and non-empty user names, running the migration again is idle. */
  lemma RecognisedIdle(ids: Identities)
    requires ids.Valid()
    requires forall k :: k in ids.bySlug ==> Recognised(ids.bySlug[k])
    ensures SecondRunIdle(Planner(ids), EndsWithTar)
  {
    ProfilesIdleExactlyWhen(ids);
  }

  // ----- two identities of one user name

  const SLUG_A: string := "00000000000000aa"
  const SLUG_B: string := "00000000000000bb"

  /** What the loader makes of two accounts of the user `u`, the one with serial `a` first. */
  function TwoAccounts(u: string, a: nat, b: nat): Identities {
    var first, second := Identity(a, u + ("@" + "x.org")), Identity(b, u + ("@" + "y.org"));
    Identities(map[u := second], map[SLUG_A := first, SLUG_B := second])
  }

  function NameFor(u: string, serial: nat): Name {
    "PRFL-" + Pad(Show(serial), 3) + "_" + u + TAR
  }

  lemma SlugsAre()
    ensures IsSlug(SLUG_A) && IsSlug(SLUG_B) && SLUG_A != SLUG_B
  {
    assert SLUG_A[15] != SLUG_B[15];
  }

  lemma NamesakesValid(u: string, first: Identity, second: Identity, x: string, y: string)
    requires Normalize(first.identifier) == u && Normalize(second.identifier) == u
    requires IsSlug(x) && IsSlug(y) && x != y
    ensures var ids := Identities(map[u := second], map[x := first, y := second]);
            ids.Valid() && x in ids.bySlug && ids.bySlug[x] == first && ids.Namesake(first) == second
  {
  }

  lemma TwoAccountsValid(u: string, a: nat, b: nat)
    requires NormalForm(u)
    ensures var ids := TwoAccounts(u, a, b);
            && ids.Valid() && SLUG_A in ids.bySlug && ids.bySlug[SLUG_A].serial == a
            && Normalize(ids.bySlug[SLUG_A].identifier) == u && ids.Namesake(ids.bySlug[SLUG_A]).serial == b
  {
    NormalFormFixed(u);
    SlugsAre();
    NamesakesValid(u, Identity(a, u + ("@" + "x.org")), Identity(b, u + ("@" + "y.org")), SLUG_A, SLUG_B);
  }

  lemma CanonicalNameFor(i: Identity, u: string)
    requires Normalize(i.identifier) == u
    ensures CanonicalName(i) == NameFor(u, i.serial)
  {
  }

  /** An identity that the pattern does not recognise, and whose user name goes by another serial,
      is renamed twice: its slug file to its own canonical name, and that to the other's. */
  lemma ReplacedMovesOn(ids: Identities, k: string)
    requires ids.Valid() && k in ids.bySlug && !Recognised(ids.bySlug[k])
    requires ids.Namesake(ids.bySlug[k]).serial != ids.bySlug[k].serial
    ensures var i, u := ids.bySlug[k], Normalize(ids.bySlug[k].identifier);
            && !Settled(ids)
            && PlanFor(ids, SlugFile(k)) == To(NameFor(u, i.serial))
            && PlanFor(ids, NameFor(u, i.serial)) == To(NameFor(u, ids.Namesake(i).serial))
            && NameFor(u, i.serial) != NameFor(u, ids.Namesake(i).serial)
  {
    var i := ids.bySlug[k];
    SlugPlan(ids, k);
    PlanOfKnown(ids, i);
    CanonicalNameFor(i, Normalize(i.identifier));
    CanonicalNameFor(ids.Namesake(i), Normalize(i.identifier));
  }

  lemma DigitsOf()
    ensures Pad(Show(1000), 3) == "1000" && Pad(Show(5), 3) == "005"
    ensures Pad(Show(1), 3) == "001" && Pad(Show(2), 3) == "002"
  {
    assert Show(1) == "1" && Show(2) == "2" && Show(5) == "5";
    assert Show(10) == "10" && Show(100) == "100" && Show(1000) == "1000";
    assert Pad("05", 3) == "005" && Pad("01", 3) == "001" && Pad("02", 3) == "002";
  }

  lemma Spelled(serial: nat, digits: string, u: string, name: Name)
    requires Pad(Show(serial), 3) == digits && "PRFL-" + digits + "_" + u + TAR == name
    ensures NameFor(u, serial) == name
  {
  }

  lemma LongSerialSpelled()
    ensures NameFor("bob", 1000) == "PRFL-1000_bob.tar.gz" && NameFor("bob", 5) == "PRFL-005_bob.tar.gz"
  {
    DigitsOf();
    assert "PRFL-" + "1000" + "_" + "bob" == "PRFL-1000_bob" && "PRFL-" + "005" + "_" + "bob" == "PRFL-005_bob";
    Spelled(1000, "1000", "bob", "PRFL-1000_bob.tar.gz");
    Spelled(5, "005", "bob", "PRFL-005_bob.tar.gz");
  }

  lemma NoNameSpelled()
    ensures NameFor("", 1) == "PRFL-001_.tar.gz" && NameFor("", 2) == "PRFL-002_.tar.gz"
  {
    DigitsOf();
    assert "PRFL-" + "001" + "_" + "" == "PRFL-001_" && "PRFL-" + "002" + "_" + "" == "PRFL-002_";
    Spelled(1, "001", "", "PRFL-001_.tar.gz");
    Spelled(2, "002", "", "PRFL-002_.tar.gz");
  }

  /** Two accounts of `bob`, the first with a serial of four digits: a second run renames again. */
  lemma LongSerialMovesOn()
    ensures var ids := TwoAccounts("bob", 1000, 5);
            && ids.Valid() && !Settled(ids)
            && PlanFor(ids, SlugFile(SLUG_A)) == To("PRFL-1000_bob.tar.gz")
            && PlanFor(ids, "PRFL-1000_bob.tar.gz") == To("PRFL-005_bob.tar.gz")
  {
    TwoAccountsValid("bob", 1000, 5);
    LongSerialSpelled();
    ReplacedMovesOn(TwoAccounts("bob", 1000, 5), SLUG_A);
  }

  /** Two accounts without a user name. */
  lemma NoNameMovesOn()
    ensures var ids := TwoAccounts("", 1, 2);
            && ids.Valid() && !Settled(ids)
            && PlanFor(ids, SlugFile(SLUG_A)) == To("PRFL-001_.tar.gz")
            && PlanFor(ids, "PRFL-001_.tar.gz") == To("PRFL-002_.tar.gz")
  {
    TwoAccountsValid("", 1, 2);
    NoNameSpelled();
    ReplacedMovesOn(TwoAccounts("", 1, 2), SLUG_A);
  }
}
