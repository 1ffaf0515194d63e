/** Filling variables into templates: the code replaces one variable after the other in the text;
    the meaning is one simultaneous substitution. Single-brace tokens `{key}` have depth 1,
    double-brace tokens `{{key}}` depth 2. */
module Templates {
  datatype Piece =
    | Lit(text: string)
    | Token(key: string)

  type Vars = seq<(string, string)>   // a dict, in its iteration order

  function Times(c: char, n: nat): (s: string)
    ensures |s| == n && forall i :: 0 <= i < n ==> s[i] == c
  {
    seq(n, i => c)
  }

  function Mark(key: string, depth: nat): string {
    Times('{', depth) + (key + Times('}', depth))
  }

  function Render(ps: seq<Piece>, depth: nat): string
    decreases |ps|
  {
    if ps == [] then "" else
    (match ps[0] case Lit(text) => text case Token(key) => Mark(key, depth)) + Render(ps[1..], depth)
  }

  /** `s.replace(old, new)`: leftmost occurrences, never inside a replacement. */
  function Replace(s: string, old_: string, new_: string): string
    requires old_ != ""
    decreases |s|
  {
    if s == "" then ""
    else if old_ <= s then new_ + Replace(s[|old_|..], old_, new_)
    else [s[0]] + Replace(s[1..], old_, new_)
  }

  function Sequentially(s: string, vars: Vars, depth: nat): string
    requires depth > 0
    decreases |vars|
  {
    if vars == [] then s else Sequentially(Replace(s, Mark(vars[0].0, depth), vars[0].1), vars[1..], depth)
  }

  /** The substitution loop of the runners. */
  method Substitute(template: string, vars: Vars, depth: nat) returns (text: string)
    requires depth > 0
    ensures text == Sequentially(template, vars, depth)
  {
    text := template;
    for i := 0 to |vars|
      invariant Sequentially(text, vars[i..], depth) == Sequentially(template, vars, depth)
    {
      assert vars[i..][0] == vars[i] && vars[i..][1..] == vars[i + 1..];
      text := Replace(text, Mark(vars[i].0, depth), vars[i].1);
    }
  }

  /** Every token whose key has a value becomes that value, all at once. */
  function Simultaneously(ps: seq<Piece>, vars: map<string, string>, depth: nat): string
    decreases |ps|
  {
    if ps == [] then "" else
    (match ps[0]
     case Lit(text) => text
     case Token(key) => if key in vars then vars[key] else Mark(key, depth))
    + Simultaneously(ps[1..], vars, depth)
  }

  predicate BraceFree(s: string) {
    '{' !in s && '}' !in s
  }

  predicate Plain(ps: seq<Piece>) {
    forall i :: 0 <= i < |ps| ==> BraceFree(if ps[i].Lit? then ps[i].text else ps[i].key)
  }

  predicate DistinctKeys(vars: Vars) {
    forall i, j :: 0 <= i < j < |vars| ==> vars[i].0 != vars[j].0
  }

  function MapOf(vars: Vars): map<string, string>
    decreases |vars|
  {
    if vars == [] then map[] else MapOf(vars[1..])[vars[0].0 := vars[0].1]
  }

  // ----- where a token can occur

  /** A text before whose end no occurrence starts is skipped. */
  lemma {:induction false} SkipUnmatched(x: string, rest: string, old_: string, new_: string)
    requires old_ != "" && forall i :: 0 <= i < |x| ==> !(old_ <= (x + rest)[i..])
    ensures Replace(x + rest, old_, new_) == x + Replace(rest, old_, new_)
    decreases |x|
  {
    if x == "" {
      assert x + rest == rest;
    } else {
      var tail := x[1..];
      assert (x + rest)[0..] == x + rest && (x + rest)[1..] == tail + rest;
      forall i | 0 <= i < |tail|
        ensures !(old_ <= (tail + rest)[i..])
      {
        assert (tail + rest)[i..] == (x + rest)[i + 1..];
      }
      SkipUnmatched(tail, rest, old_, new_);
      assert x == [x[0]] + tail;
    }
  }

  lemma SkipClosed(x: string, rest: string, old_: string, new_: string)
    requires old_ != "" && old_[0] == '{' && '{' !in x
    ensures Replace(x + rest, old_, new_) == x + Replace(rest, old_, new_)
  {
    forall i | 0 <= i < |x|
      ensures !(old_ <= (x + rest)[i..])
    {
      assert (x + rest)[i..][0] == x[i] && x[i] in x;
    }
    SkipUnmatched(x, rest, old_, new_);
  }

  /** Brace-free keys are delimited by the first closing brace. */
  lemma KeysDelimited(k: string, a: string, x: string, y: string)
    requires '}' !in k && '}' !in a && k + "}" + x <= a + "}" + y
    ensures k == a
  {
    var s, t := k + "}" + x, a + "}" + y;
    assert s[|k|] == '}' && t[|a|] == '}';
    assert forall i :: 0 <= i < |k| ==> s[i] == k[i] && k[i] in k;
    assert forall i :: 0 <= i < |a| ==> t[i] == a[i] && a[i] in a;
    assert |k| == |a|;
    assert k == s[..|k|] && a == t[..|a|];
  }

  /** What is left of a foreign token after `j` of its opening braces does not start with the
      token looked for. */
  lemma NoMatch(key: string, other: string, depth: nat, j: nat, rest: string)
    requires j < depth && BraceFree(key) && BraceFree(other) && (j == 0 ==> key != other)
    ensures !(Mark(key, depth) <= Times('{', depth - j) + (other + Times('}', depth) + rest))
  {
    var pattern, text := Mark(key, depth), Times('{', depth - j) + (other + Times('}', depth) + rest);
    var tail := other + Times('}', depth) + rest;
    if j > 0 {
      assert other != "" ==> other[0] in other;
      assert text[depth - j] == tail[0] != '{';
      assert pattern[depth - j] == '{';
    } else if pattern <= text {
      assert pattern[depth..] == key + Times('}', depth) && text[depth..] == tail;
      assert Times('}', depth) == "}" + Times('}', depth - 1);
      assert pattern[depth..] == key + "}" + Times('}', depth - 1);
      assert tail == other + "}" + (Times('}', depth - 1) + rest);
      KeysDelimited(key, other, Times('}', depth - 1), Times('}', depth - 1) + rest);
    }
  }

  lemma ReplaceSkips(s: string, old_: string, new_: string)
    requires s != "" && old_ != "" && !(old_ <= s)
    ensures Replace(s, old_, new_) == [s[0]] + Replace(s[1..], old_, new_)
  {
  }

  lemma OneOpening(n: nat, tail: string)
    requires n > 0
    ensures Times('{', n) + tail == ['{'] + (Times('{', n - 1) + tail)
  {
    assert Times('{', n) == ['{'] + Times('{', n - 1);
  }

  lemma {:induction false} SkipOpening(key: string, other: string, depth: nat, j: nat, rest: string, new_: string)
    requires j <= depth && depth > 0 && BraceFree(key) && BraceFree(other) && key != other
    ensures var tail := other + Times('}', depth) + rest;
            Replace(Times('{', depth - j) + tail, Mark(key, depth), new_)
            == Times('{', depth - j) + Replace(tail, Mark(key, depth), new_)
    decreases depth - j
  {
    var tail, n := other + Times('}', depth) + rest, depth - j;
    if n == 0 {
      assert Times('{', 0) + tail == tail;
    } else {
      NoMatch(key, other, depth, j, rest);
      SkipOpening(key, other, depth, j + 1, rest, new_);
      OneOpening(n, tail);
      OneOpening(n, Replace(tail, Mark(key, depth), new_));
      ReplaceSkips(Times('{', n) + tail, Mark(key, depth), new_);
    }
  }

  lemma SkipToken(key: string, other: string, depth: nat, rest: string, new_: string)
    requires depth > 0 && BraceFree(key) && BraceFree(other) && key != other
    ensures Replace(Mark(other, depth) + rest, Mark(key, depth), new_)
            == Mark(other, depth) + Replace(rest, Mark(key, depth), new_)
  {
    var closed := other + Times('}', depth);
    SkipOpening(key, other, depth, 0, rest, new_);
    SkipClosed(closed, rest, Mark(key, depth), new_);
    assert Mark(other, depth) + rest == Times('{', depth) + (closed + rest);
  }

  lemma HitToken(key: string, depth: nat, rest: string, new_: string)
    requires depth > 0
    ensures Replace(Mark(key, depth) + rest, Mark(key, depth), new_) == new_ + Replace(rest, Mark(key, depth), new_)
  {
    assert (Mark(key, depth) + rest)[|Mark(key, depth)|..] == rest;
  }

  // ----- tokens that values complete

  function Concat(xs: seq<string>): string
    decreases |xs|
  {
    if xs == [] then "" else xs[0] + Concat(xs[1..])
  }

  predicate Contains(s: string, t: string) {
    exists i :: 0 <= i <= |s| && t <= s[i..]
  }

  /** Brace-free texts and the given values. */
  predicate BuiltFrom(xs: seq<string>, values: set<string>) {
    forall i :: 0 <= i < |xs| ==> BraceFree(xs[i]) || xs[i] in values
  }

  /** Brace-free texts and the given values, put side by side, can spell the token of `key`. */
  ghost predicate Completes(values: set<string>, key: string, depth: nat) {
    exists xs: seq<string> :: BuiltFrom(xs, values) && Contains(Concat(xs), Mark(key, depth))
  }

  /** No variable's token can be completed by the values of the other variables, unless the
      variable stands for its own token. */
  ghost predicate Harmless(vars: map<string, string>, depth: nat) {
    forall key :: key in vars ==> vars[key] == Mark(key, depth) || !Completes((vars - {key}).Values, key, depth)
  }

  lemma CompletesMore(values: set<string>, more: set<string>, key: string, depth: nat)
    requires values <= more && Completes(values, key, depth)
    ensures Completes(more, key, depth)
  {
    var xs :| BuiltFrom(xs, values) && Contains(Concat(xs), Mark(key, depth));
    assert BuiltFrom(xs, more);
  }

  // ----- templates in which some variables have been filled in

  /** Literals are brace-free or given values; token keys are brace-free. */
  predicate Mixed(ps: seq<Piece>, values: set<string>) {
    forall i :: 0 <= i < |ps| ==>
      match ps[i]
      case Lit(text) => BraceFree(text) || text in values
      case Token(key) => BraceFree(key)
  }

  function LeadingTexts(ps: seq<Piece>): seq<string>
    decreases |ps|
  {
    if ps == [] || ps[0].Token? then [] else [ps[0].text] + LeadingTexts(ps[1..])
  }

  function FromFirstToken(ps: seq<Piece>): (r: seq<Piece>)
    ensures r == [] || r[0].Token?
    decreases |ps|
  {
    if ps == [] || ps[0].Token? then ps else FromFirstToken(ps[1..])
  }

  lemma {:induction false} SplitAtToken(ps: seq<Piece>, values: set<string>, depth: nat)
    requires Mixed(ps, values)
    ensures Render(ps, depth) == Concat(LeadingTexts(ps)) + Render(FromFirstToken(ps), depth)
    ensures BuiltFrom(LeadingTexts(ps), values)
    decreases |ps|
  {
    if ps != [] && ps[0].Lit? {
      SplitAtToken(ps[1..], values, depth);
      assert LeadingTexts(ps)[1..] == LeadingTexts(ps[1..]);
    }
  }

  /** A token does not run into another one that starts later. */
  lemma NoOverlap(key: string, depth: nat, c: string, other: string, rest: string, i: nat)
    requires depth > 0 && BraceFree(key) && i < |c| < i + |Mark(key, depth)|
    ensures !(Mark(key, depth) <= (c + (Mark(other, depth) + rest))[i..])
  {
    var pattern, tail, j := Mark(key, depth), Mark(other, depth) + rest, |c| - i;
    var text := (c + tail)[i..];
    var closing := key + Times('}', depth);
    assert |tail| >= depth && forall l :: 0 <= l < depth ==> tail[l] == '{';
    assert forall l :: 0 <= l < |closing| ==> closing[l] != '{' by {
      assert forall l :: 0 <= l < |key| ==> key[l] in key;
    }
    var at := if j <= depth then depth else j;
    assert pattern[at] == closing[at - depth];
    assert text[at] == tail[at - j];
  }

  lemma MatchInTexts(ps: seq<Piece>, values: set<string>, key: string, depth: nat, i: nat)
    requires depth > 0 && BraceFree(key) && Mixed(ps, values) && i <= |Render(ps, depth)|
    requires i < |Concat(LeadingTexts(ps))| && Mark(key, depth) <= Render(ps, depth)[i..]
    ensures Completes(values, key, depth)
  {
    SplitAtToken(ps, values, depth);
    var mark, c, more := Mark(key, depth), Concat(LeadingTexts(ps)), FromFirstToken(ps);
    if more != [] && |c| < i + |mark| {
      NoOverlap(key, depth, c, more[0].key, Render(more[1..], depth), i);
    }
    assert mark == Render(ps, depth)[i..][..|mark|] == c[i..][..|mark|];
    assert Contains(c, mark);
  }

  lemma SkipLit(ps: seq<Piece>, values: set<string>, key: string, value: string, depth: nat)
    requires depth > 0 && BraceFree(key) && Mixed(ps, values) && ps != [] && ps[0].Lit?
    requires !Completes(values, key, depth)
    ensures var rest := Render(ps[1..], depth);
            Replace(ps[0].text + rest, Mark(key, depth), value) == ps[0].text + Replace(rest, Mark(key, depth), value)
  {
    var x, rest := ps[0].text, Render(ps[1..], depth);
    forall i | 0 <= i < |x|
      ensures !(Mark(key, depth) <= (x + rest)[i..])
    {
      if Mark(key, depth) <= (x + rest)[i..] {
        MatchInTexts(ps, values, key, depth, i);
      }
    }
    SkipUnmatched(x, rest, Mark(key, depth), value);
  }

  // ----- one variable

  function Fill(ps: seq<Piece>, key: string, value: string): (r: seq<Piece>)
    ensures |r| == |ps|
  {
    seq(|ps|, i requires 0 <= i < |ps| => if ps[i] == Token(key) then Lit(value) else ps[i])
  }

  /** Replacing one token in the text is filling it in the template. */
  lemma {:induction false} ReplaceFills(ps: seq<Piece>, values: set<string>, key: string, value: string, depth: nat)
    requires depth > 0 && Mixed(ps, values) && BraceFree(key) && !Completes(values, key, depth)
    ensures Replace(Render(ps, depth), Mark(key, depth), value) == Render(Fill(ps, key, value), depth)
    decreases |ps|
  {
    if ps != [] {
      var rest := Render(ps[1..], depth);
      ReplaceFills(ps[1..], values, key, value, depth);
      assert Fill(ps, key, value)[1..] == Fill(ps[1..], key, value);
      match ps[0]
      case Lit(_) => SkipLit(ps, values, key, value, depth);
      case Token(other) =>
        if other == key {
          HitToken(key, depth, rest, value);
        } else {
          SkipToken(key, other, depth, rest, value);
        }
    }
  }

  lemma {:induction false} ReplaceBySelf(s: string, t: string)
    requires t != ""
    ensures Replace(s, t, t) == s
    decreases |s|
  {
    if s != "" {
      if t <= s {
        var rest := s[|t|..];
        assert s == t + rest;
        ReplaceBySelf(rest, t);
        assert Replace(s, t, t) == t + Replace(rest, t, t);
      } else {
        var rest := s[1..];
        assert s == [s[0]] + rest;
        ReplaceBySelf(rest, t);
        ReplaceSkips(s, t, t);
      }
    }
  }

  lemma {:induction false} FillBySelf(ps: seq<Piece>, key: string, depth: nat)
    ensures Render(Fill(ps, key, Mark(key, depth)), depth) == Render(ps, depth)
    decreases |ps|
  {
    if ps != [] {
      FillBySelf(ps[1..], key, depth);
      assert Fill(ps, key, Mark(key, depth))[1..] == Fill(ps[1..], key, Mark(key, depth));
    }
  }

  lemma {:induction false} FillThenAll(ps: seq<Piece>, key: string, value: string, vars: map<string, string>,
                                       depth: nat)
    requires key !in vars
    ensures Simultaneously(Fill(ps, key, value), vars, depth) == Simultaneously(ps, vars[key := value], depth)
    decreases |ps|
  {
    if ps != [] {
      FillThenAll(ps[1..], key, value, vars, depth);
      assert Fill(ps, key, value)[1..] == Fill(ps[1..], key, value);
    }
  }

  // ----- all variables

  lemma {:induction false} MapOfKeys(vars: Vars, key: string)
    ensures key in MapOf(vars) <==> exists i :: 0 <= i < |vars| && vars[i].0 == key
    decreases |vars|
  {
    if vars != [] {
      MapOfKeys(vars[1..], key);
      if i :| 0 <= i < |vars| && vars[i].0 == key {
        assert i > 0 ==> vars[1..][i - 1].0 == key;
      }
      if j :| 0 <= j < |vars[1..]| && vars[1..][j].0 == key {
        assert vars[j + 1].0 == key;
      }
    }
  }

  lemma {:induction false} NoVars(ps: seq<Piece>, depth: nat)
    ensures Simultaneously(ps, map[], depth) == Render(ps, depth)
    decreases |ps|
  {
    if ps != [] {
      NoVars(ps[1..], depth);
    }
  }

  predicate PlainKeys(vars: map<string, string>) {
    forall key :: key in vars ==> BraceFree(key)
  }

  /** `vars` is some iteration order of a dict. */
  predicate Orders(vars: Vars, dict: map<string, string>) {
    DistinctKeys(vars) && MapOf(vars) == dict
  }

  /** Replacing one variable whose token the values filled in so far cannot complete. */
  lemma FillStep(ps: seq<Piece>, values: set<string>, key: string, value: string, depth: nat)
    requires depth > 0 && Mixed(ps, values) && BraceFree(key)
    requires value == Mark(key, depth) || !Completes(values, key, depth)
    ensures Replace(Render(ps, depth), Mark(key, depth), value) == Render(Fill(ps, key, value), depth)
    ensures Mixed(Fill(ps, key, value), values + {value})
  {
    if value == Mark(key, depth) {
      ReplaceBySelf(Render(ps, depth), value);
      FillBySelf(ps, key, depth);
    } else {
      ReplaceFills(ps, values, key, value, depth);
    }
  }

  /** The variables still to be replaced, as part of a whole dict. */
  lemma {:induction false} SequentialFrom(ps: seq<Piece>, values: set<string>, vars: Vars, dict: map<string, string>,
                                          depth: nat)
    requires depth > 0 && PlainKeys(dict) && Harmless(dict, depth) && DistinctKeys(vars)
    requires MapOf(vars).Keys <= dict.Keys && forall key :: key in MapOf(vars) ==> dict[key] == MapOf(vars)[key]
    requires Mixed(ps, values) && values <= (dict - MapOf(vars).Keys).Values
    ensures Sequentially(Render(ps, depth), vars, depth) == Simultaneously(ps, MapOf(vars), depth)
    decreases |vars|
  {
    if vars == [] {
      NoVars(ps, depth);
    } else {
      var (key, value) := vars[0];
      var rest := vars[1..];
      MapOfKeys(rest, key);
      assert key !in MapOf(rest) && dict[key] == value;
      forall v | v in values
        ensures v in (dict - {key}).Values && v in (dict - MapOf(rest).Keys).Values
      {
        var a :| a in dict - MapOf(vars).Keys && dict[a] == v;
        assert (dict - {key})[a] == v && (dict - MapOf(rest).Keys)[a] == v;
      }
      if Completes(values, key, depth) {
        CompletesMore(values, (dict - {key}).Values, key, depth);
      }
      FillStep(ps, values, key, value, depth);
      assert (dict - MapOf(rest).Keys)[key] == value;
      SequentialFrom(Fill(ps, key, value), values + {value}, rest, dict, depth);
      FillThenAll(ps, key, value, MapOf(rest), depth);
    }
  }

  /** Replacing variable after variable is one simultaneous substitution, for every template of
      brace-free literals and tokens and every harmless dict with brace-free keys. */
  lemma SequentialIsSimultaneous(ps: seq<Piece>, vars: Vars, dict: map<string, string>, depth: nat)
    requires depth > 0 && Plain(ps) && Orders(vars, dict) && PlainKeys(dict) && Harmless(dict, depth)
    ensures Sequentially(Render(ps, depth), vars, depth) == Simultaneously(ps, dict, depth)
  {
    assert Mixed(ps, {}) by {
      forall i | 0 <= i < |ps|
        ensures BraceFree(if ps[i].Lit? then ps[i].text else ps[i].key)
      {
      }
    }
    SequentialFrom(ps, {}, vars, dict, depth);
  }

  lemma {:induction false} ConcatClosed(xs: seq<string>)
    requires BuiltFrom(xs, {})
    ensures BraceFree(Concat(xs))
    decreases |xs|
  {
    if xs != [] {
      assert BraceFree(xs[0]);
      ConcatClosed(xs[1..]);
    }
  }

  lemma ClosedHasNoToken(s: string, key: string, depth: nat)
    requires depth > 0 && BraceFree(s)
    ensures !Contains(s, Mark(key, depth))
  {
    assert Mark(key, depth)[0] == '{';
    assert forall i :: 0 <= i < |s| ==> s[i] in s;
  }

  lemma ClosedCompleteNothing(values: set<string>, key: string, depth: nat)
    requires depth > 0 && forall v :: v in values ==> BraceFree(v)
    ensures !Completes(values, key, depth)
  {
    forall xs: seq<string> | BuiltFrom(xs, values)
      ensures !Contains(Concat(xs), Mark(key, depth))
    {
      assert BuiltFrom(xs, {});
      ConcatClosed(xs);
      ClosedHasNoToken(Concat(xs), key, depth);
    }
  }

  /** A dict of brace-free values is harmless. */
  lemma BraceFreeHarmless(dict: map<string, string>, depth: nat)
    requires depth > 0 && forall key :: key in dict ==> BraceFree(dict[key])
    ensures Harmless(dict, depth)
  {
    forall key | key in dict
      ensures !Completes((dict - {key}).Values, key, depth)
    {
      ClosedCompleteNothing((dict - {key}).Values, key, depth);
    }
  }

  // ----- when the order of the dict matters

  ghost predicate OrderNeverMatters(dict: map<string, string>, depth: nat)
    requires depth > 0
  {
    forall ps, vars: Vars, others: Vars :: Plain(ps) && Orders(vars, dict) && Orders(others, dict) ==>
      Sequentially(Render(ps, depth), vars, depth) == Sequentially(Render(ps, depth), others, depth)
  }

  lemma {:induction false} ReplaceLength(s: string, old_: string, new_: string)
    requires old_ != ""
    ensures |new_| >= |old_| ==> |Replace(s, old_, new_)| >= |s|
    ensures |new_| <= |old_| ==> |Replace(s, old_, new_)| <= |s|
    decreases |s|
  {
    if s != "" {
      ReplaceLength(if old_ <= s then s[|old_|..] else s[1..], old_, new_);
    }
  }

  /** Replacing something that is there by something else changes the text. */
  lemma {:induction false} ReplaceChanges(s: string, old_: string, new_: string)
    requires old_ != "" && old_ != new_ && Contains(s, old_)
    ensures Replace(s, old_, new_) != s
    decreases |s|
  {
    var i :| 0 <= i <= |s| && old_ <= s[i..];
    if old_ <= s {
      var rest := s[|old_|..];
      ReplaceLength(rest, old_, new_);
      if |new_| == |old_| {
        assert Replace(s, old_, new_)[..|old_|] == new_ && s[..|old_|] == old_;
      }
    } else {
      assert i > 0 by {
        assert s[0..] == s;
      }
      assert s[1..][i - 1..] == s[i..];
      ReplaceChanges(s[1..], old_, new_);
      assert Replace(s, old_, new_)[1..] == Replace(s[1..], old_, new_);
    }
  }

  lemma {:induction false} SequentiallyLast(s: string, vars: Vars, last: (string, string), depth: nat)
    requires depth > 0
    ensures Sequentially(s, vars + [last], depth) == Replace(Sequentially(s, vars, depth), Mark(last.0, depth), last.1)
    decreases |vars|
  {
    if vars == [] {
      assert vars + [last] == [last] && [last][1..] == [];
    } else {
      assert (vars + [last])[0] == vars[0] && (vars + [last])[1..] == vars[1..] + [last];
      SequentiallyLast(Replace(s, Mark(vars[0].0, depth), vars[0].1), vars[1..], last, depth);
    }
  }

  lemma {:induction false} MapOfLast(vars: Vars, last: (string, string))
    requires last.0 !in MapOf(vars)
    ensures MapOf(vars + [last]) == MapOf(vars)[last.0 := last.1]
    decreases |vars|
  {
    if vars == [] {
      assert vars + [last] == [last] && [last][1..] == [];
    } else {
      assert (vars + [last])[0] == vars[0] && (vars + [last])[1..] == vars[1..] + [last];
      MapOfLast(vars[1..], last);
    }
  }

  /** An order of a smaller dict extends to one of the whole dict at either end. */
  lemma OrdersExtend(vars: Vars, dict: map<string, string>, key: string)
    requires key in dict && Orders(vars, dict - {key})
    ensures Orders([(key, dict[key])] + vars, dict) && Orders(vars + [(key, dict[key])], dict)
  {
    var last := (key, dict[key]);
    assert ([last] + vars)[1..] == vars;
    forall i | 0 <= i < |vars|
      ensures vars[i].0 != key
    {
      MapOfKeys(vars, key);
    }
    MapOfLast(vars, last);
  }

  lemma {:induction false} SomeOrder(dict: map<string, string>) returns (vars: Vars)
    ensures Orders(vars, dict)
    decreases |dict|
  {
    if dict == map[] {
      vars := [];
    } else {
      var key :| key in dict;
      var rest := SomeOrder(dict - {key});
      OrdersExtend(rest, dict, key);
      vars := [(key, dict[key])] + rest;
    }
  }

  predicate TokensIn(ps: seq<Piece>, keys: set<string>) {
    forall i :: 0 <= i < |ps| && ps[i].Token? ==> ps[i].key in keys
  }

  lemma FirstIdle(ps: seq<Piece>, key: string, value: string, vars: Vars, depth: nat)
    requires depth > 0 && Plain(ps) && BraceFree(key) && !(Token(key) in ps)
    ensures Sequentially(Render(ps, depth), [(key, value)] + vars, depth)
            == Sequentially(Render(ps, depth), vars, depth)
  {
    assert ([(key, value)] + vars)[1..] == vars;
    assert Fill(ps, key, value) == ps;
    assert Mixed(ps, {}) by {
      forall i | 0 <= i < |ps|
        ensures BraceFree(if ps[i].Lit? then ps[i].text else ps[i].key)
      {
      }
    }
    ClosedCompleteNothing({}, key, depth);
    ReplaceFills(ps, {}, key, value, depth);
  }

  /** A template whose simultaneous substitution is the given row of texts and values. */
  lemma {:induction false} TemplateFor(xs: seq<string>, dict: map<string, string>, depth: nat) returns (ps: seq<Piece>)
    requires BuiltFrom(xs, dict.Values) && PlainKeys(dict)
    ensures Plain(ps) && TokensIn(ps, dict.Keys) && Simultaneously(ps, dict, depth) == Concat(xs)
    decreases |xs|
  {
    if xs == [] {
      ps := [];
    } else {
      var rest := TemplateFor(xs[1..], dict, depth);
      assert BraceFree(xs[0]) || xs[0] in dict.Values;
      var first := Lit(xs[0]);
      if !BraceFree(xs[0]) {
        var a :| a in dict && dict[a] == xs[0];
        first := Token(a);
      }
      ps := [first] + rest;
      assert ps[1..] == rest;
    }
  }

  /** Two orders of a dict that is not harmless, and a template that tells them apart. */
  lemma {:induction false} OrdersDiffer(dict: map<string, string>, depth: nat)
    returns (ps: seq<Piece>, vars: Vars, others: Vars)
    requires depth > 0 && PlainKeys(dict) && !Harmless(dict, depth)
    ensures Plain(ps) && TokensIn(ps, dict.Keys) && Orders(vars, dict) && Orders(others, dict)
    ensures Sequentially(Render(ps, depth), vars, depth) != Sequentially(Render(ps, depth), others, depth)
    decreases |dict|
  {
    var key :| key in dict && dict[key] != Mark(key, depth) && Completes((dict - {key}).Values, key, depth);
    var rest, value := dict - {key}, dict[key];
    if Harmless(rest, depth) {
      var xs :| BuiltFrom(xs, rest.Values) && Contains(Concat(xs), Mark(key, depth));
      var some := SomeOrder(rest);
      ps := TemplateFor(xs, rest, depth);
      SequentialIsSimultaneous(ps, some, rest, depth);
      FirstIdle(ps, key, value, some, depth);
      SequentiallyLast(Render(ps, depth), some, (key, value), depth);
      ReplaceChanges(Concat(xs), Mark(key, depth), value);
      vars, others := [(key, value)] + some, some + [(key, value)];
      OrdersExtend(some, dict, key);
    } else {
      ps, vars, others := OrdersDiffer(rest, depth);
      FirstIdle(ps, key, value, vars, depth);
      FirstIdle(ps, key, value, others, depth);
      OrdersExtend(vars, dict, key);
      OrdersExtend(others, dict, key);
      vars, others := [(key, value)] + vars, [(key, value)] + others;
    }
  }

  /** For dicts with brace-free keys, the iteration order never matters, in any template of
      brace-free literals and tokens, exactly when no token can be completed by the values of the
      other variables. */
  lemma OrderNeverMattersExactlyWhen(dict: map<string, string>, depth: nat)
    requires depth > 0 && PlainKeys(dict)
    ensures OrderNeverMatters(dict, depth) <==> Harmless(dict, depth)
  {
    if Harmless(dict, depth) {
      forall ps, vars: Vars, others: Vars | Plain(ps) && Orders(vars, dict) && Orders(others, dict)
        ensures Sequentially(Render(ps, depth), vars, depth) == Sequentially(Render(ps, depth), others, depth)
      {
        SequentialIsSimultaneous(ps, vars, dict, depth);
        SequentialIsSimultaneous(ps, others, dict, depth);
      }
    } else {
      var ps, vars, others := OrdersDiffer(dict, depth);
    }
  }

  // ----- the condition for single braces, value by value

  predicate EndsWith(s: string, t: string) {
    |t| <= |s| && s[|s| - |t|..] == t
  }

  /** The values `x` and `y` open and close the token, and leave room for what is missing. */
  predicate Opens(x: string, key: string, i: nat) {
    i <= |key| && EndsWith(x, "{" + key[..i])
  }

  predicate Closes(y: string, key: string, j: nat) {
    j <= |key| && key[|key| - j..] + "}" <= y
  }

  lemma MarkOne(key: string)
    ensures Mark(key, 1) == "{" + key + "}"
  {
    assert Times('{', 1) == "{" && Times('}', 1) == "}";
  }

  lemma MarkTwo(key: string)
    ensures Mark(key, 2) == "{{" + key + "}}"
  {
    assert Times('{', 2) == "{{" && Times('}', 2) == "}}";
  }

  /** Texts that start by closing a token contain a value that closes it. */
  lemma {:induction false} SomeCloses(xs: seq<string>, values: set<string>, key: string, m: nat)
    returns (y: string, j: nat)
    requires BuiltFrom(xs, values) && BraceFree(key) && m <= |key| && key[|key| - m..] + "}" <= Concat(xs)
    ensures y in values && j <= m && Closes(y, key, j)
    decreases |xs|
  {
    var x, tail := xs[0], key[|key| - m..];
    assert BraceFree(x) || x in values;
    if |x| > m {
      assert tail + "}" <= x;
      assert x[m] == '}' && x[m] in x;
      y, j := x, m;
    } else {
      var rest := Concat(xs[1..]);
      assert Concat(xs)[|x|..] == rest;
      assert (tail + "}")[|x|..] == key[|key| - (m - |x|)..] + "}";
      y, j := SomeCloses(xs[1..], values, key, m - |x|);
    }
  }

  /** A token that starts in the value `x` and goes on into the texts behind it. */
  lemma OpensInto(x: string, xs: seq<string>, values: set<string>, key: string, p: nat)
    requires x in values && BuiltFrom(xs, values) && BraceFree(key)
    requires p < |x| < p + |key| + 2 && "{" + key + "}" <= (x + Concat(xs))[p..]
    ensures CompletesOne(values, key)
  {
    var mark, text, i := "{" + key + "}", (x + Concat(xs))[p..], |x| - p - 1;
    assert x[p..] == text[..i + 1] == mark[..i + 1] == "{" + key[..i];
    assert Opens(x, key, i);
    assert Concat(xs) == text[i + 1..];
    assert mark[i + 1..] == key[i..] + "}" && mark[i + 1..] <= Concat(xs);
    var y, j := SomeCloses(xs, values, key, |key| - i);
  }

  /** A token spelled by texts and values, starting at position `p`. */
  lemma {:induction false} SomeOpens(xs: seq<string>, values: set<string>, key: string, p: nat)
    requires BuiltFrom(xs, values) && BraceFree(key) && p <= |Concat(xs)| && "{" + key + "}" <= Concat(xs)[p..]
    ensures CompletesOne(values, key)
    decreases |xs|
  {
    var mark, x, rest := "{" + key + "}", xs[0], Concat(xs[1..]);
    if p >= |x| {
      assert Concat(xs)[p..] == rest[p - |x|..];
      SomeOpens(xs[1..], values, key, p - |x|);
    } else {
      assert x[p] == Concat(xs)[p..][0] == '{' && x[p] in x;
      assert BraceFree(x) || x in values;
      if p + |mark| <= |x| {
        assert x[p..][..|mark|] == Concat(xs)[p..][..|mark|];
        assert Contains(x, mark);
      } else {
        OpensInto(x, xs[1..], values, key, p);
      }
    }
  }

  /** Some value contains the token; or one ends with its opening, another starts with its closing,
      and the two leave room for the rest of the key. */
  ghost predicate CompletesOne(values: set<string>, key: string) {
    || (exists x :: x in values && Contains(x, "{" + key + "}"))
    || (exists x, y, i: nat, j: nat ::
          x in values && y in values && Opens(x, key, i) && Closes(y, key, j) && i + j <= |key|)
  }

  /** For single braces, texts and values can spell a token exactly when one value contains it, or
      the tail of one and the head of another open and close it. */
  lemma CompletesExactlyWhen(values: set<string>, key: string)
    requires BraceFree(key)
    ensures Completes(values, key, 1) <==> CompletesOne(values, key)
  {
    MarkOne(key);
    if Completes(values, key, 1) {
      var xs :| BuiltFrom(xs, values) && Contains(Concat(xs), Mark(key, 1));
      var p :| 0 <= p <= |Concat(xs)| && Mark(key, 1) <= Concat(xs)[p..];
      SomeOpens(xs, values, key, p);
    }
    if x :| x in values && Contains(x, "{" + key + "}") {
      assert [x][1..] == [] && Concat([x]) == x;
      assert BuiltFrom([x], values);
    } else if x, y, i: nat, j: nat :|
        x in values && y in values && Opens(x, key, i) && Closes(y, key, j) && i + j <= |key| {
      Joined(values, key, x, i, y, j);
    }
  }

  lemma ConcatThree(x: string, y: string, z: string)
    ensures Concat([x, y, z]) == x + (y + z)
  {
    assert [x, y, z][1..] == [y, z] && [y, z][1..] == [z] && [z][1..] == [];
    assert Concat([z]) == z + "" == z;
    assert Concat([y, z]) == y + z;
  }

  lemma JoinedSpells(key: string, x: string, i: nat, y: string, j: nat)
    requires Opens(x, key, i) && Closes(y, key, j) && i + j <= |key|
    ensures Contains(x + (key[i..|key| - j] + y), "{" + key + "}")
  {
    var between, closing := key[i..|key| - j], key[|key| - j..] + "}";
    var s, p := x + (between + y), |x| - i - 1;
    assert s[p..] == x[p..] + (between + y);
    assert y == closing + y[|closing|..];
    assert s[p..] == ("{" + key[..i] + between + closing) + y[|closing|..];
    assert key == key[..i] + between + key[|key| - j..];
    assert "{" + key + "}" == "{" + key[..i] + between + closing;
  }

  lemma Joined(values: set<string>, key: string, x: string, i: nat, y: string, j: nat)
    requires BraceFree(key) && x in values && y in values && Opens(x, key, i) && Closes(y, key, j) && i + j <= |key|
    ensures Completes(values, key, 1)
  {
    var between := key[i..|key| - j];
    assert forall c :: c in between ==> c in key;
    assert BuiltFrom([x, between, y], values);
    ConcatThree(x, between, y);
    JoinedSpells(key, x, i, y, j);
    MarkOne(key);
  }

  // ----- the condition at any depth, by walking over the token

  predicate IsBrace(c: char) {
    c == '{' || c == '}'
  }

  /** The next `n` characters of the token are one brace-free character, or a whole value. */
  predicate Fits(values: set<string>, m: string, p: nat, n: nat)
    requires p + n <= |m|
  {
    (n == 1 && !IsBrace(m[p])) || m[p..p + n] in values
  }

  /** The rest of the token is the beginning of a value. */
  predicate RunsOut(values: set<string>, m: string, p: nat)
    requires p <= |m|
  {
    exists y :: y in values && m[p..] <= y
  }

  /** From position `p` on, the token `m` can be laid out as whole values and brace-free characters,
      up to its end or to a value that goes on past it. A caller can compute this. */
  predicate Covers(values: set<string>, m: string, p: nat)
    requires p <= |m|
    decreases |m| - p
  {
    || p == |m|
    || RunsOut(values, m, p)
    || (exists n: nat :: 0 < n <= |m| - p && Fits(values, m, p, n) && Covers(values, m, p + n))
  }

  /** Some value contains the token, or ends with a beginning of it that the rest can be laid out
      behind. */
  ghost predicate Coverable(values: set<string>, m: string) {
    || (exists x :: x in values && Contains(x, m))
    || (exists x, p: nat :: x in values && 0 < p <= |m| && EndsWith(x, m[..p]) && Covers(values, m, p))
  }

  /** Brace-free characters can always be laid out. */
  lemma {:induction false} CoversFree(values: set<string>, m: string, p: nat, q: nat)
    requires p <= q <= |m| && Covers(values, m, q) && forall i :: p <= i < q ==> !IsBrace(m[i])
    ensures Covers(values, m, p)
    decreases q - p
  {
    if p < q {
      CoversFree(values, m, p + 1, q);
      assert Fits(values, m, p, 1);
    }
  }

  lemma FreePart(x: string, m: string, p: nat)
    requires p + |x| <= |m| && m[p..p + |x|] == x && BraceFree(x)
    ensures forall i :: p <= i < p + |x| ==> !IsBrace(m[i])
  {
    assert forall i :: p <= i < p + |x| ==> m[i] == x[i - p] && x[i - p] in x;
  }

  lemma NextCovers(x: string, values: set<string>, m: string, p: nat)
    requires BraceFree(x) || x in values
    requires p + |x| <= |m| && x == m[p..p + |x|] && Covers(values, m, p + |x|)
    ensures Covers(values, m, p)
  {
    if BraceFree(x) {
      FreePart(x, m, p);
      CoversFree(values, m, p, p + |x|);
    } else {
      assert Fits(values, m, p, |x|);
    }
  }

  lemma LastCovers(x: string, values: set<string>, m: string, p: nat)
    requires BraceFree(x) || x in values
    requires p <= |m| && m[p..] <= x
    ensures Covers(values, m, p)
  {
    if BraceFree(x) {
      assert forall c :: c in m[p..] ==> c in x;
      NextCovers(m[p..], values, m, p);
    } else {
      assert RunsOut(values, m, p);
    }
  }

  lemma PrefixTail(m: string, p: nat, x: string, rest: string)
    requires p <= |m| && |x| < |m| - p && m[p..] <= x + rest
    ensures x == m[p..p + |x|] && m[p + |x|..] <= rest
  {
    assert (x + rest)[..|x|] == x && (x + rest)[|x|..] == rest;
    assert m[p..][..|x|] == m[p..p + |x|] && m[p..][|x|..] == m[p + |x|..];
  }

  /** Texts and values that start with what is left of the token lay it out. */
  lemma {:induction false} TextsCover(xs: seq<string>, values: set<string>, m: string, p: nat)
    requires BuiltFrom(xs, values) && p <= |m| && m[p..] <= Concat(xs)
    ensures Covers(values, m, p)
    decreases |xs|
  {
    if p < |m| {
      var x, rest := xs[0], xs[1..];
      assert BraceFree(x) || x in values;
      if |x| >= |m| - p {
        assert m[p..] <= x;
        LastCovers(x, values, m, p);
      } else {
        PrefixTail(m, p, x, Concat(rest));
        TextsCover(rest, values, m, p + |x|);
        NextCovers(x, values, m, p);
      }
    }
  }

  lemma PrefixLonger(x: string, a: string, b: string)
    requires a <= b
    ensures x + a <= x + b
  {
    assert b == a + b[|a|..];
    assert x + b == (x + a) + b[|a|..];
  }

  lemma PrefixCons(m: string, p: nat, n: nat, rest: seq<string>)
    requires p + n <= |m| && m[p + n..] <= Concat(rest)
    ensures m[p..] <= Concat([m[p..p + n]] + rest)
  {
    var x := m[p..p + n];
    ConcatCons(x, rest);
    PrefixLonger(x, m[p + n..], Concat(rest));
    assert m[p..] == x + m[p + n..];
  }

  lemma BuiltCons(x: string, rest: seq<string>, values: set<string>)
    requires BuiltFrom(rest, values) && (BraceFree(x) || x in values)
    ensures BuiltFrom([x] + rest, values)
  {
  }

  /** A layout is spelled by texts and values. */
  lemma {:induction false} CoverTexts(values: set<string>, m: string, p: nat) returns (xs: seq<string>)
    requires p <= |m| && Covers(values, m, p)
    ensures BuiltFrom(xs, values) && m[p..] <= Concat(xs)
    decreases |m| - p
  {
    if p == |m| {
      xs := [];
    } else if RunsOut(values, m, p) {
      var y :| y in values && m[p..] <= y;
      xs := [y] + [];
      ConcatCons(y, []);
    } else {
      var n: nat :| 0 < n <= |m| - p && Fits(values, m, p, n) && Covers(values, m, p + n);
      var rest := CoverTexts(values, m, p + n);
      assert n == 1 ==> m[p..p + n] == [m[p]];
      BuiltCons(m[p..p + n], rest, values);
      PrefixCons(m, p, n, rest);
      xs := [m[p..p + n]] + rest;
    }
  }

  lemma ConcatCons(x: string, xs: seq<string>)
    ensures Concat([x] + xs) == x + Concat(xs)
  {
    assert ([x] + xs)[1..] == xs;
  }

  /** A token that texts and values spell starts in a value, or is a value's own. */
  lemma {:induction false} SpelledFromValue(xs: seq<string>, values: set<string>, m: string, at: nat)
    requires BuiltFrom(xs, values) && m != "" && IsBrace(m[0]) && at <= |Concat(xs)| && m <= Concat(xs)[at..]
    ensures Coverable(values, m)
    decreases |xs|
  {
    var x, rest := xs[0], Concat(xs[1..]);
    if at >= |x| {
      assert Concat(xs)[at..] == rest[at - |x|..];
      SpelledFromValue(xs[1..], values, m, at - |x|);
    } else {
      assert x[at] == Concat(xs)[at..][0] == m[0] && x[at] in x;
      assert BraceFree(x) || x in values;
      var p := |x| - at;
      if p >= |m| {
        assert x[at..][..|m|] == Concat(xs)[at..][..|m|];
        assert Contains(x, m);
      } else {
        assert x[at..] == Concat(xs)[at..][..p] == m[..p];
        assert EndsWith(x, m[..p]);
        assert rest == Concat(xs)[at..][p..];
        TextsCover(xs[1..], values, m, p);
      }
    }
  }

  lemma CoverableSpells(values: set<string>, m: string) returns (xs: seq<string>)
    requires Coverable(values, m)
    ensures BuiltFrom(xs, values) && Contains(Concat(xs), m)
  {
    if x :| x in values && Contains(x, m) {
      xs := [x];
      ConcatCons(x, []);
      assert [x] + [] == [x] && x + "" == x;
    } else {
      var x, p: nat :| x in values && 0 < p <= |m| && EndsWith(x, m[..p]) && Covers(values, m, p);
      var rest := CoverTexts(values, m, p);
      xs := [x] + rest;
      ConcatCons(x, rest);
      var at := |x| - p;
      assert Concat(xs)[at..] == m[..p] + Concat(rest);
      assert m == m[..p] + m[p..];
    }
  }

  /** At any depth, texts and values can spell a token exactly when some value contains it, or some
      value ends with a beginning of it and the rest of the token can be laid out, position by
      position, as brace-free characters and whole values, up to its end or into a last value. */
  lemma CompletesExactlyWhenCovered(values: set<string>, key: string, depth: nat)
    requires depth > 0
    ensures Completes(values, key, depth) <==> Coverable(values, Mark(key, depth))
  {
    var m := Mark(key, depth);
    assert m[0] == '{';
    if Completes(values, key, depth) {
      var xs :| BuiltFrom(xs, values) && Contains(Concat(xs), m);
      var at :| 0 <= at <= |Concat(xs)| && m <= Concat(xs)[at..];
      SpelledFromValue(xs, values, m, at);
    }
    if Coverable(values, m) {
      var xs := CoverableSpells(values, m);
    }
  }

  /** A value that looks like a token is substituted again, or not, depending on the order. */
  lemma BracesInValuesMatter()
    ensures Sequentially("{a}", [("a", "{b}"), ("b", "x")], 1) == "x"
    ensures Sequentially("{a}", [("b", "x"), ("a", "{b}")], 1) == "{b}"
  {
    var a, b := ("a", "{b}"), ("b", "x");
    assert Times('{', 1) == "{" && Times('}', 1) == "}";
    assert Mark("a", 1) == "{a}" && Mark("b", 1) == "{b}";
    assert Replace("{a}", "{a}", "{b}") == "{b}" && Replace("{b}", "{b}", "x") == "x";
    assert Replace("{a}", "{b}", "x") == "{a}" by {
      assert "{a}"[1] != "{b}"[1];
      assert Replace("a}", "{b}", "x") == "a}" && "{a}"[1..] == "a}";
    }
    assert [a, b][1..] == [b] && [b, a][1..] == [a] && [a][1..] == [] && [b][1..] == [];
  }
}
