/** UTF-8, strict in both directions, as `bytes.decode()` and `str.encode()` have it. */
module Utf8 {
  import opened Options

  type Rune = c: nat | c < 0x110000

  predicate Continues(b: Byte) {
    0x80 <= b < 0xC0
  }

  /** The length of the first encoded character, or 0 when the bytes do not start with one. */
  function FirstLength(s: Bytes): (n: nat)
    ensures n <= |s| && n <= 4
  {
    if s == [] then 0
    else if s[0] < 0x80 then 1
    else if 0xC2 <= s[0] < 0xE0 then (if |s| >= 2 && Continues(s[1]) then 2 else 0)
    else if 0xE0 <= s[0] < 0xF0 then
      if |s| >= 3 && Continues(s[1]) && Continues(s[2])
         && (s[0] == 0xE0 ==> s[1] >= 0xA0) && (s[0] == 0xED ==> s[1] < 0xA0)
      then 3 else 0
    else if 0xF0 <= s[0] < 0xF5 then
      if |s| >= 4 && Continues(s[1]) && Continues(s[2]) && Continues(s[3])
         && (s[0] == 0xF0 ==> s[1] >= 0x90) && (s[0] == 0xF4 ==> s[1] < 0x90)
      then 4 else 0
    else 0
  }

  function FirstRune(s: Bytes): Rune
    requires FirstLength(s) > 0
  {
    var at := (i: nat) requires i < |s| => s[i] as int;
    match FirstLength(s)
    case 1 => at(0)
    case 2 => (at(0) - 0xC0) * 64 + (at(1) - 0x80)
    case 3 => ((at(0) - 0xE0) * 64 + (at(1) - 0x80)) * 64 + (at(2) - 0x80)
    case _ => (((at(0) - 0xF0) * 64 + (at(1) - 0x80)) * 64 + (at(2) - 0x80)) * 64 + (at(3) - 0x80)
  }

  /** None is UnicodeDecodeError. */
  function Decode(s: Bytes): Option<seq<Rune>>
    decreases |s|
  {
    if s == [] then Some([])
    else if FirstLength(s) == 0 then None
    else
      var rest := Decode(s[FirstLength(s)..]);
      if rest.None? then None else Some([FirstRune(s)] + rest.value)
  }

  function EncodeRune(c: Rune): Bytes {
    if c < 0x80 then [c]
    else if c < 0x800 then [0xC0 + c / 64, 0x80 + c % 64]
    else if c < 0x10000 then [0xE0 + c / 4096, 0x80 + c / 64 % 64, 0x80 + c % 64]
    else [0xF0 + c / 262144, 0x80 + c / 4096 % 64, 0x80 + c / 64 % 64, 0x80 + c % 64]
  }

  function Encode(cs: seq<Rune>): Bytes
    decreases |cs|
  {
    if cs == [] then [] else EncodeRune(cs[0]) + Encode(cs[1..])
  }

  predicate Ascii(s: Bytes) {
    forall i :: 0 <= i < |s| ==> s[i] < 0x80
  }

  lemma Digits64(hi: nat, lo: nat)
    requires lo < 64
    ensures (hi * 64 + lo) / 64 == hi && (hi * 64 + lo) % 64 == lo
  {
  }

  lemma Two(a: nat, b: nat)
    requires 0x2 <= a < 0x20 && b < 64
    ensures var c := a * 64 + b;
            0x80 <= c < 0x800 && EncodeRune(c) == [0xC0 + a, 0x80 + b]
  {
    Digits64(a, b);
  }

  lemma Three(a: nat, b: nat, d: nat)
    requires a < 0x10 && b < 64 && d < 64 && (a == 0 ==> b >= 0x20)
    ensures var c := (a * 64 + b) * 64 + d;
            0x800 <= c < 0x10000 && EncodeRune(c) == [0xE0 + a, 0x80 + b, 0x80 + d]
  {
    Digits64(a * 64 + b, d);
    Digits64(a, b);
    var c := (a * 64 + b) * 64 + d;
    assert c / 4096 == c / 64 / 64;
  }

  lemma Four(a: nat, b: nat, d: nat, e: nat)
    requires a < 5 && b < 64 && d < 64 && e < 64 && (a == 0 ==> b >= 0x10) && (a == 4 ==> b < 0x10)
    ensures var c := ((a * 64 + b) * 64 + d) * 64 + e;
            0x10000 <= c < 0x110000 && EncodeRune(c) == [0xF0 + a, 0x80 + b, 0x80 + d, 0x80 + e]
  {
    Digits64((a * 64 + b) * 64 + d, e);
    Digits64(a * 64 + b, d);
    Digits64(a, b);
    var c := ((a * 64 + b) * 64 + d) * 64 + e;
    assert c / 4096 == c / 64 / 64 && c / 262144 == c / 64 / 64 / 64;
  }

  lemma FirstRuneEncodes(s: Bytes)
    requires FirstLength(s) > 0
    ensures EncodeRune(FirstRune(s)) == s[..FirstLength(s)]
  {
    var n := FirstLength(s);
    if n == 2 {
      Two(s[0] - 0xC0, s[1] - 0x80);
    } else if n == 3 {
      Three(s[0] - 0xE0, s[1] - 0x80, s[2] - 0x80);
    } else if n == 4 {
      Four(s[0] - 0xF0, s[1] - 0x80, s[2] - 0x80, s[3] - 0x80);
    }
  }

  lemma AsciiTail(s: Bytes)
    requires s != []
    ensures Ascii(s) <==> s[0] < 0x80 && Ascii(s[1..])
  {
    if s[0] < 0x80 && Ascii(s[1..]) {
      forall i | 0 <= i < |s|
        ensures s[i] < 0x80
      {
        assert i > 0 ==> s[1..][i - 1] == s[i];
      }
    }
  }

  lemma DecodeFirst(s: Bytes)
    requires s != [] && Decode(s).Some?
    ensures var n := FirstLength(s);
            && n > 0 && s == s[..n] + s[n..] && Decode(s[n..]).Some?
            && Decode(s).value == [FirstRune(s)] + Decode(s[n..]).value
  {
  }

  lemma EncodeFirst(c: Rune, cs: seq<Rune>)
    ensures Encode([c] + cs) == EncodeRune(c) + Encode(cs)
  {
    assert ([c] + cs)[1..] == cs;
  }

  lemma {:induction false} EncodeBack(s: Bytes)
    requires Decode(s).Some?
    ensures Encode(Decode(s).value) == s
    decreases |s|
  {
    if s != [] {
      var n := FirstLength(s);
      DecodeFirst(s);
      FirstRuneEncodes(s);
      EncodeBack(s[n..]);
      EncodeFirst(FirstRune(s), Decode(s[n..]).value);
    }
  }

  lemma {:induction false} CountRunes(s: Bytes)
    requires Decode(s).Some?
    ensures |Decode(s).value| <= |s|
    ensures |Decode(s).value| == |s| <==> Ascii(s)
    decreases |s|
  {
    if s != [] {
      DecodeFirst(s);
      CountRunes(s[FirstLength(s)..]);
      AsciiTail(s);
    }
  }

  /** Encoding what was decoded gives the bytes back; there are as many characters as bytes
      exactly when all bytes are ASCII, and never more. */
  lemma EncodeDecode(s: Bytes)
    requires Decode(s).Some?
    ensures Encode(Decode(s).value) == s
    ensures |Decode(s).value| <= |s|
    ensures |Decode(s).value| == |s| <==> Ascii(s)
  {
    EncodeBack(s);
    CountRunes(s);
  }

  // ----- what decodes

  /** A character that UTF-8 may encode: no surrogate. */
  predicate Scalar(c: Rune) {
    !(0xD800 <= c < 0xE000)
  }

  predicate Scalars(cs: seq<Rune>) {
    forall i :: 0 <= i < |cs| ==> Scalar(cs[i])
  }

  lemma FirstScalar(s: Bytes)
    requires FirstLength(s) > 0
    ensures Scalar(FirstRune(s))
  {
  }

  lemma {:induction false} DecodesScalars(s: Bytes)
    requires Decode(s).Some?
    ensures Scalars(Decode(s).value)
    decreases |s|
  {
    if s != [] {
      FirstScalar(s);
      DecodesScalars(s[FirstLength(s)..]);
    }
  }

  lemma SplitRune(c: Rune)
    ensures c == c / 64 * 64 + c % 64
    ensures c / 4096 == c / 64 / 64 && c / 262144 == c / 64 / 64 / 64
    ensures c / 64 == c / 4096 * 64 + c / 64 % 64 && c / 4096 == c / 262144 * 64 + c / 4096 % 64
  {
  }

  /** An encoded character is read back, whatever follows it. */
  lemma EncodedFirst(c: Rune, rest: Bytes)
    requires Scalar(c)
    ensures var s := EncodeRune(c) + rest; FirstLength(s) == |EncodeRune(c)| && FirstRune(s) == c
  {
    SplitRune(c);
    var e, s := EncodeRune(c), EncodeRune(c) + rest;
    assert forall i :: 0 <= i < |e| ==> s[i] == e[i];
  }

  lemma {:induction false} DecodeEncode(cs: seq<Rune>)
    requires Scalars(cs)
    ensures Decode(Encode(cs)) == Some(cs)
    decreases |cs|
  {
    if cs != [] {
      var rest := Encode(cs[1..]);
      EncodedFirst(cs[0], rest);
      DecodeEncode(cs[1..]);
      assert (EncodeRune(cs[0]) + rest)[|EncodeRune(cs[0])|..] == rest;
      assert cs == [cs[0]] + cs[1..];
    }
  }

  /** Bytes decode exactly when they are the encoding of characters that are no surrogates. */
  lemma DecodesExactlyWhen(s: Bytes)
    ensures Decode(s).Some? <==> exists cs :: Scalars(cs) && Encode(cs) == s
  {
    if Decode(s).Some? {
      EncodeBack(s);
      DecodesScalars(s);
    }
    if cs :| Scalars(cs) && Encode(cs) == s {
      DecodeEncode(cs);
    }
  }
}
