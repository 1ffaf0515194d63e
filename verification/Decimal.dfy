/** Decimal notation of natural numbers. */
module Decimal {
  import opened Options

  predicate IsDigit(c: char) {
    '0' <= c <= '9'
  }

  predicate AllDigits(s: string) {
    forall i :: 0 <= i < |s| ==> IsDigit(s[i])
  }

  function Digit(d: nat): (c: char)
    requires d < 10
    ensures IsDigit(c) && DigitValue(c) == d
  {
    '0' + d as char
  }

  function DigitValue(c: char): (d: nat)
    requires IsDigit(c)
    ensures d < 10
  {
    (c - '0') as nat
  }

  function Show(n: nat): (s: string)
    ensures |s| > 0 && AllDigits(s)
    decreases n
  {
    (if n < 10 then "" else Show(n / 10)) + [Digit(n % 10)]
  }

  /** The number a string of digits stands for; None for the empty string and for other strings. */
  function Parse(s: string): Option<nat>
    decreases |s|
  {
    if s == "" || !IsDigit(s[|s| - 1]) then None
    else if |s| == 1 then Some(DigitValue(s[0]))
    else
      var high := Parse(s[..|s| - 1]);
      if high.None? then None else Some(10 * high.value + DigitValue(s[|s| - 1]))
  }

  lemma {:induction false} ParseShow(n: nat)
    ensures Parse(Show(n)) == Some(n)
    decreases n
  {
    if n >= 10 {
      ParseShow(n / 10);
      assert Show(n)[..|Show(n)| - 1] == Show(n / 10);
    }
  }

  /** Padded on the left with zeros to at least `width` digits. */
  function Pad(s: string, width: nat): (r: string)
    ensures |r| == if |s| < width then width else |s|
    ensures AllDigits(s) ==> AllDigits(r)
    decreases width - |s|
  {
    if |s| < width then Pad("0" + s, width) else s
  }

  lemma {:induction false} ParseLeadingZero(s: string)
    requires s != ""
    ensures Parse("0" + s) == Parse(s)
    decreases |s|
  {
    var z := "0" + s;
    assert z[|z| - 1] == s[|s| - 1];
    if |s| > 1 {
      ParseLeadingZero(s[..|s| - 1]);
      assert z[..|z| - 1] == "0" + s[..|s| - 1];
    } else {
      assert z[..1] == "0";
    }
  }

  lemma {:induction false} ParsePad(s: string, width: nat)
    requires s != ""
    ensures Parse(Pad(s, width)) == Parse(s)
    decreases width - |s|
  {
    if |s| < width {
      ParsePad("0" + s, width);
      ParseLeadingZero(s);
    }
  }

  lemma ShowSpelled()
    ensures Show(0) == "0" && Show(7) == "7" && Show(10) == "10" && Show(192) == "192"
  {
    assert Show(1) == "1" && Show(19) == "19";
  }

  lemma {:induction false} ShowLength(n: nat)
    ensures |Show(n)| <= 3 <==> n <= 999
    decreases n
  {
    if n >= 10 {
      assert Show(n) == Show(n / 10) + [Digit(n % 10)];
      if n >= 100 {
        assert Show(n / 10) == Show(n / 10 / 10) + [Digit(n / 10 % 10)];
        if n >= 1000 {
          assert Show(n / 10 / 10) == Show(n / 10 / 10 / 10) + [Digit(n / 10 / 10 % 10)];
        }
      }
    }
  }
}
