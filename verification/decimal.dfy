/** Decimal text of integers, as JavaScript's `String(n)` writes an integer
    and `padStart(2, '0')` pads it, with the parsers that read it back. */
module Decimal {
  import opened Types

  predicate IsDigit(c: char) {
    '0' <= c <= '9'
  }

  predicate AllDigits(s: string) {
    forall i :: 0 <= i < |s| ==> IsDigit(s[i])
  }

  function DigitChar(d: nat): (c: char)
    requires d < 10
    ensures IsDigit(c) && DigitValue(c) == d
  {
    ['0', '1', '2', '3', '4', '5', '6', '7', '8', '9'][d]
  }

  function DigitValue(c: char): (d: nat)
    requires IsDigit(c)
    ensures d < 10
  {
    (c as int - '0' as int) as nat
  }

  /** `String(n)` for a natural number: its digits, most significant first,
      without leading zeros. */
  function NatToString(n: nat): (r: string)
    ensures |r| >= 1 && AllDigits(r)
    ensures r[0] == '0' ==> n == 0
    ensures n < 10 <==> |r| == 1
    decreases n
  {
    if n < 10 then [DigitChar(n)]
    else NatToString(n / 10) + [DigitChar(n % 10)]
  }

  /** The value of a string of digits. */
  function ParseDigits(s: string): (n: nat)
    requires AllDigits(s)
    decreases |s|
  {
    if |s| == 0 then 0
    else ParseDigits(s[..|s| - 1]) * 10 + DigitValue(s[|s| - 1])
  }

  /** Reading the digits back gives the number. */
  lemma {:induction false} NatRoundTrip(n: nat)
    ensures ParseDigits(NatToString(n)) == n
    decreases n
  {
    var r := NatToString(n);
    if n >= 10 {
      NatRoundTrip(n / 10);
      assert r[..|r| - 1] == NatToString(n / 10);
    }
  }

  /** Different numbers have different text. */
  lemma NatToStringInjective(m: nat, n: nat)
    requires NatToString(m) == NatToString(n)
    ensures m == n
  {
    NatRoundTrip(m);
    NatRoundTrip(n);
  }

  /** `String(i)` for any integer: a minus sign before the digits of a
      negative number. */
  function IntToString(i: int): (r: string)
    ensures i >= 0 ==> r == NatToString(i)
    ensures i < 0 ==> |r| >= 2 && r[0] == '-' && r[1..] == NatToString(-i)
  {
    if i < 0 then "-" + NatToString(-i) else NatToString(i)
  }

  /** Reads an optional minus sign and digits; none for anything else. */
  function ParseInt(s: string): (r: Option<int>)
  {
    if |s| > 0 && s[0] == '-' then
      if |s| > 1 && AllDigits(s[1..]) then Some(-(ParseDigits(s[1..]) as int)) else None
    else if |s| > 0 && AllDigits(s) then Some(ParseDigits(s) as int)
    else None
  }

  /** Reading an integer's text back gives the integer. */
  lemma IntRoundTrip(i: int)
    ensures ParseInt(IntToString(i)) == Some(i)
  {
    var s := IntToString(i);
    if i < 0 {
      NatRoundTrip(-i);
      assert s[1..] == NatToString(-i);
    } else {
      NatRoundTrip(i);
    }
  }

  /** Digits as `String(n)` writes them: at least one, and no leading
      zero unless the number is zero itself. */
  predicate Canonical(s: string) {
    |s| > 0 && AllDigits(s) && (|s| == 1 || s[0] != '0')
  }

  lemma {:induction false} NatToStringCanonical(n: nat)
    ensures Canonical(NatToString(n))
  {
  }

  /** A digit's value written back is the digit. */
  lemma DigitBack(c: char)
    requires IsDigit(c)
    ensures DigitChar(DigitValue(c)) == c
  {
  }

  /** Canonical digits are the text of the number they spell, so each
      number has exactly one such text. */
  lemma {:induction false} CanonicalIsText(s: string)
    requires Canonical(s)
    ensures s == NatToString(ParseDigits(s))
    decreases |s|
  {
    var n := ParseDigits(s);
    var c := s[|s| - 1];
    DigitBack(c);
    if |s| > 1 {
      var p := s[..|s| - 1];
      assert p[0] == s[0];
      CanonicalIsText(p);
      var m := ParseDigits(p);
      assert NatToString(0) == "0";
      assert n == m * 10 + DigitValue(c);
      assert n / 10 == m && n % 10 == DigitValue(c);
      assert s == p + [c];
    }
  }

  /** `n.toString().padStart(2, '0')`. */
  function PadTwo(n: nat): (r: string)
    ensures AllDigits(r) && |r| >= 2
    ensures n < 100 ==> |r| == 2
    ensures ParseDigits(r) == n
  {
    var s := NatToString(n);
    NatRoundTrip(n);
    if |s| < 2 then
      var r := "0" + s;
      assert r[..|r| - 1] == "0";
      r
    else s
  }

  /** Any two digits are the padded text of the number they spell. */
  lemma TwoDigitsArePadded(s: string)
    requires AllDigits(s) && |s| == 2
    ensures s == PadTwo(ParseDigits(s))
  {
    assert s[..1] == [s[0]];
    if s[0] == '0' {
      var c := s[1];
      DigitBack(c);
      assert s[..1][..0] == [];
      assert ParseDigits(s[..1]) == 0;
      assert s == "0" + [c];
    } else {
      CanonicalIsText(s);
    }
  }
}
