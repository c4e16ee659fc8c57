/** Decimal numerals: reading a run of digits (the `+m[2]` of the page and the server's
    `parseInt(idPart, 10)`) and writing a natural number (the `${y}` and `$${idx+1}` template holes). */
module Numerals {

  import opened Wrappers

  predicate IsDigit(c: char) {
    '0' <= c <= '9'
  }

  predicate AllDigits(s: string) {
    forall i :: 0 <= i < |s| ==> IsDigit(s[i])
  }

  function DigitValue(c: char): (d: nat)
    requires IsDigit(c)
    ensures d < 10
  {
    c as int - '0' as int
  }

  function DigitChar(d: nat): (c: char)
    requires d < 10
    ensures IsDigit(c) && DigitValue(c) == d
  {
    ('0' as int + d) as char
  }

  /** The value of a decimal numeral, most significant digit first. */
  function DigitsValue(s: string): nat
    requires AllDigits(s)
  {
    if |s| == 0 then 0 else DigitsValue(s[..|s| - 1]) * 10 + DigitValue(s[|s| - 1])
  }

  /** Template-literal rendering of a non-negative integer: no sign and no leading zero. */
  function NatToString(n: nat): (r: string)
    ensures |r| > 0 && AllDigits(r)
    ensures DigitsValue(r) == n
    ensures r[0] == '0' ==> n == 0
    ensures Numeral(r)
  {
    if n < 10 then [DigitChar(n)]
    else
      var r := NatToString(n / 10) + [DigitChar(n % 10)];
      assert r[..|r| - 1] == NatToString(n / 10);
      r
  }

  /** A numeral as a template literal writes one: digits, and no leading zero unless the
      numeral is "0" itself. */
  predicate Numeral(s: string) {
    |s| > 0 && AllDigits(s) && (s[0] == '0' ==> |s| == 1)
  }

  /** A numeral without superfluous leading zeros is the rendering of its value. */
  lemma {:induction false} NatToStringOfValue(s: string)
    requires Numeral(s)
    ensures NatToString(DigitsValue(s)) == s
    decreases |s|
  {
    if |s| > 1 {
      var init := s[..|s| - 1];
      NatToStringOfValue(init);
      assert DigitsValue(init) >= 1 by {
        LeadingDigitBound(init);
      }
      var n := DigitsValue(s);
      assert n / 10 == DigitsValue(init) && n % 10 == DigitValue(s[|s| - 1]);
      assert s == init + [s[|s| - 1]];
    }
  }

  /** A numeral whose first digit is not zero has a positive value. */
  lemma {:induction false} LeadingDigitBound(s: string)
    requires |s| > 0 && AllDigits(s) && s[0] != '0'
    ensures DigitsValue(s) >= 1
    decreases |s|
  {
    if |s| > 1 {
      LeadingDigitBound(s[..|s| - 1]);
    }
  }

  /** The longest prefix of digits. */
  function DigitRun(s: string): (k: nat)
    ensures k <= |s| && AllDigits(s[..k])
    ensures k < |s| ==> !IsDigit(s[k])
  {
    if |s| > 0 && IsDigit(s[0]) then
      var k := 1 + DigitRun(s[1..]);
      assert s[..k] == [s[0]] + s[1..][..k - 1];
      k
    else 0
  }

  /** `parseInt(s, 10)` on a string that starts with its numeral: the value of the leading
      digits, or `None` (NaN) when there are none. */
  function ParseInt(s: string): (r: Option<nat>)
    ensures r.None? <==> (|s| == 0 || !IsDigit(s[0]))
  {
    var k := DigitRun(s);
    if k == 0 then None else Some(DigitsValue(s[..k]))
  }

  /** On a string of digits `parseInt` reads all of it. */
  lemma ParseIntOfDigits(s: string)
    requires |s| > 0 && AllDigits(s)
    ensures ParseInt(s) == Some(DigitsValue(s))
  {
    var k := DigitRun(s);
    assert k == |s|;
    assert s[..k] == s;
  }
}
