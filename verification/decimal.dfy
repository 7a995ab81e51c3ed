/**
 * Decimal rendering of Java integers, as done by `Integer.toString`,
 * `Long.toString` and string concatenation with an `int` or `long`: an
 * optional minus sign followed by the base-10 digits without leading zeros.
 * `ParseDecimal` inverts `ToDecimal`: it recovers the number.
 */
module Decimal {
  import opened Wrappers

  predicate IsDigit(c: char) {
    '0' <= c <= '9'
  }

  predicate AllDigits(s: string) {
    forall i :: 0 <= i < |s| ==> IsDigit(s[i])
  }

  function DigitValue(c: char): (d: nat)
    requires IsDigit(c)
    ensures d <= 9
  {
    c as int - '0' as int
  }

  function DigitChar(d: nat): (c: char)
    requires d <= 9
    ensures IsDigit(c) && DigitValue(c) == d
  {
    ('0' as int + d) as char
  }

  /** The number a string of digits denotes, most significant digit first. */
  function ValueOf(s: string): nat
    requires AllDigits(s)
  {
    if |s| == 0 then 0 else ValueOf(s[..|s| - 1]) * 10 + DigitValue(s[|s| - 1])
  }

  /** The base-10 digits of `n`, without leading zeros. */
  function Digits(n: nat): (s: string)
    ensures 1 <= |s| && AllDigits(s)
    ensures |s| > 1 ==> s[0] != '0'
    ensures ValueOf(s) == n
    decreases n
  {
    if n < 10 then [DigitChar(n)]
    else
      var init := Digits(n / 10);
      var s := init + [DigitChar(n % 10)];
      assert s[..|s| - 1] == init;
      s
  }

  /** Java's decimal rendering of an `int` or `long`. */
  function ToDecimal(n: int): (s: string)
    ensures 1 <= |s|
    ensures s[0] == '-' <==> n < 0
    ensures n < 0 ==> AllDigits(s[1..]) && ValueOf(s[1..]) == -n
    ensures n >= 0 ==> AllDigits(s) && ValueOf(s) == n
    ensures n >= 0 && |s| > 1 ==> s[0] != '0'
    ensures n < 0 ==> |s| >= 2 && s[1] != '0'
  {
    if n < 0 then
      var s := "-" + Digits(-n);
      assert s[1..] == Digits(-n);
      s
    else Digits(n)
  }

  /** The number of digits at the front of `s`. */
  function LeadingDigits(s: string): (k: nat)
    ensures k <= |s| && AllDigits(s[..k])
    ensures k < |s| ==> !IsDigit(s[k])
  {
    if |s| == 0 || !IsDigit(s[0]) then 0
    else
      var k := 1 + LeadingDigits(s[1..]);
      assert forall i :: 1 <= i < k ==> s[..k][i] == s[1..][..k - 1][i - 1];
      k
  }

  /**
   * Reads an optionally negative decimal number from the front of `s` and
   * returns it with the rest of the string; `None` when no digit follows.
   */
  function ParseDecimal(s: string): Option<(int, string)> {
    if |s| > 0 && s[0] == '-' then
      var t := s[1..];
      var k := LeadingDigits(t);
      if k == 0 then None else Some((0 - ValueOf(t[..k]) as int, t[k..]))
    else
      var k := LeadingDigits(s);
      if k == 0 then None else Some((ValueOf(s[..k]), s[k..]))
  }

  lemma {:induction false} LeadingDigitsAppend(d: string, rest: string)
    requires AllDigits(d)
    requires rest == [] || !IsDigit(rest[0])
    ensures LeadingDigits(d + rest) == |d|
    decreases |d|
  {
    if |d| > 0 {
      assert (d + rest)[1..] == d[1..] + rest;
      LeadingDigitsAppend(d[1..], rest);
    } else {
      assert d + rest == rest;
    }
  }

  /** Reading back a rendered number recovers it, whatever non-digit text follows. */
  lemma ParseToDecimal(n: int, rest: string)
    requires rest == [] || !IsDigit(rest[0])
    ensures ParseDecimal(ToDecimal(n) + rest) == Some((n, rest))
  {
    var s := ToDecimal(n) + rest;
    if n < 0 {
      var d := Digits(-n);
      assert s[1..] == d + rest;
      LeadingDigitsAppend(d, rest);
      assert s[1..][..|d|] == d;
      assert s[1..][|d|..] == rest;
    } else {
      var d := Digits(n);
      assert s == d + rest;
      LeadingDigitsAppend(d, rest);
      assert s[..|d|] == d;
      assert s[|d|..] == rest;
    }
  }

  /** Distinct numbers render differently. */
  lemma ToDecimalInjective(m: int, n: int)
    requires ToDecimal(m) == ToDecimal(n)
    ensures m == n
  {
    ParseToDecimal(m, []);
    ParseToDecimal(n, []);
    assert ToDecimal(m) + [] == ToDecimal(m);
    assert ToDecimal(n) + [] == ToDecimal(n);
  }
}
