/**
 * Decimal digit strings and their values, restricted to the ASCII digits
 * '0'..'9'. Models `str.isdigit`, `int(...)` on a digit string and the
 * decimal rendering of a non-negative `int` by `"{}".format(...)`.
 */
module Decimal {

  predicate IsDigit(c: char) {
    '0' <= c <= '9'
  }

  /** Python's `s.isdigit()` for ASCII: non-empty and every character a digit. */
  predicate IsDigits(s: string) {
    |s| > 0 && forall i :: 0 <= i < |s| ==> IsDigit(s[i])
  }

  function DigitValue(c: char): (d: nat)
    requires IsDigit(c)
    ensures d < 10
  {
    (c as int) - ('0' as int)
  }

  function DigitChar(d: nat): (c: char)
    requires d < 10
    ensures IsDigit(c) && DigitValue(c) == d
  {
    (('0' as int) + d) as char
  }

  /** The value `int(s)` gives for a string of ASCII digits (leading zeros allowed). */
  function Value(s: string): (n: nat)
    requires forall i :: 0 <= i < |s| ==> IsDigit(s[i])
    ensures |s| > 0 && s[0] != '0' ==> n > 0
  {
    if |s| == 0 then 0
    else
      assert |s| > 1 ==> s[..|s| - 1][0] == s[0];
      10 * Value(s[..|s| - 1]) + DigitValue(s[|s| - 1])
  }

  /**
   * A digit string without a leading zero (or a single digit) is the
   * rendering of its own value: `str(int(s)) == s`.
   */
  lemma {:induction false} ValueCanonical(s: string)
    requires IsDigits(s) && (|s| == 1 || s[0] != '0')
    ensures FromNat(Value(s)) == s
    decreases |s|
  {
    var d := DigitValue(s[|s| - 1]);
    assert DigitChar(d) == s[|s| - 1];
    if |s| > 1 {
      var p := s[..|s| - 1];
      assert p[0] == s[0] && s == p + [s[|s| - 1]];
      ValueCanonical(p);
      assert Value(s) / 10 == Value(p) && Value(s) % 10 == d;
    }
  }

  /** The shortest decimal rendering of `n`, as `"{}".format(n)` prints it. */
  function FromNat(n: nat): (s: string)
    ensures IsDigits(s)
    ensures |s| > 1 ==> s[0] != '0'
    decreases n
  {
    if n < 10 then [DigitChar(n)] else FromNat(n / 10) + [DigitChar(n % 10)]
  }

  /** Reading back a rendered number gives the number. */
  lemma {:induction false} ValueFromNat(n: nat)
    ensures Value(FromNat(n)) == n
    decreases n
  {
    if n >= 10 {
      var s := FromNat(n);
      assert s[..|s| - 1] == FromNat(n / 10);
      ValueFromNat(n / 10);
    }
  }

  /** Distinct numbers render to distinct strings. */
  lemma FromNatInjective(a: nat, b: nat)
    requires FromNat(a) == FromNat(b)
    ensures a == b
  {
    ValueFromNat(a);
    ValueFromNat(b);
  }

  /** The decimal rendering of any `int`, with a leading '-' when negative. */
  function FromInt(n: int): (s: string)
    ensures |s| > 0
    ensures n >= 0 ==> s == FromNat(n)
  {
    if n < 0 then "-" + FromNat(-n) else FromNat(n)
  }

  /** Distinct integers render to distinct strings. */
  lemma FromIntInjective(a: int, b: int)
    requires FromInt(a) == FromInt(b)
    ensures a == b
  {
    if a < 0 && b < 0 {
      assert FromNat(-a) == FromInt(a)[1..] == FromNat(-b);
      FromNatInjective(-a, -b);
    } else if a >= 0 && b >= 0 {
      FromNatInjective(a, b);
    }
  }
}
