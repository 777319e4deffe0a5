/**
 * Decimal text of integers, as Python's `str(int)`, `f"{n:02d}"`, `int(text)`
 * and non-negative slicing `s[i:j]` produce and read it.
 */
module Digits {
  import opened Wrappers

  predicate IsDigit(c: char) {
    '0' <= c <= '9'
  }

  predicate AllDigits(s: string) {
    forall i :: 0 <= i < |s| ==> IsDigit(s[i])
  }

  function DigitChar(d: int): (c: char)
    requires 0 <= d <= 9
    ensures IsDigit(c) && DigitValue(c) == d
  {
    ('0' as int + d) as char
  }

  function DigitValue(c: char): (d: int)
    requires IsDigit(c)
    ensures 0 <= d <= 9
  {
    c as int - '0' as int
  }

  /** `str(n)` for a non-negative int: its decimal digits, without leading zeros. */
  function NatToString(n: nat): (s: string)
    ensures 1 <= |s| && AllDigits(s)
    ensures |s| == 1 <==> n < 10
    decreases n
  {
    if n < 10 then [DigitChar(n)] else NatToString(n / 10) + [DigitChar(n % 10)]
  }

  /** `str(n)` for any int: a minus sign in front of a negative value. */
  function IntToString(n: int): (s: string)
    ensures 1 <= |s|
  {
    if n < 0 then "-" + NatToString(-n) else NatToString(n)
  }

  /** `f"{n:02d}"` for a non-negative int: zero-padded to at least two characters. */
  function Pad2(n: nat): (s: string)
    ensures 2 <= |s| && AllDigits(s)
    ensures n >= 10 ==> s == NatToString(n)
    ensures n < 10 ==> s == ['0', DigitChar(n)]
  {
    if n < 10 then "0" + NatToString(n) else NatToString(n)
  }

  /** The value of a string of decimal digits, most significant first. */
  function DigitsValue(s: string): nat
    requires AllDigits(s)
    decreases |s|
  {
    if s == [] then 0 else DigitsValue(s[..|s| - 1]) * 10 + DigitValue(s[|s| - 1])
  }

  /**
   * `int(text)` on its ASCII part: an optional sign followed by one or more ASCII digits,
   * and `None` (a `ValueError`) for anything else. Python also strips surrounding
   * whitespace, allows `_` between digits and reads non-ASCII decimal digits; those texts
   * are refused here.
   */
  function ParseInt(s: string): (r: Option<int>)
    ensures r.Some? && s != [] && IsDigit(s[0]) ==> AllDigits(s) && r.value == DigitsValue(s)
    ensures s == [] ==> r.None?
  {
    if 2 <= |s| && (s[0] == '-' || s[0] == '+') && AllDigits(s[1..]) then
      Some(if s[0] == '-' then -(DigitsValue(s[1..]) as int) else DigitsValue(s[1..]))
    else if 1 <= |s| && AllDigits(s) then
      Some(DigitsValue(s))
    else
      None
  }

  /** `s[i:j]` for non-negative bounds: clamped to the string, empty when `j <= i`. */
  function Slice(s: string, i: nat, j: nat): (r: string)
    ensures j <= |s| && i <= j ==> r == s[i..j]
    ensures |r| <= |s|
  {
    var lo := if i < |s| then i else |s|;
    var hi := if j < |s| then j else |s|;
    if hi <= lo then [] else s[lo..hi]
  }

  lemma {:induction false} NatToStringValue(n: nat)
    ensures DigitsValue(NatToString(n)) == n
    decreases n
  {
    if n >= 10 {
      var s := NatToString(n);
      assert s[..|s| - 1] == NatToString(n / 10);
      NatToStringValue(n / 10);
    }
  }

  /** Python's `int(str(n)) == n`. */
  lemma ParseIntToString(n: int)
    ensures ParseInt(IntToString(n)) == Some(n)
  {
    if n < 0 {
      ParseNegative(-n);
    } else {
      var t := NatToString(n);
      NatToStringValue(n);
      assert IsDigit(t[0]);
    }
  }

  lemma ParseNegative(m: nat)
    requires m > 0
    ensures ParseInt("-" + NatToString(m)) == Some(-(m as int))
  {
    var t := NatToString(m);
    var s := "-" + t;
    NatToStringValue(m);
    assert s[1..] == t;
    assert 2 <= |s| && s[0] == '-' && AllDigits(s[1..]);
  }

  lemma NatToStringInjective(m: nat, n: nat)
    requires NatToString(m) == NatToString(n)
    ensures m == n
  {
    NatToStringValue(m);
    NatToStringValue(n);
  }

  /** The text of a two-digit number is its two digits. */
  lemma TwoDigitText(n: int)
    requires 10 <= n <= 99
    ensures IntToString(n) == [DigitChar(n / 10), DigitChar(n % 10)]
  {
    assert NatToString(n / 10) == [DigitChar(n / 10)];
  }

  lemma OneDigitText(n: int)
    requires 0 <= n <= 9
    ensures IntToString(n) == [DigitChar(n)]
  {
  }

  /** `int` of two digit characters. */
  lemma ParseTwoDigits(a: int, b: int)
    requires 0 <= a <= 9 && 0 <= b <= 9
    ensures ParseInt([DigitChar(a), DigitChar(b)]) == Some(10 * a + b)
  {
    var s := [DigitChar(a), DigitChar(b)];
    assert s[..1] == [DigitChar(a)];
    assert [DigitChar(a)][..0] == [];
    assert DigitsValue([DigitChar(a)]) == a;
    assert DigitsValue(s) == 10 * a + b;
  }

  lemma ParseOneDigit(a: int)
    requires 0 <= a <= 9
    ensures ParseInt([DigitChar(a)]) == Some(a)
  {
    assert [DigitChar(a)][..0] == [];
    assert DigitsValue([DigitChar(a)]) == a;
  }

  /** `int()` of a single character accepts exactly the digits. */
  lemma ParseSingle(c: char)
    ensures ParseInt([c]).Some? <==> IsDigit(c)
    ensures IsDigit(c) ==> ParseInt([c]) == Some(DigitValue(c))
  {
    if IsDigit(c) {
      assert [c][..0] == [];
      assert DigitsValue([c]) == DigitValue(c);
    }
  }

  lemma DigitCharOfValue(c: char)
    requires IsDigit(c)
    ensures DigitChar(DigitValue(c)) == c
  {
  }
}
