/**
 Decimal text of numbers: the rendering that `astype(str)` applies to a numeric
 cell, and the parsing that `pd.to_numeric(..., errors='coerce')` applies to a
 text cell.
 */
module Numerals {
  import opened Wrappers

  predicate IsDigit(c: char) {
    '0' <= c <= '9'
  }

  function DigitValue(c: char): (d: nat)
    requires IsDigit(c)
    ensures d < 10
  {
    c as int - '0' as int
  }

  function DigitChar(d: nat): (c: char)
    requires d < 10
    ensures IsDigit(c) && DigitValue(c) == d
  {
    ('0' as int + d) as char
  }

  predicate AllDigits(s: string) {
    forall i :: 0 <= i < |s| ==> IsDigit(s[i])
  }

  /** Value of a run of decimal digits, most significant digit first. */
  function DigitsValue(s: string): nat
    requires AllDigits(s)
  {
    if |s| == 0 then 0 else DigitsValue(s[..|s| - 1]) * 10 + DigitValue(s[|s| - 1])
  }

  function Pow10(n: nat): (p: nat)
    ensures p >= 1
  {
    if n == 0 then 1 else 10 * Pow10(n - 1)
  }

  /** Decimal digits of a natural number without leading zeros, as Python's `str` writes it. */
  function NatText(n: nat): (s: string)
    ensures 1 <= |s| && AllDigits(s)
    ensures s[0] == '0' ==> n == 0
    ensures |s| > 1 ==> s[0] != '0'
  {
    if n < 10 then [DigitChar(n)] else NatText(n / 10) + [DigitChar(n % 10)]
  }

  /** Reading back the digits of `n` gives `n`. */
  lemma {:induction false} NatTextValue(n: nat)
    ensures DigitsValue(NatText(n)) == n
  {
    if n >= 10 {
      var s := NatText(n);
      assert s[..|s| - 1] == NatText(n / 10);
      NatTextValue(n / 10);
    }
  }

  function IntText(i: int): string {
    if i < 0 then "-" + NatText(-i) else NatText(i)
  }

  /** The first `fuel` digits of the decimal expansion of a fraction in [0, 1), stopping early when it terminates. */
  function FractionDigits(f: real, fuel: nat): (s: string)
    requires 0.0 <= f < 1.0
    ensures |s| <= fuel && AllDigits(s)
    decreases fuel
  {
    if fuel == 0 || f == 0.0 then ""
    else
      var d := (f * 10.0).Floor;
      [DigitChar(d)] + FractionDigits(f * 10.0 - d as real, fuel - 1)
  }

  /** Number of fractional digits a rendered number shows at most. */
  const FRACTION_PLACES: nat := 16

  function UnsignedText(x: real): (s: string)
    requires x >= 0.0
    ensures 0 < |s| && IsDigit(s[0])
  {
    var n := x.Floor;
    if n as real == x then NatText(n)
    else NatText(n) + "." + FractionDigits(x - n as real, FRACTION_PLACES)
  }

  /** Text form of a number: integers as their digits, fractions with a decimal point. */
  function NumberText(x: real): (s: string)
    ensures HasDigit(s)
  {
    if x < 0.0 then
      var u := UnsignedText(-x);
      assert ("-" + u)[1] == u[0];
      "-" + u
    else
      var u := UnsignedText(x);
      assert IsDigit(u[0]);
      u
  }

  /** An integer-valued number renders exactly as the integer does. */
  lemma {:induction false} NumberTextOfInteger(i: int)
    ensures NumberText(i as real) == IntText(i)
  {
    if i < 0 {
      assert -(i as real) == (-i) as real;
      assert ((-i) as real).Floor == -i;
    } else {
      assert (i as real).Floor == i;
    }
  }

  /** Index of the first decimal point in `s`, if there is one. */
  function PointIndex(s: string): (r: Option<nat>)
    ensures r.Some? ==> r.value < |s| && s[r.value] == '.' && '.' !in s[..r.value]
    ensures r.None? ==> '.' !in s
  {
    if |s| == 0 then None
    else if s[0] == '.' then Some(0)
    else match PointIndex(s[1..])
      case None => None
      case Some(k) => assert s[..k + 1] == [s[0]] + s[1..][..k]; Some(k + 1)
  }

  /** Characters a number may be written with: digits, a point, and a sign in front. */
  predicate NumeralAlphabet(s: string) {
    forall i :: 0 <= i < |s| ==> IsDigit(s[i]) || s[i] == '.' || (i == 0 && (s[i] == '-' || s[i] == '+'))
  }

  predicate HasDigit(s: string) {
    exists i :: 0 <= i < |s| && IsDigit(s[i])
  }

  /** An unsigned decimal: digits, optionally a point and more digits, at least one digit in all. */
  function ParseUnsigned(s: string): (r: Option<real>)
    ensures r.Some? ==> r.value >= 0.0
    ensures r.Some? ==> HasDigit(s)
    ensures r.Some? ==> forall i :: 0 <= i < |s| ==> IsDigit(s[i]) || s[i] == '.'
  {
    match PointIndex(s)
    case None =>
      if 0 < |s| && AllDigits(s) then
        assert IsDigit(s[0]);
        Some(DigitsValue(s) as real)
      else None
    case Some(p) =>
      var whole, fraction := s[..p], s[p + 1..];
      if 0 < |whole| + |fraction| && AllDigits(whole) && AllDigits(fraction) then
        assert |whole| > 0 ==> IsDigit(s[0]);
        assert |whole| == 0 ==> IsDigit(s[p + 1]);
        assert forall i :: 0 <= i < |s| && i != p ==> (i < p ==> s[i] == whole[i]) && (i > p ==> s[i] == fraction[i - p - 1]);
        Some(DigitsValue(whole) as real + DigitsValue(fraction) as real / Pow10(|fraction|) as real)
      else None
  }

  /**
   Numeric value of a text cell, or None when the text is not a decimal number.
   Accepts an optional leading sign, digits, and at most one decimal point.
   */
  function ParseNumber(s: string): (r: Option<real>)
    ensures r.Some? ==> HasDigit(s) && NumeralAlphabet(s)
  {
    if 0 < |s| && (s[0] == '-' || s[0] == '+') then
      match ParseUnsigned(s[1..])
      case None => None
      case Some(v) =>
        assert forall i :: 1 <= i < |s| ==> s[i] == s[1..][i - 1];
        Some(if s[0] == '-' then -v else v)
    else ParseUnsigned(s)
  }

  /** Parsing the text of an integer gives the integer back. */
  lemma {:induction false} ParseIntText(i: int)
    ensures ParseNumber(IntText(i)) == Some(i as real)
  {
    var n: nat := if i < 0 then -i else i;
    var digits := NatText(n);
    ParseNatText(n);
    if i < 0 {
      assert IntText(i)[1..] == digits;
    } else {
      assert !(digits[0] == '-' || digits[0] == '+') by { assert IsDigit(digits[0]); }
    }
  }

  lemma {:induction false} ParseNatText(n: nat)
    ensures ParseUnsigned(NatText(n)) == Some(n as real)
  {
    var digits := NatText(n);
    NatTextValue(n);
    assert forall k | 0 <= k < |digits| :: digits[k] != '.' by {
      assert AllDigits(digits);
    }
  }

  /** Text with no digit at all, such as a letter grade, is not a number. */
  lemma {:induction false} LetterIsNotNumber(c: char)
    requires !IsDigit(c)
    ensures ParseNumber([c]) == None
  {
  }
}
