/**
 * Decimal numerals: `str(n)` for integers, and the subset of Python's
 * `int(s)` and `float(s)` that request parameters and TSV fields use
 * (surrounding ASCII whitespace, an optional sign, ASCII digits and, for
 * `float`, an optional fractional part).
 */
module Numerals {
  import opened Wrappers

  predicate IsDigit(c: char) { '0' <= c <= '9' }

  predicate AllDigits(s: string) { forall i :: 0 <= i < |s| ==> IsDigit(s[i]) }

  function DigitValue(c: char): nat
    requires IsDigit(c)
  {
    (c as int) - ('0' as int)
  }

  function DigitChar(d: nat): char
    requires d < 10
  {
    ('0' as int + d) as char
  }

  /** Python's whitespace set restricted to ASCII. */
  predicate IsSpace(c: char)
  {
    c == ' ' || c == '\t' || c == '\n' || c == '\r' || c == '\U{0B}' || c == '\U{0C}'
  }

  /** `str(n)` for a natural number: the shortest decimal numeral. */
  function NatToString(n: nat): (s: string)
    ensures 1 <= |s| && AllDigits(s)
    ensures n >= 10 ==> s[0] != '0'
    decreases n
  {
    if n < 10 then [DigitChar(n)] else NatToString(n / 10) + [DigitChar(n % 10)]
  }

  /** `str(i)` for any integer. */
  function IntToString(i: int): (s: string)
    ensures 1 <= |s|
    ensures i >= 0 ==> AllDigits(s)
    ensures i < 0 ==> s[0] == '-' && AllDigits(s[1..])
  {
    if i < 0 then "-" + NatToString(-i) else NatToString(i)
  }

  /** The value of a string of decimal digits (most significant first). */
  function DigitsValue(s: string): nat
    requires AllDigits(s)
  {
    if s == [] then 0 else DigitsValue(s[..|s| - 1]) * 10 + DigitValue(s[|s| - 1])
  }

  function Pow10(k: nat): (r: nat)
    ensures r >= 1
  {
    if k == 0 then 1 else 10 * Pow10(k - 1)
  }

  lemma {:induction false} NatToStringRoundTrip(n: nat)
    ensures DigitsValue(NatToString(n)) == n
    decreases n
  {
    if n >= 10 {
      var s := NatToString(n);
      assert s[..|s| - 1] == NatToString(n / 10);
      NatToStringRoundTrip(n / 10);
    }
  }

  function TrimLeft(s: string): string
  {
    if s != [] && IsSpace(s[0]) then TrimLeft(s[1..]) else s
  }

  function TrimRight(s: string): string
  {
    if s != [] && IsSpace(s[|s| - 1]) then TrimRight(s[..|s| - 1]) else s
  }

  /** `s.strip()`, for ASCII whitespace. */
  function Trim(s: string): string
  {
    TrimRight(TrimLeft(s))
  }

  /** The first position of `c` in `s`. */
  function IndexOf(s: string, c: char): (r: Option<nat>)
    ensures r.None? ==> c !in s
    ensures r.Some? ==> r.value < |s| && s[r.value] == c && c !in s[..r.value]
  {
    if s == [] then None
    else if s[0] == c then Some(0)
    else match IndexOf(s[1..], c)
      case None => None
      case Some(k) => assert s[1..][..k] == s[1..k + 1]; Some(k + 1)
  }

  /** A non-empty digit string with an optional leading sign. */
  function ParseSignedDigits(t: string): (r: Option<int>)
  {
    if |t| >= 2 && (t[0] == '+' || t[0] == '-') && AllDigits(t[1..]) then
      Some(if t[0] == '-' then -(DigitsValue(t[1..]) as int) else DigitsValue(t[1..]))
    else if |t| >= 1 && AllDigits(t) then Some(DigitsValue(t))
    else None
  }

  /** `int(s)` on a string; `None` where Python raises `ValueError`. */
  function ParseInt(s: string): Option<int>
  {
    ParseSignedDigits(Trim(s))
  }

  /** Digits, optionally with one '.', and at least one digit in all. */
  function ParseUnsignedDecimal(t: string): Option<real>
  {
    match IndexOf(t, '.')
    case None =>
      if |t| >= 1 && AllDigits(t) then Some(DigitsValue(t) as real) else None
    case Some(i) =>
      var whole, frac := t[..i], t[i + 1..];
      if |whole| + |frac| >= 1 && AllDigits(whole) && AllDigits(frac) then
        Some(DigitsValue(whole) as real + DigitsValue(frac) as real / Pow10(|frac|) as real)
      else None
  }

  /** `float(s)` on a string; `None` where Python raises `ValueError`. */
  function ParseReal(s: string): Option<real>
  {
    ParseSignedDecimal(Trim(s))
  }

  /** A decimal with an optional leading sign. */
  function ParseSignedDecimal(t: string): Option<real>
  {
    if |t| >= 1 && (t[0] == '+' || t[0] == '-') then
      match ParseUnsignedDecimal(t[1..])
      case None => None
      case Some(v) => Some(if t[0] == '-' then -v else v)
    else ParseUnsignedDecimal(t)
  }

  lemma TrimNumeral(s: string)
    requires 1 <= |s| && (IsDigit(s[0]) || s[0] == '-') && IsDigit(s[|s| - 1])
    ensures Trim(s) == s
  {
    assert !IsSpace(s[0]) && !IsSpace(s[|s| - 1]);
    assert TrimLeft(s) == s;
    assert TrimRight(s) == s;
  }

  lemma SignedDigitsUnsigned(d: string)
    requires 1 <= |d| && AllDigits(d)
    ensures ParseSignedDigits(d) == Some(DigitsValue(d) as int)
  {
    assert IsDigit(d[0]);
  }

  lemma SignedDigitsNegative(d: string)
    requires 1 <= |d| && AllDigits(d)
    ensures ParseSignedDigits("-" + d) == Some(-(DigitsValue(d) as int))
  {
    assert ("-" + d)[1..] == d;
  }

  /** A digit string, with or without a minus sign, parses as an integer. */
  lemma DigitsParseInt(d: string)
    requires 1 <= |d| && AllDigits(d)
    ensures ParseInt(d) == Some(DigitsValue(d) as int)
    ensures ParseInt("-" + d) == Some(-(DigitsValue(d) as int))
  {
    TrimNumeral(d);
    SignedDigitsUnsigned(d);
    TrimNumeral("-" + d);
    SignedDigitsNegative(d);
  }

  lemma NoPointInDigits(d: string)
    requires AllDigits(d)
    ensures IndexOf(d, '.').None?
  {
    assert '.' !in d by {
      forall k | 0 <= k < |d| ensures d[k] != '.' {
        assert IsDigit(d[k]);
      }
    }
  }

  lemma UnsignedDecimalOfDigits(d: string)
    requires 1 <= |d| && AllDigits(d)
    ensures ParseUnsignedDecimal(d) == Some(DigitsValue(d) as real)
  {
    NoPointInDigits(d);
  }

  lemma RealOfDigits(d: string)
    requires 1 <= |d| && AllDigits(d)
    ensures ParseReal(d) == Some(DigitsValue(d) as real)
  {
    assert IsDigit(d[0]);
    TrimNumeral(d);
    UnsignedDecimalOfDigits(d);
  }

  lemma RealOfNegativeDigits(d: string)
    requires 1 <= |d| && AllDigits(d)
    ensures ParseReal("-" + d) == Some(-(DigitsValue(d) as real))
  {
    var s := "-" + d;
    TrimNumeral(s);
    SignedDecimalNegative(d);
  }

  lemma SignedDecimalNegative(d: string)
    requires 1 <= |d| && AllDigits(d)
    ensures ParseSignedDecimal("-" + d) == Some(-(DigitsValue(d) as real))
  {
    assert ("-" + d)[1..] == d;
    UnsignedDecimalOfDigits(d);
  }

  /** `int(str(i)) == i`. */
  lemma {:induction false} ParseIntRoundTrip(i: int)
    ensures ParseInt(IntToString(i)) == Some(i)
  {
    var n: nat := if i < 0 then -i else i;
    var d := NatToString(n);
    DigitsParseInt(d);
    NatToStringRoundTrip(n);
  }

  /** `float(str(i)) == i` for an integer `i`. */
  lemma {:induction false} ParseRealOfIntString(i: int)
    ensures ParseReal(IntToString(i)) == Some(i as real)
  {
    var n: nat := if i < 0 then -i else i;
    var d := NatToString(n);
    RealOfDigits(d);
    RealOfNegativeDigits(d);
    NatToStringRoundTrip(n);
  }
}
