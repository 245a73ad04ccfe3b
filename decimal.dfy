/**
 * Decimal text of a value held in tenths.
 *
 * FormatTenths is what `%.1f` prints for such a value (main.go:65 prints the
 * minimum and the maximum this way). ParseTenths reads the input's number
 * format, an optional `-`, digits, and an optional `.` with one digit; on
 * that format, while the value has few enough digits for a float64 to hold
 * it exactly, it gives what strconv.ParseFloat gives, counted in tenths,
 * except that `-0.0` (negative zero for ParseFloat) is the integer 0 here.
 */
module Decimal {
  import opened Wrappers

  predicate IsDigit(c: char) {
    '0' <= c <= '9'
  }

  function DigitChar(d: nat): (c: char)
    requires d < 10
    ensures IsDigit(c) && c as int - '0' as int == d
  {
    ('0' as int + d) as char
  }

  function DigitValue(c: char): (d: nat)
    requires IsDigit(c)
    ensures d < 10 && DigitChar(d) == c
  {
    c as int - '0' as int
  }

  predicate AllDigits(s: string) {
    forall i :: 0 <= i < |s| ==> IsDigit(s[i])
  }

  /** The decimal digits of `n`, without leading zeros. */
  function NatToString(n: nat): (s: string)
    ensures |s| > 0 && AllDigits(s)
  {
    if n < 10 then [DigitChar(n)] else NatToString(n / 10) + [DigitChar(n % 10)]
  }

  /** The number a non-empty string of digits denotes. */
  function DigitsValue(s: string): nat
    requires AllDigits(s)
  {
    if |s| == 0 then 0 else DigitsValue(s[..|s| - 1]) * 10 + DigitValue(s[|s| - 1])
  }

  /** `%.1f` of a value of `v` tenths: sign, whole part, `.`, tenths digit. */
  function FormatTenths(v: int): (s: string)
    ensures |s| >= 3 && s[|s| - 2] == '.'
    ensures (v < 0) == (s[0] == '-')
    ensures forall i :: 0 <= i < |s| ==> IsDigit(s[i]) || s[i] == '-' || s[i] == '.'
  {
    var a := if v < 0 then -v else v;
    (if v < 0 then "-" else "") + NatToString(a / 10) + "." + [DigitChar(a % 10)]
  }

  /** Digits, optionally followed by `.` and one digit, in tenths. */
  function ParseUnsignedTenths(s: string): Option<nat>
  {
    if |s| >= 3 && s[|s| - 2] == '.' && IsDigit(s[|s| - 1]) && AllDigits(s[..|s| - 2]) then
      Some(DigitsValue(s[..|s| - 2]) * 10 + DigitValue(s[|s| - 1]))
    else if |s| >= 1 && AllDigits(s) then
      Some(DigitsValue(s) * 10)
    else
      None
  }

  /** The input's number format `-?[0-9]+(\.[0-9])?`, in tenths; None otherwise. */
  function ParseTenths(s: string): Option<int>
  {
    if |s| > 0 && s[0] == '-' then
      match ParseUnsignedTenths(s[1..])
      case None => None
      case Some(u) => Some(-(u as int))
    else
      match ParseUnsignedTenths(s)
      case None => None
      case Some(u) => Some(u as int)
  }

  lemma {:induction false} NatToStringValue(n: nat)
    ensures DigitsValue(NatToString(n)) == n
  {
    if n >= 10 {
      var s := NatToString(n);
      assert s[..|s| - 1] == NatToString(n / 10);
      NatToStringValue(n / 10);
    }
  }

  /** Reading back what `%.1f` printed gives the value again. */
  lemma FormatTenthsRoundTrip(v: int)
    ensures ParseTenths(FormatTenths(v)) == Some(v)
  {
    var a := if v < 0 then -v else v;
    var digits := NatToString(a / 10) + "." + [DigitChar(a % 10)];
    var s := FormatTenths(v);
    assert digits[..|digits| - 2] == NatToString(a / 10);
    NatToStringValue(a / 10);
    assert ParseUnsignedTenths(digits) == Some(a);
    if v < 0 {
      assert s == "-" + digits && s[1..] == digits;
    } else {
      assert s == digits;
      assert digits[0] != '-';
    }
  }

  /** Two values print alike only when they are equal. */
  lemma FormatTenthsInjective(v: int, w: int)
    requires FormatTenths(v) == FormatTenths(w)
    ensures v == w
  {
    FormatTenthsRoundTrip(v);
    FormatTenthsRoundTrip(w);
  }
}
