/** The subsets of Python's `int(text)` and `float(text)` that the scripts use on
    schedule fields: optional surrounding whitespace, optional sign, ASCII
    decimal digits (and for `float` one optional decimal point). */
module Numerals {
  import opened Wrappers
  import opened Text

  function DigitValue(c: char): nat
    requires IsAsciiDigit(c)
  {
    c as int - '0' as int
  }

  function DigitChar(d: nat): (c: char)
    requires d < 10
    ensures IsAsciiDigit(c) && DigitValue(c) == d
  {
    ('0' as int + d) as char
  }

  function Pow10(n: nat): (r: nat)
    ensures r >= 1
  {
    if n == 0 then 1 else 10 * Pow10(n - 1)
  }

  /** The value of a run of digits, most significant first. */
  function DigitsValue(s: string): nat
    requires AllDigits(s)
  {
    if |s| == 0 then 0 else 10 * DigitsValue(s[..|s| - 1]) + DigitValue(s[|s| - 1])
  }

  /** Splits an optional leading sign off `t`: (negative?, rest). */
  function SignOf(t: string): (bool, string)
  {
    if |t| > 0 && (t[0] == '-' || t[0] == '+') then (t[0] == '-', t[1..]) else (false, t)
  }

  /** `int(text)` in base 10: None where Python raises ValueError. */
  function ParseInt(text: string): Option<int>
  {
    var (negative, digits) := SignOf(Strip(text));
    if IsDigits(digits) then
      Some(if negative then -(DigitsValue(digits) as int) else DigitsValue(digits))
    else None
  }

  /** The exact value of `whole.fraction`. */
  function DecimalValue(whole: string, fraction: string): real
    requires AllDigits(whole) && AllDigits(fraction)
  {
    DigitsValue(whole) as real + DigitsValue(fraction) as real / Pow10(|fraction|) as real
  }

  /** `float(text)` on plain decimal notation, as an exact rational. */
  function ParseDecimal(text: string): Option<real>
  {
    var (negative, mantissa) := SignOf(Strip(text));
    var parts := Split(mantissa, '.');
    var whole := parts[0];
    var fraction := if |parts| == 2 then parts[1] else "";
    if |parts| > 2 || !AllDigits(whole) || !AllDigits(fraction) || |whole| + |fraction| == 0 then None
    else
      var magnitude := DecimalValue(whole, fraction);
      Some(if negative then -magnitude else magnitude)
  }

  /** Decimal digits of `n`, without leading zeros. */
  function ShowNat(n: nat): (s: string)
    ensures IsDigits(s)
  {
    if n < 10 then [DigitChar(n)] else ShowNat(n / 10) + [DigitChar(n % 10)]
  }

  /** Decimal rendering of `i` with a leading '-' when negative. */
  function ShowInt(i: int): string
  {
    if i < 0 then "-" + ShowNat(-i) else ShowNat(i)
  }

  lemma {:induction false} DigitsOfShow(n: nat)
    ensures DigitsValue(ShowNat(n)) == n
  {
    if n >= 10 {
      DigitsOfShow(n / 10);
      var s := ShowNat(n);
      assert s[..|s| - 1] == ShowNat(n / 10);
    }
  }

  /** `int` reads back every integer's decimal rendering. */
  lemma ParseShowInt(i: int)
    ensures ParseInt(ShowInt(i)) == Some(i)
  {
    var s := ShowInt(i);
    var magnitude := if i < 0 then -i else i;
    DigitsOfShow(magnitude);
    StripNoop(s);
    if i < 0 {
      assert s[1..] == ShowNat(-i);
    }
  }

  /** `float` reads a whole number written in digits as that number. */
  lemma ParseDecimalWhole(n: nat)
    ensures ParseDecimal(ShowNat(n)) == Some(n as real)
  {
    var s := ShowNat(n);
    DigitsOfShow(n);
    assert DecimalValue(s, "") == n as real;
    StripNoop(s);
    assert SignOf(Strip(s)) == (false, s);
    assert forall k :: 0 <= k < |s| ==> s[k] != '.';
    SplitJoin([s], '.');
    assert Split(s, '.') == [s];
  }
}
