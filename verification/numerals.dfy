/**
 * Python's `int(s)`, `float(s)`, `int(x)` and `str(n)` on decimal numerals.
 * Python floats are modelled by exact `real`s.
 */
module Numerals {
  import opened Outcomes
  import opened Strings

  predicate AllDigits(s: string) {
    forall i :: 0 <= i < |s| ==> IsDigit(s[i])
  }

  function DigitValue(c: char): nat
    requires IsDigit(c)
  {
    c as int - '0' as int
  }

  /** The value of a string of decimal digits; leading zeros are allowed, as in `int("007")`. */
  function DigitsValue(s: string): nat
    requires AllDigits(s)
  {
    if s == [] then 0 else 10 * DigitsValue(s[..|s| - 1]) + DigitValue(s[|s| - 1])
  }

  function Pow10(n: nat): (p: nat)
    ensures p >= 1
  {
    if n == 0 then 1 else 10 * Pow10(n - 1)
  }

  /** Python's `int(s)` on a string: surrounding whitespace, an optional sign, then at least one digit. */
  function ParseInt(s: string): Result<int>
  {
    var t := Strip(s);
    if |t| > 0 && AllDigits(t) then Ok(DigitsValue(t))
    else if |t| > 1 && (t[0] == '-' || t[0] == '+') && AllDigits(t[1..]) then
      var magnitude: int := DigitsValue(t[1..]);
      Ok(if t[0] == '-' then -magnitude else magnitude)
    else Err(ValueError)
  }

  /** An unsigned decimal: digits, optionally a point and more digits, at least one digit in all. */
  function ParseUnsignedDecimal(t: string): Result<real>
  {
    var dot := Find(t, ".");
    if dot < 0 then
      if |t| > 0 && AllDigits(t) then Ok(DigitsValue(t) as real) else Err(ValueError)
    else
      var whole, fraction := t[..dot], t[dot + 1..];
      if (|whole| > 0 || |fraction| > 0) && AllDigits(whole) && AllDigits(fraction) then
        Ok(DigitsValue(whole) as real + DigitsValue(fraction) as real / Pow10(|fraction|) as real)
      else Err(ValueError)
  }

  /** Python's `float(s)` on a string: surrounding whitespace, an optional sign, then a decimal. */
  function ParseFloat(s: string): Result<real>
  {
    var t := Strip(s);
    if |t| > 0 && (t[0] == '-' || t[0] == '+') then
      var magnitude :- ParseUnsignedDecimal(t[1..]);
      Ok(if t[0] == '-' then -magnitude else magnitude)
    else ParseUnsignedDecimal(t)
  }

  /** Python's `int(x)` on a float: truncation toward zero. */
  function Trunc(x: real): (n: int)
    ensures x >= 0.0 ==> n as real <= x < n as real + 1.0
    ensures x < 0.0 ==> n as real - 1.0 < x <= n as real
  {
    if x >= 0.0 then x.Floor else -((-x).Floor)
  }

  function DigitChar(d: nat): (c: char)
    requires d < 10
    ensures IsDigit(c) && DigitValue(c) == d
  {
    ('0' as int + d) as char
  }

  /** Python's `str(n)` on a non-negative int: its decimal digits, without leading zeros. */
  function NatToString(n: nat): (s: string)
    ensures |s| > 0 && AllDigits(s) && DigitsValue(s) == n
    ensures n > 0 ==> s[0] != '0'
  {
    if n < 10 then [DigitChar(n)]
    else
      var prefix := NatToString(n / 10);
      var s := prefix + [DigitChar(n % 10)];
      assert s[..|s| - 1] == prefix;
      s
  }

  /** Python's `str(n)` on an int. */
  function IntToString(n: int): (s: string)
    ensures |s| > 0
  {
    if n < 0 then "-" + NatToString(-n) else NatToString(n)
  }

  lemma DigitsAreUnspaced(s: string)
    requires AllDigits(s)
    ensures forall i :: 0 <= i < |s| ==> !IsSpace(s[i])
  {
  }

  /** `int(str(n)) == n`: the decimal form of an int parses back to it. */
  lemma ParseIntToString(n: int)
    ensures ParseInt(IntToString(n)) == Ok(n)
  {
    var s := IntToString(n);
    var digits := NatToString(if n < 0 then -n else n);
    DigitsAreUnspaced(digits);
    StripUnspaced(s);
    if n < 0 {
      assert s[1..] == digits;
    }
  }

  lemma NoPointInDigits(d: string)
    requires AllDigits(d)
    ensures Find(d, ".") == -1
  {
    forall j | 0 <= j < |d|
      ensures !OccursAt(d, ".", j)
    {
      assert d[j..j + 1] == [d[j]];
    }
  }

  /** `float(d) == int(d)` for a string of digits. */
  lemma ParseFloatDigits(d: string)
    requires |d| > 0 && AllDigits(d)
    ensures ParseFloat(d) == Ok(DigitsValue(d) as real)
  {
    DigitsAreUnspaced(d);
    StripUnspaced(d);
    NoPointInDigits(d);
    assert ParseUnsignedDecimal(d) == Ok(DigitsValue(d) as real);
  }
}
