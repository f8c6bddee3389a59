/**
 * The value rules both pipeline generations apply to single cells: digits
 * out of a formatted amount (`_make_int`), amounts with a K/M/B unit
 * (`_format_high_values`), the randomised asking price (`_obfuscate_asking_price`,
 * `_obfuscate`), and the sentinels that stand for zero.
 */
module Fields {
  import opened Outcomes
  import opened Strings
  import opened Numerals

  /** The decimal digits of `s`, in order: `''.join(re.findall(r'\d+', s))`. */
  function DigitsOf(s: string): (d: string)
    ensures AllDigits(d) && |d| <= |s|
    ensures (exists i :: 0 <= i < |s| && IsDigit(s[i])) <==> d != []
  {
    if s == [] then []
    else
      var rest := DigitsOf(s[1..]);
      assert forall i :: 1 <= i < |s| ==> s[i] == s[1..][i - 1];
      if IsDigit(s[0]) then [s[0]] + rest else rest
  }

  /** `_make_int(s)`: the number all digits of `s` spell; ValueError when there are none. */
  function MakeInt(s: string): (r: Result<int>)
    ensures r.Ok? <==> exists i :: 0 <= i < |s| && IsDigit(s[i])
    ensures r.Ok? ==> r.value >= 0
  {
    var digits := DigitsOf(s);
    if digits == [] then Err(ValueError) else Ok(DigitsValue(digits))
  }

  lemma {:induction false} DigitsOfConcat(a: string, b: string)
    ensures DigitsOf(a + b) == DigitsOf(a) + DigitsOf(b)
    decreases |a|
  {
    if a != [] {
      assert (a + b)[1..] == a[1..] + b;
      DigitsOfConcat(a[1..], b);
    } else {
      assert a + b == b;
    }
  }

  lemma {:induction false} DigitsOfDigits(d: string)
    requires AllDigits(d)
    ensures DigitsOf(d) == d
    decreases |d|
  {
    if d != [] {
      DigitsOfDigits(d[1..]);
      assert [d[0]] + d[1..] == d;
    }
  }

  lemma {:induction false} DigitsOfNone(s: string)
    requires forall i :: 0 <= i < |s| ==> !IsDigit(s[i])
    ensures DigitsOf(s) == []
  {
  }

  /**
   * Digit groups around a separator are read as one number, the separator
   * dropped: `_make_int("12,500") == 12500`.
   */
  lemma MakeIntJoinsDigitGroups(high: string, separator: string, low: string)
    requires AllDigits(high) && AllDigits(low) && |high| + |low| > 0
    requires forall i :: 0 <= i < |separator| ==> !IsDigit(separator[i])
    ensures MakeInt(high + separator + low) == Ok(DigitsValue(high + low))
  {
    DigitsOfConcat(high + separator, low);
    DigitsOfConcat(high, separator);
    DigitsOfDigits(high);
    DigitsOfDigits(low);
    DigitsOfNone(separator);
    assert high + [] == high;
    assert AllDigits(high + low);
  }

  /**
   * The unit `_format_high_values` cuts at and its multiplier: a unit letter
   * of `val`, scaled as it says, and no unit letter of `val` scales by less;
   * "\xa0k" and 1 when `val` has no unit letter.
   */
  function Unit(val: string): (u: (string, nat))
    ensures u.0 == "\U{a0}k" <==> 'K' !in val && 'M' !in val && 'B' !in val
    ensures u.0 == "\U{a0}k" ==> u.1 == 1
    ensures u.0 != "\U{a0}k" ==> |u.0| == 1 && u.0[0] in "KMB" && u.0[0] in val && u.1 == Scale(u.0[0])
    ensures forall c :: c in "KMB" && c in val ==> u.1 <= Scale(c)
  {
    if 'K' in val then ("K", 1000)
    else if 'M' in val then ("M", 1000000)
    else if 'B' in val then ("B", 1000000000)
    else ("\U{a0}k", 1)
  }

  /** An amount in units of `multiplier`. */
  function Scaled(amount: real, multiplier: nat): real
  {
    amount * multiplier as real
  }

  /** `_format_high_values(val)`: `float(val[:val.find(letter)]) * n`. */
  function FormatHighValues(val: string): Result<real>
  {
    var unit := Unit(val);
    var x :- ParseFloat(Slice(val, 0, Find(val, unit.0)));
    Ok(Scaled(x, unit.1))
  }

  /** The multiplier of a unit letter. */
  function Scale(letter: char): nat
  {
    if letter == 'K' then 1000 else if letter == 'M' then 1000000 else 1000000000
  }

  lemma NotInDigits(d: string, c: char)
    requires AllDigits(d) && !IsDigit(c)
    ensures c !in d
  {
    assert forall i :: 0 <= i < |d| ==> d[i] != c;
  }

  /** A letter unit occurs first right after the digits. */
  lemma FindAfterDigits(d: string, unit: string, rest: string)
    requires AllDigits(d) && |unit| > 0 && !IsDigit(unit[0])
    ensures Find(d + unit + rest, unit) == |d|
  {
    var val := d + unit + rest;
    assert val[|d|..|d| + |unit|] == unit;
    assert OccursAt(val, unit, |d|);
    forall j | 0 <= j < |d|
      ensures !OccursAt(val, unit, j)
    {
      if j + |unit| <= |val| {
        assert val[j..j + |unit|][0] == val[j] == d[j];
      }
    }
    var i := Find(val, unit);
    assert i == |d|;
  }

  /** Once the numeral before the unit is read, the result is it times the unit's multiplier. */
  lemma HighValueOfNumeral(val: string, x: real, n: nat)
    requires ParseFloat(Slice(val, 0, Find(val, Unit(val).0))) == Ok(x)
    requires Unit(val).1 == n
    ensures FormatHighValues(val) == Ok(Scaled(x, n))
  {
  }

  /**
   * An amount of digits followed by a K, M or B unit is the digits' value
   * times 10^3, 10^6 or 10^9, provided no unit of higher precedence
   * follows: `_format_high_values("41M\xa0kr") == 41000000.0`.
   */
  lemma HighValueWithUnit(d: string, letter: char, rest: string)
    requires |d| > 0 && AllDigits(d)
    requires letter == 'K' || letter == 'M' || letter == 'B'
    requires letter != 'K' ==> 'K' !in rest
    requires letter == 'B' ==> 'M' !in rest
    ensures FormatHighValues(d + [letter] + rest) == Ok(Scaled(DigitsValue(d) as real, Scale(letter)))
  {
    UnitOfLetter(d, letter, rest);
    NumeralBefore(d, [letter], rest);
    HighValueOfNumeral(d + [letter] + rest, DigitsValue(d) as real, Scale(letter));
  }

  lemma UnitOfLetter(d: string, letter: char, rest: string)
    requires AllDigits(d)
    requires letter == 'K' || letter == 'M' || letter == 'B'
    requires letter != 'K' ==> 'K' !in rest
    requires letter == 'B' ==> 'M' !in rest
    ensures Unit(d + [letter] + rest) == ([letter], Scale(letter))
  {
    var val := d + [letter] + rest;
    NotInDigits(d, 'K');
    NotInDigits(d, 'M');
    assert letter in val;
  }

  lemma NumeralBefore(d: string, unit: string, rest: string)
    requires |d| > 0 && AllDigits(d) && |unit| > 0 && !IsDigit(unit[0])
    ensures ParseFloat(Slice(d + unit + rest, 0, Find(d + unit + rest, unit))) == Ok(DigitsValue(d) as real)
  {
    var val := d + unit + rest;
    FindAfterDigits(d, unit, rest);
    assert Slice(val, 0, |d|) == d;
    ParseFloatDigits(d);
  }

  /**
   * Without a K, M or B the multiplier is 1 and the numeral ends at "\xa0k":
   * `_format_high_values("950\xa0kr") == 950.0`.
   */
  lemma HighValueWithoutUnit(d: string, rest: string)
    requires |d| > 0 && AllDigits(d)
    requires 'K' !in rest && 'M' !in rest && 'B' !in rest
    ensures FormatHighValues(d + "\U{a0}k" + rest) == Ok(DigitsValue(d) as real)
  {
    var val := d + "\U{a0}k" + rest;
    var x := DigitsValue(d) as real;
    assert Unit(val) == ("\U{a0}k", 1) by {
      NotInDigits(d, 'K');
      NotInDigits(d, 'M');
      NotInDigits(d, 'B');
      assert 'K' !in val && 'M' !in val && 'B' !in val;
    }
    NumeralBefore(d, "\U{a0}k", rest);
    HighValueOfNumeral(val, x, 1);
    assert Scaled(x, 1) == x;
  }

  /**
   * A bare numeral has no "\xa0k" either, so `find` gives -1 and the last
   * character is cut off: `_format_high_values("950") == 95.0`.
   */
  lemma HighValueBareNumeral(d: string)
    requires |d| > 1 && AllDigits(d)
    ensures FormatHighValues(d) == Ok(DigitsValue(d[..|d| - 1]) as real)
  {
    var x := DigitsValue(d[..|d| - 1]) as real;
    assert Unit(d) == ("\U{a0}k", 1) by {
      NotInDigits(d, 'K');
      NotInDigits(d, 'M');
      NotInDigits(d, 'B');
    }
    assert ParseFloat(Slice(d, 0, Find(d, "\U{a0}k"))) == Ok(x) by {
      forall j | 0 <= j && j + 2 <= |d|
        ensures !OccursAt(d, "\U{a0}k", j)
      {
        assert d[j..j + 2][0] == d[j];
      }
      assert Find(d, "\U{a0}k") == -1;
      assert Slice(d, 0, -1) == d[..|d| - 1];
      ParseFloatDigits(d[..|d| - 1]);
    }
    HighValueOfNumeral(d, x, 1);
    assert Scaled(x, 1) == x;
  }

  /** `random.randrange(lo, hi)` given the draw: ValueError for an empty range. */
  function RandRange(lo: int, hi: int, draw: nat): (r: Result<int>)
    ensures r.Ok? <==> lo < hi
    ensures r.Ok? ==> lo <= r.value < hi
  {
    if lo < hi then Ok(lo + draw % (hi - lo)) else Err(ValueError)
  }

  /**
   * `_obfuscate_asking_price(price)` / `_obfuscate(price)`: 0 stays 0, any
   * other price becomes `randrange(int(price / 2), int(price * 2))`.
   */
  function Obfuscate(price: real, draw: nat): (r: Result<int>)
    ensures price == 0.0 ==> r == Ok(0)
    ensures price != 0.0 ==> (r.Ok? <==> Trunc(price / 2.0) < Trunc(price * 2.0))
    ensures price != 0.0 && r.Ok? ==> Trunc(price / 2.0) <= r.value < Trunc(price * 2.0)
  {
    if price == 0.0 then Ok(0)
    else
      var rounded := RandRange(Trunc(price / 2.0), Trunc(price * 2.0), draw);
      rounded
  }

  /** A price of at least 1 always gets a value, strictly between half of it less one and twice it. */
  lemma ObfuscateBounds(price: real, draw: nat)
    requires price >= 1.0
    ensures Obfuscate(price, draw).Ok?
    ensures price / 2.0 - 1.0 < Obfuscate(price, draw).value as real < 2.0 * price
  {
    assert Trunc(price / 2.0) as real <= price / 2.0;
    assert Trunc(price * 2.0) as real > price * 2.0 - 1.0 >= price / 2.0 + 0.5;
  }

  /** The draw `v - lo` picks `v` from `[lo, hi)`. */
  lemma RandRangeHits(lo: int, hi: int, v: int)
    requires lo <= v < hi
    ensures RandRange(lo, hi, v - lo) == Ok(v)
  {
    assert (v - lo) % (hi - lo) == v - lo;
  }

  /** Every value of the range is some draw's result. */
  lemma ObfuscateCoversRange(price: real, v: int)
    requires price != 0.0 && Trunc(price / 2.0) <= v < Trunc(price * 2.0)
    ensures exists draw: nat :: Obfuscate(price, draw) == Ok(v)
  {
    var lo, hi := Trunc(price / 2.0), Trunc(price * 2.0);
    RandRangeHits(lo, hi, v);
    var draw: nat := v - lo;
    assert Obfuscate(price, draw) == RandRange(lo, hi, draw);
  }

  /** A contract date: the year in its last 4 characters, or 0 for "-". */
  function DateYear(s: string): Result<int>
  {
    if s == "-" then Ok(0) else ParseInt(Slice(s, -4, |s|))
  }

  /** A date written day/month/year has its year as value. */
  lemma DateYearOfDate(prefix: string, year: string)
    requires |year| == 4 && AllDigits(year)
    ensures DateYear(prefix + year) == Ok(DigitsValue(year))
  {
    var s := prefix + year;
    assert s != "-";
    assert Slice(s, -4, |s|) == year;
    DigitsAreUnspaced(year);
    StripUnspaced(year);
  }

  /** The contract extension: 0 for an empty cell. */
  function Extension(s: string): Result<int>
  {
    if s == "" then Ok(0) else ParseInt(s)
  }

  /** The wage: 0 for "-" or "N/A", else its digits; it fails exactly on any other cell without a digit. */
  function Wage(s: string): (r: Result<int>)
    ensures r.Ok? ==> r.value >= 0
    ensures r.Err? <==> s != "-" && s != "N/A" && forall i :: 0 <= i < |s| ==> !IsDigit(s[i])
  {
    if s == "-" || s == "N/A" then Ok(0) else MakeInt(s)
  }

  /** The minutes played: 0 for "-", else its digits. */
  function Minutes(s: string): Result<int>
  {
    if s == "-" then Ok(0) else MakeInt(s)
  }

  /** One statistic: 0.0 for "-", else the float it spells. */
  function StatValue(s: string): Result<real>
  {
    if s == "-" then Ok(0.0) else ParseFloat(s)
  }

  /** A national-team count: 0 for the given blank, else the int it spells. */
  function CountOr(s: string, blank: string): Result<int>
  {
    if s == blank then Ok(0) else ParseInt(s)
  }

  /** Every sentinel cell reads as zero. */
  lemma SentinelsAreZero()
    ensures DateYear("-") == Ok(0) && Extension("") == Ok(0)
    ensures Wage("-") == Ok(0) && Wage("N/A") == Ok(0)
    ensures Minutes("-") == Ok(0) && StatValue("-") == Ok(0.0)
    ensures CountOr("", "") == Ok(0) && CountOr("-", "-") == Ok(0)
  {
  }
}
