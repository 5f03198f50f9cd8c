/**
 * JavaScript number formatting and parsing on integers: `toString()`,
 * `parseInt`, the truncating `%`, and `Math.round` of a mean.
 */
module Numbers {
  import opened Common
  import opened Text

  predicate IsDigit(c: char) { '0' <= c <= '9' }

  predicate AllDigits(s: string) {
    forall k :: 0 <= k < |s| ==> IsDigit(s[k])
  }

  function DigitChar(d: nat): (c: char)
    requires d < 10
    ensures IsDigit(c) && c as int - '0' as int == d
  {
    ('0' as int + d) as char
  }

  /** Value of a digit in base 10 or 16 (letters of either case above 9). */
  function DigitValue(c: char): nat {
    if IsDigit(c) then c as int - '0' as int
    else if 'a' <= c <= 'z' then c as int - 'a' as int + 10
    else if 'A' <= c <= 'Z' then c as int - 'A' as int + 10
    else 36
  }

  predicate IsRadixDigit(c: char, radix: nat) {
    DigitValue(c) < radix
  }

  /** `n.toString()` for a non-negative integer. */
  function NatToString(n: nat): (s: string)
    ensures |s| >= 1 && AllDigits(s)
    ensures n >= 10 ==> s[0] != '0'
    ensures n < 10 <==> |s| == 1
  {
    if n < 10 then [DigitChar(n)] else NatToString(n / 10) + [DigitChar(n % 10)]
  }

  /** `n.toString()` for any integer. */
  function IntToString(n: int): (s: string) {
    if n < 0 then "-" + NatToString(-n) else NatToString(n)
  }

  /** The number a string of digits denotes in the given radix. */
  function DigitsValue(s: string, radix: nat): nat {
    if s == [] then 0
    else DigitsValue(s[..|s| - 1], radix) * radix + DigitValue(s[|s| - 1])
  }

  lemma {:induction false} DigitsValueOfNatToString(n: nat)
    ensures DigitsValue(NatToString(n), 10) == n
  {
    if n >= 10 {
      var s := NatToString(n);
      assert s[..|s| - 1] == NatToString(n / 10);
      DigitsValueOfNatToString(n / 10);
    }
  }

  /** Leading zeros do not change the value of a decimal digit string. */
  lemma {:induction false} DigitsValueLeadingZero(s: string)
    ensures DigitsValue("0" + s, 10) == DigitsValue(s, 10)
  {
    if s != [] {
      var t := "0" + s;
      assert t[..|t| - 1] == "0" + s[..|s| - 1];
      DigitsValueLeadingZero(s[..|s| - 1]);
    } else {
      assert DigitsValue("0", 10) == DigitsValue("", 10) * 10 + 0;
    }
  }

  /** The longest prefix of s made of digits of the radix. */
  function DigitPrefix(s: string, radix: nat): (r: string)
    ensures StartsWith(s, r)
    ensures forall k :: 0 <= k < |r| ==> IsRadixDigit(r[k], radix)
    ensures |r| == |s| || !IsRadixDigit(s[|r|], radix)
  {
    if s == [] || !IsRadixDigit(s[0], radix) then []
    else [s[0]] + DigitPrefix(s[1..], radix)
  }

  lemma {:induction false} DigitPrefixOfDigits(s: string)
    requires AllDigits(s)
    ensures DigitPrefix(s, 10) == s
  {
    if s != [] {
      DigitPrefixOfDigits(s[1..]);
    }
  }

  /**
   * `parseInt(s, 10)` (autoRadix false) or `parseInt(s)` (autoRadix true, where a
   * "0x"/"0X" prefix selects base 16). Leading white space and one sign are
   * skipped; the longest run of digits that follows is read; None is NaN.
   */
  function ParseInt(s: string, autoRadix: bool): (r: Option<int>) {
    var t := TrimStart(s);
    if t != [] && t[0] == '-' then
      match ReadMagnitude(t[1..], autoRadix)
      case Some(m) => Some(-m)
      case None => None
    else if t != [] && t[0] == '+' then ReadMagnitude(t[1..], autoRadix)
    else ReadMagnitude(t, autoRadix)
  }

  /**
   * Blank text, and text that starts with neither a digit nor a sign, is NaN;
   * decimal text that starts with a digit reads as a non-negative number.
   */
  lemma ParseIntOutcomes(s: string, autoRadix: bool)
    ensures TrimStart(s) == [] ==> ParseInt(s, autoRadix) == None
    ensures TrimStart(s) != [] && !IsDigit(TrimStart(s)[0]) && TrimStart(s)[0] !in "+-" ==>
      ParseInt(s, autoRadix) == None
    ensures !autoRadix && TrimStart(s) != [] && IsDigit(TrimStart(s)[0]) ==>
      ParseInt(s, autoRadix).Some? && ParseInt(s, autoRadix).value >= 0
  {
  }

  /** The unsigned part of `parseInt`: the radix prefix, then the leading run of digits. */
  function ReadMagnitude(u: string, autoRadix: bool): (r: Option<int>) {
    var hex := autoRadix && |u| >= 2 && u[0] == '0' && (u[1] == 'x' || u[1] == 'X');
    var radix := if hex then 16 else 10;
    var z := DigitPrefix(if hex then u[2..] else u, radix);
    if z == [] then None else Some(DigitsValue(z, radix))
  }

  /** Decimal digits after any sign carry no "0x" prefix and are read whole. */
  lemma MagnitudeOfDigits(u: string, autoRadix: bool)
    requires AllDigits(u) && u != []
    ensures ReadMagnitude(u, autoRadix) == Some(DigitsValue(u, 10))
  {
    assert |u| >= 2 ==> IsDigit(u[1]);
    DigitPrefixOfDigits(u);
  }

  /** Text that starts with a digit is read as its leading run of decimal digits. */
  lemma ParseIntOfDigits(s: string, autoRadix: bool)
    requires AllDigits(s) && s != []
    ensures ParseInt(s, autoRadix) == Some(DigitsValue(s, 10))
  {
    assert IsDigit(s[0]);
    assert TrimStart(s) == s;
    MagnitudeOfDigits(s, autoRadix);
  }

  /** A minus sign followed by decimal digits reads as their value negated. */
  lemma ParseIntOfNegatedDigits(t: string, autoRadix: bool)
    requires |t| >= 2 && t[0] == '-' && AllDigits(t[1..])
    ensures ParseInt(t, autoRadix) == Some(-(DigitsValue(t[1..], 10) as int))
  {
    MagnitudeOfDigits(t[1..], autoRadix);
    ParseIntAfterMinus(t, autoRadix, DigitsValue(t[1..], 10));
  }

  /** Text that starts with a minus sign reads as the negated magnitude after it. */
  lemma ParseIntAfterMinus(t: string, autoRadix: bool, m: int)
    requires t != [] && t[0] == '-' && ReadMagnitude(t[1..], autoRadix) == Some(m)
    ensures ParseInt(t, autoRadix) == Some(-m)
  {
    assert !IsJsWhitespace(t[0]);
    assert TrimStart(t) == t;
  }

  /** Reading back a printed number gives the number, with or without an explicit radix. */
  lemma ParseIntOfIntToString(n: int, autoRadix: bool)
    ensures ParseInt(IntToString(n), autoRadix) == Some(n)
  {
    var m: nat := if n < 0 then -n else n;
    DigitsValueOfNatToString(m);
    if n < 0 {
      var t := IntToString(n);
      assert t[1..] == NatToString(m);
      ParseIntOfNegatedDigits(t, autoRadix);
    } else {
      ParseIntOfDigits(NatToString(m), autoRadix);
    }
  }

  /** `a % b` for b > 0: JavaScript's remainder takes the sign of a. */
  function JsRem(a: int, b: int): (r: int)
    requires b > 0
    ensures a >= 0 ==> 0 <= r < b && r == a % b
    ensures a < 0 ==> -b < r <= 0 && r == -((-a) % b)
  {
    if a >= 0 then a % b else -((-a) % b)
  }

  /** `Math.round(total / n)`: the mean rounded half up. */
  function RoundedMean(total: int, n: nat): (r: int)
    requires n > 0
    ensures 2 * n * r <= 2 * total + n < 2 * n * (r + 1)
  {
    (2 * total + n) / (2 * n)
  }

  lemma RoundedMeanBounds(total: int, n: nat)
    requires n > 0 && total >= 0
    ensures 0 <= RoundedMean(total, n)
    ensures n * RoundedMean(total, n) <= total + n
  {
  }
}
