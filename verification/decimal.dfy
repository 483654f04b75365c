/**
 Decimal text for integers, as JavaScript produces it in a template literal
 (`${n}` for an integral Number of magnitude below 10^21, which JavaScript
 writes in plain decimal) and as `parseInt(s)` reads it back.
 */
module Decimal {

  /** The value `parseInt` yields: an integer, or NaN when no digit is found. */
  datatype Num = Int(value: int) | NaN

  predicate IsDigit(c: char) {
    '0' <= c <= '9'
  }

  predicate AllDigits(s: string) {
    forall i :: 0 <= i < |s| ==> IsDigit(s[i])
  }

  function DigitChar(d: nat): (c: char)
    requires d < 10
    ensures IsDigit(c)
  {
    "0123456789"[d]
  }

  function DigitValue(c: char): (d: nat)
    requires IsDigit(c)
    ensures d < 10
  {
    c as int - '0' as int
  }

  /** Shortest decimal spelling of a natural number (no leading zeros). */
  function NatToString(n: nat): (s: string)
    ensures |s| > 0
    ensures AllDigits(s)
    ensures |s| > 1 ==> s[0] != '0'
    decreases n
  {
    if n < 10 then [DigitChar(n)] else NatToString(n / 10) + [DigitChar(n % 10)]
  }

  /**
   `${i}` for an integral Number below 10^21 in magnitude: a minus sign
   exactly for negatives, then the digits of the magnitude; never a comma,
   so the text can sit in a comma-separated field.
   */
  function IntToString(i: int): (s: string)
    ensures |s| > 0 && (s[0] == '-' <==> i < 0)
    ensures ',' !in s
  {
    var d := NatToString(if i < 0 then -i else i);
    assert forall k :: 0 <= k < |d| ==> d[k] != ',';
    if i < 0 then "-" + d else d
  }

  /** The value of a string of digits, read most significant digit first. */
  function DigitsValue(s: string): nat
    requires AllDigits(s)
  {
    if |s| == 0 then 0 else DigitsValue(s[..|s| - 1]) * 10 + DigitValue(s[|s| - 1])
  }

  /** Length of the longest prefix of `s` made of decimal digits. */
  function DigitRun(s: string): (k: nat)
    ensures k <= |s|
    ensures AllDigits(s[..k])
    ensures k < |s| ==> !IsDigit(s[k])
  {
    if |s| == 0 || !IsDigit(s[0]) then 0 else 1 + DigitRun(s[1..])
  }

  /** The longest leading run of digits of `s`, read as a number; NaN when it is empty. */
  function ParseDigits(s: string): (r: Num)
    ensures r.NaN? <==> !StartsWithDigit(s)
    ensures r.Int? ==> r.value >= 0
  {
    var k := DigitRun(s);
    if k == 0 then NaN else Int(DigitsValue(s[..k]))
  }

  /** The text starts with a decimal digit. */
  predicate StartsWithDigit(s: string) {
    |s| > 0 && IsDigit(s[0])
  }

  function Negate(n: Num): Num {
    match n
    case NaN => NaN
    case Int(v) => Int(-v)
  }

  /**
   JavaScript's `parseInt(s)` in radix 10: an optional sign, then the longest
   run of digits; NaN when that run is empty.
   */
  function ParseInt(s: string): (r: Num)
    ensures r.Int? <==> StartsWithDigit(s) || (|s| > 0 && (s[0] == '-' || s[0] == '+') && StartsWithDigit(s[1..]))
    ensures r.Int? && r.value < 0 ==> s[0] == '-'
    ensures r.Int? && |s| > 0 && s[0] == '-' ==> r.value <= 0
  {
    if |s| > 0 && s[0] == '-' then Negate(ParseDigits(s[1..]))
    else if |s| > 0 && s[0] == '+' then ParseDigits(s[1..])
    else ParseDigits(s)
  }

  lemma {:induction false} DigitsValueOfNatToString(n: nat)
    ensures DigitsValue(NatToString(n)) == n
    decreases n
  {
    if n >= 10 {
      var s := NatToString(n);
      var p := NatToString(n / 10);
      assert s == p + [DigitChar(n % 10)];
      assert s[..|s| - 1] == p;
      DigitsValueOfNatToString(n / 10);
    }
  }

  lemma {:induction false} DigitRunOfDigits(s: string)
    requires AllDigits(s)
    ensures DigitRun(s) == |s|
  {
    if |s| > 0 {
      DigitRunOfDigits(s[1..]);
    }
  }

  /** A string of digits is read whole, as its value. */
  lemma ParseDigitsOfDigits(d: string)
    requires |d| > 0 && AllDigits(d)
    ensures ParseDigits(d) == Int(DigitsValue(d))
  {
    DigitRunOfDigits(d);
    assert d[..|d|] == d;
  }

  /** `parseInt` reads back exactly the integer a template literal wrote. */
  lemma ParseIntOfIntToString(i: int)
    ensures ParseInt(IntToString(i)) == Int(i)
  {
    if i < 0 {
      var n: nat := -i;
      var d := NatToString(n);
      var s := "-" + d;
      assert IntToString(i) == s;
      assert s[0] == '-' && s[1..] == d;
      DigitsValueOfNatToString(n);
      ParseDigitsOfDigits(d);
      assert ParseInt(s) == Negate(ParseDigits(d));
    } else {
      var d := NatToString(i);
      assert IntToString(i) == d;
      assert d[0] != '-' && d[0] != '+';
      DigitsValueOfNatToString(i);
      ParseDigitsOfDigits(d);
    }
  }
}
