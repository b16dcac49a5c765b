/** Decimal rendering of integers, together with the parser that inverts it.
    For integers below 10^21 in magnitude that a Number holds exactly (which
    includes every 32-bit length limit) this is what a JavaScript template
    literal such as `${minLength}` produces. */
module Decimal {

  datatype Option<+T> = None | Some(value: T)

  predicate IsDigit(c: char) {
    '0' <= c <= '9'
  }

  predicate IsDigits(s: string) {
    forall i :: 0 <= i < |s| ==> IsDigit(s[i])
  }

  function DigitChar(d: nat): (c: char)
    requires d < 10
    ensures IsDigit(c)
  {
    (('0' as int) + d) as char
  }

  function DigitValue(c: char): (d: nat)
    requires IsDigit(c)
    ensures d < 10 && DigitChar(d) == c
  {
    (c as int) - ('0' as int)
  }

  /** The shortest decimal numeral of n: non-empty, digits only, no leading zero. */
  function NatToString(n: nat): (s: string)
    ensures |s| > 0 && IsDigits(s)
    ensures s[0] == '0' ==> s == "0"
    ensures n < 10 <==> |s| == 1
    decreases n
  {
    if n < 10 then [DigitChar(n)] else NatToString(n / 10) + [DigitChar(n % 10)]
  }

  /** The value of a numeral, most significant digit first. */
  function DigitsValue(s: string): nat
    requires IsDigits(s)
  {
    if s == [] then 0 else 10 * DigitsValue(s[..|s| - 1]) + DigitValue(s[|s| - 1])
  }

  lemma {:induction false} NatToStringRoundTrip(n: nat)
    ensures DigitsValue(NatToString(n)) == n
  {
    if n >= 10 {
      var s := NatToString(n / 10);
      var t := s + [DigitChar(n % 10)];
      assert t[..|t| - 1] == s;
      NatToStringRoundTrip(n / 10);
    }
  }

  /** A minus sign for negatives, then the shortest numeral of the magnitude:
      what `${i}` produces for an integral Number i held exactly and below
      10^21 in magnitude (larger Numbers are printed with an exponent). */
  function IntToString(i: int): (s: string)
  {
    if i < 0 then "-" + NatToString(-i) else NatToString(i)
  }

  /** Reads an optional minus sign followed by at least one digit. */
  function ParseInt(s: string): Option<int>
  {
    if |s| > 0 && s[0] == '-' then
      if |s| > 1 && IsDigits(s[1..]) then Some(-(DigitsValue(s[1..]) as int)) else None
    else if |s| > 0 && IsDigits(s) then Some(DigitsValue(s))
    else None
  }

  lemma IntToStringRoundTrip(i: int)
    ensures ParseInt(IntToString(i)) == Some(i)
  {
    var s := IntToString(i);
    if i < 0 {
      var t := NatToString(-i);
      assert s == "-" + t && s[0] == '-' && s[1..] == t;
      NatToStringRoundTrip(-i);
      assert ParseInt(s) == Some(-(DigitsValue(t) as int));
    } else {
      var t := NatToString(i);
      assert s == t && t[0] != '-';
      NatToStringRoundTrip(i);
      assert ParseInt(s) == Some(DigitsValue(t) as int);
    }
  }

  /** Distinct integers render differently. */
  lemma IntToStringInjective(i: int, j: int)
    requires IntToString(i) == IntToString(j)
    ensures i == j
  {
    IntToStringRoundTrip(i);
    IntToStringRoundTrip(j);
  }

  /** A rendering is a well-formed numeral: an optional '-' (only for negatives)
      and then digits without a leading zero. */
  lemma IntToStringShape(i: int)
    ensures var s := IntToString(i);
      |s| > 0 &&
      (s[0] == '-' <==> i < 0) &&
      (i < 0 ==> |s| > 1 && IsDigits(s[1..]) && s[1] != '0') &&
      (i >= 0 ==> IsDigits(s) && (s[0] == '0' ==> i == 0))
  {
  }
}
