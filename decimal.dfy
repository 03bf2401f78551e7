/** Decimal text of 32-bit integers, as the description files write and read them: `int.ToString` with the
    invariant culture, and `int.Parse`. */
module Decimals {
  import opened Wrappers

  const MinInt32: int := -0x8000_0000
  const MaxInt32: int := 0x7fff_ffff

  /** The values a C# `int` can hold. */
  predicate IsInt32(n: int)
  {
    MinInt32 <= n <= MaxInt32
  }

  predicate IsDigit(c: char)
  {
    '0' <= c <= '9'
  }

  predicate AllDigits(s: string)
  {
    forall i :: 0 <= i < |s| ==> IsDigit(s[i])
  }

  function DigitChar(d: nat): (c: char)
    requires d < 10
    ensures IsDigit(c) && (c as int) - ('0' as int) == d
  {
    ((('0' as int) + d) as char)
  }

  /** The digits of `n`, most significant first, without leading zeros. */
  function DigitsOf(n: nat): (s: string)
    ensures |s| > 0 && AllDigits(s)
    ensures (s[0] == '0') <==> n == 0
    decreases n
  {
    if n < 10 then [DigitChar(n)] else DigitsOf(n / 10) + [DigitChar(n % 10)]
  }

  /** The number a digit string denotes. */
  function DigitsValue(s: string): nat
    requires AllDigits(s)
  {
    if |s| == 0 then 0 else 10 * DigitsValue(s[..|s| - 1]) + ((s[|s| - 1] as int) - ('0' as int))
  }

  /** `int.ToString()`: a minus sign for negative values, then the digits of the magnitude. */
  function DecimalString(n: int): (s: string)
    ensures |s| > 0
    ensures (s[0] == '-') <==> n < 0
  {
    if n < 0 then "-" + DigitsOf(-n) else DigitsOf(n)
  }

  /** `int.Parse` on an optionally signed digit string: FormatException for anything else, OverflowException
      for a value outside the range of `int`. */
  function ParseInt(s: string): (r: Result<int>)
    ensures r.Ok? ==> IsInt32(r.value)
    ensures r.Throws? ==> r.exception == FormatException || r.exception == OverflowException
    ensures r.Throws? && r.exception == FormatException <==>
              var body := if |s| > 0 && (s[0] == '-' || s[0] == '+') then s[1..] else s;
              |body| == 0 || !AllDigits(body)
  {
    var body := if |s| > 0 && (s[0] == '-' || s[0] == '+') then s[1..] else s;
    if |body| == 0 || !AllDigits(body) then Throws(FormatException)
    else
      var v: int := if s[0] == '-' then 0 - DigitsValue(body) as int else DigitsValue(body);
      if IsInt32(v) then Ok(v) else Throws(OverflowException)
  }

  lemma {:induction false} DigitsRoundTrip(n: nat)
    ensures DigitsValue(DigitsOf(n)) == n
    decreases n
  {
    if n >= 10 {
      var s := DigitsOf(n);
      assert s[..|s| - 1] == DigitsOf(n / 10);
      DigitsRoundTrip(n / 10);
    }
  }

  /** Reading back what `ToString` wrote gives the same `int`. */
  lemma ParseDecimalString(n: int)
    requires IsInt32(n)
    ensures ParseInt(DecimalString(n)) == Ok(n)
  {
    var s := DecimalString(n);
    if n < 0 {
      assert s[1..] == DigitsOf(-n);
      DigitsRoundTrip(-n);
    } else {
      DigitsRoundTrip(n);
    }
  }

  /** Different `int` values are written differently. */
  lemma DecimalStringInjective(m: int, n: int)
    requires IsInt32(m) && IsInt32(n) && DecimalString(m) == DecimalString(n)
    ensures m == n
  {
    ParseDecimalString(m);
    ParseDecimalString(n);
  }
}
