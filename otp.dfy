/**
  The verification-code generator: `Math.floor(100000 + Math.random() * 900000).toString()`.
  The random source is an input `r` in [0, 900000), the integer part of `Math.random() * 900000`;
  `toString` of a non-negative integer is its decimal rendering without leading zeros.
 */
module Otp {

  /** Number of characters of a verification code. */
  const CodeLength := 6
  /** Smallest code value. */
  const CodeBase := 100000
  /** Number of distinct codes. */
  const CodeSpan := 900000

  /** One draw of the random source, scaled to the code space. */
  type Draw = r: int | 0 <= r < 900000

  predicate IsDigit(c: char) {
    '0' <= c <= '9'
  }

  predicate AllDigits(s: string) {
    forall k :: 0 <= k < |s| ==> IsDigit(s[k])
  }

  /** A well-formed verification code: six decimal digits, the first not zero. */
  predicate IsCode(s: string) {
    |s| == CodeLength && AllDigits(s) && s[0] != '0'
  }

  /** A decimal rendering as `toString` produces it: non-empty, and no leading zero unless it is "0". */
  predicate Canonical(s: string) {
    |s| >= 1 && AllDigits(s) && (|s| > 1 ==> s[0] != '0')
  }

  function Pow10(k: nat): (p: nat)
    ensures p >= 1
  {
    if k == 0 then 1 else 10 * Pow10(k - 1)
  }

  function DigitChar(d: nat): (c: char)
    requires d < 10
    ensures IsDigit(c)
  {
    (d + '0' as int) as char
  }

  function DigitValue(c: char): (d: nat)
    requires IsDigit(c)
    ensures d < 10
    ensures DigitChar(d) == c
  {
    c as int - '0' as int
  }

  /** Decimal rendering of a natural number (`Number.prototype.toString` on an integer). */
  function ToDecimal(n: nat): (s: string)
    ensures |s| >= 1 && AllDigits(s)
    decreases n
  {
    if n < 10 then [DigitChar(n)] else ToDecimal(n / 10) + [DigitChar(n % 10)]
  }

  /** The value denoted by a string of decimal digits. */
  function ParseDecimal(s: string): nat
    requires AllDigits(s)
    decreases |s|
  {
    if s == [] then 0 else ParseDecimal(s[..|s| - 1]) * 10 + DigitValue(s[|s| - 1])
  }

  /** Reading back a rendering gives the number that was rendered. */
  lemma {:induction false} ParseToDecimal(n: nat)
    ensures ParseDecimal(ToDecimal(n)) == n
    decreases n
  {
    if n >= 10 {
      ParseToDecimal(n / 10);
      var s := ToDecimal(n);
      assert s[..|s| - 1] == ToDecimal(n / 10);
    }
  }

  /** A rendering never starts with a zero digit unless the number is zero. */
  lemma {:induction false} ToDecimalCanonical(n: nat)
    ensures Canonical(ToDecimal(n))
    decreases n
  {
    if n >= 10 {
      ToDecimalCanonical(n / 10);
    }
  }

  /** A number with k + 1 digits renders to k + 1 characters. */
  lemma {:induction false} ToDecimalLength(n: nat, k: nat)
    requires Pow10(k) <= n < Pow10(k + 1)
    ensures |ToDecimal(n)| == k + 1
    decreases k
  {
    if k > 0 {
      ToDecimalLength(n / 10, k - 1);
    }
  }

  /** Every canonical digit string is the rendering of the number it denotes. */
  lemma {:induction false} ToDecimalParse(s: string)
    requires Canonical(s)
    ensures ToDecimal(ParseDecimal(s)) == s
    decreases |s|
  {
    var p := s[..|s| - 1];
    if |s| > 1 {
      assert p[0] == s[0];
      ParseBounds(p);
      ToDecimalParse(p);
      assert s == p + [s[|s| - 1]];
    }
  }

  /** A digit string of length k denotes less than 10^k, and at least 10^(k-1) when its first digit is not zero. */
  lemma {:induction false} ParseBounds(s: string)
    requires AllDigits(s)
    ensures ParseDecimal(s) < Pow10(|s|)
    ensures |s| >= 1 && s[0] != '0' ==> ParseDecimal(s) >= Pow10(|s| - 1)
    decreases |s|
  {
    if s != [] {
      var p := s[..|s| - 1];
      ParseBounds(p);
      if |p| >= 1 {
        assert p[0] == s[0];
      }
    }
  }

  /** `generateOTP`: the decimal rendering of 100000 + r. */
  function GenerateOtp(r: Draw): (code: string)
    ensures IsCode(code)
    ensures ParseDecimal(code) == CodeBase + r
  {
    var n := CodeBase + r;
    ToDecimalLength(n, 5);
    ToDecimalCanonical(n);
    ParseToDecimal(n);
    ToDecimal(n)
  }

  /** Every six-digit code without a leading zero is produced by exactly one draw. */
  lemma GenerateOtpCovers(code: string)
    requires IsCode(code)
    ensures 0 <= ParseDecimal(code) - CodeBase < CodeSpan
    ensures GenerateOtp(ParseDecimal(code) - CodeBase) == code
  {
    ParseBounds(code);
    ToDecimalParse(code);
  }
}
