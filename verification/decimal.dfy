/** Decimal digit strings: Go's `strconv.Itoa` rendering, the syntax that
    `strconv.Atoi` accepts, and the `int(uint64)` conversion the source
    applies before rendering ids. Integers are unbounded here; the 64-bit
    limits are written out. */
module Decimal {

  const INT64_MIN: int := -0x8000_0000_0000_0000
  const INT64_MAX: int := 0x7FFF_FFFF_FFFF_FFFF
  const TWO_POW_64: int := 0x1_0000_0000_0000_0000

  type Uint64 = x: int | 0 <= x < TWO_POW_64

  predicate InInt64(n: int) {
    INT64_MIN <= n <= INT64_MAX
  }

  predicate IsDigit(c: char) {
    '0' <= c <= '9'
  }

  predicate AllDigits(s: string) {
    forall i :: 0 <= i < |s| ==> IsDigit(s[i])
  }

  function DigitChar(d: nat): (c: char)
    requires d < 10
    ensures IsDigit(c)
  {
    ('0' as int + d) as char
  }

  function DigitValue(c: char): (d: nat)
    requires IsDigit(c)
    ensures d < 10
  {
    c as int - '0' as int
  }

  /** The number a string of decimal digits denotes, most significant digit first. */
  function DigitsValue(s: string): nat
    requires AllDigits(s)
  {
    if |s| == 0 then 0 else DigitsValue(s[..|s| - 1]) * 10 + DigitValue(s[|s| - 1])
  }

  /** `strconv.Itoa` of a non-negative number: no sign, no leading zero. */
  function NatToDecimal(n: nat): (s: string)
    ensures |s| > 0 && AllDigits(s)
    ensures s[0] == '0' <==> n == 0
  {
    if n < 10 then [DigitChar(n)] else NatToDecimal(n / 10) + [DigitChar(n % 10)]
  }

  /** `strconv.Itoa`: a minus sign for negative numbers, then the digits. */
  function IntToDecimal(n: int): string
  {
    if n < 0 then "-" + NatToDecimal(-n) else NatToDecimal(n)
  }

  /** Go's `int(u)` for a `uint64` on a 64-bit platform: two's-complement
      reinterpretation, so values at or above 2^63 become negative. */
  function Uint64ToInt(u: Uint64): (n: int)
    ensures InInt64(n)
    ensures n % TWO_POW_64 == u
  {
    if u <= INT64_MAX then u else u - TWO_POW_64
  }

  /** The syntax `strconv.Atoi` accepts (base 10, no underscores):
      an optional sign followed by one or more decimal digits. */
  predicate IsAtoiSyntax(s: string) {
    if |s| > 0 && (s[0] == '-' || s[0] == '+') then |s| > 1 && AllDigits(s[1..])
    else |s| > 0 && AllDigits(s)
  }

  /** The value of a string in `IsAtoiSyntax`, before the int64 range check. */
  function SignedValue(s: string): int
    requires IsAtoiSyntax(s)
  {
    if s[0] == '-' then -(DigitsValue(s[1..]) as int)
    else if s[0] == '+' then DigitsValue(s[1..])
    else DigitsValue(s)
  }

  /** Reading back a rendered natural number gives the number. */
  lemma {:induction false} NatToDecimalRoundTrip(n: nat)
    ensures DigitsValue(NatToDecimal(n)) == n
  {
    if n >= 10 {
      var s := NatToDecimal(n);
      NatToDecimalRoundTrip(n / 10);
      assert s[..|s| - 1] == NatToDecimal(n / 10);
    }
  }

  /** Every `Itoa` rendering is `Atoi` syntax and reads back as the same number. */
  lemma IntToDecimalRoundTrip(n: int)
    ensures IsAtoiSyntax(IntToDecimal(n))
    ensures SignedValue(IntToDecimal(n)) == n
  {
    if n < 0 {
      var s := IntToDecimal(n);
      NatToDecimalRoundTrip(-n);
      assert s[1..] == NatToDecimal(-n);
    } else {
      NatToDecimalRoundTrip(n);
    }
  }

  /** Distinct numbers render differently. */
  lemma IntToDecimalInjective(a: int, b: int)
    requires IntToDecimal(a) == IntToDecimal(b)
    ensures a == b
  {
    IntToDecimalRoundTrip(a);
    IntToDecimalRoundTrip(b);
  }

  /** The `int(uint64)` reinterpretation loses no information on 64-bit values. */
  lemma Uint64ToIntInjective(a: Uint64, b: Uint64)
    requires Uint64ToInt(a) == Uint64ToInt(b)
    ensures a == b
  {
  }

  /** Left-pads with zeros to `width` characters. */
  function PadZeros(s: string, width: nat): (r: string)
    ensures |r| == if |s| >= width then |s| else width
    ensures r[|r| - |s|..] == s
  {
    if |s| >= width then s else seq(width - |s|, _ => '0') + s
  }
}
