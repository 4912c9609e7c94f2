/**
  The Java `long` arithmetic and decimal rendering behind automatic task ids:
  `++lastId` on a 64-bit two's-complement counter and `String.valueOf(long)`.
 */
module Longs {

  const LONG_MIN: int := -0x8000_0000_0000_0000
  const LONG_MAX: int := 0x7FFF_FFFF_FFFF_FFFF
  const TWO_TO_64: int := 0x1_0000_0000_0000_0000

  /** The values of a Java `long`. */
  type Long = n: int | LONG_MIN <= n <= LONG_MAX

  /**
    Java's `n + 1` on a `long`: the unique `long` congruent to `n + 1`
    modulo 2^64, which is `n + 1` itself below the maximum and wraps to the
    minimum at it.
   */
  function Increment(n: Long): (r: Long)
    ensures (r - (n + 1)) % TWO_TO_64 == 0
  {
    if n == LONG_MAX then LONG_MIN else n + 1
  }

  /** Below the maximum, incrementing a `long` adds one; at the maximum it wraps to the minimum. */
  lemma IncrementBelowMax(n: Long)
    ensures n < LONG_MAX ==> Increment(n) == n + 1
    ensures n == LONG_MAX ==> Increment(n) == LONG_MIN
  {
    var r := Increment(n);
    assert (r - (n + 1)) % TWO_TO_64 == 0;
  }

  // ---------------------------------------------------------------------------
  // String.valueOf(long)
  // ---------------------------------------------------------------------------

  predicate IsDigit(c: char) {
    '0' <= c <= '9'
  }

  predicate AllDigits(s: string) {
    forall i :: 0 <= i < |s| ==> IsDigit(s[i])
  }

  function DigitChar(d: nat): (c: char)
    requires d < 10
    ensures IsDigit(c)
  {
    (d + '0' as int) as char
  }

  function DigitValue(c: char): (d: nat)
    requires IsDigit(c)
    ensures d < 10
  {
    c as int - '0' as int
  }

  /** Decimal digits of `n`, most significant first, without leading zeros. */
  function NatToString(n: nat): (r: string)
    ensures |r| >= 1 && AllDigits(r)
    ensures r[0] == '0' ==> n == 0
  {
    if n < 10 then [DigitChar(n)] else NatToString(n / 10) + [DigitChar(n % 10)]
  }

  /** `String.valueOf(n)`: a minus sign for negative values, then the digits of the magnitude. */
  function LongToString(n: int): (r: string)
    ensures |r| >= 1
    ensures n >= 0 ==> AllDigits(r) && (r[0] == '0' ==> r == "0")
    ensures n < 0 ==> r[0] == '-' && |r| >= 2 && AllDigits(r[1..]) && r[1] != '0'
  {
    if n < 0 then "-" + NatToString(-n) else NatToString(n)
  }

  /** The value of a string of decimal digits (`Long.parseLong` on its own output). */
  function ParseDigits(s: string): nat
    requires AllDigits(s)
  {
    if s == [] then 0 else ParseDigits(s[..|s| - 1]) * 10 + DigitValue(s[|s| - 1])
  }

  /** Reads back what `LongToString` writes: an optional minus sign followed by digits. */
  function ParseLong(s: string): int
    requires |s| >= 1
    requires AllDigits(s) || (s[0] == '-' && AllDigits(s[1..]))
  {
    if s[0] == '-' then 0 - ParseDigits(s[1..]) else ParseDigits(s)
  }

  /** Reading back the digits of `n` yields `n`. */
  lemma {:induction false} NatToStringRoundTrip(n: nat)
    ensures ParseDigits(NatToString(n)) == n
  {
    if n >= 10 {
      var r := NatToString(n);
      NatToStringRoundTrip(n / 10);
      assert r[..|r| - 1] == NatToString(n / 10);
    }
  }

  /** `String.valueOf(long)` can be read back, so it loses no information. */
  lemma LongToStringRoundTrip(n: int)
    ensures var s := LongToString(n);
      |s| >= 1 && (AllDigits(s) || (s[0] == '-' && AllDigits(s[1..]))) && ParseLong(s) == n
  {
    if n < 0 {
      NatToStringRoundTrip(-n);
      assert LongToString(n)[1..] == NatToString(-n);
    } else {
      NatToStringRoundTrip(n);
    }
  }

  /** Different counter values are rendered as different ids. */
  lemma LongToStringInjective(m: int, n: int)
    requires LongToString(m) == LongToString(n)
    ensures m == n
  {
    LongToStringRoundTrip(m);
    LongToStringRoundTrip(n);
  }
}
