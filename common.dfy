/** Small helpers shared by every model in this project. */
module Wrappers {

  /** A value that may be absent: Python's None, C's NULL pointer. */
  datatype Option<T> = None | Some(value: T)

  /** Kernel error numbers (include/uapi/asm-generic/errno-base.h and errno.h). */
  const EPERM: int := 1
  const ENOENT: int := 2
  const E2BIG: int := 7
  const ENOMEM: int := 12
  const EFAULT: int := 14
  const EBUSY: int := 16
  const EEXIST: int := 17
  const EINVAL: int := 22
  const ENOSPC: int := 28
  const ERANGE: int := 34
  const EADDRINUSE: int := 98

  /** Unsigned machine-word ranges. */
  const U8: int := 0x100
  const U16: int := 0x1_0000
  const U32: int := 0x1_0000_0000
  const U64: int := 0x1_0000_0000_0000_0000

  predicate IsU32(x: int) { 0 <= x < U32 }
  predicate IsU64(x: int) { 0 <= x < U64 }

  /** Truncation of an integer to an unsigned 32-bit value (C's (u32) cast). */
  function ToU32(x: int): (r: int)
    ensures 0 <= r < U32
    ensures (r - x) % U32 == 0
  {
    x % U32
  }

  /** Reading a 32-bit value as the C type s32 (two's complement). */
  function ToS32(x: int): (r: int)
    requires 0 <= x < U32
    ensures -0x8000_0000 <= r < 0x8000_0000
    ensures (r - x) % U32 == 0
  {
    if x < 0x8000_0000 then x else x - U32
  }

  /** Reading a 64-bit value as the C type s64 (two's complement). */
  function ToS64(x: int): (r: int)
    requires 0 <= x < U64
    ensures -0x8000_0000_0000_0000 <= r < 0x8000_0000_0000_0000
    ensures (r - x) % U64 == 0
  {
    if x < 0x8000_0000_0000_0000 then x else x - U64
  }

  /** 2^n, the value of BIT(n) and of 1 << n. */
  function Pow2(n: nat): (r: nat)
    ensures r > 0
  {
    if n == 0 then 1 else 2 * Pow2(n - 1)
  }

  /** Bit b of x: (x >> b) & 1. */
  function Bit(x: nat, b: nat): bool {
    (x / Pow2(b)) % 2 == 1
  }

  function Min(a: int, b: int): (r: int)
    ensures r <= a && r <= b && (r == a || r == b)
  {
    if a <= b then a else b
  }

  function Max(a: int, b: int): (r: int)
    ensures r >= a && r >= b && (r == a || r == b)
  {
    if a >= b then a else b
  }

  // Steps of non-linear arithmetic the solver does not take unaided.

  lemma MulMono(a: int, b: int, m: int)
    requires a <= b && m >= 0
    ensures a * m <= b * m && m * a <= m * b
  {
  }

  lemma MulNonneg(a: nat, b: nat)
    ensures a * b >= 0
  {
  }

  lemma DivBounds(x: int, d: int)
    requires d > 0
    ensures (x / d) * d <= x < (x / d) * d + d
  {
  }

  lemma MulDiv(k: int, d: int)
    requires d > 0
    ensures (k * d) / d == k
  {
    DivBounds(k * d, d);
    var q := (k * d) / d;
    if q < k {
      MulMono(q + 1, k, d);
    } else if q > k {
      MulMono(k + 1, q, d);
    }
  }

  lemma DivMono(x: int, y: int, d: int)
    requires d > 0 && x <= y
    ensures x / d <= y / d
  {
    DivBounds(x, d);
    DivBounds(y, d);
    if x / d > y / d {
      MulMono(y / d + 1, x / d, d);
    }
  }

  /** (a * d + b) / d == a + b / d for non-negative b. */
  lemma DivAddMul(a: int, b: int, d: int)
    requires d > 0 && b >= 0
    ensures (a * d + b) / d == a + b / d
  {
    DivBounds(b, d);
    var q := a + b / d;
    assert q * d <= a * d + b < q * d + d;
    DivBounds(a * d + b, d);
    var q' := (a * d + b) / d;
    if q' < q {
      MulMono(q' + 1, q, d);
    } else if q' > q {
      MulMono(q + 1, q', d);
    }
  }

  /** A quotient and remainder pair that fits is the one division gives. */
  lemma DivModUnique(x: int, d: int, q: int, r: int)
    requires d > 0 && 0 <= r < d && x == q * d + r
    ensures x / d == q && x % d == r
  {
    DivBounds(x, d);
    if x / d < q {
      MulMono(x / d + 1, q, d);
    } else if x / d > q {
      MulMono(q + 1, x / d, d);
    }
  }

  // printf conversions of unsigned values.

  /** Truncating a value that fits in 32 bits leaves it alone. */
  lemma ToU32Fits(x: int)
    requires 0 <= x < U32
    ensures ToU32(x) == x
  {
    DivModUnique(x, U32, 0, x);
  }

  /** Truncation ignores whole multiples of 2^32. */
  lemma ToU32Shift(x: int, k: int)
    ensures ToU32(x + k * U32) == ToU32(x)
  {
    DivModUnique(x + k * U32, U32, x / U32 + k, x % U32);
  }

  /** Subtracting truncated values truncates like the plain difference. */
  lemma ToU32Sub(a: int, b: int)
    ensures ToU32(ToU32(a) - ToU32(b)) == ToU32(a - b)
  {
    assert ToU32(a) - ToU32(b) == (a - b) + (b / U32 - a / U32) * U32;
    ToU32Shift(a - b, b / U32 - a / U32);
  }

  /** "%u" (and "%d" of a non-negative value): the decimal digits of n. */
  function Decimal(n: nat): (r: seq<char>)
    ensures |r| > 0 && forall i :: 0 <= i < |r| ==> '0' <= r[i] <= '9'
  {
    if n < 10 then [(48 + n) as char] else Decimal(n / 10) + [(48 + n % 10) as char]
  }

  /** The value of a string of decimal digits. */
  function DigitsValue(s: seq<char>): nat
    requires forall i :: 0 <= i < |s| ==> '0' <= s[i] <= '9'
  {
    if |s| == 0 then 0 else 10 * DigitsValue(s[..|s| - 1]) + (s[|s| - 1] as int - 48)
  }

  /** Decimal writes the number it is given. */
  lemma {:induction false} DecimalValue(n: nat)
    ensures DigitsValue(Decimal(n)) == n
  {
    if n >= 10 {
      DecimalValue(n / 10);
      var d := Decimal(n / 10) + [(48 + n % 10) as char];
      assert d[..|d| - 1] == Decimal(n / 10);
    }
  }

  /** "%x": the lower-case hexadecimal digits of n. */
  function HexText(n: nat): (r: seq<char>)
    ensures |r| > 0 && forall i :: 0 <= i < |r| ==> IsHexDigit(r[i])
  {
    if n < 16 then [HexDigit(n)] else HexText(n / 16) + [HexDigit(n % 16)]
  }

  predicate IsHexDigit(c: char) {
    '0' <= c <= '9' || 'a' <= c <= 'f'
  }

  function HexDigit(d: nat): (c: char)
    requires d < 16
    ensures IsHexDigit(c)
  {
    if d < 10 then (48 + d) as char else (87 + d) as char
  }

  /** The value of one hexadecimal digit. */
  function HexDigitValue(c: char): (v: nat)
    requires IsHexDigit(c)
    ensures v < 16
  {
    if c <= '9' then c as int - 48 else c as int - 87
  }

  /** The value of a string of hexadecimal digits. */
  function HexDigitsValue(s: seq<char>): nat
    requires forall i :: 0 <= i < |s| ==> IsHexDigit(s[i])
  {
    if |s| == 0 then 0 else 16 * HexDigitsValue(s[..|s| - 1]) + HexDigitValue(s[|s| - 1])
  }

  /** HexText writes the number it is given. */
  lemma {:induction false} HexValue(n: nat)
    ensures HexDigitsValue(HexText(n)) == n
  {
    if n >= 16 {
      HexValue(n / 16);
      var d := HexText(n / 16) + [HexDigit(n % 16)];
      assert d[..|d| - 1] == HexText(n / 16);
    }
  }
}
