/**
 * The fixed-width integers and truncating conversions of C#, written out over Dafny's
 * unbounded `int`: unchecked `int` arithmetic wraps to 32 bits, `/` on `int` truncates
 * toward zero, and the `(int)` cast of a `decimal` truncates toward zero and throws
 * when the truncated value does not fit.
 */
module Numerics {
  import opened Wrappers

  const INT32_MIN: int := -0x8000_0000
  const INT32_MAX: int := 0x7FFF_FFFF
  const INT64_MIN: int := -0x8000_0000_0000_0000
  const INT64_MAX: int := 0x7FFF_FFFF_FFFF_FFFF

  /** C# `int` (System.Int32). */
  type Int32 = x: int | -0x8000_0000 <= x <= 0x7FFF_FFFF

  /** C# `long` (System.Int64). */
  type Int64 = x: int | -0x8000_0000_0000_0000 <= x <= 0x7FFF_FFFF_FFFF_FFFF

  function Abs(x: int): (r: nat)
    ensures r == x || r == -x
  {
    if x < 0 then -x else x
  }

  function AbsReal(x: real): (r: real)
    ensures r >= 0.0 && (r == x || r == -x)
  {
    if x < 0.0 then -x else x
  }

  /**
   * The result of unchecked 32-bit arithmetic on a mathematical value: the unique `int`
   * congruent to `x` modulo 2^32.
   */
  function Wrap32(x: int): (r: Int32)
    ensures (x - r) % 0x1_0000_0000 == 0
    ensures INT32_MIN <= x <= INT32_MAX ==> r == x
  {
    (x + 0x8000_0000) % 0x1_0000_0000 - 0x8000_0000
  }

  /** Two values congruent modulo 2^32 wrap to the same `int`. */
  lemma Wrap32Congruent(x: int, y: int)
    requires (x - y) % 0x1_0000_0000 == 0
    ensures Wrap32(x) == Wrap32(y)
  {
    var k := (x - y) / 0x1_0000_0000;
    assert x - y == k * 0x1_0000_0000;
    ModShift(x + 0x8000_0000, k);
  }

  lemma ModShift(n: int, k: int)
    ensures (n - k * 0x1_0000_0000) % 0x1_0000_0000 == n % 0x1_0000_0000
  {
  }

  /** Unchecked addition of two wrapped values wraps to the wrapped exact sum. */
  lemma Wrap32Sum(x: int, y: int)
    ensures Wrap32(Wrap32(x) + Wrap32(y)) == Wrap32(x + y)
  {
    var kx := (x - Wrap32(x)) / 0x1_0000_0000;
    var ky := (y - Wrap32(y)) / 0x1_0000_0000;
    assert x - Wrap32(x) == kx * 0x1_0000_0000;
    assert y - Wrap32(y) == ky * 0x1_0000_0000;
    assert (x + y) - (Wrap32(x) + Wrap32(y)) == (kx + ky) * 0x1_0000_0000;
    ModShift(0, -(kx + ky));
    Wrap32Congruent(x + y, Wrap32(x) + Wrap32(y));
  }

  /** C# `a / b` on `int`: the quotient rounded toward zero. */
  function TruncDiv(a: int, b: int): (q: int)
    requires b != 0
    ensures TruncRemainder(a, b, q)
  {
    if a >= 0 then
      if b > 0 then RemNonNegPos(a, b); a / b
      else RemNonNegNeg(a, b); -(a / -b)
    else
      if b > 0 then RemNegPos(a, b); -(-a / b)
      else RemNegNeg(a, b); -a / -b
  }

  /**
   * `q` is the truncated quotient of `a` by `b`: the remainder it leaves is smaller than the
   * divisor and is zero or has the dividend's sign.
   */
  predicate TruncRemainder(a: int, b: int, q: int)
  {
    Abs(a - q * b) < Abs(b) && (a - q * b == 0 || (a - q * b > 0 <==> a > 0))
  }

  /** What Euclidean division leaves over for a natural dividend. */
  lemma DivRemainder(n: int, d: int)
    requires 0 <= n && 0 < d
    ensures 0 <= n - (n / d) * d < d
  {
  }

  lemma NegateFactor(x: int, y: int)
    ensures (-x) * y == -(x * y) && x * (-y) == -(x * y)
  {
  }

  /** The remainder of the truncated quotient, one lemma per pair of signs. */
  lemma RemNonNegPos(a: int, b: int)
    requires a >= 0 && b > 0
    ensures TruncRemainder(a, b, a / b)
  {
    DivRemainder(a, b);
  }

  lemma RemNonNegNeg(a: int, b: int)
    requires a >= 0 && b < 0
    ensures TruncRemainder(a, b, -(a / -b))
  {
    var m := a / -b;
    DivRemainder(a, -b);
    NegateFactor(m, b);
    assert 0 <= a - (-m) * b < -b;
  }

  lemma RemNegPos(a: int, b: int)
    requires a < 0 && b > 0
    ensures TruncRemainder(a, b, -(-a / b))
  {
    var m := -a / b;
    DivRemainder(-a, b);
    NegateFactor(m, b);
    assert -b < a - (-m) * b <= 0;
  }

  lemma RemNegNeg(a: int, b: int)
    requires a < 0 && b < 0
    ensures TruncRemainder(a, b, -a / -b)
  {
    var m := -a / -b;
    DivRemainder(-a, -b);
    NegateFactor(m, b);
    assert b < a - m * b <= 0;
  }

  /** For 0 <= a <= b, a quotient truncated toward zero is 1 when a == b and 0 otherwise. */
  lemma TruncDivOfNatural(a: int, b: int)
    requires 0 <= a <= b && 0 < b
    ensures TruncDiv(a, b) == if a == b then 1 else 0
  {
    assert TruncDiv(a, b) == a / b;
    if a == b {
      DivSelf(b);
    } else {
      DivSmall(a, b);
    }
  }

  lemma DivSelf(b: int)
    requires 0 < b
    ensures b / b == 1
  {
  }

  lemma DivSmall(a: int, b: int)
    requires 0 <= a < b
    ensures a / b == 0
  {
  }

  /** The `(int)` and `(long)` casts of a `decimal`: truncation toward zero. */
  function TruncReal(x: real): (r: int)
    ensures AbsReal(r as real) <= AbsReal(x) < AbsReal(r as real) + 1.0
    ensures r == 0 || (r > 0 <==> x > 0.0)
  {
    if x >= 0.0 then x.Floor else -((-x).Floor)
  }

  /** `(int)` of a `decimal`: throws OverflowException when the truncated value is not an Int32. */
  function DecimalToInt32(x: real): (r: Option<Int32>)
    ensures r.Some? <==> INT32_MIN <= TruncReal(x) <= INT32_MAX
    ensures r.Some? ==> r.value == TruncReal(x)
  {
    var t := TruncReal(x);
    if INT32_MIN <= t <= INT32_MAX then Some(t) else None
  }
}
