/** Java's 32-bit `int`: its range, the two's-complement wrap-around of its
    arithmetic, and its remainder operator, which truncates toward zero. */
module Int32 {

  const MIN: int := -0x8000_0000
  const MAX: int := 0x7fff_ffff
  const MODULUS: int := 0x1_0000_0000

  newtype int32 = x: int | -0x8000_0000 <= x < 0x8000_0000

  /** The value Java's `int` arithmetic yields when the exact result is `x`:
      `x` reduced modulo 2^32 into the signed range. */
  function Wrap(x: int): (r: int32)
    ensures (r as int - x) % MODULUS == 0
    ensures MIN <= x <= MAX ==> r as int == x
  {
    ((x - MIN) % MODULUS + MIN) as int32
  }

  /** Java's `a - b` on two ints. */
  function Sub(a: int32, b: int32): (r: int32)
    ensures MIN <= a as int - b as int <= MAX ==> r as int == a as int - b as int
  {
    Wrap(a as int - b as int)
  }

  /** Two exact results that wrap to the same int differ by a multiple of 2^32;
      when they are closer than that, they are equal. */
  lemma WrapInjectiveNear(x: int, y: int)
    requires Wrap(x) == Wrap(y)
    requires -MODULUS < x - y < MODULUS
    ensures x == y
  {
    assert (x - y) % MODULUS == 0 by {
      assert (Wrap(x) as int - x) % MODULUS == 0;
      assert (Wrap(y) as int - y) % MODULUS == 0;
    }
  }

  /** Java's `a % b` for a positive divisor: the remainder of the division
      truncated toward zero, which takes the sign of the dividend. */
  function Rem(a: int, b: int): (r: int)
    requires b > 0
    ensures a >= 0 ==> 0 <= r < b && r == a % b
    ensures a < 0 ==> -b < r <= 0
    ensures r == 0 <==> a % b == 0
  {
    if a >= 0 then a % b
    else
      NegatedDivisible(a, b);
      -((-a) % b)
  }

  /** Divisibility does not depend on the sign of the dividend. */
  lemma NegatedDivisible(a: int, b: int)
    requires b > 0
    ensures (-a) % b == 0 <==> a % b == 0
  {
    if a % b == 0 {
      assert -a == b * -(a / b);
      MultipleRemainder(-a, b, -(a / b));
    }
    if (-a) % b == 0 {
      assert a == b * -((-a) / b);
      MultipleRemainder(a, b, -((-a) / b));
    }
  }

  lemma MultipleRemainder(x: int, b: int, k: int)
    requires b > 0 && x == b * k
    ensures x % b == 0
  {
    var q, r := x / b, x % b;
    assert x == b * q + r && 0 <= r < b;
    assert b * (k - q) == r by { assert b * k - b * q == b * (k - q); }
    if k - q >= 1 {
      MultiplyAtLeast(b, k - q);
      assert false;
    } else if k - q <= -1 {
      MultiplyAtLeast(b, q - k);
      assert false;
    }
  }

  lemma MultiplyAtLeast(b: int, c: int)
    requires b > 0 && c >= 1
    ensures b * c >= b && b * -c <= -b
  {
  }

  /** Quotient and remainder are determined by `x == c * q + r` with `0 <= r < c`. */
  lemma DivisionUnique(x: int, c: int, q: int, r: int)
    requires c > 0 && 0 <= r < c && x == c * q + r
    ensures x / c == q && x % c == r
  {
    var q', r' := x / c, x % c;
    assert c * (q - q') == r' - r by { assert c * q - c * q' == c * (q - q'); }
    if q - q' >= 1 {
      MultiplyAtLeast(c, q - q');
      assert false;
    } else if q - q' <= -1 {
      MultiplyAtLeast(c, q' - q);
      assert false;
    }
  }

  /** Stepping from `k - 1` to `k` raises the quotient by `c` exactly when `k`
      is a multiple of `c`. */
  lemma QuotientStep(k: int, c: int)
    requires c > 0
    ensures k / c - (k - 1) / c == if k % c == 0 then 1 else 0
  {
    var q, r := k / c, k % c;
    if r == 0 {
      DivisionUnique(k - 1, c, q - 1, c - 1);
    } else {
      DivisionUnique(k - 1, c, q, r - 1);
    }
  }
}
