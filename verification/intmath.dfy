/**
  Two's-complement 64-bit integer arithmetic (PHP's `Value\IntMath`).

  PHP integers are signed 64-bit values, but `+` and unary `-` silently turn
  into floats on overflow; the operations here give the wrapped result that a
  fixed-width machine integer would. `Wrap` is the reference reduction into
  [PHP_INT_MIN, PHP_INT_MAX]; the PHP algorithms are proved to agree with it.
 */
module IntMath {
  import opened Bits

  const MIN: int := -0x8000_0000_0000_0000
  const MAX: int := 0x7FFF_FFFF_FFFF_FFFF

  /** PHP's `int` on a 64-bit platform. */
  type Int64 = x: int | MIN <= x <= MAX

  /** The unique 64-bit value congruent to x modulo 2^64. */
  function Wrap(x: int): (r: Int64)
    ensures (r - x) % TWO64 == 0
    ensures MIN <= x <= MAX ==> r == x
  {
    (x - MIN) % TWO64 + MIN
  }

  /** Two integers that agree modulo 2^64 wrap to the same 64-bit value. */
  lemma WrapCongruent(x: int, y: int)
    requires (x - y) % TWO64 == 0
    ensures Wrap(x) == Wrap(y)
  {
    var q := (x - y) / TWO64;
    assert x - MIN == (y - MIN) + q * TWO64;
  }

  /** Multiplying by a constant commutes with the reduction. */
  lemma WrapScale(x: int, c: int)
    ensures Wrap(c * Wrap(x)) == Wrap(c * x)
  {
    var q := (Wrap(x) - x) / TWO64;
    assert Wrap(x) == x + q * TWO64;
    assert c * Wrap(x) - c * x == (c * q) * TWO64;
    WrapCongruent(c * Wrap(x), c * x);
  }

  /** The unsigned bit pattern of a 64-bit value. */
  function Unsigned(a: Int64): (u: nat)
    ensures u < TWO64 && (u - a) % TWO64 == 0
  {
    if a < 0 then a + TWO64 else a
  }

  /** Wrapping addition: what `add` returns. Exact whenever the true sum fits. */
  function Add(a: Int64, b: Int64): (r: Int64)
    ensures (r - (a + b)) % TWO64 == 0
    ensures MIN <= a + b <= MAX ==> r == a + b
  {
    Wrap(a + b)
  }

  /** `add` (functions.php): try the native sum; when it overflows into a
      float, add the two bit patterns with a carry-ripple loop instead. */
  method AddCarryRipple(a: Int64, b: Int64) returns (r: Int64)
    ensures r == Add(a, b)
  {
    var native := a + b;
    if MIN <= native <= MAX {
      return native;
    }
    var x: nat, y: nat := Unsigned(a), Unsigned(b);
    ghost var lost: int := (x - a) / TWO64 + (y - b) / TWO64;
    ghost var rounds: nat := 0;
    // `add`'s do-while: the body runs before the first test
    while true
      invariant x < TWO64 && y < TWO64
      invariant x + y == a + b + lost * TWO64
      invariant rounds <= 64 && LowZeros(y, rounds)
      invariant rounds > 0 ==> y != 0
      decreases 64 - rounds
    {
      var dropped := RippleStep(x, y, rounds);
      var carry := BitAnd(x, y);
      x := BitXor(x, y);
      y := ShiftLeft1(carry);
      lost := lost - dropped;
      rounds := rounds + 1;
      if y == 0 {
        break;
      }
    }
    WrapPeriodic(a + b, lost);
    r := Wrap(x);
  }

  /** One round of the carry-ripple loop keeps the sum up to the carry out of
      bit 63 (`dropped` times 2^64) and clears one more low bit of the carry;
      after 64 rounds the carry is gone. */
  lemma RippleStep(x: nat, y: nat, rounds: nat) returns (dropped: int)
    requires x < TWO64 && y < TWO64
    requires rounds <= 64 && LowZeros(y, rounds)
    requires rounds > 0 ==> y != 0
    ensures rounds < 64
    ensures BitXor(x, y) < TWO64
    ensures BitXor(x, y) + ShiftLeft1(BitAnd(x, y)) == x + y - dropped * TWO64
    ensures LowZeros(ShiftLeft1(BitAnd(x, y)), rounds + 1)
  {
    Pow2At64();
    if rounds == 64 {
      LowZerosBelowPow2(y, 64);
    }
    var carry := BitAnd(x, y);
    assert carry < TWO64 by {
      AndBound(x, y);
    }
    assert BitXor(x, y) < TWO64 by {
      XorBound(x, y, 64);
    }
    assert LowZeros(ShiftLeft1(carry), rounds + 1) by {
      AndKeepsLowZeros(x, y, rounds);
      ShiftAddsLowZero(carry, rounds);
    }
    XorPlusCarry(x, y);
    dropped := if 2 * carry < TWO64 then 0 else 1;
  }

  /** Adding a multiple of 2^64 does not change the wrapped value. */
  lemma WrapPeriodic(x: int, m: int)
    ensures Wrap(x + m * TWO64) == Wrap(x)
  {
    WrapCongruent(x + m * TWO64, x);
  }

  /** `negate`: two's-complement negation; PHP_INT_MIN is its own negation. */
  function Negate(a: Int64): (r: Int64)
    ensures r == Wrap(-(a as int))
    ensures a != MIN ==> r == -a
  {
    if a == MIN then a else -a
  }

  /** `$n << s`: the bits shifted above position 63 are discarded. */
  function ShiftLeft(n: Int64, s: nat): (r: Int64)
    requires s < 64
    ensures (r - n * Pow2(s)) % TWO64 == 0
  {
    Wrap(n * Pow2(s))
  }

  /** `multiplyBy31`: 31 * n as `(n << 5) - n`, wrapped to 64 bits. The PHP code
      adds n instead of subtracting it when n is PHP_INT_MIN, because `-n`
      would overflow there; both give the same 64-bit value. */
  function MultiplyBy31(n: Int64): (r: Int64)
    ensures r == Wrap(31 * n)
    ensures n == MIN ==> r == MIN
  {
    assert Pow2(5) == 32;
    var shifted := ShiftLeft(n, 5);
    if n == MIN then
      WrapCongruent(shifted + n, 31 * n);
      Add(shifted, n)
    else
      WrapCongruent(shifted - n, 31 * n);
      Add(shifted, -n)
  }

  /** Overflow at the top of the range wraps to the bottom. */
  lemma AddWrapsAtMax()
    ensures Add(MAX, 1) == MIN
    ensures Add(MIN, -1) == MAX
  {
  }
}
