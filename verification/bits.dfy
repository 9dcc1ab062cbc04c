/**
  Bitwise operations on the unsigned bit patterns of 64-bit integers.

  A pattern is a natural number below 2^64; bit i of a pattern x is (x / 2^i) % 2.
  The PHP operators `&`, `^` and `<<` on (signed) 64-bit integers act on exactly
  these patterns.
 */
module Bits {

  const TWO64: int := 0x1_0000_0000_0000_0000

  function Pow2(k: nat): (r: nat)
    ensures r > 0
  {
    if k == 0 then 1 else 2 * Pow2(k - 1)
  }

  /** Bitwise AND, defined bit by bit from the least significant bit. */
  function BitAnd(x: nat, y: nat): nat
    decreases x
  {
    if x == 0 || y == 0 then 0
    else 2 * BitAnd(x / 2, y / 2) + (if x % 2 == 1 && y % 2 == 1 then 1 else 0)
  }

  /** Bitwise exclusive OR, defined bit by bit from the least significant bit. */
  function BitXor(x: nat, y: nat): nat
    decreases x + y
  {
    if x == 0 && y == 0 then 0
    else 2 * BitXor(x / 2, y / 2) + (if x % 2 != y % 2 then 1 else 0)
  }

  /** `u << 1` on a 64-bit pattern: the top bit falls off. */
  function ShiftLeft1(u: nat): (r: nat)
    ensures r < TWO64
    ensures u < TWO64 ==> r == if 2 * u < TWO64 then 2 * u else 2 * u - TWO64
  {
    (2 * u) % TWO64
  }

  /** The k lowest bits of x are all clear. */
  predicate LowZeros(x: nat, k: nat)
  {
    k == 0 || (x % 2 == 0 && LowZeros(x / 2, k - 1))
  }

  lemma Pow2At64()
    ensures Pow2(64) == TWO64
  {
    assert Pow2(8) == 256;
    assert Pow2(16) == 256 * Pow2(8) by { Pow2Shift(8, 8); }
    assert Pow2(32) == 65536 * Pow2(16) by { Pow2Shift(16, 16); }
    assert Pow2(64) == 0x1_0000_0000 * Pow2(32) by { Pow2Shift(32, 32); }
  }

  lemma {:induction false} Pow2Shift(i: nat, j: nat)
    ensures Pow2(i + j) == Pow2(i) * Pow2(j)
    decreases i
  {
    if i > 0 {
      Pow2Shift(i - 1, j);
    }
  }

  /** The half adder identity behind the carry-ripple loop: XOR is the sum
      without carries, AND marks the positions that carry. */
  lemma {:induction false} XorPlusCarry(x: nat, y: nat)
    ensures BitXor(x, y) + 2 * BitAnd(x, y) == x + y
    decreases x + y
  {
    if x == 0 && y == 0 {
    } else if x == 0 || y == 0 {
      XorPlusCarry(x / 2, y / 2);
      assert BitAnd(x / 2, y / 2) == 0;
    } else {
      XorPlusCarry(x / 2, y / 2);
    }
  }

  lemma {:induction false} XorZero(x: nat)
    ensures BitXor(x, 0) == x
    decreases x
  {
    if x != 0 {
      XorZero(x / 2);
    }
  }

  /** Two patterns XOR to zero exactly when they are equal. */
  lemma {:induction false} XorSelf(x: nat, y: nat)
    ensures BitXor(x, y) == 0 <==> x == y
    decreases x + y
  {
    if x != 0 || y != 0 {
      XorSelf(x / 2, y / 2);
    }
  }

  /** XOR of two k-bit patterns is a k-bit pattern. */
  lemma {:induction false} XorBound(x: nat, y: nat, k: nat)
    requires x < Pow2(k) && y < Pow2(k)
    ensures BitXor(x, y) < Pow2(k)
    decreases k
  {
    if x == 0 && y == 0 {
    } else {
      XorBound(x / 2, y / 2, k - 1);
    }
  }

  /** AND never sets a bit that is clear in either operand. */
  lemma {:induction false} AndBound(x: nat, y: nat)
    ensures BitAnd(x, y) <= x && BitAnd(x, y) <= y
    decreases x
  {
    if x != 0 && y != 0 {
      AndBound(x / 2, y / 2);
    }
  }

  /** The low zero bits of y stay zero in x & y. */
  lemma {:induction false} AndKeepsLowZeros(x: nat, y: nat, k: nat)
    requires LowZeros(y, k)
    ensures LowZeros(BitAnd(x, y), k)
    decreases k
  {
    if k > 0 && x != 0 && y != 0 {
      AndKeepsLowZeros(x / 2, y / 2, k - 1);
      assert BitAnd(x, y) / 2 == BitAnd(x / 2, y / 2);
    } else if k > 0 {
      LowZerosOfZero(k);
    }
  }

  lemma {:induction false} LowZerosOfZero(k: nat)
    ensures LowZeros(0, k)
    decreases k
  {
    if k > 0 {
      LowZerosOfZero(k - 1);
    }
  }

  lemma {:induction false} LowZerosOfPow2(m: nat, k: nat)
    requires k <= m
    ensures LowZeros(Pow2(m), k)
    decreases k
  {
    if k > 0 {
      LowZerosOfPow2(m - 1, k - 1);
    }
  }

  lemma {:induction false} LowZerosOfDifference(a: nat, b: nat, k: nat)
    requires a >= b && LowZeros(a, k) && LowZeros(b, k)
    ensures LowZeros(a - b, k)
    decreases k
  {
    if k > 0 {
      LowZerosOfDifference(a / 2, b / 2, k - 1);
      assert (a - b) / 2 == a / 2 - b / 2;
    }
  }

  /** Shifting a 64-bit pattern left by one adds one more low zero bit,
      also when its top bit is discarded. */
  lemma ShiftAddsLowZero(c: nat, k: nat)
    requires c < TWO64 && k < 64
    requires LowZeros(c, k)
    ensures LowZeros(ShiftLeft1(c), k + 1)
  {
    if 2 * c < TWO64 {
      assert ShiftLeft1(c) == 2 * c;
      assert (2 * c) / 2 == c;
    } else {
      assert ShiftLeft1(c) == 2 * c - TWO64;
      Pow2At64();
      assert Pow2(63) == TWO64 / 2;
      LowZerosOfPow2(63, k);
      LowZerosOfDifference(c, Pow2(63), k);
      assert ShiftLeft1(c) / 2 == c - Pow2(63);
    }
  }

  /** A k-bit pattern whose k low bits are clear is zero. */
  lemma {:induction false} LowZerosBelowPow2(y: nat, k: nat)
    requires y < Pow2(k) && LowZeros(y, k)
    ensures y == 0
    decreases k
  {
    if k > 0 {
      LowZerosBelowPow2(y / 2, k - 1);
    }
  }
}
