/**
 * Unsigned 32-bit words as bounded integers. The C code works on ULONG and
 * UINT values; every wrap-around is written out with `Wrap`, shifts by a
 * multiple of 8 and masks of low bits are the division and remainder they
 * equal, and bitwise OR is defined bit by bit.
 */
module Bits {

  const WordModulus: int := 0x1_0000_0000

  /** A ULONG / UINT value. */
  type Word = x: int | 0 <= x < WordModulus

  /** Reduction modulo 2^32: what storing a C expression into a 32-bit variable does. */
  function Wrap(x: int): (w: Word)
    ensures 0 <= x < WordModulus ==> w == x
  {
    x % WordModulus
  }

  function Pow2(k: nat): (p: nat)
    ensures p >= 1
  {
    if k == 0 then 1 else 2 * Pow2(k - 1)
  }

  /** Bitwise inclusive OR of two non-negative integers. */
  function BitOr(a: nat, b: nat): nat
    decreases a + b
  {
    if a == 0 then b
    else if b == 0 then a
    else 2 * BitOr(a / 2, b / 2) + (if a % 2 == 1 || b % 2 == 1 then 1 else 0)
  }

  /** OR-ing two values below 2^k stays below 2^k. */
  lemma {:induction false} BitOrBound(a: nat, b: nat, k: nat)
    requires a < Pow2(k) && b < Pow2(k)
    ensures BitOr(a, b) < Pow2(k)
    decreases k
  {
    if a != 0 && b != 0 {
      assert k > 0;
      BitOrBound(a / 2, b / 2, k - 1);
    }
  }

  /** OR of two words is a word. */
  lemma WordBitOr(a: Word, b: Word)
    ensures BitOr(a, b) < WordModulus
  {
    assert Pow2(32) == WordModulus by { Pow2Values(); }
    BitOrBound(a, b, 32);
  }

  lemma Pow2Values()
    ensures Pow2(8) == 0x100 && Pow2(16) == 0x10000 && Pow2(32) == 0x1_0000_0000
  {
    assert Pow2(4) == 16;
    assert Pow2(8) == 0x100;
    assert Pow2(16) == 0x10000 by { Pow2Add(8, 8); }
    assert Pow2(32) == 0x1_0000_0000 by { Pow2Add(16, 16); }
  }

  lemma {:induction false} Pow2Add(i: nat, j: nat)
    ensures Pow2(i + j) == Pow2(i) * Pow2(j)
    decreases i
  {
    if i > 0 {
      Pow2Add(i - 1, j);
    }
  }

  /** The low k bits of `a` are all zero. */
  predicate LowBitsClear(a: nat, k: nat)
  {
    k == 0 || (a % 2 == 0 && LowBitsClear(a / 2, k - 1))
  }

  /** A multiple of 2^k has its low k bits clear. */
  lemma {:induction false} MultipleHasLowBitsClear(x: nat, k: nat)
    ensures LowBitsClear(x * Pow2(k), k)
    decreases k
  {
    if k > 0 {
      var y := x * Pow2(k - 1);
      assert x * Pow2(k) == 2 * y;
      MultipleHasLowBitsClear(x, k - 1);
    }
  }

  /**
   * When the low k bits of `a` are clear and `b` fits in them, OR is
   * addition: the bits do not overlap.
   */
  lemma {:induction false} BitOrDisjoint(a: nat, b: nat, k: nat)
    requires LowBitsClear(a, k) && b < Pow2(k)
    ensures BitOr(a, b) == a + b
    decreases k
  {
    if a != 0 && b != 0 {
      BitOrDisjoint(a / 2, b / 2, k - 1);
    }
  }

  /** OR-ing a 16-bit value into a word whose low half is zero is addition. */
  lemma OrIntoClearLowHalf(a: nat, b: nat)
    requires a % 0x10000 == 0 && b < 0x10000
    ensures BitOr(a, b) == a + b
  {
    Pow2Values();
    assert a == (a / 0x10000) * Pow2(16);
    MultipleHasLowBitsClear(a / 0x10000, 16);
    BitOrDisjoint(a, b, 16);
  }

  lemma DoubleProduct(v: nat, p: nat)
    ensures v * (2 * p) == 2 * (v * p)
  {
  }

  /**
   * OR commutes with a shift by k, and bits below 2^k in the second
   * operand pass through unchanged: (x << k) | ((y << k) + r) is
   * ((x | y) << k) + r when r < 2^k.
   */
  lemma {:induction false} BitOrShifted(x: nat, y: nat, r: nat, k: nat)
    requires r < Pow2(k)
    ensures BitOr(x * Pow2(k), y * Pow2(k) + r) == BitOr(x, y) * Pow2(k) + r
    decreases k
  {
    if k > 0 {
      var p := Pow2(k - 1);
      var a := x * Pow2(k);
      var b := y * Pow2(k) + r;
      assert a == 2 * (x * p);
      assert b == 2 * (y * p) + r;
      if a != 0 && b != 0 {
        assert a / 2 == x * p && a % 2 == 0;
        assert b / 2 == y * p + r / 2 && b % 2 == r % 2;
        BitOrShifted(x, y, r / 2, k - 1);
        DoubleProduct(BitOr(x, y), p);
      } else if a == 0 {
        assert x == 0;
      } else {
        assert y == 0 && r == 0;
      }
    }
  }
}
