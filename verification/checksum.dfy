/**
 * The Internet checksum of RFC 1071: the ones'-complement sum of 16-bit
 * fields. `OnesSum` is the reference definition, adding field by field
 * with an end-around carry; `Fold` is the shortcut the C code takes, which
 * adds everything in a wide accumulator and then folds the carries back
 * into the low 16 bits.
 */
module Checksum {
  import opened Bits

  const FieldModulus: int := 0x10000

  /** Every element is a 16-bit field. */
  predicate Fields16(xs: seq<int>)
  {
    forall i :: 0 <= i < |xs| ==> 0 <= xs[i] < FieldModulus
  }

  /** Ordinary integer sum. */
  function Sum(xs: seq<int>): (r: int)
    ensures Fields16(xs) ==> 0 <= r
  {
    if |xs| == 0 then 0 else xs[0] + Sum(xs[1..])
  }

  lemma Sum4(a: int, b: int, c: int, d: int)
    ensures Sum([a, b, c, d]) == a + b + c + d
  {
    assert [a, b, c, d][1..] == [b, c, d];
    assert [b, c, d][1..] == [c, d];
    assert [c, d][1..] == [d];
    assert [d][1..] == [];
    assert Sum([d]) == d;
    assert Sum([c, d]) == c + d;
    assert Sum([b, c, d]) == b + c + d;
  }

  /** Ones'-complement addition of two 16-bit fields: a carry out of bit 15 is added back in. */
  function OnesAdd(a: int, b: int): int
  {
    if a + b > 0xFFFF then a + b - 0xFFFF else a + b
  }

  /** Ones'-complement sum of 16-bit fields, the reference definition of section 1 of RFC 1071. */
  function OnesSum(xs: seq<int>): (r: int)
    requires Fields16(xs)
    ensures 0 <= r <= 0xFFFF
  {
    if |xs| == 0 then 0 else OnesAdd(xs[0], OnesSum(xs[1..]))
  }

  /** How many end-around carries `OnesSum` performs. */
  function Carries(xs: seq<int>): nat
    requires Fields16(xs)
  {
    if |xs| == 0 then 0
    else Carries(xs[1..]) + (if xs[0] + OnesSum(xs[1..]) > 0xFFFF then 1 else 0)
  }

  /**
   * The ones'-complement sum differs from the integer sum by a multiple of
   * 0xFFFF (one per end-around carry), and it is zero only for an all-zero
   * input.
   */
  lemma {:induction false} OnesSumResidue(xs: seq<int>)
    requires Fields16(xs)
    ensures Sum(xs) == OnesSum(xs) + 0xFFFF * Carries(xs)
    ensures OnesSum(xs) == 0 <==> Sum(xs) == 0
  {
    if |xs| > 0 {
      assert Fields16(xs[1..]) by {
        assert forall i :: 0 <= i < |xs[1..]| ==> xs[1..][i] == xs[i + 1];
      }
      OnesSumResidue(xs[1..]);
    }
  }

  /** One fold: the bits above 16 are added into the low 16. */
  function Fold(s: nat): (f: nat)
    ensures f <= s
    ensures s - f == 0xFFFF * (s / FieldModulus)
    ensures f == 0 <==> s == 0
  {
    s / FieldModulus + s % FieldModulus
  }

  /** Two values in 1..0xFFFF that differ by a multiple of 0xFFFF are equal. */
  lemma SameResidue(a: int, b: int, k: int)
    requires 1 <= a <= 0xFFFF && 1 <= b <= 0xFFFF
    requires a - b == 0xFFFF * k
    ensures a == b
  {
  }

  /**
   * Folding twice a sum accumulated in a 32-bit word yields exactly the
   * ones'-complement sum of the fields: the C shortcut agrees with the
   * reference definition.
   */
  lemma FoldTwiceIsOnesSum(xs: seq<int>)
    requires Fields16(xs) && Sum(xs) < WordModulus
    ensures Fold(Fold(Sum(xs))) == OnesSum(xs)
  {
    OnesSumResidue(xs);
    var s := Sum(xs);
    var f1 := Fold(s);
    var f := Fold(f1);
    assert f1 <= 0x1FFFE;
    assert f <= 0xFFFF;
    if s != 0 {
      assert s - f == 0xFFFF * (s / FieldModulus + f1 / FieldModulus);
      SameResidue(f, OnesSum(xs), Carries(xs) - s / FieldModulus - f1 / FieldModulus);
    }
  }

  /**
   * A ones'-complement sum of a positive multiple of 0xFFFF is 0xFFFF
   * ("minus zero"): this is what a receiver sees when a correct checksum
   * is included in the sum.
   */
  lemma MultipleSumsToMinusZero(xs: seq<int>, k: int)
    requires Fields16(xs) && k >= 1 && Sum(xs) == 0xFFFF * k
    ensures OnesSum(xs) == 0xFFFF
  {
    OnesSumResidue(xs);
    var r := OnesSum(xs);
    var m := k - Carries(xs);
    assert r == 0xFFFF * m;
  }
}
