/** Unsigned machine words as natural numbers: powers of two and the
    bitwise OR of C++'s unsigned types. */
module Bits {

  function Pow2(k: nat): (r: nat)
    ensures r > 0
  {
    if k == 0 then 1 else 2 * Pow2(k - 1)
  }

  const Word: nat := 0x1_0000_0000
  const DoubleWord: nat := 0x1_0000_0000_0000_0000

  /** A value below 2^32 is its own 32-bit truncation. */
  lemma SmallMod(a: nat)
    requires a < Word
    ensures a % Word == a
  {
  }

  lemma {:induction false} Pow2Add(a: nat, b: nat)
    ensures Pow2(a + b) == Pow2(a) * Pow2(b)
    decreases a
  {
    if a > 0 {
      Pow2Add(a - 1, b);
      assert Pow2(a + b) == 2 * Pow2(a - 1 + b);
    }
  }

  lemma Pow2Byte()
    ensures Pow2(7) == 0x80 && Pow2(8) == 0x100
  {
    assert Pow2(4) == 16;
  }

  lemma Pow2Fifteen()
    ensures Pow2(15) == 0x8000
  {
    Pow2Byte();
    Pow2Add(8, 7);
  }

  lemma Pow2ThirtyOne()
    ensures Pow2(31) == 0x8000_0000
  {
    Pow2Byte();
    Pow2Add(8, 8);
    Pow2Add(16, 8);
    Pow2Add(24, 7);
  }

  lemma Pow2Word()
    ensures Pow2(32) == Word
  {
    Pow2Byte();
    Pow2Add(8, 8);
    Pow2Add(16, 16);
  }

  lemma Pow2DoubleWord()
    ensures Pow2(64) == DoubleWord
  {
    Pow2Word();
    Pow2Add(32, 32);
  }

  /** x | y on unsigned values. */
  function BitOr(x: nat, y: nat): nat
    decreases x + y
  {
    if x == 0 then y
    else if y == 0 then x
    else 2 * BitOr(x / 2, y / 2) + (if x % 2 == 1 || y % 2 == 1 then 1 else 0)
  }

  /** x and y have no set bit in common. */
  predicate Disjoint(x: nat, y: nat)
    decreases x + y
  {
    x == 0 || y == 0 || ((x % 2 == 0 || y % 2 == 0) && Disjoint(x / 2, y / 2))
  }

  /** The OR of two values of k bits has k bits. */
  lemma {:induction false} BitOrBound(x: nat, y: nat, k: nat)
    requires x < Pow2(k) && y < Pow2(k)
    ensures BitOr(x, y) < Pow2(k)
    decreases x + y
  {
    if x != 0 && y != 0 {
      BitOrBound(x / 2, y / 2, k - 1);
    }
  }

  /** The OR of two 32-bit values is a 32-bit value. */
  lemma OrBelowWord(x: nat, y: nat)
    requires x < Word && y < Word
    ensures BitOr(x, y) < Word
  {
    Pow2Word();
    BitOrBound(x, y, 32);
  }

  /** The OR of two 64-bit values is a 64-bit value. */
  lemma OrBelowDoubleWord(x: nat, y: nat)
    requires x < DoubleWord && y < DoubleWord
    ensures BitOr(x, y) < DoubleWord
  {
    Pow2DoubleWord();
    BitOrBound(x, y, 64);
  }

  /** On values with no common bit, OR is addition. */
  lemma {:induction false} DisjointOr(x: nat, y: nat)
    requires Disjoint(x, y)
    ensures BitOr(x, y) == x + y
    decreases x + y
  {
    if x != 0 && y != 0 {
      DisjointOr(x / 2, y / 2);
    }
  }

  /** y << k on unbounded values. */
  function Shl(y: nat, k: nat): nat
  {
    if k == 0 then y else 2 * Shl(y, k - 1)
  }

  /** x >> k */
  function Shr(x: nat, k: nat): nat
  {
    if k == 0 then x else Shr(x / 2, k - 1)
  }

  lemma {:induction false} ShlIsMul(y: nat, k: nat)
    ensures Shl(y, k) == y * Pow2(k)
  {
    if k > 0 {
      ShlIsMul(y, k - 1);
      assert y * Pow2(k) == 2 * (y * Pow2(k - 1));
    }
  }

  lemma {:induction false} ShrSmall(x: nat, k: nat)
    requires x < Pow2(k)
    ensures Shr(x, k) == 0
  {
    if k > 0 {
      ShrSmall(x / 2, k - 1);
    }
  }

  /** A value shifted left by k has no bit in common with x when x's bits
      at k and above have none with the unshifted value. */
  lemma {:induction false} DisjointShifted(x: nat, y: nat, k: nat)
    requires Disjoint(Shr(x, k), y)
    ensures Disjoint(x, Shl(y, k))
  {
    if k > 0 && x != 0 {
      DisjointShifted(x / 2, y, k - 1);
      DisjointHalf(x, Shl(y, k - 1));
    }
  }

  /** Doubling y shifts its bits past x's lowest bit. */
  lemma DisjointHalf(x: nat, y: nat)
    requires Disjoint(x / 2, y)
    ensures Disjoint(x, 2 * y)
  {
    assert (2 * y) % 2 == 0 && (2 * y) / 2 == y;
  }

  /** Doubling x and y together, and setting the lowest bit of one of
      them, keeps them disjoint. */
  lemma DisjointDoubled(x: nat, y: nat, b: nat)
    requires b < 2 && Disjoint(x, y)
    ensures Disjoint(2 * x, 2 * y + b)
  {
    assert (2 * x) % 2 == 0 && (2 * x) / 2 == x && (2 * y + b) / 2 == y;
  }

  /** x | (y << k) == x + (y << k) when x has fewer than k bits; m is 2^k. */
  lemma OrMul(x: nat, y: nat, k: nat, m: nat)
    requires m == Pow2(k) && x < m
    ensures BitOr(x, y * m) == x + y * m
  {
    ShrSmall(x, k);
    DisjointShifted(x, y, k);
    ShlIsMul(y, k);
    DisjointOr(x, y * m);
  }

  /** x | (y << 32) == x + (y << 32) for a 32-bit x. */
  lemma OrHighWord(x: nat, y: nat)
    requires x < Word
    ensures BitOr(x, y * Word) == x + y * Word
  {
    Pow2Word();
    OrMul(x, y, 32, Word);
  }

  /** x | (y << k) == x + (y << k) when x >> k has no bit in common with y. */
  lemma OrMulDisjoint(x: nat, y: nat, k: nat, m: nat)
    requires m == Pow2(k) && Disjoint(Shr(x, k), y)
    ensures BitOr(x, y * m) == x + y * m
  {
    DisjointShifted(x, y, k);
    ShlIsMul(y, k);
    DisjointOr(x, y * m);
  }

  /** (x + (r << k)) >> k == r when x has fewer than k bits. */
  lemma {:induction false} ShrMulSum(x: nat, r: nat, k: nat, m: nat)
    requires m == Pow2(k) && x < m
    ensures Shr(x + r * m, k) == r
    decreases k
  {
    if k > 0 {
      var h := Pow2(k - 1);
      assert m == 2 * h;
      assert (x + r * m) / 2 == x / 2 + r * h;
      ShrMulSum(x / 2, r, k - 1, h);
    }
  }

  lemma OrZero(x: nat)
    ensures BitOr(x, 0) == x && BitOr(0, x) == x
  {
  }
}
