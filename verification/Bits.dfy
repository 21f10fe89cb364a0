/** Bitwise operations on natural numbers, and their arithmetic meaning.

    The string converters and the image packers are written with masks and
    shifts.  Here the operators are defined bit by bit, and the lemmas say what
    the masks and shifts that the sources use compute.  A 32-bit complement
    `~m` is `TWO_32 - 1 - m`. */
module Bits {

  const TWO_32: nat := 0x1_0000_0000

  datatype Option<+T> = None | Some(value: T)

  type byte = x: int | 0 <= x < 0x100
  type u16 = x: int | 0 <= x < 0x1_0000
  type u32 = x: int | 0 <= x < 0x1_0000_0000

  function Pow2(k: nat): (p: nat)
    ensures p >= 1
  {
    if k == 0 then 1 else 2 * Pow2(k - 1)
  }

  function And(x: nat, y: nat): (r: nat)
    ensures r <= x && r <= y
  {
    if x == 0 || y == 0 then 0
    else 2 * And(x / 2, y / 2) + (if x % 2 == 1 && y % 2 == 1 then 1 else 0)
  }

  function Or(x: nat, y: nat): nat {
    if x == 0 then y
    else if y == 0 then x
    else 2 * Or(x / 2, y / 2) + (if x % 2 == 1 || y % 2 == 1 then 1 else 0)
  }

  function Shr(x: nat, k: nat): nat
    decreases k
  {
    if k == 0 then x else Shr(x / 2, k - 1)
  }

  function Shl(x: nat, k: nat): nat {
    if k == 0 then x else 2 * Shl(x, k - 1)
  }

  /** The k low bits. */
  function Low(x: nat, k: nat): nat
    decreases k
  {
    if k == 0 then 0 else 2 * Low(x / 2, k - 1) + x % 2
  }

  // ----- masks, in terms of shifts -----

  /** A mask of k low ones keeps the k low bits. */
  lemma {:induction false} AndLowMask(x: nat, k: nat)
    ensures And(x, Pow2(k) - 1) == Low(x, k)
  {
    if k == 0 {
    } else {
      AndLowMask(x / 2, k - 1);
      AndOdd(x, Pow2(k - 1) - 1);
    }
  }

  lemma {:induction false} AndCommutes(x: nat, y: nat)
    ensures And(x, y) == And(y, x)
  {
    if x != 0 && y != 0 {
      AndCommutes(x / 2, y / 2);
    }
  }

  lemma {:induction false} AndDouble(x: nat, m: nat)
    ensures And(x, 2 * m) == 2 * And(x / 2, m)
  {}

  lemma {:induction false} AndOdd(x: nat, m: nat)
    ensures And(x, 2 * m + 1) == 2 * And(x / 2, m) + x % 2
  {}

  /** A mask shifted left by k ignores the k low bits. */
  lemma {:induction false} AndShifted(x: nat, m: nat, k: nat)
    ensures And(x, Shl(m, k)) == Shl(And(Shr(x, k), m), k)
  {
    if k == 0 {
    } else {
      AndShifted(x / 2, m, k - 1);
      AndDouble(x, Shl(m, k - 1));
    }
  }

  lemma {:induction false} OrDouble(a: nat, b: nat)
    ensures Or(2 * a, b) == 2 * Or(a, b / 2) + b % 2
    ensures Or(b, 2 * a) == 2 * Or(b / 2, a) + b % 2
  {}

  lemma {:induction false} AndLowTwo(x: nat)
    ensures And(x, 3) == x % 4
  {
    AndOdd(x, 1);
    AndOdd(x / 2, 0);
    LowTwoBits(x);
  }

  lemma {:induction false} LowTwoBits(x: nat)
    ensures x % 4 == 2 * (x / 2 % 2) + x % 2
  {}

  /** With disjoint bits, disjunction is addition. */
  lemma {:induction false} OrDisjoint(a: nat, b: nat, k: nat)
    requires b < Pow2(k)
    ensures Or(Shl(a, k), b) == Shl(a, k) + b
    ensures Or(b, Shl(a, k)) == Shl(a, k) + b
  {
    if k == 0 {
    } else {
      OrDisjoint(a, b / 2, k - 1);
      OrDouble(Shl(a, k - 1), b);
    }
  }

  // ----- shifts, in terms of arithmetic -----

  lemma {:induction false} ShlIsTimes(x: nat, k: nat)
    ensures Shl(x, k) == x * Pow2(k)
  {
    if k == 0 {
    } else {
      ShlIsTimes(x, k - 1);
      assert x * (2 * Pow2(k - 1)) == 2 * (x * Pow2(k - 1));
    }
  }

  lemma {:induction false} ShrOfShl(x: nat, j: nat, k: nat)
    ensures Shr(Shl(x, j + k), k) == Shl(x, j)
  {
    if k == 0 {
    } else {
      ShrOfShl(x, j, k - 1);
    }
  }

  lemma {:induction false} ShrAdd(x: nat, j: nat, k: nat)
    ensures Shr(x, j + k) == Shr(Shr(x, j), k)
    decreases j
  {
    if j == 0 {
    } else {
      ShrAdd(x / 2, j - 1, k);
    }
  }

  lemma {:induction false} SplitLow(x: nat, k: nat)
    ensures Low(x, k) < Pow2(k)
    ensures x == Shl(Shr(x, k), k) + Low(x, k)
  {
    if k == 0 {
    } else {
      SplitLow(x / 2, k - 1);
    }
  }

  lemma {:induction false} ShrIsDiv(x: nat, k: nat)
    ensures Shr(x, k) == x / Pow2(k)
    ensures Low(x, k) == x % Pow2(k)
  {
    SplitLow(x, k);
    ShlIsTimes(Shr(x, k), k);
    DivModUnique(x, Pow2(k), Shr(x, k), Low(x, k));
  }

  lemma {:induction false} MulMonotone(a: int, b: int, c: int)
    requires a <= b && c >= 0
    ensures a * c <= b * c
  {
    assert (b - a) * c >= 0;
  }

  lemma {:induction false} DivModUnique(x: int, m: int, q: int, r: int)
    requires m > 0 && 0 <= r < m
    requires x == q * m + r
    ensures x / m == q && x % m == r
  {
    var d := x / m - q;
    assert d * m == r - x % m by {
      assert x == m * (x / m) + x % m;
      assert d * m == (x / m) * m - q * m;
    }
    if d >= 1 {
      MulMonotone(1, d, m);
      assert false;
    } else if d <= -1 {
      MulMonotone(d, -1, m);
      assert false;
    }
  }

  lemma {:induction false} SmallMod(x: nat, m: nat)
    requires x < m
    ensures x % m == x && x / m == 0
  {}

  lemma {:induction false} Pow2Add(j: nat, k: nat)
    ensures Pow2(j) * Pow2(k) == Pow2(j + k)
  {
    if j == 0 {
    } else {
      Pow2Add(j - 1, k);
      assert Pow2(j) * Pow2(k) == 2 * (Pow2(j - 1) * Pow2(k));
    }
  }

  /** The complement of a low mask, within j + k bits, clears the k low bits. */
  lemma {:induction false} AndHighMask(x: nat, j: nat, k: nat)
    requires x < Pow2(j + k)
    ensures And(x, Shl(Pow2(j) - 1, k)) == Shl(Shr(x, k), k)
  {
    AndShifted(x, Pow2(j) - 1, k);
    AndLowMask(Shr(x, k), j);
    LowOfSmall(Shr(x, k), j, x, k);
  }

  lemma {:induction false} HighMaskValue(j: nat, k: nat)
    ensures Shl(Pow2(j) - 1, k) == Pow2(j + k) - Pow2(k)
  {
    if k == 0 {
    } else {
      HighMaskValue(j, k - 1);
    }
  }

  lemma {:induction false} Pow2Of32()
    ensures Pow2(32) == TWO_32
  {
    assert Pow2(8) == 0x100;
    Pow2Add(8, 8);
    Pow2Add(16, 16);
  }

  /** In 32 bits, the complement of a mask of k low ones rounds down to a multiple of 2^k. */
  lemma {:induction false} AndNotLowMask(x: nat, k: nat)
    requires k <= 32 && x < TWO_32
    ensures Pow2(k) <= TWO_32
    ensures And(x, TWO_32 - Pow2(k)) == x - x % Pow2(k)
  {
    Pow2Of32();
    HighMaskValue(32 - k, k);
    AndHighMask(x, 32 - k, k);
    SplitLow(x, k);
    ShrIsDiv(x, k);
  }

  lemma {:induction false} LowOfSmall(y: nat, j: nat, x: nat, k: nat)
    requires y == Shr(x, k) && x < Pow2(j + k)
    ensures Low(y, j) == y
  {
    SplitLow(x, k);
    ShlIsTimes(y, k);
    Pow2Add(j, k);
    if y >= Pow2(j) {
      MulMonotone(Pow2(j), y, Pow2(k));
      assert false;
    }
    SplitLow(y, j);
    ShlIsTimes(Shr(y, j), j);
    if Shr(y, j) >= 1 {
      MulMonotone(1, Shr(y, j), Pow2(j));
      assert false;
    }
  }
}
