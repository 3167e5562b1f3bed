/** Bitwise exclusive or as an operation on numbers, and the laws that make it a
    metric. */
module ExclusiveOr {
  import opened Words

  function Pow2(n: nat): (p: nat)
    ensures p > 0
  {
    if n == 0 then 1 else 2 * Pow2(n - 1)
  }

  /** Position of the highest set bit (0 for 0). */
  function Log2(d: nat): nat {
    if d < 2 then 0 else 1 + Log2(d / 2)
  }

  function Xor(x: nat, y: nat): nat
    decreases x + y
  {
    if x == 0 && y == 0 then 0 else (x % 2 + y % 2) % 2 + 2 * Xor(x / 2, y / 2)
  }

  lemma XorHalves(x: nat, y: nat)
    ensures Xor(x, y) == 2 * Xor(x / 2, y / 2) + (x % 2 + y % 2) % 2
  {
  }

  /** The machine's `^` on a byte is this operation. */
  lemma XorIsBitwise(a: bv8, b: bv8)
    ensures Unsigned(a ^ b) == Xor(Unsigned(a), Unsigned(b))
  {
    hide Unsigned;
    assert Pow2(8) == 256;
    XorIsBitwiseUpTo(8, a, b);
  }

  lemma {:induction false} XorIsBitwiseUpTo(n: nat, a: bv8, b: bv8)
    requires Unsigned(a) < Pow2(n) && Unsigned(b) < Pow2(n)
    ensures Unsigned(a ^ b) == Xor(Unsigned(a), Unsigned(b))
    decreases n
  {
    hide Xor, Unsigned;
    XorHalves(Unsigned(a), Unsigned(b));
    if n == 0 {
      XorZeroIff(0, 0);
      BitwiseZero(a, b);
    } else {
      BitwiseHalves(a, b);
      ShiftHalves(a);
      ShiftHalves(b);
      XorIsBitwiseUpTo(n - 1, a >> 1, b >> 1);
    }
  }

  lemma BitwiseHalves(a: bv8, b: bv8)
    ensures Unsigned(a ^ b) ==
            2 * Unsigned((a >> 1) ^ (b >> 1)) + (Unsigned(a) % 2 + Unsigned(b) % 2) % 2
  {
    LowBit(a);
    LowBit(b);
    LowBit(a ^ b);
    ShiftedXor(a, b);
    LowBitsDiffer(a, b);
  }

  lemma {:induction false} Pow2Add(m: nat, n: nat)
    ensures Pow2(m + n) == Pow2(m) * Pow2(n)
  {
    if m > 0 {
      Pow2Add(m - 1, n);
    }
  }

  lemma {:induction false} Pow2Monotone(m: nat, n: nat)
    requires m <= n
    ensures Pow2(m) <= Pow2(n)
  {
    if m < n {
      Pow2Monotone(m, n - 1);
    }
  }

  lemma {:induction false} Log2Bounds(d: nat)
    requires d > 0
    ensures Pow2(Log2(d)) <= d < Pow2(Log2(d) + 1)
  {
    if d >= 2 {
      Log2Bounds(d / 2);
    }
  }

  lemma {:induction false} Log2Unique(d: nat, i: nat)
    requires Pow2(i) <= d < Pow2(i + 1)
    ensures Log2(d) == i
  {
    Log2Bounds(d);
    if Log2(d) < i {
      Pow2Monotone(Log2(d) + 1, i);
    } else if i < Log2(d) {
      Pow2Monotone(i + 1, Log2(d));
    }
  }

  // ---------------------------------------------------------------------
  // Laws
  // ---------------------------------------------------------------------

  lemma {:induction false} XorZeroIff(x: nat, y: nat)
    ensures Xor(x, y) == 0 <==> x == y
    decreases x + y
  {
    if x != 0 || y != 0 {
      XorZeroIff(x / 2, y / 2);
    }
  }

  lemma {:induction false} XorSymmetric(x: nat, y: nat)
    ensures Xor(x, y) == Xor(y, x)
    decreases x + y
  {
    if x != 0 || y != 0 {
      XorSymmetric(x / 2, y / 2);
    }
  }

  lemma {:induction false} XorWithZero(x: nat)
    ensures Xor(x, 0) == x
  {
    if x != 0 {
      XorWithZero(x / 2);
    }
  }

  lemma {:induction false} XorAssociative(x: nat, y: nat, z: nat)
    ensures Xor(Xor(x, y), z) == Xor(x, Xor(y, z))
    decreases x + y + z
  {
    hide Xor;
    if x == 0 {
      XorSymmetric(0, y);
      XorWithZero(y);
      XorSymmetric(0, Xor(y, z));
      XorWithZero(Xor(y, z));
    } else {
      XorAssociative(x / 2, y / 2, z / 2);
      XorThreeHalves(x, y, z);
    }
  }

  lemma XorParity(x: nat, y: nat)
    ensures Xor(x, y) / 2 == Xor(x / 2, y / 2)
    ensures Xor(x, y) % 2 == 0 <==> x % 2 == y % 2
  {
    hide Xor;
    XorHalves(x, y);
  }

  lemma XorThreeHalves(x: nat, y: nat, z: nat)
    ensures Xor(Xor(x, y), z) / 2 == Xor(Xor(x / 2, y / 2), z / 2)
    ensures Xor(x, Xor(y, z)) / 2 == Xor(x / 2, Xor(y / 2, z / 2))
    ensures Xor(Xor(x, y), z) % 2 == Xor(x, Xor(y, z)) % 2
  {
    hide Xor;
    XorParity(x, y);
    XorParity(y, z);
    XorParity(Xor(x, y), z);
    XorParity(x, Xor(y, z));
  }

  /** Going through a third point: the two offsets combine by exclusive or. */
  lemma XorThrough(x: nat, y: nat, z: nat)
    ensures Xor(x, z) == Xor(Xor(x, y), Xor(y, z))
  {
    XorAssociative(x, y, Xor(y, z));
    XorAssociative(y, y, z);
    XorZeroIff(y, y);
    XorSymmetric(0, z);
    XorWithZero(z);
  }

  lemma {:induction false} XorAtMostSum(x: nat, y: nat)
    ensures Xor(x, y) <= x + y
    decreases x + y
  {
    if x != 0 || y != 0 {
      XorAtMostSum(x / 2, y / 2);
    }
  }

  lemma XorTriangle(x: nat, y: nat, z: nat)
    ensures Xor(x, z) <= Xor(x, y) + Xor(y, z)
  {
    XorThrough(x, y, z);
    XorAtMostSum(Xor(x, y), Xor(y, z));
  }

  lemma XorInjective(x: nat, y: nat, t: nat)
    requires Xor(x, t) == Xor(y, t)
    ensures x == y
  {
    XorThrough(x, t, y);
    XorSymmetric(t, y);
    XorZeroIff(Xor(x, t), Xor(t, y));
    XorZeroIff(x, y);
  }

  /** Exclusive or works on high and low parts separately. */
  lemma {:induction false} XorConcat(k: nat, x: nat, y: nat, a: nat, b: nat)
    requires a < Pow2(k) && b < Pow2(k)
    ensures Xor(x * Pow2(k) + a, y * Pow2(k) + b) == Xor(x, y) * Pow2(k) + Xor(a, b)
    decreases k
  {
    hide Xor;
    if k == 0 {
      XorZeroIff(0, 0);
    } else {
      var q := Pow2(k - 1);
      XorConcat(k - 1, x, y, a / 2, b / 2);
      DoubleHalf(x, q, a);
      DoubleHalf(y, q, b);
      XorHalves(x * Pow2(k) + a, y * Pow2(k) + b);
      XorHalves(a, b);
      assert Xor(x, y) * Pow2(k) == 2 * (Xor(x, y) * q);
    }
  }

  lemma DoubleHalf(x: nat, q: nat, a: nat)
    ensures (x * (2 * q) + a) / 2 == x * q + a / 2
    ensures (x * (2 * q) + a) % 2 == a % 2
  {
    assert x * (2 * q) == 2 * (x * q);
  }

  lemma {:induction false} XorBelow(k: nat, x: nat, y: nat)
    requires x < Pow2(k) && y < Pow2(k)
    ensures Xor(x, y) < Pow2(k)
  {
    if k > 0 {
      XorBelow(k - 1, x / 2, y / 2);
      XorHalves(x, y);
    }
  }

  /** Two numbers with the same top bit differ below it. */
  lemma {:induction false} XorSameTop(k: nat, x: nat, y: nat)
    requires Pow2(k) <= x < Pow2(k + 1) && Pow2(k) <= y < Pow2(k + 1)
    ensures Xor(x, y) < Pow2(k)
  {
    XorHalves(x, y);
    if k > 0 {
      XorSameTop(k - 1, x / 2, y / 2);
    } else {
      XorZeroIff(1, 1);
    }
  }

  /** A top bit that only one of them has survives. */
  lemma {:induction false} XorOneTop(k: nat, x: nat, y: nat)
    requires x < Pow2(k) && Pow2(k) <= y < Pow2(k + 1)
    ensures Pow2(k) <= Xor(x, y) < Pow2(k + 1)
    ensures Pow2(k) <= Xor(y, x) < Pow2(k + 1)
  {
    XorSymmetric(x, y);
    XorHalves(x, y);
    if k > 0 {
      XorOneTop(k - 1, x / 2, y / 2);
    } else {
      XorZeroIff(0, 0);
    }
  }
}
