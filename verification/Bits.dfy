/** Shifts, logarithms and the branch-free maximum. */
module Bits {

  /** x >> k. */
  function Shr(x: nat, k: nat): nat {
    if k == 0 then x else Shr(x, k - 1) / 2
  }

  /** (x >> k) & 1. */
  function Bit(x: nat, k: nat): nat {
    Shr(x, k) % 2
  }

  /** FAST_LOG2: the position of the top bit of a positive number. */
  function Log2(x: nat): nat
    requires x > 0
  {
    if x == 1 then 0 else 1 + Log2(x / 2)
  }

  function Pow2(k: nat): nat {
    if k == 0 then 1 else 2 * Pow2(k - 1)
  }

  lemma {:induction false} Pow2Add(a: nat, b: nat)
    ensures Pow2(a + b) == Pow2(a) * Pow2(b)
  {
    if b != 0 {
      Pow2Add(a, b - 1);
    }
  }

  lemma {:induction false} ShrHalf(x: nat, k: nat)
    ensures Shr(x / 2, k) == Shr(x, k + 1)
  {
    if k != 0 {
      ShrHalf(x, k - 1);
    }
  }

  lemma {:induction false} ShrAdd(x: nat, i: nat, k: nat)
    ensures Shr(Shr(x, i), k) == Shr(x, i + k)
  {
    if k != 0 {
      ShrAdd(x, i, k - 1);
    }
  }

  lemma {:induction false} ShrMonotone(a: nat, b: nat, k: nat)
    requires a <= b
    ensures Shr(a, k) <= Shr(b, k)
  {
    if k != 0 {
      ShrMonotone(a, b, k - 1);
    }
  }

  /** Shifting is division by a power of two. */
  lemma {:induction false} ShrIsQuotient(x: nat, k: nat, q: nat)
    ensures Shr(x, k) == q <==> q * Pow2(k) <= x < (q + 1) * Pow2(k)
  {
    if k != 0 {
      var y := Shr(x, k - 1);
      ShrIsQuotient(x, k - 1, y);
      ShrIsQuotient(x, k - 1, 2 * q);
      ShrIsQuotient(x, k - 1, 2 * q + 1);
      var p := Pow2(k - 1);
      assert q * Pow2(k) == (2 * q) * p;
      assert (q + 1) * Pow2(k) == (2 * q + 2) * p;
      assert (2 * q + 1) * p == (2 * q) * p + p;
      assert y / 2 == q <==> y == 2 * q || y == 2 * q + 1;
    }
  }

  /** The top bit: shifting by the logarithm leaves exactly 1. */
  lemma {:induction false} ShrLog2(x: nat)
    requires x > 0
    ensures Shr(x, Log2(x)) == 1
  {
    if x > 1 {
      ShrLog2(x / 2);
      ShrHalf(x, Log2(x / 2));
    }
  }

  lemma {:induction false} Log2Monotone(a: nat, b: nat)
    requires 0 < a <= b
    ensures Log2(a) <= Log2(b)
  {
    if a > 1 {
      Log2Monotone(a / 2, b / 2);
    }
  }

  lemma {:induction false} Log2Bound(x: nat, k: nat)
    requires x > 0
    ensures Log2(x) < k <==> x < Pow2(k)
  {
    if k == 0 {
    } else if x == 1 {
      Log2Bound(1, k - 1);
    } else {
      Log2Bound(x / 2, k - 1);
    }
  }

  /** Two numbers with the same top bit are within a factor of two. */
  lemma {:induction false} SameTopBit(a: nat, b: nat, k: nat)
    requires Shr(a, k) == 1 == Shr(b, k)
    ensures a < 2 * b
  {
    if a >= 2 * b {
      ShrMonotone(2 * b, a, k + 1);
      ShrHalf(2 * b, k);
    }
  }

  /** Bits k..: equal after dropping three zero bits means equal. */
  lemma ShrThree(a: nat, b: nat)
    requires a % 8 == 0 && b % 8 == 0
    requires Shr(a, 3) == Shr(b, 3)
    ensures a == b
  {
    assert Shr(a, 3) == Shr(a, 1) / 2 / 2;
    assert Shr(b, 3) == Shr(b, 1) / 2 / 2;
    assert Shr(a, 1) == a / 2 && Shr(b, 1) == b / 2;
  }

  // ----- bitwise operators on words

  /** a ^ b. */
  function Xor(a: nat, b: nat): nat
    decreases a + b
  {
    if a == 0 && b == 0 then 0 else 2 * Xor(a / 2, b / 2) + (if a % 2 != b % 2 then 1 else 0)
  }

  /** a & b. */
  function And(a: nat, b: nat): nat
    decreases a + b
  {
    if a == 0 && b == 0 then 0 else 2 * And(a / 2, b / 2) + (if a % 2 == 1 && b % 2 == 1 then 1 else 0)
  }

  lemma {:induction false} XorZero(a: nat)
    ensures Xor(a, 0) == a
  {
    if a > 0 {
      XorZero(a / 2);
    }
  }

  lemma {:induction false} XorTwice(a: nat, b: nat)
    ensures Xor(a, Xor(a, b)) == b
    decreases a + b
  {
    if a > 0 || b > 0 {
      XorTwice(a / 2, b / 2);
      var x := Xor(a, b);
      assert x / 2 == Xor(a / 2, b / 2);
    }
  }

  lemma {:induction false} XorBound(a: nat, b: nat, n: nat)
    requires a < Pow2(n) && b < Pow2(n)
    ensures Xor(a, b) < Pow2(n)
  {
    if n > 0 {
      XorBound(a / 2, b / 2, n - 1);
    }
  }

  lemma {:induction false} AndZero(a: nat)
    ensures And(a, 0) == 0
  {
    if a > 0 {
      AndZero(a / 2);
    }
  }

  /** A mask of n ones keeps every number of n bits. */
  lemma {:induction false} AndOnes(a: nat, n: nat)
    requires a < Pow2(n)
    ensures And(a, Pow2(n) - 1) == a
  {
    if n > 0 {
      AndOnes(a / 2, n - 1);
      assert (Pow2(n) - 1) / 2 == Pow2(n - 1) - 1;
    }
  }

  lemma AndEven(a: nat, b: nat)
    ensures And(a, 2 * b) == 2 * And(a / 2, b)
  {
  }

  /** x & ~7 on words of n bits. */
  lemma AndNotSeven(x: nat, n: nat)
    requires n >= 3 && x < Pow2(n)
    ensures Pow2(n) >= 8 && And(x, Pow2(n) - 8) == x / 8 * 8
  {
    var y := Pow2(n - 3) - 1;
    assert Pow2(n) == 2 * Pow2(n - 1) == 4 * Pow2(n - 2) == 8 * Pow2(n - 3);
    AndEven(x, 4 * y);
    AndEven(x / 2, 2 * y);
    AndEven(x / 4, y);
    AndOnes(x / 8, n - 3);
    assert x / 2 / 2 == x / 4 && x / 4 / 2 == x / 8;
  }

  /** The branch-free MAX macro on 64-bit words: the mask is -(a < b), all ones or zero. */
  function MaxWord(a: nat, b: nat): (r: nat)
    requires a < Pow2(64) && b < Pow2(64)
    ensures r == if a < b then b else a
  {
    XorBound(a, b, 64);
    AndOnes(Xor(a, b), 64);
    AndZero(Xor(a, b));
    XorZero(a);
    XorTwice(a, b);
    Xor(a, And(Xor(a, b), if a < b then Pow2(64) - 1 else 0))
  }
}
