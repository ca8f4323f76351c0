/** Unsigned bit arithmetic, written out bit by bit, and what its uses in uthash.h amount to. */
module Bits {

  function Pow2(k: nat): (r: nat)
    ensures r > 0
  {
    if k == 0 then 1 else 2 * Pow2(k - 1)
  }

  lemma {:induction false} PowSum(m: nat, n: nat)
    ensures Pow2(m) * Pow2(n) == Pow2(m + n)
  {
    if m > 0 {
      PowSum(m - 1, n);
      ProductOfDouble(Pow2(m - 1), Pow2(n));
    }
  }

  lemma ProductOfDouble(x: nat, y: nat)
    ensures (2 * x) * y == 2 * (x * y)
  {
  }

  lemma PowersOfTwo()
    ensures Pow2(16) == 0x1_0000 && Pow2(32) == 0x1_0000_0000
  {
    assert Pow2(4) == 16;
    PowSum(4, 4);
    PowSum(8, 8);
    PowSum(16, 16);
  }

  /** C's `a & b` on unsigned operands. */
  function And(a: nat, b: nat): (r: nat)
    ensures r <= a && r <= b
    decreases a
  {
    if a == 0 || b == 0 then 0
    else 2 * And(a / 2, b / 2) + (if a % 2 == 1 && b % 2 == 1 then 1 else 0)
  }

  /** C's `a >> k` on an unsigned operand. */
  function Shr(a: nat, k: nat): nat
    decreases k
  {
    if k == 0 then a else Shr(a / 2, k - 1)
  }

  lemma DivModUnique(a: nat, d: nat, q: nat, r: nat)
    requires a == q * d + r && r < d
    ensures a / d == q && a % d == r
  {
    DivModSum(a, d);
    assert (a / d - q) * d == r - a % d;
    SmallMultiple(a / d - q, d);
  }

  lemma DivModSum(a: nat, d: nat)
    requires d > 0
    ensures a == (a / d) * d + a % d && a % d < d
  {
  }

  lemma SmallMultiple(x: int, d: int)
    requires -d < x * d < d
    ensures x == 0
  {
    if x >= 1 {
      MulMono(1, x, d);
    } else if x <= -1 {
      MulMono(x, -1, d);
    }
  }

  lemma MulMono(x: int, y: int, d: int)
    requires x <= y && d >= 0
    ensures x * d <= y * d
  {
  }

  lemma HalveByDouble(a: nat, p: nat)
    requires p > 0
    ensures a % (2 * p) == 2 * ((a / 2) % p) + a % 2
    ensures a / (2 * p) == (a / 2) / p
  {
    var q, r := (a / 2) / p, (a / 2) % p;
    assert q * (2 * p) == 2 * (q * p);
    DivModUnique(a, 2 * p, q, 2 * r + a % 2);
  }

  /** Masking with a power of two less one is the remainder: HASH_TO_BKT. */
  lemma {:induction false} AndMask(a: nat, k: nat)
    ensures And(a, Pow2(k) - 1) == a % Pow2(k)
  {
    if k == 0 {
    } else {
      AndMask(a / 2, k - 1);
      HalveByDouble(a, Pow2(k - 1));
      var mask := Pow2(k) - 1;
      assert mask / 2 == Pow2(k - 1) - 1 && mask % 2 == 1;
    }
  }

  lemma DoubleProduct(x: nat, y: nat)
    ensures x * (2 * y) == 2 * (x * y)
  {
  }

  /** Masking with n ones followed by k zeros. */
  lemma {:induction false} AndPrefix(a: nat, n: nat, k: nat, mask: nat)
    requires mask == (Pow2(n) - 1) * Pow2(k)
    ensures And(a, mask) == (a / Pow2(k)) % Pow2(n) * Pow2(k)
  {
    if k == 0 {
      AndMask(a, n);
    } else {
      var p, half := Pow2(k - 1), (Pow2(n) - 1) * Pow2(k - 1);
      DoubleProduct(Pow2(n) - 1, p);
      AndDouble(a, half);
      AndPrefix(a / 2, n, k - 1, half);
      HalveByDouble(a, p);
      DoubleProduct((a / Pow2(k)) % Pow2(n), p);
    }
  }

  lemma AndDouble(a: nat, b: nat)
    ensures And(a, 2 * b) == 2 * And(a / 2, b)
  {
    if a > 0 && b > 0 {
      assert (2 * b) / 2 == b && (2 * b) % 2 == 0;
    }
  }

  lemma {:induction false} ShrDiv(a: nat, k: nat)
    ensures Shr(a, k) == a / Pow2(k)
  {
    if k == 0 {
    } else {
      ShrDiv(a / 2, k - 1);
      HalveByDouble(a, Pow2(k - 1));
    }
  }

  /** One more mask bit either leaves the bucket number or adds the old bucket count to it. */
  lemma {:induction false} MaskSplit(a: nat, k: nat)
    ensures And(a, Pow2(k) - 1) < Pow2(k)
    ensures And(a, Pow2(k + 1) - 1) == And(a, Pow2(k) - 1) || And(a, Pow2(k + 1) - 1) == And(a, Pow2(k) - 1) + Pow2(k)
    decreases k
  {
    var mask, wide := Pow2(k) - 1, Pow2(k + 1) - 1;
    if k == 0 {
      assert And(a / 2, 0) == 0;
    } else {
      MaskSplit(a / 2, k - 1);
      assert mask / 2 == Pow2(k - 1) - 1 && mask % 2 == 1;
      assert wide / 2 == mask && wide % 2 == 1;
    }
  }

  /** The test for more than half, by shift. */
  lemma HalfByShift(n: nat, x: nat)
    ensures x > Shr(n, 1) <==> 2 * x > n
  {
    assert Shr(n, 1) == n / 2;
  }

  /** The ideal chain length, computed by shift and mask, is the quotient rounded up: the least c whose
      c * 2^k is at least n. */
  lemma CeilByShift(n: nat, k: nat, c: nat)
    requires c == Shr(n, k) + (if And(n, Pow2(k) - 1) != 0 then 1 else 0)
    ensures n <= c * Pow2(k)
    ensures forall d: nat :: n <= d * Pow2(k) ==> c <= d
  {
    ShrDiv(n, k);
    AndMask(n, k);
    var p := Pow2(k);
    DivModSum(n, p);
    CeilIsLeast(n, p, n / p, n % p, c);
  }

  lemma CeilIsLeast(n: nat, p: nat, q: nat, r: nat, c: nat)
    requires n == q * p + r && r < p && c == q + (if r != 0 then 1 else 0)
    ensures n <= c * p
    ensures forall d: nat :: n <= d * p ==> c <= d
  {
    assert (q + 1) * p == q * p + p;
    forall d: nat | n <= d * p
      ensures c <= d
    {
      if d <= q {
        MulMono(d, q, p);
      }
    }
  }
}
