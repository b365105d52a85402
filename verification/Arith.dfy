/** Small facts about products, stated once so that proofs can name the one they need. */
module Arith {

  function Min(a: nat, b: nat): nat {
    if a < b then a else b
  }

  lemma MulLe(a: int, b: int, c: nat)
    requires a <= b
    ensures a * c <= b * c
  {
  }

  lemma MulDist(a: int, b: int, c: int)
    ensures (a + b) * c == a * c + b * c
    ensures (a - b) * c == a * c - b * c
    ensures c * (a + b) == c * a + c * b
    ensures c * (a - b) == c * a - c * b
  {
  }

  lemma MulAssoc(a: int, b: int, c: int)
    ensures a * (b * c) == (a * b) * c
    ensures a * (b * c) == b * (a * c)
  {
  }

  /** A positive factor can be cancelled from a strict inequality. */
  lemma MulCancelLt(a: int, b: int, c: nat)
    requires a * c < b * c
    ensures a < b
  {
    if a >= b {
      MulLe(b, a, c);
    }
  }

  /** Quotient and remainder are determined by the division identity. */
  lemma DivUnique(u: int, v: int, q: int, r: int)
    requires v > 0 && u == q * v + r && 0 <= r < v
    ensures q == u / v && r == u % v
  {
    var q', r' := u / v, u % v;
    assert u == q' * v + r';
    MulDist(q, q', v);
    if q < q' {
      MulLe(1, q' - q, v);
      MulDist(q', q, v);
    } else if q > q' {
      MulLe(1, q - q', v);
    }
  }

  lemma Pred(q: int, v: int)
    ensures (q - 1) * v == q * v - v
  {
  }

  lemma DivBounds(t: nat, v: nat)
    requires v > 0
    ensures (t / v) * v <= t < (t / v) * v + v
  {
  }

  lemma Decompose(x: nat, b: nat)
    requires b > 0
    ensures x == (x / b) * b + x % b && 0 <= x % b < b && 0 <= x / b
  {
  }

  lemma Regroup(hi: int, b: int, lo: int, a: int)
    ensures (hi * b + lo) * a == hi * (a * b) + lo * a
  {
  }

  lemma Nonneg(a: nat, b: nat)
    ensures a * b >= 0
  {
  }

  lemma ZeroTimes(a: int, b: int)
    ensures a == 0 ==> a * b == 0
  {
  }

  /** Two to the power n. */
  function Pow2(n: nat): (r: nat)
    ensures r >= 1
  {
    if n == 0 then 1 else 2 * Pow2(n - 1)
  }

  lemma {:induction false} Pow2Add(a: nat, b: nat)
    ensures Pow2(a + b) == Pow2(a) * Pow2(b)
  {
    if a > 0 {
      Pow2Add(a - 1, b);
      assert 2 * (Pow2(a - 1) * Pow2(b)) == (2 * Pow2(a - 1)) * Pow2(b);
    }
  }

  lemma {:induction false} Pow2Up(a: nat, b: nat)
    requires a <= b
    ensures Pow2(a) <= Pow2(b) && (a < b ==> Pow2(a) < Pow2(b))
    decreases b
  {
    if a < b {
      Pow2Up(a, b - 1);
    }
  }

  lemma Pow2Word()
    ensures Pow2(32) == 0x1_0000_0000 && Pow2(31) == 0x8000_0000 && Pow2(16) == 0x1_0000
  {
    assert Pow2(8) == 256;
    Pow2Add(8, 8);
    Pow2Add(16, 16);
  }

  /** Whether d has the bit that a one-bit mask selects: d & mask. */
  predicate TestBit(d: int, mask: int)
    requires mask > 0
  {
    (d / mask) % 2 != 0
  }
}
