/**
 * Canonical Huffman codes as section 3.2.2 of RFC 1951 defines them, and the same codes as intervals: all
 * 15-bit strings in order, cut into pieces, a code of k bits taking 2^(15-k) of them.
 */
module HuffmanCode {

  import opened Arith
  import opened BitStrings

  /** Number of codes of each length; index 0 counts the unused symbols. */
  type Counts = c: seq<nat> | |c| == 16 witness Counts16()

  function Counts16(): seq<nat> {
    [0, 0, 0, 0, 0, 0, 0, 0, 0, 0, 0, 0, 0, 0, 0, 0]
  }

  /** How many of the first n symbols have length k. */
  ghost function CountOf(b: seq<nat>, n: nat, k: nat): (r: nat)
    requires n <= |b|
    ensures r <= n
  {
    if n == 0 then 0 else CountOf(b, n - 1, k) + if b[n - 1] == k then 1 else 0
  }

  /** How many of all 15-bit strings the codes of up to k bits take. */
  ghost function Taken(c: Counts, k: nat): nat
    requires k <= 15
  {
    if k == 0 then 0 else Taken(c, k - 1) + c[k] * Pow2(15 - k)
  }

  /** Number of codes shorter than k bits. */
  ghost function Before(c: Counts, k: nat): nat
    requires k <= 16
  {
    if k <= 1 then 0 else Before(c, k - 1) + c[k - 1]
  }

  /** The smallest code of k bits, computed as in section 3.2.2 of RFC 1951. */
  ghost function FirstCode(c: Counts, k: nat): nat
    requires k <= 15
  {
    if k <= 1 then 0 else 2 * (FirstCode(c, k - 1) + c[k - 1])
  }

  /** The code that section 3.2.2 of RFC 1951 gives to a symbol, highest bit first. */
  ghost function CodeOf(b: seq<nat>, c: Counts, sym: nat): nat
    requires sym < |b| && b[sym] <= 15
  {
    FirstCode(c, b[sym]) + CountOf(b, sym, b[sym])
  }

  /** The first code of k bits starts where the shorter codes end. */
  lemma {:induction false} FirstCodeStarts(c: Counts, k: nat)
    requires 1 <= k <= 15
    ensures FirstCode(c, k) * Pow2(15 - k) == Taken(c, k - 1)
  {
    if k > 1 {
      FirstCodeStarts(c, k - 1);
      FirstCodeStep(FirstCode(c, k - 1), c[k - 1], Pow2(16 - k), Pow2(15 - k), Taken(c, k - 2));
    }
  }

  lemma FirstCodeStep(f: int, n: int, p': int, p: int, t: int)
    requires f * p' == t && p' == 2 * p
    ensures (2 * (f + n)) * p == t + n * p'
  {
    MulDist(f, n, p');
    MulAssoc(f + n, 2, p);
  }

  lemma {:induction false} TakenMonotone(c: Counts, j: nat, k: nat)
    requires j <= k <= 15
    ensures Taken(c, j) <= Taken(c, k)
  {
    if j < k {
      TakenMonotone(c, j, k - 1);
      Nonneg(c[k], Pow2(15 - k));
    }
  }

  /** The length of the code whose interval holds position p. */
  ghost function FindLength(c: Counts, p: nat, k: nat): (r: nat)
    requires 1 <= k <= 15
    ensures k <= r <= 15
    decreases 15 - k
  {
    if k == 15 || p < Taken(c, k) then k else FindLength(c, p, k + 1)
  }

  lemma {:induction false} FindLengthIs(c: Counts, p: nat, j: nat, k: nat)
    requires 1 <= j <= k <= 15
    requires Taken(c, k - 1) <= p < Taken(c, k)
    ensures FindLength(c, p, j) == k
    decreases k - j
  {
    if j < k {
      TakenMonotone(c, j, k - 1);
      FindLengthIs(c, p, j + 1, k);
    }
  }

  /** The number, in order of position, of the code whose interval holds position p, and its length. */
  ghost function CodeAt(c: Counts, p: nat): (r: (nat, nat))
    ensures 1 <= r.1 <= 15
  {
    var k := FindLength(c, p, 1);
    var t := if p >= Taken(c, k - 1) then p - Taken(c, k - 1) else 0;
    Decompose(t, Pow2(15 - k));
    (Before(c, k) + t / Pow2(15 - k), k)
  }

  /** The start of the r-th code of k bits. */
  ghost function Position(c: Counts, k: nat, r: nat): nat
    requires 1 <= k <= 15
  {
    Taken(c, k - 1) + r * Pow2(15 - k)
  }

  /** Every position in the interval of the r-th code of k bits finds that code. */
  lemma CodeAtIs(c: Counts, k: nat, r: nat, p: nat)
    requires 1 <= k <= 15 && r < c[k]
    requires Position(c, k, r) <= p < Position(c, k, r) + Pow2(15 - k)
    ensures CodeAt(c, p) == (Before(c, k) + r, k)
  {
    hide Pow2, Before, FindLength;
    var q := Pow2(15 - k);
    Nonneg(r, q);
    MulLe(r + 1, c[k], q);
    Pred(r + 1, q);
    FindLengthIs(c, p, 1, k);
    DivUnique(p - Taken(c, k - 1), q, r, p - Position(c, k, r));
  }

  /** The sum of the Kraft inequality over the symbols, in units of 2^-15. */
  ghost function KraftSum(b: seq<nat>, n: nat): nat
    requires n <= |b| && forall t :: 0 <= t < |b| ==> b[t] <= 15
  {
    if n == 0 then 0 else KraftSum(b, n - 1) + if b[n - 1] == 0 then 0 else Pow2(15 - b[n - 1])
  }

  ghost predicate CountsOf(c: Counts, b: seq<nat>, n: nat)
    requires n <= |b|
  {
    forall k :: 0 <= k <= 15 ==> c[k] == CountOf(b, n, k)
  }

  /** Summing over lengths is summing over symbols. */
  lemma {:induction false} TakenIsKraft(c: Counts, b: seq<nat>, n: nat)
    requires n <= |b| && (forall t :: 0 <= t < |b| ==> b[t] <= 15)
    requires CountsOf(c, b, n)
    ensures Taken(c, 15) == KraftSum(b, n)
    decreases n
  {
    if n == 0 {
      TakenZero(c, 15);
    } else {
      var k := b[n - 1];
      assert CountOf(b, n, k) == CountOf(b, n - 1, k) + 1;
      var c' := c[k := c[k] - 1];
      forall j | 0 <= j <= 15
        ensures c'[j] == CountOf(b, n - 1, j)
      {
        assert CountOf(b, n, j) == CountOf(b, n - 1, j) + if k == j then 1 else 0;
      }
      TakenIsKraft(c', b, n - 1);
      TakenOneLess(c, c', k, 15);
    }
  }

  lemma {:induction false} TakenZero(c: Counts, k: nat)
    requires k <= 15 && forall j :: 1 <= j <= k ==> c[j] == 0
    ensures Taken(c, k) == 0
  {
    if k > 0 {
      TakenZero(c, k - 1);
    }
  }

  lemma {:induction false} TakenOneLess(c: Counts, c': Counts, k: nat, n: nat)
    requires k <= 15 && n <= 15 && c[k] > 0 && c' == c[k := c[k] - 1]
    ensures Taken(c, n) == Taken(c', n) + if 1 <= k <= n then Pow2(15 - k) else 0
  {
    if n > 0 {
      TakenOneLess(c, c', k, n - 1);
      if n == k {
        Pred(c[k], Pow2(15 - k));
      }
    }
  }

  lemma {:induction false} TakenSame(c: Counts, c': Counts, n: nat)
    requires n <= 15 && forall j :: 1 <= j <= n ==> c[j] == c'[j]
    ensures Taken(c, n) == Taken(c', n)
  {
    if n > 0 {
      TakenSame(c, c', n - 1);
    }
  }
}
