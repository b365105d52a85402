/** When the tables of huft_build decode: the code sets that its callers in zlib.c hand to it, and one that fails. */
module HuftCalls {

  import opened Arith
  import opened BitStrings
  import opened HuffmanCode
  import opened HuffmanIntervals
  import opened HuffmanTable
  import opened HuffmanInvariant
  import opened HuftCounts
  import opened HuftTables
  import opened HuftBuild
  import opened ReturnCodes

  /** A set whose longest code is not longer than two tables cannot skip a level. */
  lemma ShallowNeverSkips(c: Counts, l: nat, g: nat)
    requires g <= 2 * l && forall k :: g < k <= 15 ==> c[k] == 0
    ensures NoSkip(c, l)
  {
  }

  /** The codes of k bits and more take at most 2^(15-k) strings each. */
  lemma {:induction false} LongCodesTake(c: Counts, k: nat, n: nat)
    requires 1 <= k <= n <= 15
    ensures Taken(c, n) - Taken(c, k - 1) <= (Before(c, n + 1) - Before(c, k)) * Pow2(15 - k)
  {
    hide Pow2, Taken;
    NextTaken(c, n);
    if n > k {
      LongCodesTake(c, k, n - 1);
      Pow2Up(15 - n, 15 - k);
      MulLe(Pow2(15 - n), Pow2(15 - k), c[n]);
      MulDist(Before(c, n) - Before(c, k), c[n], Pow2(15 - k));
      assert c[n] * Pow2(15 - n) == Pow2(15 - n) * c[n];
      assert c[n] * Pow2(15 - k) == Pow2(15 - k) * c[n];
    }
  }

  /** Skipping a level takes at least 2^(l+1) codes, which fill the subtree of the table that is skipped to. */
  lemma SkipTakesManyCodes(c: Counts, l: nat, k: nat, r: nat, q: nat)
    requires Skips(c, l, k, r, q) && Taken(c, 15) == Pow2(15)
    ensures Before(c, 16) >= Pow2(l + 1)
  {
    hide Pow2, Taken, Before;
    var w := Width(q, l);
    var p := Position(c, k, r);
    // the codes from this one on take at least the 2^(15-w) strings of the subtree
    NextTaken(c, k);
    TakenMonotone(c, k, 15);
    MulLe(r + 1, c[k], Pow2(15 - k));
    Pred(r + 1, Pow2(15 - k));
    Nonneg(r, Pow2(15 - k));
    AlignedRoom(p, w);
    LongCodesTake(c, k, 15);
    // at 2^(15-k) each, these are 2^(k-w) codes or more
    Pow2Add(k - w, 15 - k);
    BeforeNonneg(c, k);
    MulLe(Before(c, 16) - Before(c, k), Before(c, 16), Pow2(15 - k));
    if Before(c, 16) < Pow2(k - w) {
      MulLe(Before(c, 16) + 1, Pow2(k - w), Pow2(15 - k));
      Pred(Before(c, 16) + 1, Pow2(15 - k));
    }
    Pow2Up(l + 1, k - w);
  }

  lemma BeforeNonneg(c: Counts, k: nat)
    requires k <= 16
    ensures 0 <= Before(c, k)
  {
  }

  /** Below an aligned position there is room for a whole aligned interval. */
  lemma AlignedRoom(p: nat, w: nat)
    requires w <= 15 && Aligned(p, w) && p < Pow2(15)
    ensures p + Pow2(15 - w) <= Pow2(15)
  {
    hide Pow2;
    var m: nat :| Multiple(p, m, w);
    Pow2Add(w, 15 - w);
    MulCancelLt(m, Pow2(w), Pow2(15 - w));
    MulLe(m + 1, Pow2(w), Pow2(15 - w));
    Pred(m + 1, Pow2(15 - w));
  }

  /** A complete set of fewer than 2^(l+1) codes cannot skip a level. */
  lemma FewNeverSkip(b: seq<nat>, c: Counts, l: nat)
    requires Lengths(b) && CountsOf(c, b, |b|) && Taken(c, 15) == Pow2(15) && |b| < Pow2(l + 1)
    ensures NoSkip(c, l)
  {
    hide Pow2, Taken, Before;
    BeforeBound(c, b, |b|);
    forall k: nat, r: nat, q: nat
      ensures !Skips(c, l, k, r, q)
    {
      if Skips(c, l, k, r, q) {
        SkipTakesManyCodes(c, l, k, r, q);
      }
    }
  }

  /** A set whose Kraft sum is 1 needs no filling: its counts are those of the lengths. */
  lemma CompleteIsUnfilled(b: seq<nat>, c: Counts, hi: nat)
    requires Lengths(b) && FilledFrom(c, b, hi) && KraftSum(b, |b|) == Pow2(15) && hi >= 1
    ensures CountsOf(c, b, |b|)
  {
    hide Pow2, Taken, CountOf;
    var n := CountOf(b, |b|, hi);
    var c0 := c[hi := n];
    TakenIsKraft(c0, b, |b|);
    TakenSame(c, c0, hi - 1);
    NextTaken(c, hi);
    NextTaken(c0, hi);
    TakenAboveSame(c, c0, hi, 15);
    MulDist(c[hi], n, Pow2(15 - hi));
    if c[hi] > n {
      MulLe(1, c[hi] - n, Pow2(15 - hi));
      assert false;
    }
  }

  lemma {:induction false} TakenAboveSame(c: Counts, c': Counts, hi: nat, n: nat)
    requires 1 <= hi <= n <= 15 && forall j :: hi < j <= 15 ==> c[j] == c'[j]
    ensures Taken(c, n) - Taken(c', n) == Taken(c, hi) - Taken(c', hi)
  {
    if n > hi {
      TakenAboveSame(c, c', hi, n - 1);
    }
  }

  /**
   * What inflate asks of huft_build: literal and length codes with 9 bits, the fixed code and code-length codes
   * (none above 9 bits) with 7, and at most 30 distance codes with 5 or 6.
   */
  ghost predicate InflateCall(b: seq<nat>, m: nat, hi: nat) {
    || m == 9
    || (m == 7 && hi <= 9)
    || (5 <= m <= 6 && |b| <= 30)
  }

  /** None of these calls skips a level when the code is complete, so their tables decode every bit string. */
  lemma InflateNeverSkips(b: seq<nat>, c: Counts, m: nat, lo: nat, hi: nat)
    requires Lengths(b) && InflateCall(b, m, hi) && LengthRange(b, lo, hi)
    requires FilledFrom(c, b, hi) && KraftSum(b, |b|) == Pow2(15) && hi >= 1
    ensures NoSkip(c, LookupBits(m, lo, hi))
  {
    hide Pow2, Taken, KraftSum, CountOf;
    var l := LookupBits(m, lo, hi);
    CompleteIsUnfilled(b, c, hi);
    NothingLonger(b, c, lo, hi);
    if hi <= 2 * l {
      ShallowNeverSkips(c, l, hi);
    } else {
      SmallPower();
      Pow2Up(6, l + 1);
      FewNeverSkip(b, c, l);
    }
  }

  lemma SmallPower()
    ensures Pow2(6) == 64
  {
    assert Pow2(3) == 8;
  }

  lemma NothingLonger(b: seq<nat>, c: Counts, lo: nat, hi: nat)
    requires Lengths(b) && LengthRange(b, lo, hi) && CountsOf(c, b, |b|) && hi >= 1
    ensures forall k :: hi < k <= 15 ==> c[k] == 0
  {
    forall k | hi < k <= 15
      ensures c[k] == 0
    {
      CountPositive(b, |b|, k);
    }
  }

  const EXAMPLE: seq<nat> := [1, 3, 3, 3, 3]
  const EXAMPLE_COUNTS: Counts := [0, 1, 0, 4, 0, 0, 0, 0, 0, 0, 0, 0, 0, 0, 0, 0]

  /**
   * The lengths 1, 3, 3, 3, 3 make a complete code, but with one bit per table the first code of three bits skips
   * a level: the tables of huft_build then have a slot that was never written on the way of a valid code.
   */
  lemma SkippingExample()
    ensures Lengths(EXAMPLE) && KraftSum(EXAMPLE, 5) == Pow2(15) && CountsOf(EXAMPLE_COUNTS, EXAMPLE, 5)
    ensures !NoSkip(EXAMPLE_COUNTS, 1)
  {
    ExampleKraft();
    ExampleCounts();
    ExamplePowers();
    hide Pow2;
    assert Taken(EXAMPLE_COUNTS, 2) == 0x4000;
    assert Width(1, 1) == 1;
    assert Multiple(Position(EXAMPLE_COUNTS, 3, 0), 1, 1);
    assert Skips(EXAMPLE_COUNTS, 1, 3, 0, 1);
  }

  /** huft_build on these lengths: it reports success, and does not decode the codes. */
  method SkippingTables() returns (ret: Code, tabs: Tables, bits: nat)
    ensures ret == Z_OK && bits == 1 && Lengths(EXAMPLE) && !DecodesCanonical(tabs, 1, EXAMPLE, 5, [], [])
  {
    hide Pow2, KraftSum, Taken, NoSkip, DecodesAll, DecodesCanonical, NoHoles, SymbolsOnly, Shaped;
    SkippingExample();
    assert EXAMPLE[0] == 1 && EXAMPLE[1] == 3;
    ghost var c, lo, hi;
    ret, tabs, bits, c, lo, hi := HuftBuild.HuftBuild(EXAMPLE, 5, [], [], 1);
    assert c == EXAMPLE_COUNTS;
  }

  lemma ExamplePowers()
    ensures Pow2(15) == 0x8000 && Pow2(14) == 0x4000 && Pow2(12) == 0x1000
  {
    TopIsBound();
    assert Pow2(15) == 2 * Pow2(14) && Pow2(14) == 4 * Pow2(12);
  }

  lemma ExampleKraft()
    ensures Lengths(EXAMPLE) && KraftSum(EXAMPLE, 5) == Pow2(15)
  {
    ExamplePowers();
    hide Pow2;
    assert KraftSum(EXAMPLE, 1) == 0x4000;
    assert KraftSum(EXAMPLE, 3) == 0x6000;
  }

  lemma ExampleCounts()
    ensures CountsOf(EXAMPLE_COUNTS, EXAMPLE, 5)
  {
    forall k | 0 <= k <= 15
      ensures EXAMPLE_COUNTS[k] == CountOf(EXAMPLE, 5, k)
    {
      assert CountOf(EXAMPLE, 1, k) == if k == 1 then 1 else 0;
      assert CountOf(EXAMPLE, 3, k) == CountOf(EXAMPLE, 1, k) + if k == 3 then 2 else 0;
    }
  }
}
