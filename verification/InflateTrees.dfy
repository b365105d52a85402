/** The tables that inflate asks huft_build for, and why the decoding loops can rely on them (zlib.c). */
module InflateTrees {

  import opened Arith
  import opened DeflateLengths
  import opened HuffmanCode
  import opened HuffmanIntervals
  import opened HuffmanTable
  import opened HuffmanInvariant
  import opened HuftCounts
  import opened HuftBuild
  import opened HuftCalls
  import opened InflateSpec
  import opened ReturnCodes

  /** Lengths and extra bits of the symbols 257 to 287, of which the last two are invalid. */
  const CPLENS: seq<nat> := [
    3, 4, 5, 6, 7, 8, 9, 10, 11, 13, 15, 17, 19, 23, 27, 31,
    35, 43, 51, 59, 67, 83, 99, 115, 131, 163, 195, 227, 258, 0, 0]
  const CPLEXT: seq<nat> := [
    0, 0, 0, 0, 0, 0, 0, 0, 1, 1, 1, 1, 2, 2, 2, 2,
    3, 3, 3, 3, 4, 4, 4, 4, 5, 5, 5, 5, 0, 192, 192]

  /** Distances and extra bits of the symbols 0 to 29. */
  const CPDIST: seq<nat> := [
    1, 2, 3, 4, 5, 7, 9, 13, 17, 25, 33, 49, 65, 97, 129, 193,
    257, 385, 513, 769, 1025, 1537, 2049, 3073, 4097, 6145,
    8193, 12289, 16385, 24577]
  const CPDEXT: seq<nat> := [
    0, 0, 0, 0, 1, 1, 2, 2, 3, 3, 4, 4, 5, 5, 6, 6,
    7, 7, 8, 8, 9, 9, 10, 10, 11, 11,
    12, 12, 13, 13]

  lemma SmallPowers()
    ensures Pow2(0) == 1 && Pow2(1) == 2 && Pow2(2) == 4 && Pow2(3) == 8 && Pow2(4) == 16 && Pow2(5) == 32
  {
  }

  /** The entries for the symbols of a literal and length table have at most 5 extra bits and lengths up to 258. */
  lemma LengthTableFits(tabs: Tables)
    requires SymbolsOnly(tabs, 257, CPLENS, CPLEXT)
    ensures LengthEntries(tabs)
  {
    forall t, j | 0 <= t < |tabs| && 0 <= j < |tabs[t]|
      ensures LengthEntry(tabs[t][j])
    {
      if tabs[t][j].Entry? {
        assert OfSymbol(tabs[t][j], 257, CPLENS, CPLEXT);
        SymbolFits(tabs[t][j]);
      }
    }
  }

  lemma SymbolFits(h: Huft)
    requires h.Entry? && OfSymbol(h, 257, CPLENS, CPLEXT)
    ensures LengthEntry(h)
  {
    hide Pow2, CPLENS, CPLEXT;
    TablesMatch();
    if h.exop == 192 {
      assert !HasExtra(192);
    } else {
      var sym: nat :| sym < 288 && h.exop == SymbolExop(257, CPLEXT, sym) && h.base == SymbolBase(257, CPLENS, sym);
      if sym >= 257 {
        LengthSymbol(sym - 257);
        ExopOfExtra(CPLEXT[sym - 257]);
      } else {
        assert h.exop == 0 || h.exop == 96;
        assert !HasExtra(0) && !HasExtra(96);
      }
    }
  }

  /** The operation that huft_build makes of a number of extra bits. The invalid 192 wraps to no extra bits. */
  lemma ExopOfExtra(x: nat)
    requires x == 192 || x <= 15
    ensures var exop := (x % 256 + 80) % 256; HasExtra(exop) && exop % 16 == if x == 192 then 0 else x
  {
  }

  lemma LengthSymbol(i: nat)
    requires i < 31
    ensures CPLEXT[i] == 192 || (CPLEXT[i] <= 5 && CPLENS[i] + Pow2(CPLEXT[i]) <= 259)
    ensures CPLENS[i] <= 258 && Pow2(0) == 1
  {
    hide Pow2;
    SmallPowers();
  }

  /** The longest code of a set that is complete, or that has a longest code of one bit, leads to no skipped level. */
  lemma CallIsSound(b: seq<nat>, c: Counts, m: nat, lo: nat, hi: nat)
    requires Lengths(b) && !NoneUsed(b) && InflateCall(b, m, hi) && LengthRange(b, lo, hi) && FilledFrom(c, b, hi)
    requires KraftSum(b, |b|) == Pow2(15) || hi <= 2 * LookupBits(m, lo, hi)
    ensures 1 <= lo <= hi && NoSkip(c, LookupBits(m, lo, hi))
  {
    hide Pow2, KraftSum, Taken;
    var t :| 0 <= t < |b| && b[t] != 0;
    if hi <= 2 * LookupBits(m, lo, hi) {
      NoneAbove(b, c, hi);
      ShallowNeverSkips(c, LookupBits(m, lo, hi), hi);
    } else {
      InflateNeverSkips(b, c, m, lo, hi);
    }
  }

  lemma NoneAbove(b: seq<nat>, c: Counts, hi: nat)
    requires Lengths(b) && FilledFrom(c, b, hi) && forall t :: 0 <= t < |b| ==> b[t] <= hi
    ensures forall k :: hi < k <= 15 ==> c[k] == 0
  {
    forall k | hi < k <= 15
      ensures c[k] == 0
    {
      CountPositive(b, |b|, k);
    }
  }

  /**
   * inflate_trees_dynamic, with the bits that inflate_blocks asks for. When it succeeds and both sets have codes,
   * the tables are ones that the decoding loops can rely on, and they decode the canonical codes of the lengths.
   */
  method Dynamic(lits: seq<nat>, dists: seq<nat>) returns (r: Code, cx: Codes)
    requires Lengths(lits) && |lits| <= 286 && Lengths(dists) && |dists| <= 30
    ensures r == Z_OK || r == Z_DATA_ERROR
    ensures r == Z_OK <==> Accepted(lits) && Accepted(dists)
    ensures r == Z_OK && !NoneUsed(lits) ==> DecodesCanonical(cx.lt, cx.lbits, lits, 257, CPLENS, CPLEXT)
    ensures r == Z_OK && !NoneUsed(dists) ==> DecodesCanonical(cx.dt, cx.dbits, dists, 0, CPDIST, CPDEXT)
    ensures r == Z_OK && !NoneUsed(lits) && !NoneUsed(dists) ==> ValidCodes(cx)
  {
    hide Pow2, KraftSum, Taken, NoHoles, DecodesAll, DecodesCanonical, Shaped, SymbolsOnly, NoSkip, FilledFrom, LengthEntries, CPLENS, CPLEXT;
    cx := Codes([], 0, [], 0);
    TablesMatch();
    ghost var c, lo, hi;
    var lt, lbits;
    r, lt, lbits, c, lo, hi := HuftBuild.HuftBuild(lits, 257, CPLENS, CPLEXT, 9);
    Verdict(lits, lo, hi, r);
    if r != Z_OK {
      return Z_DATA_ERROR, cx;
    }
    if !NoneUsed(lits) {
      CallIsSound(lits, c, 9, lo, hi);
      LengthTableFits(lt);
      FilledCodes(lt, lbits, lits, c, hi, 257, CPLENS, CPLEXT);
    }
    var dt, dbits;
    r, dt, dbits, c, lo, hi := HuftBuild.HuftBuild(dists, 0, CPDIST, CPDEXT, 6);
    Verdict(dists, lo, hi, r);
    if r != Z_OK {
      return Z_DATA_ERROR, cx;
    }
    if !NoneUsed(dists) {
      CallIsSound(dists, c, 6, lo, hi);
      FilledCodes(dt, dbits, dists, c, hi, 0, CPDIST, CPDEXT);
    }
    cx := Codes(lt, lbits, dt, dbits);
  }

  /** What huft_build finds no fault with: no codes, a complete set, or codes of one bit that are too few. */
  ghost predicate Accepted(b: seq<nat>)
    requires Lengths(b)
  {
    || NoneUsed(b)
    || KraftSum(b, |b|) == Pow2(15)
    || (KraftSum(b, |b|) < Pow2(15) && forall t :: 0 <= t < |b| ==> b[t] <= 1)
  }

  lemma Verdict(b: seq<nat>, lo: nat, hi: nat, r: Code)
    requires Lengths(b) && r != Z_STREAM_END && (NoneUsed(b) ==> r == Z_OK)
    requires !NoneUsed(b) ==>
      && LengthRange(b, lo, hi) && (r == Z_DATA_ERROR <==> KraftSum(b, |b|) > Pow2(15))
      && (r == Z_BUF_ERROR <==> KraftSum(b, |b|) < Pow2(15) && hi != 1)
    ensures r == Z_OK <==> Accepted(b)
    ensures r == Z_OK && !NoneUsed(b) ==> KraftSum(b, |b|) == Pow2(15) || hi == 1
  {
    hide Pow2, KraftSum;
  }

  lemma TablesMatch()
    ensures |CPLENS| == |CPLEXT| == 31 && ExtraBitsOk(CPLEXT) && |CPDIST| == |CPDEXT| == 30 && ExtraBitsOk(CPDEXT)
  {
  }

  /** The tables are those of section 3.2.5 of RFC 1951. */
  lemma TablesAreStandard(l: nat, d: nat)
    requires l < 29 && d < 30
    ensures CPLENS[l] == LengthBase(l) && CPLEXT[l] == LengthExtra(l)
    ensures CPDIST[d] == DistanceBase(d) && CPDEXT[d] == DistanceExtra(d)
  {
    LengthEntryIs(l);
    DistanceEntryIs(d);
  }

  lemma LengthEntryIs(l: nat)
    requires l < 29
    ensures CPLENS[l] == LengthBase(l) && CPLEXT[l] == LengthExtra(l)
  {
    MorePowers();
    hide Pow2, CPDIST, CPDEXT;
    assert l / 4 == 0 || l / 4 == 1 || l / 4 == 2 || l / 4 == 3 || l / 4 == 4 || l / 4 == 5 || l / 4 == 6 || l == 28;
    assert l % 4 == 0 || l % 4 == 1 || l % 4 == 2 || l % 4 == 3;
  }

  lemma DistanceEntryIs(d: nat)
    requires d < 30
    ensures CPDIST[d] == DistanceBase(d) && CPDEXT[d] == DistanceExtra(d)
  {
    MorePowers();
    hide Pow2, CPLENS, CPLEXT;
    assert d % 2 == 0 || d % 2 == 1;
    if d < 10 {
      assert d / 2 == 0 || d / 2 == 1 || d / 2 == 2 || d / 2 == 3 || d / 2 == 4;
    } else if d < 20 {
      assert d / 2 == 5 || d / 2 == 6 || d / 2 == 7 || d / 2 == 8 || d / 2 == 9;
    } else {
      assert d / 2 == 10 || d / 2 == 11 || d / 2 == 12 || d / 2 == 13 || d / 2 == 14;
    }
  }

  lemma MorePowers()
    ensures Pow2(0) == 1 && Pow2(1) == 2 && Pow2(2) == 4 && Pow2(3) == 8 && Pow2(4) == 16 && Pow2(5) == 32 && Pow2(6) == 64
    ensures Pow2(7) == 128 && Pow2(8) == 256 && Pow2(9) == 512 && Pow2(10) == 1024 && Pow2(11) == 2048
    ensures Pow2(12) == 4096 && Pow2(13) == 8192
  {
  }

  /** The lengths of the fixed codes. */
  const FIXED_LITS: seq<nat> := seq(288, k => if k < 144 then 8 else if k < 256 then 9 else if k < 280 then 7 else 8)
  const FIXED_DISTS: seq<nat> := seq(30, k => 5)

  /** The fixed tables. The verdicts are ignored: the distance codes are incomplete, and two are left as invalid. */
  method Fixed() returns (cx: Codes)
    ensures ValidCodes(cx)
    ensures DecodesCanonical(cx.lt, cx.lbits, FIXED_LITS, 257, CPLENS, CPLEXT)
    ensures DecodesCanonical(cx.dt, cx.dbits, FIXED_DISTS, 0, CPDIST, CPDEXT)
  {
    hide Pow2, KraftSum, Taken, NoHoles, DecodesAll, DecodesCanonical, Shaped, SymbolsOnly, NoSkip, FilledFrom, LengthEntries, CPLENS, CPLEXT;
    TablesMatch();
    FixedKraft();
    var r, lt, lbits, c, lo, hi := HuftBuild.HuftBuild(FIXED_LITS, 257, CPLENS, CPLEXT, 7);
    CallIsSound(FIXED_LITS, c, 7, lo, hi);
    LengthTableFits(lt);
    FilledCodes(lt, lbits, FIXED_LITS, c, hi, 257, CPLENS, CPLEXT);
    var dt, dbits;
    r, dt, dbits, c, lo, hi := HuftBuild.HuftBuild(FIXED_DISTS, 0, CPDIST, CPDEXT, 5);
    CallIsSound(FIXED_DISTS, c, 5, lo, hi);
    FilledCodes(dt, dbits, FIXED_DISTS, c, hi, 0, CPDIST, CPDEXT);
    cx := Codes(lt, lbits, dt, dbits);
  }

  /** A stretch of equal lengths in the Kraft sum. */
  lemma {:induction false} KraftStretch(b: seq<nat>, n: nat, m: nat, v: nat)
    requires n <= m <= |b| && (forall t :: 0 <= t < |b| ==> b[t] <= 15)
    requires 1 <= v <= 15 && forall t :: n <= t < m ==> b[t] == v
    ensures KraftSum(b, m) == KraftSum(b, n) + (m - n) * Pow2(15 - v)
    decreases m - n
  {
    hide Pow2;
    if n < m {
      KraftStretch(b, n, m - 1, v);
      Pred(m - n, Pow2(15 - v));
    }
  }

  lemma FixedKraft()
    ensures Lengths(FIXED_LITS) && Lengths(FIXED_DISTS) && !NoneUsed(FIXED_LITS) && !NoneUsed(FIXED_DISTS)
    ensures KraftSum(FIXED_LITS, 288) == Pow2(15) && KraftSum(FIXED_DISTS, 30) < Pow2(15)
  {
    assert FIXED_LITS[0] == 8 && FIXED_DISTS[0] == 5;
    assert Pow2(7) == 128 && Pow2(6) == 64 && Pow2(8) == 256 && Pow2(10) == 1024;
    Pow2Add(7, 8);
    KraftStretch(FIXED_LITS, 0, 144, 8);
    KraftStretch(FIXED_LITS, 144, 256, 9);
    KraftStretch(FIXED_LITS, 256, 280, 7);
    KraftStretch(FIXED_LITS, 280, 288, 8);
    KraftStretch(FIXED_DISTS, 0, 30, 5);
  }

  /** A stretch of equal lengths in a count. */
  lemma {:induction false} CountStretch(b: seq<nat>, n: nat, m: nat, v: nat, k: nat)
    requires n <= m <= |b| && forall t :: n <= t < m ==> b[t] == v
    ensures CountOf(b, m, k) == CountOf(b, n, k) + if k == v then m - n else 0
    decreases m - n
  {
    if n < m {
      CountStretch(b, n, m - 1, v, k);
    }
  }

  lemma FixedCounts(k: nat)
    ensures CountOf(FIXED_LITS, 256, k) == (if k == 8 then 144 else if k == 9 then 112 else 0)
    ensures CountOf(FIXED_LITS, 288, k) == (if k == 7 then 24 else if k == 8 then 152 else if k == 9 then 112 else 0)
  {
    CountStretch(FIXED_LITS, 0, 144, 8, k);
    CountStretch(FIXED_LITS, 144, 256, 9, k);
    CountStretch(FIXED_LITS, 256, 280, 7, k);
    CountStretch(FIXED_LITS, 280, 288, 8, k);
  }

  /** No code is shorter than 7 bits, and 24 codes have 7. */
  lemma FixedFirstCodes()
    ensures var c := CountsIn(FIXED_LITS); FirstCode(c, 7) == 0 && FirstCode(c, 8) == 48 && FirstCode(c, 9) == 400
  {
    hide CountOf;
    var c := CountsIn(FIXED_LITS);
    FixedCounts(1);
    FixedCounts(2);
    FixedCounts(3);
    FixedCounts(4);
    FixedCounts(5);
    FixedCounts(6);
    FixedCounts(7);
    FixedCounts(8);
    assert c[1] == c[2] == c[3] == c[4] == c[5] == c[6] == 0 && c[7] == 24 && c[8] == 152;
    assert FirstCode(c, 2) == 0;
    assert FirstCode(c, 3) == 0;
    assert FirstCode(c, 4) == 0;
    assert FirstCode(c, 5) == 0;
    assert FirstCode(c, 6) == 0;
  }

  /**
   * The fixed codes of section 3.2.6 of RFC 1951: of 8 bits from 00110000 on, of 9 bits from 110010000 on, of 7 bits
   * from 0000000 on, of 8 bits from 11000000 on. The distance codes are the symbols themselves in 5 bits.
   */
  lemma FixedCodesAre(sym: nat)
    requires sym < 288
    ensures FIXED_LITS[sym] == (if sym < 144 then 8 else if sym < 256 then 9 else if sym < 280 then 7 else 8)
    ensures CodeOf(FIXED_LITS, CountsIn(FIXED_LITS), sym) ==
      if sym < 144 then 0x30 + sym
      else if sym < 256 then 0x190 + (sym - 144)
      else if sym < 280 then sym - 256
      else 0xC0 + (sym - 280)
    ensures sym < 30 ==> FIXED_DISTS[sym] == 5 && CodeOf(FIXED_DISTS, CountsIn(FIXED_DISTS), sym) == sym
  {
    FixedFirstCodes();
    hide FirstCode;
    var k := FIXED_LITS[sym];
    if sym < 144 {
      CountStretch(FIXED_LITS, 0, sym, 8, k);
    } else {
      CountStretch(FIXED_LITS, 0, 144, 8, k);
      if sym < 256 {
        CountStretch(FIXED_LITS, 144, sym, 9, k);
      } else {
        FixedCounts(k);
        if sym < 280 {
          CountStretch(FIXED_LITS, 256, sym, 7, k);
        } else {
          CountStretch(FIXED_LITS, 256, 280, 7, k);
          CountStretch(FIXED_LITS, 280, sym, 8, k);
        }
      }
    }
    if sym < 30 {
      FixedDistanceCode(sym);
    }
  }

  lemma FixedDistanceCode(sym: nat)
    requires sym < 30
    ensures FIXED_DISTS[sym] == 5 && CodeOf(FIXED_DISTS, CountsIn(FIXED_DISTS), sym) == sym
  {
    var c := CountsIn(FIXED_DISTS);
    CountStretch(FIXED_DISTS, 0, 30, 5, 1);
    CountStretch(FIXED_DISTS, 0, 30, 5, 2);
    CountStretch(FIXED_DISTS, 0, 30, 5, 3);
    CountStretch(FIXED_DISTS, 0, 30, 5, 4);
    CountStretch(FIXED_DISTS, 0, sym, 5, 5);
    hide CountOf;
    assert c[1] == c[2] == c[3] == c[4] == 0;
    assert FirstCode(c, 2) == 0;
    assert FirstCode(c, 3) == 0;
    assert FirstCode(c, 4) == 0;
  }
}
