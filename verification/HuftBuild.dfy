/** huft_build as a whole: its verdict on a set of code lengths and what its tables decode (zlib.c). */
module HuftBuild {

  import opened Arith
  import opened BitStrings
  import opened HuffmanCode
  import opened HuffmanIntervals
  import opened HuffmanTable
  import opened HuffmanInvariant
  import opened HuffmanPlacing
  import opened HuftCounts
  import opened HuftTables
  import opened ReturnCodes

  /** Code lengths as huft_build takes them: at most 288 symbols, none longer than 15 bits. */
  ghost predicate Lengths(b: seq<nat>) {
    1 <= |b| <= 288 && forall t :: 0 <= t < |b| ==> b[t] <= 15
  }

  ghost predicate NoneUsed(b: seq<nat>) {
    forall t :: 0 <= t < |b| ==> b[t] == 0
  }

  /** lo and hi are the shortest and the longest length in use. */
  ghost predicate LengthRange(b: seq<nat>, lo: nat, hi: nat) {
    && (exists t :: 0 <= t < |b| && b[t] == lo) && (exists t :: 0 <= t < |b| && b[t] == hi)
    && forall t :: 0 <= t < |b| && b[t] != 0 ==> 1 <= lo <= b[t] <= hi
  }

  /** The bits looked up in the first table: as many as asked for, within the range of lengths. */
  function LookupBits(m: nat, lo: nat, hi: nat): nat {
    var l := if m < lo then lo else m;
    if l > hi then hi else l
  }

  /** The counts of the lengths b, with enough added at the longest length to fill out the set. */
  ghost predicate FilledFrom(c: Counts, b: seq<nat>, hi: nat) {
    && hi <= 15 && Taken(c, 15) == Pow2(15)
    && c[hi] >= CountOf(b, |b|, hi)
    && forall k :: 0 <= k <= 15 && k != hi ==> c[k] == CountOf(b, |b|, k)
  }

  /** What the entry of a symbol says: the operation and the base. */
  function SymbolExop(s: nat, e: seq<nat>, sym: nat): nat
    requires sym < s || sym - s < |e|
  {
    if sym < s then (if sym < 256 then 0 else 96) else (e[sym - s] % 256 + 80) % 256
  }

  function SymbolBase(s: nat, d: seq<nat>, sym: nat): nat
    requires sym < s || sym - s < |d|
  {
    if sym < s then sym else d[sym - s]
  }

  /**
   * Every bit string that starts with the canonical code of a symbol leads to the symbol's entry and uses up
   * exactly the bits of the code.
   */
  ghost predicate DecodesAll(tabs: Tables, l: nat, b: seq<nat>, c: Counts, s: nat, d: seq<nat>, e: seq<nat>)
    requires Lengths(b) && |b| <= s + |d| && |d| == |e|
  {
    forall sym: nat, bits: Bits ::
      sym < |b| && b[sym] != 0 && |bits| >= 15 && BE(bits[..b[sym]]) == CodeOf(b, c, sym) ==>
        Walk(tabs, 0, l, 0, bits) == Found(SymbolExop(s, e, sym), SymbolBase(s, d, sym), b[sym])
  }

  /** The counts of the lengths alone. */
  ghost function CountsIn(b: seq<nat>): Counts {
    seq(16, k requires 0 <= k < 16 => CountOf(b, |b|, k))
  }

  /** The tables decode the codes that section 3.2.2 of RFC 1951 gives to symbols with these lengths. */
  ghost predicate DecodesCanonical(tabs: Tables, l: nat, b: seq<nat>, s: nat, d: seq<nat>, e: seq<nat>)
    requires Lengths(b) && |b| <= s + |d| && |d| == |e|
  {
    DecodesAll(tabs, l, b, CountsIn(b), s, d, e)
  }

  lemma {:induction false} FirstCodeSame(c: Counts, c': Counts, k: nat)
    requires k <= 15 && forall j :: 1 <= j < k ==> c[j] == c'[j]
    ensures FirstCode(c, k) == FirstCode(c', k)
  {
    if k > 1 {
      FirstCodeSame(c, c', k - 1);
    }
  }

  /** Filling out the set at its longest length gives every symbol the code that it had. */
  lemma FilledCodes(tabs: Tables, l: nat, b: seq<nat>, c: Counts, hi: nat, s: nat, d: seq<nat>, e: seq<nat>)
    requires Lengths(b) && |b| <= s + |d| && |d| == |e| && FilledFrom(c, b, hi)
    requires forall t :: 0 <= t < |b| ==> b[t] <= hi
    requires DecodesAll(tabs, l, b, c, s, d, e)
    ensures DecodesCanonical(tabs, l, b, s, d, e)
  {
    hide Walk, FirstCode, Taken, Pow2;
    forall sym: nat, bits: Bits |
      sym < |b| && b[sym] != 0 && |bits| >= 15 && BE(bits[..b[sym]]) == CodeOf(b, CountsIn(b), sym)
      ensures Walk(tabs, 0, l, 0, bits) == Found(SymbolExop(s, e, sym), SymbolBase(s, d, sym), b[sym])
    {
      FirstCodeSame(c, CountsIn(b), b[sym]);
    }
  }

  /**
   * No lookup of 15 bits reads memory that was never written, and no table has such a slot. Every lookup uses up
   * between 1 and 15 bits.
   */
  ghost predicate NoHoles(tabs: Tables, l: nat) {
    && tabs != [] && |tabs[0]| == Pow2(l)
    && (forall bits: Bits :: |bits| == 15 ==>
      Walk(tabs, 0, l, 0, bits).Found? && 1 <= Walk(tabs, 0, l, 0, bits).used <= 15)
    && forall t, j :: 0 <= t < |tabs| && 0 <= j < |tabs[t]| ==> tabs[t][j] != Unset
  }

  /** Every entry stands for a symbol or is marked as invalid. */
  ghost predicate SymbolsOnly(tabs: Tables, s: nat, d: seq<nat>, e: seq<nat>)
    requires |d| == |e|
  {
    forall t, j :: 0 <= t < |tabs| && 0 <= j < |tabs[t]| && tabs[t][j].Entry? ==> OfSymbol(tabs[t][j], s, d, e)
  }

  ghost predicate OfSymbol(h: Huft, s: nat, d: seq<nat>, e: seq<nat>)
    requires h.Entry? && |d| == |e|
  {
    || h.exop == 192
    || exists sym: nat :: sym < s + |d| && h.exop == SymbolExop(s, e, sym) && h.base == SymbolBase(s, d, sym)
  }

  lemma LeavesAreSymbols(tabs: Tables, tree: seq<Place>, c: Counts, l: nat, vals: Values)
    requires vals.Valid() && |vals.d| == |vals.e| && |tree| == |tabs| && TreeOk(tabs, tree, l)
    requires Decoded(tabs, l, c, vals, Pow2(15))
    ensures SymbolsOnly(tabs, vals.s, vals.d, vals.e)
  {
    hide Pow2, Decoded, TreeOk;
    forall t, j | 0 <= t < |tabs| && 0 <= j < |tabs[t]| && tabs[t][j].Entry?
      ensures OfSymbol(tabs[t][j], vals.s, vals.d, vals.e)
    {
      var h := tabs[t][j];
      EntryIsLeaf(tabs, tree, c, l, vals, t, j);
      var m: nat :| vals.LeafOf(m, 0) == Entry(h.exop, 0, h.base);
      if m < vals.n {
        var sym := vals.v[m];
        assert sym < vals.s + |vals.d|;
        assert h.exop == SymbolExop(vals.s, vals.e, sym) && h.base == SymbolBase(vals.s, vals.d, sym);
      }
    }
  }

  lemma {:induction false} WalkMore(tabs: Tables, t: nat, sz: nat, w: nat, s: Bits, s': Bits)
    requires s <= s' && Walk(tabs, t, sz, w, s).Found?
    ensures Walk(tabs, t, sz, w, s') == Walk(tabs, t, sz, w, s)
    decreases |tabs| - t
  {
    assert s'[w..w + sz] == s[w..w + sz];
    var j := LE(s[w..w + sz]);
    if tabs[t][j].Link? {
      WalkMore(tabs, tabs[t][j].next, tabs[t][j].exop, w + tabs[t][j].bits, s, s');
    }
  }

  /** From the intervals of codes to the codes of symbols. */
  lemma SymbolsDecoded(tabs: Tables, l: nat, b: seq<nat>, c: Counts, c0: Counts, hi: nat, vals: Values)
    requires Lengths(b) && vals.Valid() && vals.n == |b| <= vals.s + |vals.d| && |vals.d| == |vals.e|
    requires CountsOf(c0, b, |b|) && FilledFrom(c, b, hi) && OrderedBy(vals.v, b, c0, |b|)
    requires forall t :: 0 <= t < |b| ==> b[t] <= hi
    requires Decoded(tabs, l, c, vals, Pow2(15))
    ensures DecodesAll(tabs, l, b, c, vals.s, vals.d, vals.e)
  {
    hide Pow2, BE, Before, Walk, FirstCode, CodeAt, OrderedBy, Decoded, FilledFrom, CodeOf;
    forall sym: nat, bits: Bits |
      sym < |b| && b[sym] != 0 && |bits| >= 15 && BE(bits[..b[sym]]) == CodeOf(b, c, sym)
      ensures Walk(tabs, 0, l, 0, bits)
           == Found(SymbolExop(vals.s, vals.e, sym), SymbolBase(vals.s, vals.d, sym), b[sym])
    {
      SymbolDecoded(tabs, l, b, c, c0, hi, vals, sym, bits);
    }
  }

  lemma SymbolDecoded(tabs: Tables, l: nat, b: seq<nat>, c: Counts, c0: Counts, hi: nat, vals: Values, sym: nat, bits: Bits)
    requires Lengths(b) && vals.Valid() && vals.n == |b| <= vals.s + |vals.d| && |vals.d| == |vals.e|
    requires CountsOf(c0, b, |b|) && FilledFrom(c, b, hi) && OrderedBy(vals.v, b, c0, |b|)
    requires forall t :: 0 <= t < |b| ==> b[t] <= hi
    requires Decoded(tabs, l, c, vals, Pow2(15))
    requires sym < |b| && b[sym] != 0 && |bits| >= 15 && BE(bits[..b[sym]]) == CodeOf(b, c, sym)
    ensures Walk(tabs, 0, l, 0, bits)
         == Found(SymbolExop(vals.s, vals.e, sym), SymbolBase(vals.s, vals.d, sym), b[sym])
  {
    hide Pow2, BE, Before, Walk, CodeOf, CodeAt, CountOf, CountsOf, FilledFrom;
    var s := bits[..15];
    assert s[..b[sym]] == bits[..b[sym]];
    SymbolCodeAt(b, c, c0, hi, sym, s);
    PlaceIsNew(b, c0, sym);
    BEBound(s);
    assert Walk(tabs, 0, l, 0, s) == Target(c, vals, BE(s));
    WalkMore(tabs, 0, l, 0, s, bits);
  }

  /** The code found at a string that starts with a symbol's code is the symbol's. */
  lemma SymbolCodeAt(b: seq<nat>, c: Counts, c0: Counts, hi: nat, sym: nat, s: Bits)
    requires Lengths(b) && CountsOf(c0, b, |b|) && FilledFrom(c, b, hi)
    requires forall t :: 0 <= t < |b| ==> b[t] <= hi
    requires sym < |b| && b[sym] != 0 && |s| == 15 && BE(s[..b[sym]]) == CodeOf(b, c, sym)
    ensures CodeAt(c, BE(s)) == (Before(c0, b[sym]) + CountOf(b, sym, b[sym]), b[sym])
  {
    hide Pow2, BE, Before, FirstCode, CodeAt, Position, CountOf, Taken;
    var k := b[sym];
    var r := CountOf(b, sym, k);
    CountMonotone(b, sym, |b|, k);
    BeforeSame(c, c0, k);
    SymbolPosition(c, k, r, s, s[..k]);
    CodeAtIs(c, k, r, BE(s));
  }

  /** A string that starts with the r-th code of k bits lies in the interval of that code. */
  lemma SymbolPosition(c: Counts, k: nat, r: nat, s: Bits, cb: Bits)
    requires 1 <= k <= 15 && |s| == 15 && s[..k] == cb && BE(cb) == FirstCode(c, k) + r
    ensures Position(c, k, r) <= BE(s) < Position(c, k, r) + Pow2(15 - k)
  {
    hide Pow2, BE, FirstCode, Taken;
    SamePrefix(s, cb);
    FirstCodeStarts(c, k);
    MulDist(FirstCode(c, k), r, Pow2(15 - k));
  }

  /**
   * Builds the tables. The verdict depends on the Kraft sum of the lengths alone: more than all strings is a
   * data error, fewer with a longest code above one bit is a buffer error.
   */
  method HuftBuild(b: seq<nat>, s: nat, d: seq<nat>, e: seq<nat>, m: nat)
    returns (ret: Code, tabs: Tables, bits: nat, ghost c: Counts, ghost lo: nat, ghost hi: nat)
    requires Lengths(b) && |b| <= s + |d| && |d| == |e| && ExtraBitsOk(e)
    ensures ret != Z_STREAM_END
    ensures NoneUsed(b) ==> ret == Z_OK && tabs == [] && bits == 0
    ensures !NoneUsed(b) ==>
      && LengthRange(b, lo, hi) && (ret != Z_DATA_ERROR ==> bits == LookupBits(m, lo, hi))
      && (ret == Z_DATA_ERROR <==> KraftSum(b, |b|) > Pow2(15))
      && (ret == Z_BUF_ERROR <==> KraftSum(b, |b|) < Pow2(15) && hi != 1)
    ensures !NoneUsed(b) && ret != Z_DATA_ERROR ==>
      && FilledFrom(c, b, hi) && Shaped(tabs, s)
      && (NoSkip(c, bits) ==>
        DecodesAll(tabs, bits, b, c, s, d, e) && NoHoles(tabs, bits) && SymbolsOnly(tabs, s, d, e))
      && (!NoSkip(c, bits) ==> exists w: Bits :: |w| == 15 && Walk(tabs, 0, bits, 0, w) == Hole)
    ensures !NoneUsed(b) && KraftSum(b, |b|) == Pow2(15) ==>
      CountsOf(c, b, |b|) && (DecodesCanonical(tabs, bits, b, s, d, e) <==> NoSkip(c, bits))
  {
    hide Pow2, Taken, KraftSum, CountOf, NoSkip, DecodesAll, DecodesCanonical, NoHoles, SymbolsOnly, Walk, LengthRange, Inv, OrderedBy, Before, Shaped;
    var c0 := CountLengths(b);
    c, lo, hi := c0, 0, 0;
    CountBound(b, |b|);
    if c0[0] == |b| {
      return Z_OK, [], 0, c, lo, hi;
    }
    SomeLength(c0, b);
    var j, i := Extremes(c0);
    lo, hi := j, i;
    RangeOfCounts(c0, b, lo, hi);
    TakenIsKraft(c0, b, |b|);
    var l := LookupBits(m, j, i);
    var ok, y, c' := FillOut(c0, j, i);
    if !ok {
      return Z_DATA_ERROR, [], l, c, lo, hi;
    }
    c := c';
    TakenAbove(c', i, 15);
    var x := Offsets(c', i);
    forall k | 1 <= k <= i
      ensures x[k] == Before(c0, k)
    {
      BeforeSame(c', c0, k);
    }
    var v;
    v, x := SortValues(b, c0, x, i);
    var vals := Values(v, |b|, s, d, e);
    ghost var gh;
    tabs, gh := MakeTables(c', i, l, j, vals, x);
    FinishedTables(tabs, gh, b, c', c0, i, l, vals);
    if y == 0 {
      CompleteDecodes(tabs, l, b, c', s, d, e);
    }
    ret := if y != 0 && i != 1 then Z_BUF_ERROR else Z_OK;
    bits := l;
  }

  lemma {:induction false} CountBound(b: seq<nat>, n: nat)
    requires n <= |b|
    ensures CountOf(b, n, 0) <= n
    ensures CountOf(b, n, 0) == n <==> forall t :: 0 <= t < n ==> b[t] == 0
  {
    if n > 0 {
      CountBound(b, n - 1);
    }
  }

  lemma {:induction false} CountPositive(b: seq<nat>, n: nat, k: nat)
    requires n <= |b|
    ensures CountOf(b, n, k) > 0 <==> exists t :: 0 <= t < n && b[t] == k
  {
    if n > 0 {
      CountPositive(b, n - 1, k);
    }
  }

  lemma SomeLength(c: Counts, b: seq<nat>)
    requires Lengths(b) && CountsOf(c, b, |b|) && !NoneUsed(b)
    ensures exists k :: 1 <= k <= 15 && c[k] != 0
  {
    var t :| 0 <= t < |b| && b[t] != 0;
    CountPositive(b, |b|, b[t]);
  }

  lemma RangeOfCounts(c: Counts, b: seq<nat>, lo: nat, hi: nat)
    requires Lengths(b) && CountsOf(c, b, |b|)
    requires 1 <= lo <= hi <= 15 && c[lo] != 0 && c[hi] != 0
    requires forall k :: 1 <= k < lo ==> c[k] == 0
    requires forall k :: hi < k <= 15 ==> c[k] == 0
    ensures LengthRange(b, lo, hi) && forall t :: 0 <= t < |b| ==> b[t] <= hi
  {
    CountPositive(b, |b|, lo);
    CountPositive(b, |b|, hi);
    forall t | 0 <= t < |b| && b[t] != 0
      ensures lo <= b[t] <= hi
    {
      CountPositive(b, |b|, b[t]);
    }
  }

  /** Among the symbols of length k there is one of every rank below their number. */
  lemma {:induction false} SymbolOfRank(b: seq<nat>, n: nat, k: nat, r: nat) returns (sym: nat)
    requires n <= |b| && r < CountOf(b, n, k)
    ensures sym < n && b[sym] == k && CountOf(b, sym, k) == r
  {
    if b[n - 1] == k && CountOf(b, n - 1, k) == r {
      sym := n - 1;
    } else {
      sym := SymbolOfRank(b, n - 1, k, r);
    }
  }

  /** Every string begins with the code of a symbol, when the set is complete. */
  lemma StringHasSymbol(b: seq<nat>, c: Counts, w: Bits) returns (sym: nat)
    requires Lengths(b) && CountsOf(c, b, |b|) && Taken(c, 15) == Pow2(15) && |w| == 15
    ensures sym < |b| && b[sym] != 0 && BE(w[..b[sym]]) == CodeOf(b, c, sym)
  {
    hide Taken, FirstCode, BE, CountOf;
    BEBound(w);
    var k := LengthAt(c, BE(w), 15);
    var q := Pow2(15 - k);
    assert Taken(c, k) == Taken(c, k - 1) + c[k] * q by { TakenStep(c, k); }
    assert w == w[..k] + w[k..];
    BEConcat(w[..k], w[k..]);
    BEBound(w[k..]);
    FirstCodeStarts(c, k);
    var r := BE(w[..k]) - FirstCode(c, k);
    RankInside(BE(w[..k]), FirstCode(c, k), c[k], q, BE(w[k..]));
    sym := SymbolOfRank(b, |b|, k, r);
  }

  /** The length whose codes take position p. */
  lemma {:induction false} LengthAt(c: Counts, p: nat, n: nat) returns (k: nat)
    requires n <= 15 && p < Taken(c, n)
    ensures 1 <= k <= n && Taken(c, k - 1) <= p < Taken(c, k)
  {
    if p < Taken(c, n - 1) {
      k := LengthAt(c, p, n - 1);
    } else {
      k := n;
    }
  }

  lemma RankInside(x: nat, f: nat, n: nat, q: nat, low: nat)
    requires low < q && f * q <= x * q + low < f * q + n * q
    ensures f <= x < f + n
  {
    MulDist(f, n, q);
    MulCancelLt(x, f + n, q);
    Pred(x + 1, q);
    MulCancelLt(f, x + 1, q);
  }

  /** A complete set is decoded as it should be if and only if no code skips a level. */
  lemma CompleteDecodes(tabs: Tables, l: nat, b: seq<nat>, c: Counts, s: nat, d: seq<nat>, e: seq<nat>)
    requires Lengths(b) && |b| <= s + |d| && |d| == |e| && CountsOf(c, b, |b|) && Taken(c, 15) == Pow2(15)
    requires NoSkip(c, l) ==> DecodesAll(tabs, l, b, c, s, d, e)
    requires !NoSkip(c, l) ==> exists w: Bits :: |w| == 15 && Walk(tabs, 0, l, 0, w) == Hole
    ensures DecodesCanonical(tabs, l, b, s, d, e) <==> NoSkip(c, l)
  {
    hide NoSkip, Walk, Taken, Pow2, CodeOf, BE, CountOf;
    assert c == CountsIn(b);
    if !NoSkip(c, l) {
      var w: Bits :| |w| == 15 && Walk(tabs, 0, l, 0, w) == Hole;
      var sym := StringHasSymbol(b, c, w);
    }
  }

  /** What the invariant says when every code has been entered. */
  lemma FinishedTables(tabs: Tables, gh: Ghost, b: seq<nat>, c: Counts, c0: Counts, hi: nat, l: nat, vals: Values)
    requires Lengths(b) && vals.Valid() && vals.n == |b| <= vals.s + |vals.d| && |vals.d| == |vals.e|
    requires CountsOf(c0, b, |b|) && FilledFrom(c, b, hi) && OrderedBy(vals.v, b, c0, |b|)
    requires forall t :: 0 <= t < |b| ==> b[t] <= hi
    requires 1 <= hi && tabs != [] && Inv(tabs, gh, c, l, vals, Pow2(15), hi, c[hi])
    ensures Shaped(tabs, vals.s)
    ensures NoSkip(c, l) ==> DecodesAll(tabs, l, b, c, vals.s, vals.d, vals.e) && NoHoles(tabs, l)
    ensures NoSkip(c, l) ==> SymbolsOnly(tabs, vals.s, vals.d, vals.e)
    ensures !NoSkip(c, l) ==> exists w: Bits :: |w| == 15 && Walk(tabs, 0, l, 0, w) == Hole
  {
    hide Pow2, BE, Before, Walk, FirstCode, CodeAt, DecodesAll, Taken, SymbolsOnly;
    if gh.skip {
      var w := SkipLeavesHole(tabs, gh.tree, l, hi);
    } else {
      forall k: nat, r: nat, q: nat
        ensures !Skips(c, l, k, r, q)
      {
        if hi < k <= 15 {
          CountPositive(b, |b|, k);
          assert c[k] == 0;
        }
      }
      SymbolsDecoded(tabs, l, b, c, c0, hi, vals);
      LeavesAreSymbols(tabs, gh.tree, c, l, vals);
      assert tabs != [] && PlaceOk(tabs, gh.tree, l, 0);
      forall t: nat, j: nat | t < |tabs| && j < |tabs[t]|
        ensures tabs[t][j] != Unset
      {
        NoUnsetSlot(tabs, gh.tree, c, l, vals, t, j);
      }
      forall bits: Bits | |bits| == 15
        ensures Walk(tabs, 0, l, 0, bits).Found? && 1 <= Walk(tabs, 0, l, 0, bits).used <= 15
      {
        BEBound(bits);
        assert Walk(tabs, 0, l, 0, bits) == Target(c, vals, BE(bits));
      }
    }
  }
}
