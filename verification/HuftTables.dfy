/** The second half of huft_build: generating the codes in order and entering each in the tables (zlib.c). */
module HuftTables {

  import opened Arith
  import opened BitStrings
  import opened HuffmanCode
  import opened HuffmanIntervals
  import opened HuffmanTable
  import opened HuffmanInvariant
  import opened HuffmanPlacing

  /** Increments a code from its last bit backwards: clears the trailing ones and sets the bit before them. */
  method BackwardsIncrement(i: nat, k: nat, ghost cb: Bits) returns (i': nat, ghost cb': Bits)
    requires 1 <= k == |cb| <= 15 && i == LE(cb)
    ensures |cb'| == k && i' == LE(cb')
    ensures BE(cb) + 1 < Pow2(k) ==> BE(cb') == BE(cb) + 1
    ensures BE(cb) + 1 == Pow2(k) ==> cb' == Zeros(k)
  {
    hide Pow2, LE, BE;
    i', cb' := i, cb;
    var j := Pow2(k - 1);
    ghost var t := k;
    assert cb[..t] + Zeros(0) == cb;
    while j != 0 && TestBit(i', j)
      invariant 0 <= t <= k && j == if t > 0 then Pow2(t - 1) else 0
      invariant cb' == cb[..t] + Zeros(k - t) && i' == LE(cb')
      invariant forall b :: t <= b < k ==> cb[b]
      decreases t
    {
      LEBit(cb', t - 1);
      ghost var cleared := cb'[t - 1 := false];
      LEFlip(cleared, t - 1);
      assert cleared[t - 1 := true] == cb';
      assert cleared == cb[..t - 1] + Zeros(k - (t - 1));
      i' := i' - j;
      cb' := cleared;
      t := t - 1;
      Halve(t);
      j := j / 2;
    }
    if t > 0 {
      LEBit(cb', t - 1);
      LEFlip(cb', t - 1);
      IncrementTail(cb, t);
      assert cb'[t - 1 := true] == cb[..t - 1] + ([true] + Zeros(k - t));
      cb' := cb'[t - 1 := true];
      BEBound(cb');
    } else {
      AllOnes(cb);
    }
    i' := i' + j;
  }

  lemma Halve(t: nat)
    ensures Pow2(t) / 2 == if t > 0 then Pow2(t - 1) else 0
  {
  }

  lemma {:induction false} IncrementTail(cb: Bits, t: nat)
    requires 1 <= t <= |cb| && !cb[t - 1] && forall b :: t <= b < |cb| ==> cb[b]
    ensures BE(cb[..t - 1] + ([true] + Zeros(|cb| - t))) == BE(cb) + 1
  {
    var n := |cb| - t;
    var u := cb[..t - 1] + ([true] + Zeros(n));
    if n == 0 {
      assert u[..|u| - 1] == cb[..|cb| - 1];
    } else {
      var cb' := cb[..|cb| - 1];
      IncrementTail(cb', t);
      assert cb'[..t - 1] == cb[..t - 1];
      assert u[..|u| - 1] == cb[..t - 1] + ([true] + Zeros(n - 1));
    }
  }

  lemma {:induction false} AllOnes(cb: Bits)
    requires forall b :: 0 <= b < |cb| ==> cb[b]
    ensures BE(cb) + 1 == Pow2(|cb|)
  {
    if cb != [] {
      AllOnes(cb[..|cb| - 1]);
    }
  }

  /** The number of bits that a new table looks up: the fewest that hold all the codes of its subtree, up to l. */
  method ChooseBits(c: Counts, g: nat, l: nat, k: nat, w: nat, a: nat, ghost prefix: Bits) returns (j: nat)
    requires 1 <= l && w < k <= g <= 15 && |prefix| == w
    requires Taken(c, 15) == Taken(c, g) == Pow2(15)
    requires Taken(c, k) == SubStart(prefix) + (a + 1) * Pow2(15 - k)
    ensures 1 <= j && w + j <= g && (j > l <==> k > w + l)
    ensures j >= l || SubEnd(prefix) <= Taken(c, w + j)
  {
    hide Pow2, Taken, SubStart;
    var z := if g - w > l then l else g - w;
    j := k - w;
    var f: int := Pow2(j);
    Pow2Add(j, 15 - k);
    FirstPatterns(f, a + 1, Pow2(15 - k));
    if f > a + 1 {
      f := f - (a + 1);
      EndBound(prefix);
      while j + 1 < z
        invariant k - w <= j && (j > k - w ==> j < z)
        invariant f * Pow2(15 - (w + j)) == SubEnd(prefix) - Taken(c, w + j)
        decreases z - j
      {
        j := j + 1;
        PatternsLeft(c, f, w + j, SubEnd(prefix));
        f := f * 2;
        if f <= c[w + j] {
          return;
        }
        f := f - c[w + j];
      }
      if j < z {
        j := j + 1;
      }
    }
  }

  lemma FirstPatterns(f: int, a: int, p: nat)
    requires p >= 1
    ensures (f - a) * p == f * p - a * p
    ensures f - a <= 0 <==> f * p <= a * p
  {
    MulDist(f, a, p);
    SignOf(f - a, p);
  }

  /** The patterns left after one more bit, before and after taking away the codes of that length. */
  lemma PatternsLeft(c: Counts, f: int, n: nat, end: int)
    requires 1 <= n <= 15 && f * Pow2(15 - (n - 1)) == end - Taken(c, n - 1)
    ensures f * 2 <= c[n] <==> end <= Taken(c, n)
    ensures (f * 2 - c[n]) * Pow2(15 - n) == end - Taken(c, n)
  {
    hide Pow2, Taken;
    HalfUnit(f, n);
    NextTaken(c, n);
    FirstPatterns(f * 2, c[n], Pow2(15 - n));
  }

  lemma SignOf(y: int, p: nat)
    requires p >= 1
    ensures y <= 0 <==> y * p <= 0
  {
    if y > 0 { MulLe(1, y, p); } else { MulLe(y, 0, p); }
  }

  lemma HalfUnit(f: int, n: nat)
    requires 1 <= n <= 15
    ensures f * Pow2(15 - (n - 1)) == (f * 2) * Pow2(15 - n)
  {
    assert Pow2(15 - (n - 1)) == 2 * Pow2(15 - n);
    MulAssoc(f, 2, Pow2(15 - n));
  }

  lemma NextTaken(c: Counts, n: nat)
    requires 1 <= n <= 15
    ensures Taken(c, n) == Taken(c, n - 1) + c[n] * Pow2(15 - n)
  {
  }

  /**
   * The local variables of the table-making loop: the tables made so far, the table stack u and the code stack x
   * up to level h, the bits w before this table, and the current table q with its z entries.
   */
  datatype Builder = Builder(tabs: Tables, u: seq<nat>, x: seq<nat>, h: int, w: int, q: nat, z: nat)

  /** The builder's stacks hold the open tables and the prefixes that lead to them. */
  ghost predicate Tracks(bs: Builder, gh: Ghost, l: nat) {
    && |bs.u| == |bs.x| == 16 && bs.h == |gh.stack| - 1 < 15
    && bs.w == (if gh.stack == [] then 0 - l as int else TopWidth(gh.stack))
    && forall a :: 0 <= a < |gh.stack| ==> bs.u[a] == gh.stack[a].id && bs.x[a] == LE(gh.stack[a].prefix)
  }

  /** q and z are those of the open table, unless the next code opens another one anyway. */
  ghost predicate Current(bs: Builder, gh: Ghost, l: nat, k: nat) {
    gh.stack != [] && k <= TopWidth(gh.stack) + l ==>
      bs.q == gh.stack[|gh.stack| - 1].id && bs.z == Pow2(gh.stack[|gh.stack| - 1].size)
  }

  lemma {:induction false} WidthAtLeast(q: nat, l: nat)
    requires l >= 1
    ensures Width(q, l) >= q
  {
    if q > 0 {
      WidthAtLeast(q - 1, l);
    }
  }

  /** Making the first table. */
  method MakeRoot(bs: Builder, c: Counts, g: nat, l: nat, vals: Values, k: nat, a: nat)
    returns (bs': Builder, ghost gh: Ghost)
    requires vals.Valid() && 1 <= k <= l <= g <= 15 && k + l <= 30
    requires Taken(c, 15) == Taken(c, g) == Pow2(15) && c[g] > 0
    requires forall j :: 1 <= j < k ==> c[j] == 0
    requires Taken(c, k) == (a + 1) * Pow2(15 - k)
    requires |bs.u| == |bs.x| == 16 && bs.h == -1 && bs.w + l == 0 && bs.tabs == [] && bs.x[0] == 0
    ensures gh == RootGhost(l) && Tracks(bs', gh, l) && Current(bs', gh, l, k)
    ensures Inv(bs'.tabs, gh, c, l, vals, 0, k, 0)
  {
    hide Pow2, Taken;
    var h, w := bs.h + 1, bs.w + l;
    assert SubStart([]) == 0;
    var j := ChooseBits(c, g, l, k, w, a, []);
    RootIsFull(c, g, l, j);
    var t := |bs.tabs|;
    bs' := Builder(bs.tabs + [Fresh(j)], bs.u[h := t], bs.x, h, w, t, Pow2(j));
    gh := RootGhost(l);
    OpenRoot(c, l, vals, k);
  }

  lemma RootIsFull(c: Counts, g: nat, l: nat, j: nat)
    requires 1 <= l <= g <= 15 && 1 <= j <= l && c[g] > 0
    requires Taken(c, g) == Pow2(15)
    requires j >= l || SubEnd([]) <= Taken(c, j)
    ensures j == l
  {
    hide Pow2;
    if j < l {
      assert SubEnd([]) == Pow2(15);
      TakenMonotone(c, j, g - 1);
      NextTaken(c, g);
      MulLe(1, c[g], Pow2(15 - g));
    }
  }

  /** One turn of the loop that makes tables up to the level that the code of k bits needs. */
  method MakeTable(bs: Builder, ghost gh: Ghost, c: Counts, g: nat, l: nat, ghost vals: Values,
                   ghost cur: nat, i: nat, ghost cb: Bits, k: nat, ghost r: nat, a: nat)
    returns (bs': Builder, ghost gh': Ghost)
    requires vals.Valid() && Inv(bs.tabs, gh, c, l, vals, cur, k, r) && Tracks(bs, gh, l)
    requires gh.stack != [] && 1 <= l <= g <= 15 && 1 <= k <= g && |cb| == k && i == LE(cb) && r < c[k]
    requires cur == SubStart(cb) == Position(c, k, r)
    requires Taken(c, 15) == Taken(c, g) == Pow2(15) && Taken(c, k) == cur + (a + 1) * Pow2(15 - k)
    requires k > bs.w + l
    requires cb[..TopWidth(gh.stack)] == gh.stack[|gh.stack| - 1].prefix
    requires Aligned(cur, TopWidth(gh.stack) + l)
    ensures Inv(bs'.tabs, gh', c, l, vals, cur, k, r) && Tracks(bs', gh', l)
    ensures |gh'.stack| == |gh.stack| + 1 && TopWidth(gh'.stack) == TopWidth(gh.stack) + l
    ensures cb[..TopWidth(gh'.stack)] == gh'.stack[|gh'.stack| - 1].prefix
    ensures Skips(c, l, k, r, |gh.stack|) ==> gh'.skip
    ensures gh.skip ==> gh'.skip
    ensures bs'.q == gh'.stack[|gh'.stack| - 1].id && bs'.z == Pow2(gh'.stack[|gh'.stack| - 1].size)
  {
    hide Pow2, Taken, LE, BE, SubStart, SubEnd, LevelOk, PlaceOk, Decoded, SlotsBelow, Skips, Aligned, HoleAt;
    ghost var prefix := cb[..bs.w + l];
    LinkSlot(cb, bs.w, l);
    var h, w := bs.h + 1, bs.w + l;
    var j := ChooseBits(c, g, l, k, w, a, prefix);
    OpenKeeps(bs.tabs, gh, c, l, vals, cur, cb, k, r, j);
    gh' := Opened(bs.tabs, gh, l, cb, j).1;
    var t := |bs.tabs|;
    // connect to the last table
    LECut(cb, w - l);
    LECut(cb, w);
    assert cb[w..] == Zeros(k - w) by { assert cb[w - l..][l..] == cb[w..]; }
    ZerosValue(k - w);
    assert i == LE(prefix) by { assert cb == prefix + Zeros(k - w); PaddedValue(prefix, k - w); }
    var slot := i / Pow2(w - l);
    var parent := bs.u[h - 1];
    var tabs := bs.tabs[parent := bs.tabs[parent][slot := Link(j, l, t)]] + [Fresh(j)];
    StackDepth(tabs, gh'.stack, c, l, cur, k);
    bs' := Builder(tabs, bs.u[h := t], bs.x[h := i], h, w, t, Pow2(j));
  }

  lemma StackDepth(tabs: Tables, stack: seq<Level>, c: Counts, l: nat, cur: nat, k: nat)
    requires l >= 1 && k <= 15 && StackOk(tabs, stack, c, l, cur, k)
    ensures |stack| <= 15
  {
    if stack != [] {
      assert LevelOk(tabs, stack, c, l, cur, k, |stack| - 1);
      WidthAtLeast(|stack| - 1, l);
    }
  }

  /** What holds between two codes: the builder is settled, and i is the r-th code of k bits, at position cur. */
  ghost predicate AtCode(bs: Builder, gh: Ghost, c: Counts, l: nat, vals: Values, cur: nat, i: nat, cb: Bits, k: nat, r: nat)
    requires vals.Valid()
  {
    && 1 <= k <= 15 && 1 <= l <= 15 && r <= c[k] && |cb| == k && i == LE(cb)
    && Inv(bs.tabs, gh, c, l, vals, cur, k, r) && Settled(bs.tabs, gh.stack, cur)
    && Tracks(bs, gh, l) && Current(bs, gh, l, k)
    && NextCode(cb, cur) && cur == Position(c, k, r)
    && gh.stack != []
    && TopWidth(gh.stack) < k && cb[..TopWidth(gh.stack)] == gh.stack[|gh.stack| - 1].prefix
    && (TopWidth(gh.stack) + l <= 15 ==> Aligned(cur, TopWidth(gh.stack) + l))
  }

  /** The code set is complete and its longest codes have g bits. */
  ghost predicate Full(c: Counts, g: nat) {
    && 1 <= g <= 15 && c[g] > 0 && Taken(c, 15) == Taken(c, g) == Pow2(15)
  }

  /** A code that is still to come starts inside the set. */
  lemma CodeInside(c: Counts, g: nat, k: nat, r: nat)
    requires Full(c, g) && 1 <= k <= g && r < c[k]
    ensures Position(c, k, r) < Pow2(15)
    ensures Taken(c, k) == Position(c, k, r) + (c[k] - r) * Pow2(15 - k)
  {
    hide Pow2, Taken;
    NextTaken(c, k);
    TakenMonotone(c, k, g);
    MulDist(c[k], r, Pow2(15 - k));
    MulLe(1, c[k] - r, Pow2(15 - k));
  }

  /** The loop that makes tables up to the level of the code. */
  method MakeTablesFor(bs: Builder, ghost gh: Ghost, c: Counts, g: nat, l: nat, ghost vals: Values,
                       ghost cur: nat, i: nat, ghost cb: Bits, k: nat, ghost r: nat, a: nat)
    returns (bs': Builder, ghost gh': Ghost)
    requires vals.Valid() && AtCode(bs, gh, c, l, vals, cur, i, cb, k, r)
    requires Full(c, g) && k <= g && l <= g && r < c[k] && a + 1 == c[k] - r
    ensures Inv(bs'.tabs, gh', c, l, vals, cur, k, r) && Tracks(bs', gh', l)
    ensures MayPlace(gh', c, l, cur, cb, k, r)
    ensures forall q: nat :: Skips(c, l, k, r, q) ==> gh'.skip
    ensures bs'.q == gh'.stack[|gh'.stack| - 1].id && bs'.z == Pow2(gh'.stack[|gh'.stack| - 1].size)
  {
    hide Pow2, Taken, LE, BE, SubStart, SubEnd, LevelOk, PlaceOk, Decoded, SlotsBelow, Skips, Inv, Aligned, Settled;
    bs', gh' := bs, gh;
    CodeInside(c, g, k, r);
    forall q: nat | q < |gh.stack|
      ensures !Skips(c, l, k, r, q)
    {
      OpenLevelsNotSkipped(bs.tabs, gh, c, l, vals, cur, cb, k, r, q);
    }
    while k > bs'.w + l
      invariant gh'.stack != []
      invariant Inv(bs'.tabs, gh', c, l, vals, cur, k, r) && Tracks(bs', gh', l) && Current(bs', gh', l, k)
      invariant TopWidth(gh'.stack) < k && cb[..TopWidth(gh'.stack)] == gh'.stack[|gh'.stack| - 1].prefix
      invariant TopWidth(gh'.stack) + l <= 15 ==> Aligned(cur, TopWidth(gh'.stack) + l)
      invariant forall q: nat :: q < |gh'.stack| && Skips(c, l, k, r, q) ==> gh'.skip
      decreases k - bs'.w
    {
      ghost var w := TopWidth(gh'.stack) + l;
      bs', gh' := MakeTable(bs', gh', c, g, l, vals, cur, i, cb, k, r, a);
      if w + l <= 15 {
        AlignedFiner(cur, w, w + l);
      }
    }
    OpenEnough(bs'.tabs, gh', c, l, vals, cur, k, r);
  }

  /** Levels beyond the open one are too wide for the code to have skipped to. */
  lemma OpenEnough(tabs: Tables, gh: Ghost, c: Counts, l: nat, vals: Values, cur: nat, k: nat, r: nat)
    requires vals.Valid() && Inv(tabs, gh, c, l, vals, cur, k, r) && gh.stack != []
    requires k <= TopWidth(gh.stack) + l
    ensures forall q: nat :: Skips(c, l, k, r, q) ==> q < |gh.stack|
  {
    hide Pow2, Taken, SubStart, SubEnd, SlotsBelow, Decoded, Aligned;
    assert LevelOk(tabs, gh.stack, c, l, cur, k, |gh.stack| - 1);
    forall q: nat | Skips(c, l, k, r, q)
      ensures q < |gh.stack|
    {
      if q >= |gh.stack| - 1 {
        WiderLevels(l, |gh.stack| - 1, q);
      }
    }
  }

  /** Fills every f-th slot from first on with entry e. */
  method FillSlots(tab: Table, first: nat, f: nat, z: nat, e: Huft) returns (tab': Table)
    requires first < f && z == |tab|
    ensures |tab'| == |tab|
    ensures forall j :: 0 <= j < |tab| ==> tab'[j] == if j % f == first then e else tab[j]
  {
    tab' := tab;
    var j: nat := first;
    ModSmall(first, f);
    while j < z
      invariant |tab'| == |tab| && j % f == first
      invariant forall b :: 0 <= b < |tab| ==>
        tab'[b] == if b % f == first && b < j then e else tab[b]
      decreases z - j
    {
      ModNext(j, f);
      tab' := tab'[j := e];
      j := j + f;
    }
  }

  lemma ModSmall(a: nat, f: nat)
    requires a < f
    ensures a % f == a
    ensures forall b: nat :: b < a ==> b % f != a
  {
    forall b: nat | b < a
      ensures b % f != a
    {
      DivUnique(b, f, 0, b);
    }
    DivUnique(a, f, 0, a);
  }

  /** The next number with the same remainder is f further on. */
  lemma ModNext(j: nat, f: nat)
    requires f > 0
    ensures (j + f) % f == j % f
    ensures forall b: nat :: j < b < j + f ==> b % f != j % f
  {
    Decompose(j, f);
    Pred(j / f + 1, f);
    DivUnique(j + f, f, j / f + 1, j % f);
    forall b: nat | j < b < j + f
      ensures b % f != j % f
    {
      Decompose(b, f);
      if b % f == j % f {
        MulDist(b / f, j / f, f);
        MulCancelLt(0, b / f - j / f, f);
        MulCancelLt(b / f - j / f, 1, f);
        assert false;
      }
    }
  }

  /** Enters the code in the current table. */
  method PlaceCode(bs: Builder, ghost gh: Ghost, c: Counts, l: nat, vals: Values,
                   ghost cur: nat, i: nat, ghost cb: Bits, k: nat, ghost r: nat, p: nat)
    returns (bs': Builder, p': nat)
    requires vals.Valid() && Inv(bs.tabs, gh, c, l, vals, cur, k, r) && Tracks(bs, gh, l)
    requires MayPlace(gh, c, l, cur, cb, k, r) && i == LE(cb)
    requires forall q: nat :: Skips(c, l, k, r, q) ==> gh.skip
    requires bs.q == gh.stack[|gh.stack| - 1].id && bs.z == Pow2(gh.stack[|gh.stack| - 1].size)
    requires p == if Before(c, k) + r < vals.n then Before(c, k) + r else vals.n
    ensures bs' == bs.(tabs := bs'.tabs)
    ensures Inv(bs'.tabs, gh, c, l, vals, SubEnd(cb), k, r + 1) && Settled(bs'.tabs, gh.stack, SubEnd(cb))
    ensures SubEnd(cb) == Position(c, k, r + 1)
    ensures TopWidth(gh.stack) + l <= 15 ==> Aligned(SubEnd(cb), TopWidth(gh.stack) + l)
    ensures p' == if Before(c, k) + r + 1 < vals.n then Before(c, k) + r + 1 else vals.n
  {
    hide Pow2, Taken, LE, BE, SubStart, SubEnd, PlaceOk, Decoded, SlotsBelow, Skips, Aligned, Settled, Before;
    assert LevelOk(bs.tabs, gh.stack, c, l, cur, k, |gh.stack| - 1);
    var e := vals.LeafOf(p, k - bs.w);
    p' := if p < vals.n then p + 1 else p;
    LECut(cb, bs.w);
    LEBound(cb[bs.w..]);
    var first, f := i / Pow2(bs.w), Pow2(k - bs.w);
    var tab := FillSlots(bs.tabs[bs.q], first, f, bs.z, e);
    bs' := bs.(tabs := bs.tabs[bs.q := tab]);
    PlaceKeeps(bs.tabs, bs'.tabs, gh, c, l, vals, cur, cb, k, r);
  }

  /** Backs up over the tables that the next code is not in. */
  method CloseTables(bs: Builder, ghost gh: Ghost, c: Counts, l: nat, ghost vals: Values,
                     ghost cur: nat, i: nat, ghost cb: Bits, k: nat, ghost r: nat)
    returns (bs': Builder, ghost gh': Ghost)
    requires vals.Valid() && Inv(bs.tabs, gh, c, l, vals, cur, k, r) && Settled(bs.tabs, gh.stack, cur)
    requires Tracks(bs, gh, l) && Current(bs, gh, l, k)
    requires 1 <= l <= 15 && 1 <= k <= 15 && |cb| == k && i == LE(cb) && NextCode(cb, cur) && r <= c[k]
    requires cur == Position(c, k, r)
    requires gh.stack != [] && TopWidth(gh.stack) < k
    requires TopWidth(gh.stack) + l <= 15 ==> Aligned(cur, TopWidth(gh.stack) + l)
    ensures AtCode(bs', gh', c, l, vals, cur, i, cb, k, r)
  {
    hide Pow2, Taken, LE, BE, SubStart, SubEnd, LevelOk, PlaceOk, Decoded, SlotsBelow, Skips, Inv, Aligned, Settled;
    bs', gh' := bs, gh;
    while bs'.h >= 0 && i % Pow2(bs'.w) != bs'.x[bs'.h]
      invariant gh'.stack != [] && TopWidth(gh'.stack) < k
      invariant Inv(bs'.tabs, gh', c, l, vals, cur, k, r) && Settled(bs'.tabs, gh'.stack, cur)
      invariant Tracks(bs', gh', l) && Current(bs', gh', l, k)
      invariant TopWidth(gh'.stack) + l <= 15 ==> Aligned(cur, TopWidth(gh'.stack) + l)
      decreases bs'.h
    {
      LECut(cb, bs'.w);
      CloseKeeps(bs'.tabs, gh', c, l, vals, cur, cb, k, r);
      gh' := gh'.(stack := gh'.stack[..|gh'.stack| - 1]);
      bs' := bs'.(h := bs'.h - 1, w := bs'.w - l);
    }
    LECut(cb, bs'.w);
    LEInjective(cb[..bs'.w], gh'.stack[|gh'.stack| - 1].prefix);
  }

  /** After a code of interval [cur, cur + 2^(15-k)) its increment is the code at the end of the interval. */
  lemma IncrementPosition(cb: Bits, cb': Bits)
    requires 1 <= |cb| == |cb'| <= 15
    requires BE(cb) + 1 < Pow2(|cb|) ==> BE(cb') == BE(cb) + 1
    requires BE(cb) + 1 == Pow2(|cb|) ==> cb' == Zeros(|cb|)
    ensures NextCode(cb', SubEnd(cb))
  {
    hide Pow2, BE;
    var k := |cb|;
    BEBound(cb);
    EndBound(cb);
    Pred(BE(cb) + 1, Pow2(15 - k));
    if BE(cb) + 1 == Pow2(k) {
      Pow2Add(k, 15 - k);
    } else {
      BEBound(cb');
      MulLe(BE(cb') + 1, Pow2(k), Pow2(15 - k));
      Pred(BE(cb') + 1, Pow2(15 - k));
      Pow2Add(k, 15 - k);
    }
  }

  /** One code: make its tables, enter it, step to the next code and close what is complete. */
  method EnterCode(bs: Builder, ghost gh: Ghost, c: Counts, g: nat, l: nat, vals: Values,
                   ghost cur: nat, i: nat, ghost cb: Bits, k: nat, ghost r: nat, a: nat, p: nat)
    returns (bs': Builder, ghost gh': Ghost, i': nat, ghost cb': Bits, p': nat)
    requires vals.Valid() && AtCode(bs, gh, c, l, vals, cur, i, cb, k, r)
    requires Full(c, g) && k <= g && l <= g && r < c[k] && a + 1 == c[k] - r
    requires p == if Before(c, k) + r < vals.n then Before(c, k) + r else vals.n
    ensures AtCode(bs', gh', c, l, vals, Position(c, k, r + 1), i', cb', k, r + 1)
    ensures p' == if Before(c, k) + r + 1 < vals.n then Before(c, k) + r + 1 else vals.n
  {
    hide Pow2, Taken, LE, BE, SubStart, SubEnd, LevelOk, PlaceOk, Decoded, SlotsBelow, Skips, Inv, Aligned, Settled, Before;
    bs', gh' := MakeTablesFor(bs, gh, c, g, l, vals, cur, i, cb, k, r, a);
    bs', p' := PlaceCode(bs', gh', c, l, vals, cur, i, cb, k, r, p);
    i', cb' := BackwardsIncrement(i, k, cb);
    IncrementPosition(cb, cb');
    bs', gh' := CloseTables(bs', gh', c, l, vals, SubEnd(cb), i', cb', k, r + 1);
  }

  /** Goes through the bit lengths and enters every code; the first turn of the table-making loop comes first. */
  method MakeTables(c: Counts, g: nat, l: nat, lo: nat, vals: Values, x: seq<nat>)
    returns (tabs: Tables, ghost gh: Ghost)
    requires vals.Valid() && Full(c, g) && 1 <= lo <= l <= g && |x| == 16
    requires c[lo] > 0 && forall j :: 1 <= j < lo ==> c[j] == 0
    ensures tabs != [] && Inv(tabs, gh, c, l, vals, Pow2(15), g, c[g])
  {
    hide Pow2, Taken, LE, BE, SubStart, SubEnd, LevelOk, PlaceOk, Decoded, SlotsBelow, Skips, Inv, Aligned, Settled, Before;
    var k := lo;
    var i: nat := 0;
    var p: nat := 0;
    var bs := Builder([], Counts16(), x[0 := 0], -1, 0 - l as int, 0, 0);
    NextTaken(c, lo);
    NoneBelow(c, lo);
    bs, gh := MakeRoot(bs, c, g, l, vals, k, c[k] - 1);
    ghost var cb, cur := Zeros(k), 0;
    StartsAtCode(bs, gh, c, l, vals, k);
    while k <= g
      invariant lo <= k <= g + 1
      invariant k <= g ==> AtCode(bs, gh, c, l, vals, cur, i, cb, k, 0)
      invariant k <= g ==> p == if Before(c, k) < vals.n then Before(c, k) else vals.n
      invariant k == g + 1 ==> bs.tabs != [] && Inv(bs.tabs, gh, c, l, vals, Pow2(15), g, c[g])
    {
      var a := c[k];
      while a > 0
        invariant a <= c[k] && cur == Position(c, k, c[k] - a)
        invariant AtCode(bs, gh, c, l, vals, cur, i, cb, k, c[k] - a)
        invariant var m := Before(c, k) + (c[k] - a); p == if m < vals.n then m else vals.n
      {
        a := a - 1;
        bs, gh, i, cb, p := EnterCode(bs, gh, c, g, l, vals, cur, i, cb, k, c[k] - a - 1, a, p);
        cur := Position(c, k, c[k] - a);
      }
      if k < g {
        NextLengthAtCode(bs, gh, c, g, l, vals, cur, i, cb, k);
        cb := cb + Zeros(1);
      } else {
        NextTaken(c, g);
        SomeTable(bs.tabs, gh, c, l, vals, cur, k, c[k]);
      }
      k := k + 1;
    }
    tabs := bs.tabs;
  }

  lemma SomeTable(tabs: Tables, gh: Ghost, c: Counts, l: nat, vals: Values, cur: nat, k: nat, r: nat)
    requires vals.Valid() && gh.stack != [] && Inv(tabs, gh, c, l, vals, cur, k, r)
    ensures tabs != []
  {
    assert LevelOk(tabs, gh.stack, c, l, cur, k, 0);
  }

  lemma {:induction false} NoneBelow(c: Counts, lo: nat)
    requires 1 <= lo <= 15 && forall j :: 1 <= j < lo ==> c[j] == 0
    ensures Taken(c, lo - 1) == 0 && Before(c, lo) == 0
  {
    if lo > 1 {
      NoneBelow(c, lo - 1);
    }
  }

  lemma StartsAtCode(bs: Builder, gh: Ghost, c: Counts, l: nat, vals: Values, k: nat)
    requires vals.Valid() && 1 <= k <= l <= 15 && gh == RootGhost(l)
    requires Tracks(bs, gh, l) && Current(bs, gh, l, k) && Inv(bs.tabs, gh, c, l, vals, 0, k, 0)
    requires Taken(c, k - 1) == 0
    ensures AtCode(bs, gh, c, l, vals, 0, 0, Zeros(k), k, 0)
  {
    hide Pow2, Taken, LE, BE, PlaceOk, Decoded, SlotsBelow, Skips;
    assert LevelOk(bs.tabs, gh.stack, c, l, 0, k, 0);
    ZerosValue(k);
    ZeroTimes(0, Pow2(15 - k));
    ZeroAligned(l);
    assert Zeros(k)[..0] == [];
  }

  lemma ZeroAligned(k: nat)
    requires k <= 15
    ensures Aligned(0, k)
  {
    ZeroTimes(0, Pow2(15 - k));
    assert Multiple(0, 0, k);
  }

  /** The step to the next bit length leaves i as it is: the code gets a zero at its end. */
  lemma NextLengthAtCode(bs: Builder, gh: Ghost, c: Counts, g: nat, l: nat, vals: Values,
                         cur: nat, i: nat, cb: Bits, k: nat)
    requires vals.Valid() && Full(c, g) && k < g && AtCode(bs, gh, c, l, vals, cur, i, cb, k, c[k])
    ensures AtCode(bs, gh, c, l, vals, cur, i, cb + Zeros(1), k + 1, 0)
    ensures Before(c, k + 1) == Before(c, k) + c[k]
  {
    hide Pow2, Taken, LE, BE, SubStart, SubEnd, LevelOk, PlaceOk, Decoded, SlotsBelow, Skips, Inv, Aligned, Settled;
    NextLength(bs.tabs, gh, c, l, vals, cur, k);
    PaddedValue(cb, 1);
    NextTaken(c, k);
    ZeroTimes(0, Pow2(15 - (k + 1)));
    if cur < Pow2(15) {
      StartZeros(cb, 1);
    } else {
      assert cb + Zeros(1) == Zeros(k + 1);
    }
    var w := TopWidth(gh.stack);
    assert (cb + Zeros(1))[..w] == cb[..w];
  }
}
