/** Placing a code in the open table, and closing tables that are complete (zlib.c, huft_build). */
module HuffmanPlacing {

  import opened Arith
  import opened BitStrings
  import opened HuffmanCode
  import opened HuffmanIntervals
  import opened HuffmanTable
  import opened HuffmanInvariant

  ghost predicate MayPlace(gh: Ghost, c: Counts, l: nat, cur: nat, cb: Bits, k: nat, r: nat) {
    && gh.stack != [] && 1 <= l <= 15 && 1 <= k <= 15 && |cb| == k && r < c[k]
    && cur == SubStart(cb) == Position(c, k, r)
    && TopWidth(gh.stack) < k <= TopWidth(gh.stack) + l
    && cb[..TopWidth(gh.stack)] == gh.stack[|gh.stack| - 1].prefix
  }

  /** tab' is tab with leaf in every slot whose low bits are p. */
  ghost predicate FilledWith(tab: Table, tab': Table, p: Bits, leaf: Huft) {
    && |tab'| == |tab|
    && forall j :: 0 <= j < |tab| ==> tab'[j] == if j % Pow2(|p|) == LE(p) then leaf else tab[j]
  }

  /** Filling, said of the strings that pick the slots. */
  lemma FilledAt(tab: Table, tab': Table, p: Bits, leaf: Huft, t: Bits)
    requires FilledWith(tab, tab', p, leaf) && |p| <= |t| && LE(t) < |tab|
    ensures tab'[LE(t)] == if t[..|p|] == p then leaf else tab[LE(t)]
  {
    hide Pow2, LE;
    LECut(t, |p|);
    if LE(t[..|p|]) == LE(p) {
      LEInjective(t[..|p|], p);
    }
  }

  /** The open table is large enough for the code. */
  lemma CodeFits(tabs: Tables, gh: Ghost, c: Counts, l: nat, cur: nat, cb: Bits, k: nat, r: nat)
    requires MayPlace(gh, c, l, cur, cb, k, r) && StackOk(tabs, gh.stack, c, l, cur, k)
    ensures k <= TopWidth(gh.stack) + gh.stack[|gh.stack| - 1].size
  {
    hide Pow2, Taken, SlotsBelow;
    var top := gh.stack[|gh.stack| - 1];
    assert LevelOk(tabs, gh.stack, c, l, cur, k, |gh.stack| - 1);
    StartInside(top.prefix, cb);
    if |top.prefix| + top.size < k {
      TakenMonotone(c, |top.prefix| + top.size, k - 1);
      Nonneg(r, Pow2(15 - k));
    }
  }

  /** The prefixes of the open tables are all prefixes of the code. */
  lemma {:induction false} PrefixChain(tabs: Tables, stack: seq<Level>, c: Counts, l: nat, cur: nat, k: nat, cb: Bits, a: nat)
    requires stack != [] && StackOk(tabs, stack, c, l, cur, k) && a < |stack|
    requires TopWidth(stack) <= |cb| && cb[..TopWidth(stack)] == stack[|stack| - 1].prefix
    ensures |stack[a].prefix| <= TopWidth(stack) && cb[..|stack[a].prefix|] == stack[a].prefix
    decreases |stack| - a
  {
    hide Pow2, Taken, SlotsBelow, SubStart, SubEnd;
    if a < |stack| - 1 {
      PrefixChain(tabs, stack, c, l, cur, k, cb, a + 1);
      assert LevelOk(tabs, stack, c, l, cur, k, a + 1);
      var w := |stack[a].prefix|;
      assert cb[..w] == cb[..|stack[a + 1].prefix|][..w];
    }
  }

  /** The slots that a code fills were unset, and what is set afterwards starts before the end of the code. */
  lemma FillKeepsSlots(tab: Table, tab': Table, prefix: Bits, size: nat, cb: Bits, cur: nat, leaf: Huft)
    requires |prefix| < |cb| <= |prefix| + size <= 15 && |tab| == Pow2(size)
    requires cb[..|prefix|] == prefix && cur == SubStart(cb)
    requires SlotsBelow(tab, prefix, size, cur)
    requires FilledWith(tab, tab', cb[|prefix|..], leaf)
    ensures TableExtends(tab, tab') && SlotsBelow(tab', prefix, size, SubEnd(cb))
  {
    hide Pow2, LE, SubStart, SubEnd, FilledWith;
    var p := cb[|prefix|..];
    EndAfterStart(cb);
    forall t: Bits | |t| == size && LE(t) < |tab|
      ensures |tab'| == |tab|
      ensures tab[LE(t)] != Unset ==> tab'[LE(t)] == tab[LE(t)]
      ensures (tab'[LE(t)] != Unset ==> SubStart(prefix + t) < SubEnd(cb))
    {
      FilledAt(tab, tab', p, leaf, t);
      FillLength(tab, tab', p, leaf);
      StartInside(cb, prefix + t);
      assert (prefix + t)[..|cb|] == prefix + t[..|p|];
      assert cb == prefix + p;
    }
    FillLength(tab, tab', p, leaf);
    forall j | 0 <= j < |tab| && tab[j] != Unset
      ensures tab'[j] == tab[j]
    {
      LEToBits(j, size);
      assert LE(ToBits(j, size)) == j;
    }
  }

  lemma FillLength(tab: Table, tab': Table, p: Bits, leaf: Huft)
    requires FilledWith(tab, tab', p, leaf)
    ensures |tab'| == |tab|
  {
  }

  /** The ghost state does not change when a code is placed; the tables do. */
  ghost predicate Placed(tabs: Tables, tabs': Tables, gh: Ghost, cb: Bits, leaf: Huft)
    requires gh.stack != [] && TopWidth(gh.stack) <= |cb|
  {
    var id := gh.stack[|gh.stack| - 1].id;
    && id < |tabs| == |tabs'|
    && tabs' == tabs[id := tabs'[id]]
    && FilledWith(tabs[id], tabs'[id], cb[TopWidth(gh.stack)..], leaf)
  }

  lemma PlaceLevel(tabs: Tables, tabs': Tables, gh: Ghost, c: Counts, l: nat, cur: nat, cb: Bits, k: nat, r: nat,
                   leaf: Huft, a: nat)
    requires MayPlace(gh, c, l, cur, cb, k, r) && StackOk(tabs, gh.stack, c, l, cur, k)
    requires Placed(tabs, tabs', gh, cb, leaf) && a < |gh.stack|
    ensures LevelOk(tabs', gh.stack, c, l, SubEnd(cb), k, a)
    ensures var v := gh.stack[a];
      SubStart(v.prefix) < SubEnd(cb) && SlotsBelow(tabs'[v.id], v.prefix, v.size, SubEnd(cb))
  {
    hide Pow2, LE, Taken, SubStart, SubEnd, FilledWith, SlotsBelow;
    var n := |gh.stack| - 1;
    var top, v := gh.stack[n], gh.stack[a];
    assert LevelOk(tabs, gh.stack, c, l, cur, k, n);
    assert LevelOk(tabs, gh.stack, c, l, cur, k, a);
    CodeFits(tabs, gh, c, l, cur, cb, k, r);
    PrefixChain(tabs, gh.stack, c, l, cur, k, cb, a);
    StartInside(v.prefix, cb);
    EndAfterStart(cb);
    if a == n {
      FillKeepsSlots(tabs[top.id], tabs'[top.id], top.prefix, top.size, cb, cur, leaf);
      SlotsMore(tabs'[top.id], top.prefix, top.size, SubEnd(cb), SubEnd(cb) + 1);
    } else {
      IdsIncrease(tabs, gh.stack, c, l, cur, k, a, n);
      SlotsMore(tabs[v.id], v.prefix, v.size, cur + 1, SubEnd(cb));
      SlotsMore(tabs[v.id], v.prefix, v.size, cur + 1, SubEnd(cb) + 1);
    }
  }

  lemma SlotsMore(tab: Table, prefix: Bits, size: nat, lim: nat, lim': nat)
    requires |prefix| + size <= 15 && SlotsBelow(tab, prefix, size, lim) && lim <= lim'
    ensures SlotsBelow(tab, prefix, size, lim')
  {
  }

  lemma PlaceStack(tabs: Tables, tabs': Tables, gh: Ghost, c: Counts, l: nat, cur: nat, cb: Bits, k: nat, r: nat, leaf: Huft)
    requires MayPlace(gh, c, l, cur, cb, k, r) && StackOk(tabs, gh.stack, c, l, cur, k)
    requires Placed(tabs, tabs', gh, cb, leaf)
    ensures Extends(tabs, tabs') && StackOk(tabs', gh.stack, c, l, SubEnd(cb), k)
    ensures Settled(tabs', gh.stack, SubEnd(cb))
  {
    hide Pow2, LE, Taken, SubStart, SubEnd, FilledWith, SlotsBelow;
    var top := gh.stack[|gh.stack| - 1];
    assert LevelOk(tabs, gh.stack, c, l, cur, k, |gh.stack| - 1);
    CodeFits(tabs, gh, c, l, cur, cb, k, r);
    FillKeepsSlots(tabs[top.id], tabs'[top.id], top.prefix, top.size, cb, cur, leaf);
    forall a | 0 <= a < |gh.stack|
      ensures LevelOk(tabs', gh.stack, c, l, SubEnd(cb), k, a)
      ensures var v := gh.stack[a];
        SubStart(v.prefix) < SubEnd(cb) && SlotsBelow(tabs'[v.id], v.prefix, v.size, SubEnd(cb))
    {
      PlaceLevel(tabs, tabs', gh, c, l, cur, cb, k, r, leaf, a);
    }
  }

  /** The strings that start with the code are decoded once it has been placed. */
  lemma PlaceDecodes(tabs: Tables, tabs': Tables, gh: Ghost, c: Counts, l: nat, vals: Values,
                     cur: nat, cb: Bits, k: nat, r: nat)
    requires vals.Valid() && MayPlace(gh, c, l, cur, cb, k, r) && Inv(tabs, gh, c, l, vals, cur, k, r) && !gh.skip
    requires Placed(tabs, tabs', gh, cb, vals.LeafOf(Before(c, k) + r, k - TopWidth(gh.stack)))
    ensures Decoded(tabs', l, c, vals, SubEnd(cb))
  {
    hide Pow2, LE, BE, Taken, SubStart, SubEnd, FilledWith, SlotsBelow;
    var leaf := vals.LeafOf(Before(c, k) + r, k - TopWidth(gh.stack));
    PlaceStack(tabs, tabs', gh, c, l, cur, cb, k, r, leaf);
    DecodedStable(tabs, tabs', l, c, vals, cur);
    TreeStable(tabs, tabs', gh.tree, l);
    StackIds(tabs, gh.stack, c, l, cur, k);
    forall s: Bits | |s| == 15 && BE(s) < SubEnd(cb)
      ensures Walk(tabs', 0, l, 0, s) == Target(c, vals, BE(s))
    {
      if BE(s) >= cur {
        InInterval(cb, s);
        CodeWalk(tabs, tabs', gh, c, l, vals, cur, cb, k, r, s);
      }
    }
  }

  lemma CodeWalk(tabs: Tables, tabs': Tables, gh: Ghost, c: Counts, l: nat, vals: Values,
                 cur: nat, cb: Bits, k: nat, r: nat, s: Bits)
    requires vals.Valid() && MayPlace(gh, c, l, cur, cb, k, r) && StackOk(tabs, gh.stack, c, l, cur, k)
    requires Placed(tabs, tabs', gh, cb, vals.LeafOf(Before(c, k) + r, k - TopWidth(gh.stack)))
    requires TreeOk(tabs', gh.tree, l) && Matches(gh.tree, gh.stack)
    requires gh.stack[|gh.stack| - 1].id < |gh.tree|
    requires |s| == 15 && s[..k] == cb && cur <= BE(s) < SubEnd(cb)
    ensures Walk(tabs', 0, l, 0, s) == Target(c, vals, BE(s))
  {
    hide Pow2, LE, BE, Taken, SubStart, FilledWith, SlotsBelow, Before, CodeAt, Walk, PlaceOk, LevelOk;
    var w := TopWidth(gh.stack);
    var top := gh.stack[|gh.stack| - 1];
    SlotOfCode(tabs, tabs', gh, c, l, cur, cb, k, r, vals.LeafOf(Before(c, k) + r, k - w), s);
    assert s[..w] == cb[..w];
    WalkThrough(tabs', gh.tree, l, top.id, s);
    WalkEntry(tabs', top.id, top.size, w, s);
    CodeAtIs(c, k, r, BE(s));
  }

  /** A string that starts with the code picks a slot that holds the code's entry. */
  lemma SlotOfCode(tabs: Tables, tabs': Tables, gh: Ghost, c: Counts, l: nat, cur: nat, cb: Bits, k: nat, r: nat,
                   leaf: Huft, s: Bits)
    requires MayPlace(gh, c, l, cur, cb, k, r) && StackOk(tabs, gh.stack, c, l, cur, k)
    requires Placed(tabs, tabs', gh, cb, leaf)
    requires |s| == 15 && s[..k] == cb
    ensures var v, w := gh.stack[|gh.stack| - 1], TopWidth(gh.stack);
      && w + v.size <= 15 && LE(s[w..w + v.size]) < |tabs'[v.id]|
      && tabs'[v.id][LE(s[w..w + v.size])] == leaf
  {
    hide Pow2, LE, BE, Taken, SubStart, SubEnd, FilledWith, SlotsBelow;
    var w := TopWidth(gh.stack);
    var top := gh.stack[|gh.stack| - 1];
    assert LevelOk(tabs, gh.stack, c, l, cur, k, |gh.stack| - 1);
    CodeFits(tabs, gh, c, l, cur, cb, k, r);
    var t := s[w..w + top.size];
    assert t[..k - w] == s[..k][w..] == cb[w..];
    LEBound(t);
    FilledAt(tabs[top.id], tabs'[top.id], cb[w..], leaf, t);
    FillLength(tabs[top.id], tabs'[top.id], cb[w..], leaf);
  }

  lemma WalkEntry(tabs: Tables, t: nat, sz: nat, w: nat, s: Bits)
    requires t < |tabs| && w + sz <= |s| && LE(s[w..w + sz]) < |tabs[t]| && tabs[t][LE(s[w..w + sz])].Entry?
    ensures var e := tabs[t][LE(s[w..w + sz])]; Walk(tabs, t, sz, w, s) == Found(e.exop, e.base, w + e.bits)
  {
  }

  lemma PlaceShaped(tabs: Tables, tabs': Tables, gh: Ghost, cb: Bits, leaf: Huft, s: nat)
    requires gh.stack != [] && TopWidth(gh.stack) <= |cb| && Placed(tabs, tabs', gh, cb, leaf)
    requires Shaped(tabs, s) && leaf.Entry? && SlotOk(leaf, s)
    requires Pow2(leaf.bits) <= |tabs[gh.stack[|gh.stack| - 1].id]|
    ensures Shaped(tabs', s)
  {
    hide Pow2, LE, SlotOk;
    var id := gh.stack[|gh.stack| - 1].id;
    forall t, i | 0 <= t < |tabs'| && 0 <= i < |tabs'[t]|
      ensures SlotOk(tabs'[t][i], s) && SlotFits(tabs', t, tabs'[t][i])
    {
      if tabs'[t][i] == tabs[t][i] {
        SlotFitsKept(tabs, tabs', t, tabs[t][i]);
      }
    }
  }

  lemma LeafFits(tabs: Tables, gh: Ghost, c: Counts, l: nat, cur: nat, cb: Bits, k: nat, r: nat)
    requires MayPlace(gh, c, l, cur, cb, k, r) && StackOk(tabs, gh.stack, c, l, cur, k)
    ensures gh.stack[|gh.stack| - 1].id < |tabs|
    ensures Pow2(k - TopWidth(gh.stack)) <= |tabs[gh.stack[|gh.stack| - 1].id]|
  {
    hide Pow2, Taken, SlotsBelow, SubStart, SubEnd;
    assert LevelOk(tabs, gh.stack, c, l, cur, k, |gh.stack| - 1);
    CodeFits(tabs, gh, c, l, cur, cb, k, r);
    Pow2Up(k - TopWidth(gh.stack), gh.stack[|gh.stack| - 1].size);
  }

  /** Placing a code keeps the invariant and moves on by the code's interval. */
  lemma PlaceKeeps(tabs: Tables, tabs': Tables, gh: Ghost, c: Counts, l: nat, vals: Values,
                   cur: nat, cb: Bits, k: nat, r: nat)
    requires vals.Valid() && MayPlace(gh, c, l, cur, cb, k, r) && Inv(tabs, gh, c, l, vals, cur, k, r)
    requires forall q: nat :: Skips(c, l, k, r, q) ==> gh.skip
    requires Placed(tabs, tabs', gh, cb, vals.LeafOf(Before(c, k) + r, k - TopWidth(gh.stack)))
    ensures Inv(tabs', gh, c, l, vals, SubEnd(cb), k, r + 1)
    ensures Settled(tabs', gh.stack, SubEnd(cb))
    ensures SubEnd(cb) == Position(c, k, r + 1)
    ensures TopWidth(gh.stack) + l <= 15 ==> Aligned(SubEnd(cb), TopWidth(gh.stack) + l)
  {
    hide Pow2, LE, BE, Taken, SubStart, FilledWith, SlotsBelow, Before, LevelOk, PlaceOk, Decoded, Aligned, Shaped;
    PlaceStack(tabs, tabs', gh, c, l, cur, cb, k, r, vals.LeafOf(Before(c, k) + r, k - TopWidth(gh.stack)));
    LeafFits(tabs, gh, c, l, cur, cb, k, r);
    PlaceShaped(tabs, tabs', gh, cb, vals.LeafOf(Before(c, k) + r, k - TopWidth(gh.stack)), vals.s);
    TreeStable(tabs, tabs', gh.tree, l);
    Pred(r + 1, Pow2(15 - k));
    StartAligned(cb);
    if TopWidth(gh.stack) + l <= 15 {
      AlignedFiner(SubEnd(cb), k, TopWidth(gh.stack) + l);
    }
    if gh.skip {
      assert gh.stack[|gh.stack| - 1].id != |gh.tree| - 1;
      assert HoleAt(tabs', gh.tree, l, k);
    } else {
      PlaceDecodes(tabs, tabs', gh, c, l, vals, cur, cb, k, r);
    }
  }

  // ----- closing tables and moving on

  /** The code that follows at position cur: its bits, or all zeros when every string has been used up. */
  ghost predicate NextCode(cb: Bits, cur: nat) {
    && |cb| <= 15 && cur <= Pow2(15)
    && if cur < Pow2(15) then SubStart(cb) == cur else cb == Zeros(|cb|)
  }

  /** A table whose prefix the next code does not have is complete: closing it keeps everything. */
  lemma CloseKeeps(tabs: Tables, gh: Ghost, c: Counts, l: nat, vals: Values, cur: nat, cb: Bits, k: nat, r: nat)
    requires vals.Valid() && gh.stack != [] && |cb| == k <= 15
    requires Inv(tabs, gh, c, l, vals, cur, k, r) && Settled(tabs, gh.stack, cur)
    requires NextCode(cb, cur) && TopWidth(gh.stack) <= k
    requires cb[..TopWidth(gh.stack)] != gh.stack[|gh.stack| - 1].prefix
    ensures |gh.stack| >= 2 && TopWidth(gh.stack[..|gh.stack| - 1]) + l == TopWidth(gh.stack)
    ensures var gh' := gh.(stack := gh.stack[..|gh.stack| - 1]);
      Inv(tabs, gh', c, l, vals, cur, k, r) && Settled(tabs, gh'.stack, cur)
    ensures Aligned(cur, TopWidth(gh.stack))
  {
    hide Pow2, LE, BE, Taken, SlotsBelow, PlaceOk, Decoded, Aligned;
    var n := |gh.stack| - 1;
    var top := gh.stack[n];
    assert LevelOk(tabs, gh.stack, c, l, cur, k, n);
    assert cb[..0] == [];
    EndBound(top.prefix);
    if cur < Pow2(15) {
      StartInside(top.prefix, cb);
    }
    assert cur == SubEnd(top.prefix);
    StartAligned(top.prefix);
    var gh' := gh.(stack := gh.stack[..n]);
    forall a | 0 <= a < n
      ensures LevelOk(tabs, gh'.stack, c, l, cur, k, a)
    {
      assert LevelOk(tabs, gh.stack, c, l, cur, k, a);
    }
  }

  /** After the last code of k bits come those of k + 1 bits. */
  lemma NextLength(tabs: Tables, gh: Ghost, c: Counts, l: nat, vals: Values, cur: nat, k: nat)
    requires vals.Valid() && k < 15 && Inv(tabs, gh, c, l, vals, cur, k, c[k])
    ensures Inv(tabs, gh, c, l, vals, cur, k + 1, 0)
  {
    hide Pow2, LE, BE, Taken, SlotsBelow, PlaceOk, Decoded, Aligned, SubStart, SubEnd;
    var k' := k + 1;
    forall a | 0 <= a < |gh.stack|
      ensures LevelOk(tabs, gh.stack, c, l, cur, k', a)
    {
      assert LevelOk(tabs, gh.stack, c, l, cur, k, a);
    }
  }

  /** Between codes, no open level has been skipped to by the next code. */
  lemma OpenLevelsNotSkipped(tabs: Tables, gh: Ghost, c: Counts, l: nat, vals: Values, cur: nat, cb: Bits, k: nat, r: nat, q: nat)
    requires vals.Valid() && Inv(tabs, gh, c, l, vals, cur, k, r) && Settled(tabs, gh.stack, cur)
    requires gh.stack != [] && 1 <= k <= 15 && |cb| == k && cur == SubStart(cb) == Position(c, k, r)
    requires TopWidth(gh.stack) <= k && cb[..TopWidth(gh.stack)] == gh.stack[|gh.stack| - 1].prefix
    requires q < |gh.stack|
    ensures !Skips(c, l, k, r, q)
  {
    hide Pow2, LE, BE, Taken, SlotsBelow, PlaceOk, Decoded;
    var v := gh.stack[q];
    assert LevelOk(tabs, gh.stack, c, l, cur, k, q);
    PrefixChain(tabs, gh.stack, c, l, cur, k, cb, q);
    StartInside(v.prefix, cb);
    if Skips(c, l, k, r, q) {
      AlignedStart(v.prefix, cur);
    }
  }

  lemma AlignedStart(t: Bits, p: nat)
    requires |t| <= 15 && Aligned(p, |t|) && SubStart(t) <= p < SubEnd(t)
    ensures p == SubStart(t)
  {
    hide Pow2;
    var m: nat :| Multiple(p, m, |t|);
    DivUnique(p, Pow2(15 - |t|), m, 0);
    DivUnique(p, Pow2(15 - |t|), BE(t), p - SubStart(t));
  }

  /** A level that is not open is too wide to be skipped to by a code that fits the open table. */
  lemma {:induction false} WiderLevels(l: nat, a: nat, q: nat)
    requires a <= q
    ensures Width(a, l) <= Width(q, l)
  {
    if a < q {
      WiderLevels(l, a, q - 1);
    }
  }

  // ----- the finished tables

  /** When a code skipped a level there is a 15-bit string whose lookup reads a slot that was never written. */
  lemma SkipLeavesHole(tabs: Tables, tree: seq<Place>, l: nat, k: nat) returns (s: Bits)
    requires 0 < |tree| && TreeOk(tabs, tree, l) && HoleAt(tabs, tree, l, k)
    ensures |s| == 15 && Walk(tabs, 0, l, 0, s) == Hole
  {
    hide Pow2, LE, BE;
    var t := |tree| - 1;
    var p := tree[t];
    var q := Zeros(l) + ([true] + Zeros(p.size - l - 1));
    s := p.prefix + q + Zeros(15 - |p.prefix| - p.size);
    assert s[..|p.prefix|] == p.prefix;
    assert s[|p.prefix|..|p.prefix| + p.size] == q;
    OneBit(l, p.size - l - 1);
    WalkThrough(tabs, tree, l, t, s);
  }

  lemma OneBit(l: nat, n: nat)
    ensures LE(Zeros(l) + ([true] + Zeros(n))) == Pow2(l)
  {
    LEConcat(Zeros(l), [true] + Zeros(n));
    assert ([true] + Zeros(n))[1..] == Zeros(n);
    ZerosValue(l);
    ZerosValue(n);
  }

  /** When every string is decoded, every slot of every table has been written. */
  lemma NoUnsetSlot(tabs: Tables, tree: seq<Place>, c: Counts, l: nat, vals: Values, t: nat, j: nat)
    requires vals.Valid() && |tree| == |tabs| && TreeOk(tabs, tree, l)
    requires Decoded(tabs, l, c, vals, Pow2(15))
    requires t < |tabs| && j < |tabs[t]|
    ensures tabs[t][j] != Unset
  {
    hide Pow2, LE, BE;
    assert PlaceOk(tabs, tree, l, t);
    var p := tree[t];
    var q := ToBits(j, p.size);
    LEToBits(j, p.size);
    var s := p.prefix + q + Zeros(15 - |p.prefix| - p.size);
    assert s[..|p.prefix|] == p.prefix;
    assert s[|p.prefix|..|p.prefix| + p.size] == q;
    BEBound(s);
    WalkThrough(tabs, tree, l, t, s);
    assert Walk(tabs, 0, l, 0, s) == Target(c, vals, BE(s));
  }

  /** Every entry is one that belongs to a code: all slots are on the way of some bit string. */
  lemma EntryIsLeaf(tabs: Tables, tree: seq<Place>, c: Counts, l: nat, vals: Values, t: nat, j: nat)
    requires vals.Valid() && |tree| == |tabs| && TreeOk(tabs, tree, l)
    requires Decoded(tabs, l, c, vals, Pow2(15))
    requires t < |tabs| && j < |tabs[t]| && tabs[t][j].Entry?
    ensures exists m: nat :: vals.LeafOf(m, 0) == Entry(tabs[t][j].exop, 0, tabs[t][j].base)
  {
    hide Pow2, LE, BE, CodeAt;
    assert PlaceOk(tabs, tree, l, t);
    var p := tree[t];
    var q := ToBits(j, p.size);
    LEToBits(j, p.size);
    var s := p.prefix + q + Zeros(15 - |p.prefix| - p.size);
    assert s[..|p.prefix|] == p.prefix;
    assert s[|p.prefix|..|p.prefix| + p.size] == q;
    BEBound(s);
    WalkThrough(tabs, tree, l, t, s);
    assert Walk(tabs, 0, l, 0, s) == Target(c, vals, BE(s));
    var m: nat := CodeAt(c, BE(s)).0;
    assert vals.LeafOf(m, 0) == Entry(tabs[t][j].exop, 0, tabs[t][j].base);
  }
}
