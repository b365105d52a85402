/** What holds of the half-built tables of huft_build, and why each step of the builder keeps it (zlib.c). */
module HuffmanInvariant {

  import opened Arith
  import opened BitStrings
  import opened HuffmanCode
  import opened HuffmanIntervals
  import opened HuffmanTable

  /** Extra-bit counts as in the tables of zlib.c: at most 15, or 192 for an invalid symbol. */
  predicate ExtraBitsOk(e: seq<nat>) {
    forall i :: 0 <= i < |e| ==> e[i] <= 15 || e[i] == 192
  }

  /**
   * The symbols in order of code length, v, and what a symbol's entry holds: symbols below s stand for
   * themselves, 256 being the end of a block, and the others look up a base in d and extra bits in e.
   */
  datatype Values = Values(v: seq<nat>, n: nat, s: nat, d: seq<nat>, e: seq<nat>) {
    ghost predicate Valid() {
      && n <= |v|
      && (forall m :: 0 <= m < n ==> v[m] < s || v[m] - s < |d| == |e|)
      && ExtraBitsOk(e)
    }

    /** The entry for the m-th code. Past the symbols there is an invalid code, whose base is never read. */
    function LeafOf(m: nat, bits: nat): (r: Huft)
      requires Valid()
      ensures r.Entry? && r.bits == bits
      ensures EntryOp(r.exop) && (s == 0 ==> r.exop != 0)
    {
      if m >= n then Entry(192, bits, 0)
      else if v[m] < s then Entry(if v[m] < 256 then 0 else 96, bits, v[m])
      else Entry((e[v[m] - s] % 256 + 80) % 256, bits, d[v[m] - s])
    }
  }

  /** What inflate tests of an entry: a literal, a length or distance with its extra bits, the end, or invalid. */
  predicate EntryOp(exop: nat) {
    exop == 0 || exop == 96 || exop == 192 || (exop / 16) % 2 == 1
  }

  /** Slots are of a kind that inflate can tell apart, and use up some bits. s is 0 in a table of distances. */
  ghost predicate SlotOk(h: Huft, s: nat) {
    match h
    case Unset => true
    case Entry(exop, bits, base) => 1 <= bits <= 15 && EntryOp(exop) && (s == 0 ==> exop != 0)
    case Link(exop, bits, next) => 1 <= bits <= 15 && 1 <= exop <= 15
  }

  /** A slot drops no more bits than its table looks up, and a link leads to a later table of the size it says. */
  ghost predicate SlotFits(tabs: Tables, t: nat, h: Huft)
    requires t < |tabs|
  {
    match h
    case Unset => true
    case Entry(exop, bits, base) => Pow2(bits) <= |tabs[t]|
    case Link(exop, bits, next) => Pow2(bits) <= |tabs[t]| && t < next < |tabs| && |tabs[next]| == Pow2(exop)
  }

  ghost predicate Shaped(tabs: Tables, s: nat) {
    forall t, j :: 0 <= t < |tabs| && 0 <= j < |tabs[t]| ==> SlotOk(tabs[t][j], s) && SlotFits(tabs, t, tabs[t][j])
  }

  /** What a walk along a 15-bit string with number p must find. */
  ghost function Target(c: Counts, vals: Values, p: nat): Walked
    requires vals.Valid()
  {
    var at := CodeAt(c, p);
    var leaf := vals.LeafOf(at.0, 0);
    Found(leaf.exop, leaf.base, at.1)
  }

  /** All 15-bit strings below cur are decoded. */
  ghost predicate Decoded(tabs: Tables, l: nat, c: Counts, vals: Values, cur: nat)
    requires vals.Valid()
  {
    forall s: Bits :: |s| == 15 && BE(s) < cur ==> Walk(tabs, 0, l, 0, s) == Target(c, vals, BE(s))
  }

  /** Bits looked up before level q. */
  ghost function Width(q: nat, l: nat): (r: nat)
    ensures q >= 1 ==> r >= l
  {
    if q == 0 then 0 else Width(q - 1, l) + l
  }

  /** A level of the table stack. */
  datatype Level = Level(id: nat, prefix: Bits, size: nat)

  /** The set slots of a table lead to strings that start below lim. */
  ghost predicate SlotsBelow(tab: Table, prefix: Bits, size: nat, lim: nat)
    requires |prefix| + size <= 15
  {
    forall t: Bits :: |t| == size && LE(t) < |tab| && tab[LE(t)] != Unset ==> SubStart(prefix + t) < lim
  }

  ghost predicate LevelOk(tabs: Tables, stack: seq<Level>, c: Counts, l: nat, cur: nat, k: nat, a: nat)
    requires a < |stack|
  {
    var v := stack[a];
    && v.id < |tabs| && 1 <= v.size && |v.prefix| + v.size <= 15
    && |tabs[v.id]| == Pow2(v.size)
    && |v.prefix| == Width(a, l) && |v.prefix| < k
    && (v.size >= l || SubEnd(v.prefix) <= Taken(c, |v.prefix| + v.size))
    && SubStart(v.prefix) <= cur <= SubEnd(v.prefix)
    && (a == 0 ==> v.id == 0)
    && (a > 0 ==>
      var u := stack[a - 1];
      u.size >= l && u.id < v.id && |u.prefix| + l == |v.prefix| && v.prefix[..|u.prefix|] == u.prefix)
    && SlotsBelow(tabs[v.id], v.prefix, v.size, if a == |stack| - 1 then cur else cur + 1)
  }

  ghost predicate StackOk(tabs: Tables, stack: seq<Level>, c: Counts, l: nat, cur: nat, k: nat) {
    && (stack == [] ==> tabs == [] && cur == 0)
    && forall a :: 0 <= a < |stack| ==> LevelOk(tabs, stack, c, l, cur, k, a)
  }

  /**
   * The r-th code of k bits skips a level: it opens the subtree of a table at level q, and is too long for the l
   * bits of that table. The builder then makes the table larger than l bits and leaves most of it unset.
   */
  ghost predicate Skips(c: Counts, l: nat, k: nat, r: nat, q: nat) {
    && q >= 1 && 1 <= k <= 15 && r < c[k] && Width(q, l) + l < k
    && Aligned(Position(c, k, r), Width(q, l))
  }

  /** No code of the set skips a level: the condition under which the tables decode. */
  ghost predicate NoSkip(c: Counts, l: nat) {
    forall k: nat, r: nat, q: nat :: !Skips(c, l, k, r, q)
  }

  /** The first table of more than l bits is the last of the tree, and its slot 2^l stays unset. */
  ghost predicate HoleAt(tabs: Tables, tree: seq<Place>, l: nat, k: nat)
    requires 0 < |tree| <= |tabs|
  {
    var t := |tree| - 1;
    && tree[t].size > l && |tree[t].prefix| + tree[t].size <= 15
    && |tree[t].prefix| + l < k
    && Pow2(l) < |tabs[t]| && tabs[t][Pow2(l)] == Unset
  }

  ghost predicate Matches(tree: seq<Place>, stack: seq<Level>) {
    forall a :: 0 <= a < |stack| && stack[a].id < |tree| ==>
      tree[stack[a].id].prefix == stack[a].prefix && tree[stack[a].id].size == stack[a].size
  }

  /** The ghost side of the builder: the tree of tables up to the first skip, and whether there was one. */
  datatype Ghost = Ghost(tree: seq<Place>, stack: seq<Level>, skip: bool)

  /** What holds whenever the builder is about to place the r-th code of k bits, whose position is cur. */
  ghost predicate Inv(tabs: Tables, gh: Ghost, c: Counts, l: nat, vals: Values, cur: nat, k: nat, r: nat)
    requires vals.Valid()
  {
    && StackOk(tabs, gh.stack, c, l, cur, k)
    && TreeOk(tabs, gh.tree, l)
    && Matches(gh.tree, gh.stack)
    && (tabs != [] ==> gh.tree != [])
    && Shaped(tabs, vals.s)
    && (!gh.skip ==>
      && |gh.tree| == |tabs|
      && (forall a :: 0 <= a < |gh.stack| ==> gh.stack[a].size <= l)
      && Decoded(tabs, l, c, vals, cur))
    && (gh.skip ==> gh.tree != [] && HoleAt(tabs, gh.tree, l, k) && !NoSkip(c, l))
    && forall k': nat, r': nat, q: nat :: Skips(c, l, k', r', q) && (k' < k || (k' == k && r' < r)) ==> gh.skip
  }

  /** Every open table has been entered: the builder is between codes, not in the middle of opening tables. */
  ghost predicate Settled(tabs: Tables, stack: seq<Level>, cur: nat) {
    forall a :: 0 <= a < |stack| ==>
      var v := stack[a];
      && v.id < |tabs| && |v.prefix| + v.size <= 15
      && (a > 0 ==> SubStart(v.prefix) < cur) && SlotsBelow(tabs[v.id], v.prefix, v.size, cur)
  }

  ghost function TopWidth(stack: seq<Level>): nat
    requires stack != []
  {
    |stack[|stack| - 1].prefix|
  }

  /** A new table of size bits, none of them set. */
  function Fresh(size: nat): (t: Table)
    ensures |t| == Pow2(size) && forall j :: 0 <= j < |t| ==> t[j] == Unset
  {
    seq(Pow2(size), j => Unset)
  }

  /** The first table. */
  ghost function RootGhost(l: nat): Ghost {
    Ghost([Place([], l, 0)], [Level(0, [], l)], false)
  }

  lemma OpenRoot(c: Counts, l: nat, vals: Values, k: nat)
    requires vals.Valid() && 1 <= l <= 15 && 1 <= k <= 15
    requires forall j :: 1 <= j < k ==> c[j] == 0
    ensures Inv([Fresh(l)], RootGhost(l), c, l, vals, 0, k, 0)
  {
    hide Pow2;
    assert SubStart([]) == 0;
    assert forall k': nat, r': nat, q: nat :: Skips(c, l, k', r', q) ==> c[k'] > 0;
    assert LevelOk([Fresh(l)], [Level(0, [], l)], c, l, 0, k, 0);
    assert PlaceOk([Fresh(l)], [Place([], l, 0)], l, 0);
  }

  // ----- opening a table below the top one

  ghost predicate MayOpen(gh: Ghost, c: Counts, l: nat, cur: nat, cb: Bits, k: nat, r: nat, j: nat) {
    && gh.stack != [] && 1 <= l <= 15 && 1 <= k <= 15 && |cb| == k && r < c[k]
    && cur == SubStart(cb) == Position(c, k, r)
    && TopWidth(gh.stack) + l < k
    && cb[..TopWidth(gh.stack)] == gh.stack[|gh.stack| - 1].prefix
    && Aligned(cur, TopWidth(gh.stack) + l)
    && var w := TopWidth(gh.stack) + l;
      && 1 <= j && w + j <= 15
      && (j > l <==> k > w + l)
      && (j >= l || SubEnd(cb[..w]) <= Taken(c, w + j))
  }

  /** The tables and the ghost state after a table of j bits has been opened and linked to the top one. */
  ghost function Opened(tabs: Tables, gh: Ghost, l: nat, cb: Bits, j: nat): (Tables, Ghost)
    requires gh.stack != [] && TopWidth(gh.stack) + l <= |cb|
    requires gh.stack[|gh.stack| - 1].id < |tabs|
    requires LE(cb[TopWidth(gh.stack)..]) < |tabs[gh.stack[|gh.stack| - 1].id]|
  {
    var top, w := gh.stack[|gh.stack| - 1], TopWidth(gh.stack);
    var t, q := |tabs|, cb[..w + l];
    (tabs[top.id := tabs[top.id][LE(cb[w..]) := Link(j, l, t)]] + [Fresh(j)],
     Ghost(if gh.skip then gh.tree else gh.tree + [Place(q, j, top.id)], gh.stack + [Level(t, q, j)], gh.skip || j > l))
  }

  /** A short table never needs opening further: its codes end inside it. */
  lemma TopIsFull(tabs: Tables, gh: Ghost, c: Counts, l: nat, cur: nat, cb: Bits, k: nat, r: nat, j: nat)
    requires MayOpen(gh, c, l, cur, cb, k, r, j)
    requires StackOk(tabs, gh.stack, c, l, cur, k)
    ensures gh.stack[|gh.stack| - 1].size >= l
  {
    hide Pow2, Taken;
    var top := gh.stack[|gh.stack| - 1];
    assert LevelOk(tabs, gh.stack, c, l, cur, k, |gh.stack| - 1);
    StartInside(top.prefix, cb);
    if top.size < l {
      TakenMonotone(c, |top.prefix| + top.size, k - 1);
      Nonneg(r, Pow2(15 - k));
    }
  }

  /** The bits of the code that are left after the new prefix are zeros, so the link goes into one of 2^l slots. */
  lemma LinkSlot(cb: Bits, w: nat, l: nat)
    requires w + l <= |cb| <= 15 && Aligned(SubStart(cb), w + l)
    ensures SubStart(cb[..w + l]) == SubStart(cb)
    ensures cb[w..] == cb[w..w + l] + Zeros(|cb| - w - l)
    ensures LE(cb[w..]) == LE(cb[w..w + l]) < Pow2(l)
  {
    hide Pow2, SubStart, LE;
    AlignedTail(cb, w + l);
    assert cb[w..] == cb[w..w + l] + Zeros(|cb| - w - l);
    PaddedValue(cb[w..w + l], |cb| - w - l);
    LEBound(cb[w..w + l]);
  }

  lemma PaddedValue(t: Bits, n: nat)
    ensures LE(t + Zeros(n)) == LE(t)
  {
    LEConcat(t, Zeros(n));
    ZerosValue(n);
    ZeroTimes(0, Pow2(|t|));
  }

  /** The slot that is linked was unset, and with the link the top table still only leads to started strings. */
  lemma LinkKeepsSlots(tab: Table, prefix: Bits, size: nat, cb: Bits, l: nat, cur: nat, link: Huft)
    requires |prefix| + l <= |cb| <= 15 && 1 <= l <= size && |prefix| + size <= 15 && |tab| == Pow2(size)
    requires cb[..|prefix|] == prefix && SubStart(cb) == cur && Aligned(cur, |prefix| + l)
    requires SlotsBelow(tab, prefix, size, cur)
    ensures LE(cb[|prefix|..]) < |tab| && tab[LE(cb[|prefix|..])] == Unset
    ensures SlotsBelow(tab[LE(cb[|prefix|..]) := link], prefix, size, cur + 1)
  {
    hide Pow2, SubStart, SubEnd, LE;
    var w := |prefix|;
    LinkSlot(cb, w, l);
    Pow2Up(l, size);
    var q := cb[w..w + l] + Zeros(size - l);
    PaddedValue(cb[w..w + l], size - l);
    assert LE(q) == LE(cb[w..]);
    assert prefix + q == cb[..w + l] + Zeros(size - l);
    StartZeros(cb[..w + l], size - l);
    var j := LE(cb[w..]);
    forall t: Bits | |t| == size && LE(t) < |tab| && tab[j := link][LE(t)] != Unset
      ensures SubStart(prefix + t) < cur + 1
    {
      if LE(t) == j {
        LEInjective(t, q);
      }
    }
  }

  lemma OpenStack(tabs: Tables, gh: Ghost, c: Counts, l: nat, cur: nat, cb: Bits, k: nat, r: nat, j: nat)
    requires MayOpen(gh, c, l, cur, cb, k, r, j)
    requires StackOk(tabs, gh.stack, c, l, cur, k)
    ensures gh.stack[|gh.stack| - 1].id < |tabs|
    ensures LE(cb[TopWidth(gh.stack)..]) < |tabs[gh.stack[|gh.stack| - 1].id]|
    ensures tabs[gh.stack[|gh.stack| - 1].id][LE(cb[TopWidth(gh.stack)..])] == Unset
    ensures var (tabs', gh') := Opened(tabs, gh, l, cb, j);
      Extends(tabs, tabs') && StackOk(tabs', gh'.stack, c, l, cur, k)
  {
    hide Pow2, Taken, SlotsBelow, SubStart, SubEnd, LE, LevelOk;
    var n := |gh.stack| - 1;
    var top, w := gh.stack[n], TopWidth(gh.stack);
    OpenTop(tabs, gh, c, l, cur, cb, k, r, j);
    var (tabs', gh') := Opened(tabs, gh, l, cb, j);
    forall a | 0 <= a < |gh'.stack|
      ensures LevelOk(tabs', gh'.stack, c, l, cur, k, a)
    {
      if a < n {
        IdsIncrease(tabs, gh.stack, c, l, cur, k, a, n);
        LevelKept(tabs, tabs', gh.stack, gh'.stack, c, l, cur, k, a);
      } else if a > n {
        OpenNew(tabs, gh, c, l, cur, cb, k, r, j);
      }
    }
  }

  /** A level below the top one is not touched. */
  lemma LevelKept(tabs: Tables, tabs': Tables, stack: seq<Level>, stack': seq<Level>,
                  c: Counts, l: nat, cur: nat, k: nat, a: nat)
    requires a < |stack| - 1 && a < |stack'| - 1 && |tabs| <= |tabs'|
    requires stack'[..a + 1] == stack[..a + 1]
    requires LevelOk(tabs, stack, c, l, cur, k, a)
    requires stack[a].id < |tabs| && tabs'[stack[a].id] == tabs[stack[a].id]
    ensures LevelOk(tabs', stack', c, l, cur, k, a)
  {
    hide Pow2, Taken, SlotsBelow, SubStart, SubEnd, LE;
    assert stack'[a] == stack'[..a + 1][a] == stack[a];
    if a > 0 {
      assert stack'[a - 1] == stack'[..a + 1][a - 1] == stack[a - 1];
    }
  }

  lemma OpenTop(tabs: Tables, gh: Ghost, c: Counts, l: nat, cur: nat, cb: Bits, k: nat, r: nat, j: nat)
    requires MayOpen(gh, c, l, cur, cb, k, r, j)
    requires StackOk(tabs, gh.stack, c, l, cur, k)
    ensures var n := |gh.stack| - 1; var id, slot := gh.stack[n].id, LE(cb[TopWidth(gh.stack)..]);
      && id < |tabs| && slot < |tabs[id]| && tabs[id][slot] == Unset
      && var (tabs', gh') := Opened(tabs, gh, l, cb, j);
        Extends(tabs, tabs') && LevelOk(tabs', gh'.stack, c, l, cur, k, n)
  {
    hide Pow2, Taken, SlotsBelow, SubStart, SubEnd, LE;
    var n := |gh.stack| - 1;
    var top := gh.stack[n];
    assert LevelOk(tabs, gh.stack, c, l, cur, k, n);
    TopIsFull(tabs, gh, c, l, cur, cb, k, r, j);
    LinkKeepsSlots(tabs[top.id], top.prefix, top.size, cb, l, cur, Link(j, l, |tabs|));
  }

  lemma OpenNew(tabs: Tables, gh: Ghost, c: Counts, l: nat, cur: nat, cb: Bits, k: nat, r: nat, j: nat)
    requires MayOpen(gh, c, l, cur, cb, k, r, j)
    requires StackOk(tabs, gh.stack, c, l, cur, k)
    requires gh.stack[|gh.stack| - 1].id < |tabs|
    requires LE(cb[TopWidth(gh.stack)..]) < |tabs[gh.stack[|gh.stack| - 1].id]|
    ensures var (tabs', gh') := Opened(tabs, gh, l, cb, j);
      LevelOk(tabs', gh'.stack, c, l, cur, k, |gh.stack|)
  {
    hide Pow2, Taken, SlotsBelow, SubStart, SubEnd, LE;
    var w := TopWidth(gh.stack);
    assert LevelOk(tabs, gh.stack, c, l, cur, k, |gh.stack| - 1);
    TopIsFull(tabs, gh, c, l, cur, cb, k, r, j);
    LinkSlot(cb, w, l);
    FreshBelow(j, cb[..w + l], cur);
    EndAfterStart(cb[..w + l]);
    assert cb[..w + l][..w] == cb[..w];
  }

  lemma EndAfterStart(t: Bits)
    requires |t| <= 15
    ensures SubStart(t) < SubEnd(t)
  {
  }

  lemma {:induction false} IdsIncrease(tabs: Tables, stack: seq<Level>, c: Counts, l: nat, cur: nat, k: nat,
                                       a: nat, b: nat)
    requires a < b < |stack| && StackOk(tabs, stack, c, l, cur, k)
    ensures stack[a].id < stack[b].id
  {
    assert LevelOk(tabs, stack, c, l, cur, k, b);
    if a < b - 1 {
      IdsIncrease(tabs, stack, c, l, cur, k, a, b - 1);
    }
  }

  lemma FreshBelow(j: nat, prefix: Bits, cur: nat)
    requires |prefix| + j <= 15
    ensures SlotsBelow(Fresh(j), prefix, j, cur)
  {
  }

  lemma OpenShaped(tabs: Tables, gh: Ghost, c: Counts, l: nat, cur: nat, cb: Bits, k: nat, r: nat, j: nat, s: nat)
    requires MayOpen(gh, c, l, cur, cb, k, r, j) && StackOk(tabs, gh.stack, c, l, cur, k) && Shaped(tabs, s)
    requires gh.stack[|gh.stack| - 1].id < |tabs|
    requires LE(cb[TopWidth(gh.stack)..]) < |tabs[gh.stack[|gh.stack| - 1].id]|
    ensures Shaped(Opened(tabs, gh, l, cb, j).0, s)
  {
    hide Pow2, Taken, SlotsBelow, SubStart, SubEnd, LE, BE, SlotFits;
    var top := gh.stack[|gh.stack| - 1];
    assert LevelOk(tabs, gh.stack, c, l, cur, k, |gh.stack| - 1);
    TopIsFull(tabs, gh, c, l, cur, cb, k, r, j);
    Pow2Up(l, top.size);
    var slot := LE(cb[TopWidth(gh.stack)..]);
    var tabs' := Opened(tabs, gh, l, cb, j).0;
    forall t, i | 0 <= t < |tabs'| && 0 <= i < |tabs'[t]|
      ensures SlotOk(tabs'[t][i], s) && SlotFits(tabs', t, tabs'[t][i])
    {
      if t < |tabs| && (t != top.id || i != slot) {
        assert SlotFits(tabs, t, tabs[t][i]);
        SlotFitsKept(tabs, tabs', t, tabs[t][i]);
      } else {
        NewSlotFits(tabs', t, tabs'[t][i]);
      }
    }
  }

  lemma SlotFitsKept(a: Tables, b: Tables, t: nat, h: Huft)
    requires t < |a| <= |b| && (forall i :: 0 <= i < |a| ==> |b[i]| == |a[i]|) && SlotFits(a, t, h)
    ensures SlotFits(b, t, h)
  {
  }

  lemma NewSlotFits(tabs: Tables, t: nat, h: Huft)
    requires t < |tabs|
    requires h.Unset? || (h.Link? && Pow2(h.bits) <= |tabs[t]| && t < h.next < |tabs| && |tabs[h.next]| == Pow2(h.exop))
    ensures SlotFits(tabs, t, h)
  {
  }

  lemma OpenTree(tabs: Tables, gh: Ghost, c: Counts, l: nat, vals: Values, cur: nat, cb: Bits, k: nat, r: nat, j: nat)
    requires MayOpen(gh, c, l, cur, cb, k, r, j) && vals.Valid() && Inv(tabs, gh, c, l, vals, cur, k, r)
    requires !gh.skip
    requires gh.stack[|gh.stack| - 1].id < |tabs|
    requires LE(cb[TopWidth(gh.stack)..]) < |tabs[gh.stack[|gh.stack| - 1].id]|
    requires Extends(tabs, Opened(tabs, gh, l, cb, j).0)
    ensures var (tabs', gh') := Opened(tabs, gh, l, cb, j);
      TreeOk(tabs', gh'.tree, l) && Matches(gh'.tree, gh'.stack) && Decoded(tabs', l, c, vals, cur)
  {
    hide Pow2, Taken, SlotsBelow, SubStart, SubEnd, LE, BE, Shaped, HoleAt, NoSkip, Skips;
    var n, w := |gh.stack| - 1, TopWidth(gh.stack);
    var top := gh.stack[n];
    var (tabs', gh') := Opened(tabs, gh, l, cb, j);
    assert LevelOk(tabs, gh.stack, c, l, cur, k, n);
    TopIsFull(tabs, gh, c, l, cur, cb, k, r, j);
    TreeStable(tabs, tabs', gh.tree, l);
    forall t | 0 <= t < |gh'.tree|
      ensures PlaceOk(tabs', gh'.tree, l, t)
    {
      if t < |gh.tree| {
        assert PlaceOk(tabs', gh.tree, l, t);
      } else {
        LinkSlot(cb, w, l);
        assert cb[..w + l][w..] == cb[w..w + l] && cb[..w + l][..w] == cb[..w];
      }
    }
    DecodedStable(tabs, tabs', l, c, vals, cur);
    StackIds(tabs, gh.stack, c, l, cur, k);
  }

  lemma StackIds(tabs: Tables, stack: seq<Level>, c: Counts, l: nat, cur: nat, k: nat)
    requires StackOk(tabs, stack, c, l, cur, k)
    ensures forall a :: 0 <= a < |stack| ==> stack[a].id < |tabs|
  {
    forall a | 0 <= a < |stack|
      ensures stack[a].id < |tabs|
    {
      assert LevelOk(tabs, stack, c, l, cur, k, a);
    }
  }

  lemma DecodedStable(a: Tables, b: Tables, l: nat, c: Counts, vals: Values, cur: nat)
    requires vals.Valid() && Extends(a, b) && Decoded(a, l, c, vals, cur)
    ensures Decoded(b, l, c, vals, cur)
  {
    hide BE, LE;
    forall s: Bits | |s| == 15 && BE(s) < cur
      ensures Walk(b, 0, l, 0, s) == Target(c, vals, BE(s))
    {
      assert Walk(a, 0, l, 0, s) == Target(c, vals, BE(s));
      WalkStable(a, b, 0, l, 0, s);
    }
  }

  lemma HoleKept(tabs: Tables, gh: Ghost, l: nat, cb: Bits, j: nat, k: nat)
    requires gh.stack != [] && TopWidth(gh.stack) + l <= |cb|
    requires gh.stack[|gh.stack| - 1].id < |tabs|
    requires LE(cb[TopWidth(gh.stack)..]) < |tabs[gh.stack[|gh.stack| - 1].id]|
    requires LE(cb[TopWidth(gh.stack)..]) < Pow2(l)
    requires gh.skip && 0 < |gh.tree| <= |tabs| && HoleAt(tabs, gh.tree, l, k)
    ensures HoleAt(Opened(tabs, gh, l, cb, j).0, gh.tree, l, k)
  {
    hide Pow2, LE;
  }

  lemma TopIsOpened(tabs: Tables, stack: seq<Level>, c: Counts, l: nat, cur: nat, k: nat)
    requires |stack| >= 2 && StackOk(tabs, stack, c, l, cur, k)
    ensures TopWidth(stack) == TopWidth(stack[..|stack| - 1]) + l == Width(|stack| - 1, l)
  {
    hide Pow2, Taken, SlotsBelow, SubStart, SubEnd;
    assert LevelOk(tabs, stack, c, l, cur, k, |stack| - 1);
  }

  /** Opening a table keeps the invariant, and notices a code that skips this level. */
  lemma OpenKeeps(tabs: Tables, gh: Ghost, c: Counts, l: nat, vals: Values, cur: nat, cb: Bits, k: nat, r: nat, j: nat)
    requires MayOpen(gh, c, l, cur, cb, k, r, j) && vals.Valid() && Inv(tabs, gh, c, l, vals, cur, k, r)
    ensures gh.stack[|gh.stack| - 1].id < |tabs|
    ensures LE(cb[TopWidth(gh.stack)..]) < |tabs[gh.stack[|gh.stack| - 1].id]|
    ensures var (tabs', gh') := Opened(tabs, gh, l, cb, j);
      && Inv(tabs', gh', c, l, vals, cur, k, r)
      && |gh.stack| == |gh'.stack| - 1 && TopWidth(gh'.stack) == TopWidth(gh.stack) + l
      && (Skips(c, l, k, r, |gh.stack|) ==> gh'.skip)
      && (gh.skip ==> gh'.skip)
  {
    hide Pow2, Taken, SlotsBelow, SubStart, SubEnd, LE, BE, Decoded, PlaceOk, LevelOk, Shaped;
    var n, w := |gh.stack| - 1, TopWidth(gh.stack);
    OpenStack(tabs, gh, c, l, cur, cb, k, r, j);
    var (tabs', gh') := Opened(tabs, gh, l, cb, j);
    LinkSlot(cb, w, l);
    OpenShaped(tabs, gh, c, l, cur, cb, k, r, j, vals.s);
    TopIsOpened(tabs', gh'.stack, c, l, cur, k);
    if gh.skip {
      TreeStable(tabs, tabs', gh.tree, l);
      HoleKept(tabs, gh, l, cb, j, k);
      assert Matches(gh'.tree, gh'.stack);
    } else {
      OpenTree(tabs, gh, c, l, vals, cur, cb, k, r, j);
      if j > l {
        Pow2Up(l, j);
        assert Skips(c, l, k, r, n + 1);
      }
    }
  }
}
