/** The bits that make up an LZMA symbol: which probability each of them is read with, and what they mean (lzmadec.c). */
module LzmaGrammar {

  import opened Arith
  import opened BitStrings
  import opened Lz77

  datatype Props = Props(lc: nat, lp: nat, pb: nat, dicSize: nat)

  ghost predicate PropsOk(p: Props) {
    p.lc <= 8 && p.lp <= 4 && p.pb <= 4 && 4096 <= p.dicSize < 0x1_0000_0000
  }

  /** Where a match gets its distance: read anew, or one of the last four. */
  datatype Origin = Fresh | Again(k: nat)

  /** A symbol. Lengths are without the minimum of 2, distances count from 0. */
  datatype Symbol =
    | Literal(byte: Byte)
    | ShortRep
    | Repeat(k: nat, len: nat)
    | Match(len: nat, dist: nat)
    | EndMark(len: nat)

  /**
   * How far a symbol has been read. In the bit trees, i starts at 1 and takes in each bit at its low end; left is
   * the number of bits still to come.
   */
  datatype Phase =
    | IsMatch | IsRep | IsRepG0 | IsRep0Long | IsRepG1 | IsRepG2
    | LitTree(i: nat, left: nat)
    | LitMatched(i: nat, left: nat, offs: nat, matchByte: nat)
    | Choice(origin: Origin)
    | Choice2(origin: Origin)
    | LenTree(origin: Origin, group: nat, i: nat, left: nat)
    | SlotTree(len: nat, i: nat, left: nat)
    | SpecTree(len: nat, slot: nat, i: nat, left: nat, dist: nat, mask: nat)
    | DirectBits(len: nat, dist: nat, left: nat)
    | AlignTree(len: nat, high: nat, i: nat, left: nat, low: nat, mask: nat)
    | Done(symbol: Symbol)

  /** What is fixed while a symbol is read. litBase is where the probabilities for its literal begin. */
  datatype Context = Context(state: nat, posState: nat, litBase: nat, matchByte: Byte)

  ghost predicate ContextOk(cx: Context, numProbs: nat) {
    && cx.state < 12 && cx.posState < 16
    && 1846 <= cx.litBase && cx.litBase % 256 == 54 && cx.litBase + 768 <= numProbs
  }

  /** The bit of the byte to compare with that the next bit of a literal is compared with. */
  function MatchBit(offs: nat, matchByte: nat): nat {
    if offs == 256 && (2 * matchByte / 256) % 2 == 1 then 256 else 0
  }

  function LenBits(group: nat): nat {
    if group < 2 then 3 else 8
  }

  function LenBase(origin: Origin): nat {
    if origin.Fresh? then 818 else 1332
  }

  /** (2 | (slot & 1)) << ((slot >> 1) - 1). */
  function SpecStart(slot: nat): nat {
    (2 + slot % 2) * Pow2(if slot >= 2 then slot / 2 - 1 else 0)
  }

  /** The index of the probability that the next bit is read with. */
  function Slot(cx: Context, ph: Phase): (r: int)
    requires !ph.DirectBits? && !ph.Done?
  {
    match ph
    case IsMatch => 16 * cx.state + cx.posState
    case IsRep => 192 + cx.state
    case IsRepG0 => 204 + cx.state
    case IsRepG1 => 216 + cx.state
    case IsRepG2 => 228 + cx.state
    case IsRep0Long => 240 + 16 * cx.state + cx.posState
    case LitTree(i, _) => cx.litBase + i
    case LitMatched(i, _, offs, mb) => cx.litBase + offs + MatchBit(offs, mb) + i
    case Choice(origin) => LenBase(origin)
    case Choice2(origin) => LenBase(origin) + 1
    case LenTree(origin, group, i, _) =>
      LenBase(origin) + 2 + 128 * group + (if group < 2 then 8 * cx.posState else 0) + i
    case SlotTree(len, i, _) => 432 + 64 * (if len < 4 then len else 3) + i
    case SpecTree(_, slot, i, _, _, _) => 688 + SpecStart(slot) - slot - 1 + i
    case AlignTree(_, _, i, _, _, _) => 802 + i
  }

  /** The number of a leaf of a tree: i -= limit, where i is never below the limit. */
  function Leaf(i: nat, limit: nat): nat {
    if i >= limit then i - limit else 0
  }

  function AfterLen(origin: Origin, len: nat): Phase {
    if origin.Fresh? then SlotTree(len, 1, 6) else Done(Repeat(origin.k, len))
  }

  function AfterSlot(len: nat, slot: nat): Phase {
    if slot < 4 then Done(Match(len, slot))
    else if slot < 14 then SpecTree(len, slot, 1, slot / 2 - 1, SpecStart(slot), 1)
    else DirectBits(len, 2 + slot % 2, slot / 2 - 5)
  }

  function AfterAlign(len: nat, dist: nat): Phase {
    if dist == 0xFFFF_FFFF then Done(EndMark(len)) else Done(Match(len, dist))
  }

  /** What a bit leads to. */
  function After(cx: Context, ph: Phase, bit: bool): Phase
    requires PhaseOk(ph) && !ph.Done?
  {
    var b := Bit(bit);
    match ph
    case IsMatch =>
      if bit then IsRep else if cx.state < 7 then LitTree(1, 8) else LitMatched(1, 8, 256, cx.matchByte)
    case IsRep => if bit then IsRepG0 else Choice(Fresh)
    case IsRepG0 => if bit then IsRepG1 else IsRep0Long
    case IsRep0Long => if bit then Choice(Again(0)) else Done(ShortRep)
    case IsRepG1 => if bit then IsRepG2 else Choice(Again(1))
    case IsRepG2 => Choice(Again(if bit then 3 else 2))
    case LitTree(i, left) => if left == 1 then Done(Literal((2 * i + b) % 256)) else LitTree(2 * i + b, left - 1)
    case LitMatched(i, left, offs, mb) =>
      if left == 1 then Done(Literal((2 * i + b) % 256))
      else
        var m := MatchBit(offs, mb);
        LitMatched(2 * i + b, left - 1, if bit then m else offs - m, 2 * mb)
    case Choice(origin) => if bit then Choice2(origin) else LenTree(origin, 0, 1, 3)
    case Choice2(origin) => if bit then LenTree(origin, 2, 1, 8) else LenTree(origin, 1, 1, 3)
    case LenTree(origin, group, i, left) =>
      if left == 1 then AfterLen(origin, Leaf(2 * i + b, if group < 2 then 8 else 256) + 8 * group)
      else LenTree(origin, group, 2 * i + b, left - 1)
    case SlotTree(len, i, left) =>
      if left == 1 then AfterSlot(len, Leaf(2 * i + b, 64)) else SlotTree(len, 2 * i + b, left - 1)
    case SpecTree(len, slot, i, left, dist, mask) =>
      var d := if bit then dist + mask else dist;
      if left == 1 then Done(Match(len, d)) else SpecTree(len, slot, 2 * i + b, left - 1, d, 2 * mask)
    case DirectBits(len, dist, left) =>
      if left == 1 then AlignTree(len, 2 * dist + b, 1, 4, 0, 1) else DirectBits(len, 2 * dist + b, left - 1)
    case AlignTree(len, high, i, left, low, mask) =>
      var l := if bit then low + mask else low;
      if left == 1 then AfterAlign(len, 16 * high + l) else AlignTree(len, high, 2 * i + b, left - 1, l, 2 * mask)
  }

  /** i has taken in all but left of n bits. */
  predicate InTree(i: nat, left: nat, n: nat) {
    1 <= left <= n && Pow2(n - left) <= i < 2 * Pow2(n - left)
  }

  predicate OriginOk(origin: Origin) {
    origin.Again? ==> origin.k < 4
  }

  predicate PhaseOk(ph: Phase) {
    match ph
    case LitTree(i, left) => InTree(i, left, 8)
    case LitMatched(i, left, offs, _) => InTree(i, left, 8) && (offs == 0 || offs == 256)
    case Choice(origin) => OriginOk(origin)
    case Choice2(origin) => OriginOk(origin)
    case LenTree(origin, group, i, left) => OriginOk(origin) && group < 3 && InTree(i, left, LenBits(group))
    case SlotTree(len, i, left) => len < 272 && InTree(i, left, 6)
    case SpecTree(len, slot, i, left, dist, mask) =>
      && len < 272 && 4 <= slot < 14 && InTree(i, left, slot / 2 - 1)
      && mask == Pow2(slot / 2 - 1 - left) && dist < SpecStart(slot) + mask
    case DirectBits(len, dist, left) => len < 272 && 1 <= left <= 26 && (dist + 1) * Pow2(left) <= 0x1000_0000
    case AlignTree(len, high, i, left, low, mask) =>
      len < 272 && high < 0x1000_0000 && InTree(i, left, 4) && mask == Pow2(4 - left) && low < mask
    case Done(symbol) => SymbolOk(symbol)
    case _ => true
  }

  predicate SymbolOk(symbol: Symbol) {
    match symbol
    case Repeat(k, len) => k < 4 && len < 272
    case Match(len, dist) => len < 272 && dist < 0xFFFF_FFFF
    case EndMark(len) => len < 272
    case _ => true
  }

  lemma SomePowers()
    ensures Pow2(0) == 1 && Pow2(1) == 2 && Pow2(2) == 4 && Pow2(3) == 8 && Pow2(4) == 16 && Pow2(5) == 32
    ensures Pow2(6) == 64 && Pow2(7) == 128 && Pow2(8) == 256
  {
  }

  /** One bit down a tree. */
  lemma InTreeNext(i: nat, left: nat, n: nat, bit: bool)
    requires InTree(i, left, n)
    ensures left > 1 ==> InTree(2 * i + Bit(bit), left - 1, n)
    ensures left == 1 ==> Pow2(n) <= 2 * i + Bit(bit) < 2 * Pow2(n)
    ensures 1 <= i < Pow2(n)
  {
    hide Pow2;
    Doubled(n - left, n);
  }

  lemma Doubled(d: nat, n: nat)
    requires d < n
    ensures Pow2(d + 1) == 2 * Pow2(d) <= Pow2(n)
  {
    Pow2Up(d + 1, n);
  }

  lemma InTreeStart(n: nat)
    requires n >= 1
    ensures InTree(1, n, n)
  {
  }

  /** The phases after an accepted one are accepted: in particular a distance fits into 32 bits. */
  lemma AfterOk(cx: Context, ph: Phase, bit: bool)
    requires PhaseOk(ph) && !ph.Done?
    ensures PhaseOk(After(cx, ph, bit))
  {
    hide Pow2, InTree, SpecStart;
    SomePowers();
    match ph
    case IsMatch => InTreeStart(8);
    case LitTree(i, left) => InTreeNext(i, left, 8, bit);
    case LitMatched(i, left, _, _) => InTreeNext(i, left, 8, bit);
    case Choice(_) => InTreeStart(3);
    case Choice2(_) =>
      InTreeStart(3);
      InTreeStart(8);
    case LenTree(_, group, i, left) =>
      InTreeNext(i, left, LenBits(group), bit);
      InTreeStart(6);
    case SlotTree(len, i, left) =>
      InTreeNext(i, left, 6, bit);
      if left == 1 {
        SlotOk(len, 2 * i + Bit(bit) - 64);
      }
    case SpecTree(_, _, _, _, _, _) => AfterSpecOk(cx, ph, bit);
    case DirectBits(_, dist, left) => AfterDirectOk(cx, ph, bit);
    case AlignTree(_, _, _, _, _, _) => AfterAlignOk(cx, ph, bit);
    case _ =>
  }

  lemma AfterSpecOk(cx: Context, ph: Phase, bit: bool)
    requires ph.SpecTree? && PhaseOk(ph)
    ensures PhaseOk(After(cx, ph, bit))
  {
    hide InTree, SpecStart;
    InTreeNext(ph.i, ph.left, ph.slot / 2 - 1, bit);
    SpecStartBound(ph.slot);
    TreeLeft(ph.i, ph.left, ph.slot / 2 - 1);
  }

  lemma AfterDirectOk(cx: Context, ph: Phase, bit: bool)
    requires ph.DirectBits? && PhaseOk(ph)
    ensures PhaseOk(After(cx, ph, bit))
  {
    hide Pow2, InTree;
    SomePowers();
    InTreeStart(4);
    HalveLeft(ph.dist, ph.left, bit);
  }

  lemma AfterAlignOk(cx: Context, ph: Phase, bit: bool)
    requires ph.AlignTree? && PhaseOk(ph)
    ensures PhaseOk(After(cx, ph, bit))
  {
    hide InTree;
    InTreeNext(ph.i, ph.left, 4, bit);
    TreeLeft(ph.i, ph.left, 4);
    SomePowers();
  }

  lemma TreeLeft(i: nat, left: nat, n: nat)
    requires InTree(i, left, n)
    ensures 1 <= left <= n
  {
  }

  lemma SpecStartBound(slot: nat)
    requires 4 <= slot < 14
    ensures slot <= SpecStart(slot) && SpecStart(slot) + Pow2(slot / 2 - 1) <= 128 && 1 <= slot / 2 - 1 <= 5
    ensures SpecStart(slot) - slot - 1 + Pow2(slot / 2 - 1) <= 114
  {
    SomePowers();
  }

  lemma SlotOk(len: nat, slot: nat)
    requires len < 272 && slot < 64
    ensures PhaseOk(AfterSlot(len, slot))
  {
    hide SpecStart, Pow2, InTree;
    SomePowers();
    if 14 <= slot {
      DirectFits(slot);
    } else if 4 <= slot {
      SpecStartBound(slot);
      InTreeStart(slot / 2 - 1);
    }
  }

  lemma DirectFits(slot: nat)
    requires 14 <= slot < 64
    ensures (2 + slot % 2 + 1) * Pow2(slot / 2 - 5) <= 0x1000_0000
  {
    hide Pow2;
    assert Pow2(26) == 0x400_0000 by {
      SomePowers();
      Pow2Add(8, 5);
      Pow2Add(13, 13);
    }
    Pow2Up(slot / 2 - 5, 26);
    MulLe(2 + slot % 2 + 1, 4, Pow2(slot / 2 - 5));
  }

  lemma HalveLeft(dist: nat, left: nat, bit: bool)
    requires left >= 1 && (dist + 1) * Pow2(left) <= 0x1000_0000
    ensures (2 * dist + Bit(bit) + 1) * Pow2(left - 1) <= 0x1000_0000
  {
    var p := Pow2(left - 1);
    MulLe(2 * dist + Bit(bit) + 1, 2 * (dist + 1), p);
    MulAssoc(2, dist + 1, p);
    MulAssoc(dist + 1, 2, p);
    assert Pow2(left) == 2 * p;
  }

  /** The probabilities of a phase exist. */
  lemma SlotInRange(cx: Context, ph: Phase, numProbs: nat)
    requires ContextOk(cx, numProbs) && PhaseOk(ph) && !ph.Done? && !ph.DirectBits?
    ensures 0 <= Slot(cx, ph) < numProbs
  {
    hide SpecStart, Pow2;
    TreeBound(ph);
    if ph.SpecTree? {
      SpecStartBound(ph.slot);
    }
  }

  lemma TreeBound(ph: Phase)
    requires PhaseOk(ph)
    ensures ph.LitTree? || ph.LitMatched? ==> 1 <= ph.i < 256
    ensures ph.LenTree? ==> 1 <= ph.i < if ph.group < 2 then 8 else 256
    ensures ph.SlotTree? ==> 1 <= ph.i < 64
    ensures ph.SpecTree? ==> 1 <= ph.i < Pow2(ph.slot / 2 - 1)
    ensures ph.AlignTree? ==> 1 <= ph.i < 16
  {
    hide Pow2, InTree;
    SomePowers();
    match ph
    case LitTree(i, left) => InTreeNext(i, left, 8, false);
    case LitMatched(i, left, _, _) => InTreeNext(i, left, 8, false);
    case LenTree(_, group, i, left) => InTreeNext(i, left, LenBits(group), false);
    case SlotTree(_, i, left) => InTreeNext(i, left, 6, false);
    case SpecTree(_, slot, i, left, _, _) => InTreeNext(i, left, slot / 2 - 1, false);
    case AlignTree(_, _, i, left, _, _) => InTreeNext(i, left, 4, false);
    case _ =>
  }

  /**
   * The order in which the probabilities come up within a symbol: those of the literals by their place in the tree,
   * and those of distances after those of lengths.
   */
  function Key(slot: int): int {
    if slot >= 1846 then 1846 + (slot - 1846) % 256 else if 432 <= slot < 818 then slot + 2000 else slot
  }

  /** All probabilities read from a phase on have a key of at least its mark. */
  function Mark(cx: Context, ph: Phase): int
    requires PhaseOk(ph)
  {
    if ph.Done? then 5000 else if ph.DirectBits? then 2688 else Key(Slot(cx, ph))
  }

  /** No probability is read twice within a symbol. */
  lemma MarkGrows(cx: Context, ph: Phase, bit: bool, numProbs: nat)
    requires ContextOk(cx, numProbs) && PhaseOk(ph) && !ph.Done?
    ensures PhaseOk(After(cx, ph, bit))
    ensures Mark(cx, ph) <= Mark(cx, After(cx, ph, bit))
    ensures !ph.DirectBits? ==> Key(Slot(cx, ph)) < Mark(cx, After(cx, ph, bit))
  {
    hide SpecStart, Pow2, InTree, PhaseOk, After, Slot, Key;
    AfterOk(cx, ph, bit);
    MarkInRegion(cx, ph, numProbs);
    MarkInRegion(cx, After(cx, ph, bit), numProbs);
    RegionsInOrder(cx, ph, bit);
    if FurtherDown(ph, After(cx, ph, bit)) {
      FurtherDownMarks(cx, ph, After(cx, ph, bit), numProbs);
    }
  }

  /** Where the marks of a kind of phases lie. */
  function Region(ph: Phase): (int, int) {
    match ph
    case IsMatch => (0, 192)
    case IsRep => (192, 204)
    case IsRepG0 => (204, 216)
    case IsRepG1 => (216, 228)
    case IsRepG2 => (228, 240)
    case IsRep0Long => (240, 432)
    case LitTree(_, _) => (1846, 2102)
    case LitMatched(_, _, _, _) => (1846, 2102)
    case Choice(origin) => (LenBase(origin), LenBase(origin) + 1)
    case Choice2(origin) => (LenBase(origin) + 1, LenBase(origin) + 2)
    case LenTree(origin, group, _, _) =>
      (LenBase(origin) + 2 + 128 * group, LenBase(origin) + 130 + 128 * group + if group < 2 then 0 else 128)
    case SlotTree(_, _, _) => (2432, 2688)
    case SpecTree(_, _, _, _, _, _) => (2688, 2802)
    case DirectBits(_, _, _) => (2688, 2689)
    case AlignTree(_, _, _, _, _, _) => (2802, 2818)
    case Done(_) => (5000, 5001)
  }

  lemma MarkInRegion(cx: Context, ph: Phase, numProbs: nat)
    requires ContextOk(cx, numProbs) && PhaseOk(ph)
    ensures Region(ph).0 <= Mark(cx, ph) < Region(ph).1
  {
    hide SpecStart, Pow2, InTree;
    TreeBound(ph);
    if ph.SpecTree? {
      SpecStartBound(ph.slot);
    }
  }

  /** Further down the same tree. */
  predicate FurtherDown(a: Phase, b: Phase) {
    match (a, b)
    case (LitTree(i, _), LitTree(j, _)) => i < j
    case (LitMatched(i, _, _, _), LitMatched(j, _, _, _)) => i < j
    case (LenTree(o, g, i, _), LenTree(p, h, j, _)) => o == p && g == h && i < j
    case (SlotTree(l, i, _), SlotTree(m, j, _)) => l == m && i < j
    case (SpecTree(_, s, i, _, _, _), SpecTree(_, t, j, _, _, _)) => s == t && i < j
    case (AlignTree(_, _, i, _, _, _), AlignTree(_, _, j, _, _, _)) => i < j
    case _ => false
  }

  /** The mark of a place in a tree. */
  lemma MarkInTree(cx: Context, ph: Phase, numProbs: nat)
    requires ContextOk(cx, numProbs) && PhaseOk(ph)
    ensures ph.LitTree? || ph.LitMatched? ==> Mark(cx, ph) == 1846 + ph.i
    ensures ph.LenTree? ==> Mark(cx, ph) == Slot(cx, ph)
    ensures ph.SlotTree? || ph.SpecTree? || ph.AlignTree? ==> Mark(cx, ph) == Slot(cx, ph) + 2000
  {
    hide SpecStart, Pow2, InTree;
    TreeBound(ph);
    if ph.SpecTree? {
      SpecStartBound(ph.slot);
    }
  }

  lemma FurtherDownMarks(cx: Context, a: Phase, b: Phase, numProbs: nat)
    requires ContextOk(cx, numProbs) && PhaseOk(a) && PhaseOk(b) && FurtherDown(a, b)
    ensures Mark(cx, a) < Mark(cx, b)
  {
    hide SpecStart, Pow2, InTree, Key, Mark, MatchBit;
    MarkInTree(cx, a, numProbs);
    MarkInTree(cx, b, numProbs);
  }

  lemma RegionsInOrder(cx: Context, ph: Phase, bit: bool)
    requires PhaseOk(ph) && !ph.Done?
    ensures var next := After(cx, ph, bit);
      Region(ph).1 <= Region(next).0 || FurtherDown(ph, next) || (ph.DirectBits? && next.DirectBits?)
  {
    hide SpecStart, Pow2, InTree;
    TreeBound(ph);
  }

  /** The bits with a probability that a phase has to pay for, at most. */
  function BitsOwed(ph: Phase): nat {
    match ph
    case IsMatch => 22
    case IsRep => 21
    case IsRepG0 => 13
    case IsRepG1 => 12
    case IsRepG2 => 11
    case IsRep0Long => 11
    case LitTree(_, left) => left
    case LitMatched(_, left, _, _) => left
    case Choice(origin) => if origin.Fresh? then 20 else 10
    case Choice2(origin) => if origin.Fresh? then 19 else 9
    case LenTree(origin, _, _, left) => if origin.Fresh? then left + 10 else left
    case SlotTree(_, _, left) => left + 4
    case SpecTree(_, _, _, left, _, _) => if left < 5 then left else 4
    case DirectBits(_, _, _) => 4
    case AlignTree(_, _, _, left, _, _) => left
    case Done(_) => 0
  }

  /** And the direct bits. A fifth bit of a short distance is paid for with seven of them. */
  function DirectsOwed(ph: Phase): nat {
    match ph
    case IsMatch => 26
    case IsRep => 26
    case Choice(origin) => if origin.Fresh? then 26 else 0
    case Choice2(origin) => if origin.Fresh? then 26 else 0
    case LenTree(origin, _, _, _) => if origin.Fresh? then 26 else 0
    case SlotTree(_, _, _) => 26
    case SpecTree(_, _, _, left, _, _) => if left < 5 then 0 else 7
    case DirectBits(_, _, left) => left
    case _ => 0
  }

  /** A phase has put by what a bit costs: itself, or seven direct bits. */
  predicate PaysFor(ph: Phase, next: Phase) {
    if ph.DirectBits? then BitsOwed(next) <= BitsOwed(ph) && DirectsOwed(next) < DirectsOwed(ph)
    else if BitsOwed(next) == BitsOwed(ph) then DirectsOwed(next) + 7 == DirectsOwed(ph)
    else BitsOwed(next) < BitsOwed(ph) && DirectsOwed(next) <= DirectsOwed(ph)
  }

  lemma AfterCosts(cx: Context, ph: Phase, bit: bool)
    requires PhaseOk(ph) && !ph.Done?
    ensures PaysFor(ph, After(cx, ph, bit))
  {
    hide SpecStart, Pow2;
    if ph.SlotTree? {
      SomePowers();
      InTreeNext(ph.i, ph.left, 6, bit);
    }
  }

  /** Some symbol takes n bits from here on, each of them with a probability. */
  ghost predicate CanTake(cx: Context, ph: Phase, n: nat)
    requires PhaseOk(ph)
    decreases n
  {
    if ph.Done? then n == 0
    else
      AfterOk(cx, ph, false);
      AfterOk(cx, ph, true);
      !ph.DirectBits? && n > 0 && (CanTake(cx, After(cx, ph, false), n - 1) || CanTake(cx, After(cx, ph, true), n - 1))
  }

  lemma TakeOne(cx: Context, ph: Phase, bit: bool, n: nat)
    requires PhaseOk(ph) && !ph.Done? && !ph.DirectBits? && n > 0
    ensures PhaseOk(After(cx, ph, bit))
    ensures CanTake(cx, After(cx, ph, bit), n - 1) ==> CanTake(cx, ph, n)
  {
    AfterOk(cx, ph, bit);
    hide PhaseOk, After;
  }

  /** The tree of a distance's low bits. */
  lemma {:induction false} TakeSpec(cx: Context, ph: Phase)
    requires PhaseOk(ph) && ph.SpecTree?
    ensures ph.left >= 1 && CanTake(cx, ph, ph.left)
    decreases if ph.SpecTree? then ph.left else 0
  {
    SomeLeft(ph);
    hide PhaseOk, CanTake;
    TakeOne(cx, ph, false, ph.left);
    if ph.left > 1 {
      TakeSpec(cx, After(cx, ph, false));
    } else {
      TakeNone(cx, After(cx, ph, false));
    }
  }

  lemma SomeLeft(ph: Phase)
    requires PhaseOk(ph) && (ph.SpecTree? || ph.LenTree?)
    ensures ph.left >= 1
  {
  }

  lemma TakeNone(cx: Context, ph: Phase)
    requires PhaseOk(ph) && ph.Done?
    ensures CanTake(cx, ph, 0)
  {
    hide PhaseOk;
  }

  /** The slot 12, and the five low bits of a distance in it. */
  lemma TakeSlot(cx: Context, len: nat)
    requires PhaseOk(SlotTree(len, 1, 6))
    ensures CanTake(cx, SlotTree(len, 1, 6), 11)
  {
    hide PhaseOk, CanTake, SpecStart, Pow2;
    TakeOne(cx, SlotTree(len, 1, 6), false, 11);
    TakeOne(cx, SlotTree(len, 2, 5), false, 10);
    TakeOne(cx, SlotTree(len, 4, 4), true, 9);
    TakeOne(cx, SlotTree(len, 9, 3), true, 8);
    TakeOne(cx, SlotTree(len, 19, 2), false, 7);
    TakeOne(cx, SlotTree(len, 38, 1), false, 6);
    TakeSpec(cx, SpecTree(len, 12, 1, 5, SpecStart(12), 1));
  }

  lemma AfterZero(cx: Context, i: nat, left: nat)
    requires PhaseOk(LenTree(Fresh, 2, i, left))
    ensures After(cx, LenTree(Fresh, 2, i, left), false)
         == if left == 1 then SlotTree(Leaf(2 * i, 256) + 16, 1, 6) else LenTree(Fresh, 2, 2 * i, left - 1)
  {
    hide PhaseOk, Leaf;
  }

  /** The tree of a long length. */
  lemma {:induction false} TakeLen(cx: Context, i: nat, left: nat)
    requires PhaseOk(LenTree(Fresh, 2, i, left))
    ensures CanTake(cx, LenTree(Fresh, 2, i, left), left + 11)
    decreases left
  {
    SomeLeft(LenTree(Fresh, 2, i, left));
    AfterZero(cx, i, left);
    TakeOne(cx, LenTree(Fresh, 2, i, left), false, left + 11);
    hide PhaseOk, CanTake, After, Leaf;
    if left > 1 {
      TakeLen(cx, 2 * i, left - 1);
    } else {
      TakeSlot(cx, Leaf(2 * i, 256) + 16);
    }
  }

  lemma AfterChoices(cx: Context)
    ensures After(cx, IsMatch, true) == IsRep && After(cx, IsRep, false) == Choice(Fresh)
    ensures PhaseOk(Choice(Fresh)) && After(cx, Choice(Fresh), true) == Choice2(Fresh)
    ensures PhaseOk(Choice2(Fresh)) && After(cx, Choice2(Fresh), true) == LenTree(Fresh, 2, 1, 8)
  {
  }

  /** A match with a long length and a distance of five low bits takes 23 bits with a probability and no others. */
  lemma TwentyThreeBits(cx: Context)
    ensures CanTake(cx, IsMatch, 23)
  {
    AfterChoices(cx);
    assert PhaseOk(IsMatch);
    hide PhaseOk, CanTake, After;
    TakeOne(cx, IsMatch, true, 23);
    TakeOne(cx, IsRep, false, 22);
    TakeOne(cx, Choice(Fresh), true, 21);
    TakeOne(cx, Choice2(Fresh), true, 20);
    TakeLen(cx, 1, 8);
  }
}
