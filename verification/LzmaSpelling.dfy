/**
 * The bits that spell each symbol of LZMA, from the symbol alone, and that reading a symbol reads just these bits
 * (lzmadec.c).
 */
module LzmaSpelling {

  import opened Arith
  import opened BitStrings
  import opened Lz77
  import opened LzmaCoder
  import opened LzmaGrammar
  import opened LzmaSymbol

  /** A number in n bits, highest first. */
  function HighFirst(v: nat, n: nat): (t: Bits)
    ensures |t| == n
  {
    if n == 0 then [] else HighFirst(v / 2, n - 1) + [v % 2 == 1]
  }

  lemma {:induction false} HighFirstValue(v: nat, n: nat)
    requires v < Pow2(n)
    ensures BE(HighFirst(v, n)) == v
  {
    if n > 0 {
      HighFirstValue(v / 2, n - 1);
      assert HighFirst(v, n)[..n - 1] == HighFirst(v / 2, n - 1);
    }
  }

  /** How many bits of a distance follow its two highest ones, these two as a number, and those that follow. */
  function Low(d: nat): nat {
    if d < 4 then 0 else 1 + Low(d / 2)
  }

  function Top(d: nat): nat {
    if d < 4 then d else Top(d / 2)
  }

  function Below(d: nat): Bits {
    if d < 4 then [] else Below(d / 2) + [d % 2 == 1]
  }

  /** Every distance is made of its parts. */
  lemma {:induction false} DistanceParts(d: nat)
    ensures |Below(d)| == Low(d) && d == Top(d) * Pow2(Low(d)) + BE(Below(d))
    ensures Top(d) == if d < 2 then d else 2 + if Top(d) == 3 then 1 else 0
  {
    if d >= 4 {
      DistanceParts(d / 2);
      var n, x := Low(d / 2), BE(Below(d / 2));
      assert Below(d)[..n] == Below(d / 2);
      assert BE(Below(d)) == 2 * x + d % 2 && Pow2(Low(d)) == 2 * Pow2(n) && Top(d) == Top(d / 2);
      hide *;
      MulAssoc(2, Top(d), Pow2(n));
      assert d == 2 * (d / 2) + d % 2;
    } else {
      assert Pow2(0) == 1;
    }
  }

  /** A length: its group, and its number in the group. */
  function LengthBits(len: nat): Bits {
    if len < 8 then [false] + HighFirst(len, 3)
    else if len < 16 then [true, false] + HighFirst(len - 8, 3)
    else [true, true] + HighFirst(len - 16, 8)
  }

  /**
   * A distance: six bits for its two highest bits and for how many follow, and then those, the lowest one first; of
   * more than five only the last four are lowest first.
   */
  function DistanceBits(d: nat): Bits {
    HighFirst(2 * Low(d) + Top(d), 6) +
    if Low(d) < 6 then ToBits(d, Low(d)) else Below(d / 16) + ToBits(d, 4)
  }

  /** Where a match gets its distance. */
  function OriginBits(origin: Origin): Bits
    requires OriginOk(origin)
  {
    match origin
    case Fresh => [true, false]
    case Again(k) =>
      if k == 0 then [true, true, false, true]
      else if k == 1 then [true, true, true, false]
      else if k == 2 then [true, true, true, true, false]
      else [true, true, true, true, true]
  }

  function Spelling(symbol: Symbol): Bits
    requires SymbolOk(symbol)
  {
    match symbol
    case Literal(b) => [false] + HighFirst(b, 8)
    case ShortRep => [true, true, false, false]
    case Repeat(k, len) => OriginBits(Again(k)) + LengthBits(len)
    case Match(len, dist) => [true, false] + LengthBits(len) + DistanceBits(dist)
    case EndMark(len) => [true, false] + LengthBits(len) + DistanceBits(0xFFFF_FFFF)
  }

  /** The bits that a place in a tree stands for. */
  function TreeBits(i: nat): Bits {
    if i < 2 then [] else TreeBits(i / 2) + [i % 2 == 1]
  }

  function GroupBits(group: nat): Bits {
    if group == 0 then [false] else if group == 1 then [true, false] else [true, true]
  }

  /** What is known of a phase besides that it is accepted. */
  ghost predicate Sound(ph: Phase) {
    match ph
    case SpecTree(_, slot, _, _, dist, _) => dist >= SpecStart(slot)
    case DirectBits(_, dist, left) => dist >= 2 && 2 <= Low(dist) + left <= 26
    case AlignTree(_, high, _, _, _, _) => high >= 2 && 2 <= Low(high) <= 26
    case _ => true
  }

  /** The bits that have been read when a phase is reached. */
  ghost function Said(ph: Phase): Bits
    requires PhaseOk(ph) && Sound(ph)
  {
    match ph
    case IsMatch => []
    case IsRep => [true]
    case IsRepG0 => [true, true]
    case IsRep0Long => [true, true, false]
    case IsRepG1 => [true, true, true]
    case IsRepG2 => [true, true, true, true]
    case LitTree(i, _) => [false] + TreeBits(i)
    case LitMatched(i, _, _, _) => [false] + TreeBits(i)
    case Choice(origin) => OriginBits(origin)
    case Choice2(origin) => OriginBits(origin) + [true]
    case LenTree(origin, group, i, _) => OriginBits(origin) + GroupBits(group) + TreeBits(i)
    case SlotTree(len, i, _) => [true, false] + LengthBits(len) + TreeBits(i)
    case SpecTree(len, slot, _, left, dist, _) =>
      [true, false] + LengthBits(len) + HighFirst(slot, 6) + ToBits(dist - SpecStart(slot), slot / 2 - 1 - left)
    case DirectBits(len, dist, left) =>
      [true, false] + LengthBits(len) + HighFirst(2 * (Low(dist) + left + 4) + Top(dist), 6) + Below(dist)
    case AlignTree(len, high, _, left, low, _) =>
      [true, false] + LengthBits(len) + HighFirst(2 * (Low(high) + 4) + Top(high), 6) + Below(high) + ToBits(low, 4 - left)
    case Done(symbol) => Spelling(symbol)
  }

  lemma Last(a: Bits, t: Bits, bit: bool)
    ensures a + t + [bit] == a + (t + [bit])
  {
  }

  lemma TreeNext(i: nat, bit: bool)
    requires i >= 1
    ensures TreeBits(2 * i + Bit(bit)) == TreeBits(i) + [bit]
  {
  }

  /** At the bottom of a tree of n bits. */
  lemma {:induction false} TreeEnd(i: nat, n: nat)
    requires Pow2(n) <= i < 2 * Pow2(n)
    ensures TreeBits(i) == HighFirst(i - Pow2(n), n)
  {
    if n > 0 {
      TreeEnd(i / 2, n - 1);
      assert (i - Pow2(n)) / 2 == i / 2 - Pow2(n - 1) && (i - Pow2(n)) % 2 == i % 2;
    }
  }

  lemma DistanceNext(d: nat, bit: bool)
    requires d >= 2
    ensures Low(2 * d + Bit(bit)) == Low(d) + 1 && Top(2 * d + Bit(bit)) == Top(d)
    ensures Below(2 * d + Bit(bit)) == Below(d) + [bit]
  {
  }

  /** A number that gets one more bit above its n lowest ones. */
  function Topped(v: nat, n: nat, bit: bool): nat {
    if bit then v + Pow2(n) else v
  }

  lemma {:induction false} ToBitsSnoc(v: nat, n: nat, bit: bool)
    requires v < Pow2(n)
    ensures ToBits(Topped(v, n, bit), n + 1) == ToBits(v, n) + [bit]
  {
    var w := Topped(v, n, bit);
    if n > 0 {
      ToBitsSnoc(v / 2, n - 1, bit);
      assert w % 2 == v % 2 && w / 2 == Topped(v / 2, n - 1, bit);
    }
  }

  /** Only the low bits count. */
  lemma {:induction false} ToBitsLow(v: nat, c: nat, n: nat)
    ensures ToBits(c * Pow2(n) + v, n) == ToBits(v, n)
  {
    if n > 0 {
      ToBitsLow(v / 2, c, n - 1);
      MulAssoc(c, 2, Pow2(n - 1));
      var w := c * Pow2(n) + v;
      assert w == 2 * (c * Pow2(n - 1)) + v;
      assert w % 2 == v % 2 && w / 2 == c * Pow2(n - 1) + v / 2;
    }
  }

  lemma {:induction false} LowTop(t: nat, n: nat, x: nat)
    requires 2 <= t < 4 && x < Pow2(n)
    ensures Low(t * Pow2(n) + x) == n && Top(t * Pow2(n) + x) == t
  {
    if n > 0 {
      LowTop(t, n - 1, x / 2);
      MulAssoc(t, 2, Pow2(n - 1));
      MulLe(1, Pow2(n - 1), t);
      var d := t * Pow2(n) + x;
      assert d == 2 * (t * Pow2(n - 1)) + x && d / 2 == t * Pow2(n - 1) + x / 2 && d >= 4;
    }
  }

  lemma {:induction false} LowTop16(high: nat, x: nat)
    requires high >= 2 && x < 16
    ensures Low(16 * high + x) == Low(high) + 4 && Top(16 * high + x) == Top(high)
  {
    var d := 16 * high + x;
    assert d / 2 == 8 * high + x / 2 && d / 2 / 2 == 4 * high + x / 4 && d / 2 / 2 / 2 == 2 * high + x / 8;
    assert d / 2 / 2 / 2 / 2 == high;
    hide Low, Top;
    Halved(d);
    Halved(d / 2);
    Halved(d / 2 / 2);
    Halved(d / 2 / 2 / 2);
  }

  lemma Halved(d: nat)
    requires d >= 4
    ensures Low(d) == Low(d / 2) + 1 && Top(d) == Top(d / 2)
  {
  }

  lemma SaidInLiteral(ph: Phase)
    requires PhaseOk(ph) && (ph.LitTree? || ph.LitMatched?)
    ensures Sound(ph) && Said(ph) == [false] + TreeBits(ph.i)
  {
    hide Pow2, InTree, TreeBits, HighFirst, LengthBits, DistanceBits, OriginBits, GroupBits, Low, Top, Below, ToBits;
  }

  lemma AfterInLiteral(cx: Context, ph: Phase, bit: bool)
    requires PhaseOk(ph) && (ph.LitTree? || ph.LitMatched?)
    ensures var next, i := After(cx, ph, bit), 2 * ph.i + Bit(bit);
      if ph.left == 1 then next == Done(Literal(i % 256)) else (next.LitTree? || next.LitMatched?) && next.i == i
  {
    hide MatchBit, Pow2, InTree;
  }

  lemma LiteralTreeEnd(ph: Phase, bit: bool)
    requires PhaseOk(ph) && (ph.LitTree? || ph.LitMatched?)
    ensures ph.i >= 1
    ensures ph.left == 1 ==> TreeBits(2 * ph.i + Bit(bit)) == HighFirst((2 * ph.i + Bit(bit)) % 256, 8)
  {
    LiteralBounds(ph, bit);
    hide *;
    if ph.left == 1 {
      ByteEnd(2 * ph.i + Bit(bit));
    }
  }

  lemma LiteralBounds(ph: Phase, bit: bool)
    requires PhaseOk(ph) && (ph.LitTree? || ph.LitMatched?)
    ensures ph.i >= 1 && (ph.left == 1 ==> 256 <= 2 * ph.i + Bit(bit) < 512)
  {
    SomePowers();
    InTreeNext(ph.i, ph.left, 8, bit);
    hide Pow2, InTree;
  }

  lemma ByteEnd(i: nat)
    requires 256 <= i < 512
    ensures TreeBits(i) == HighFirst(i % 256, 8)
  {
    SomePowers();
    hide *;
    TreeEnd(i, 8);
  }

  lemma LiteralSaid(cx: Context, ph: Phase, bit: bool)
    requires PhaseOk(ph) && (ph.LitTree? || ph.LitMatched?)
    ensures var next := After(cx, ph, bit); PhaseOk(next) && Sound(next) && Sound(ph) && Said(next) == Said(ph) + [bit]
  {
    hide *;
    AfterOk(cx, ph, bit);
    AfterInLiteral(cx, ph, bit);
    SaidInLiteral(ph);
    LiteralTreeEnd(ph, bit);
    TreeNext(ph.i, bit);
    Last([false], TreeBits(ph.i), bit);
    if ph.left == 1 {
      LiteralDone((2 * ph.i + Bit(bit)) % 256);
    } else {
      SaidInLiteral(After(cx, ph, bit));
    }
  }

  lemma LiteralDone(b: Byte)
    ensures Sound(Done(Literal(b))) && Said(Done(Literal(b))) == [false] + HighFirst(b, 8)
  {
    hide Pow2, InTree, TreeBits, HighFirst, LengthBits, DistanceBits, OriginBits, GroupBits, Low, Top, Below, ToBits;
  }

  /** Where a length ends. */
  lemma LengthEnd(group: nat, i: nat)
    requires group < 3 && Pow2(LenBits(group)) <= i < 2 * Pow2(LenBits(group))
    ensures LengthBits(Leaf(i, if group < 2 then 8 else 256) + 8 * group) == GroupBits(group) + TreeBits(i)
  {
    SomePowers();
    TreeEnd(i, LenBits(group));
    hide Pow2, TreeBits, HighFirst;
  }

  lemma SaidInLength(ph: Phase)
    requires PhaseOk(ph) && ph.LenTree?
    ensures OriginOk(ph.origin) && Sound(ph) && Said(ph) == OriginBits(ph.origin) + GroupBits(ph.group) + TreeBits(ph.i)
  {
    hide Pow2, InTree, TreeBits, HighFirst, LengthBits, DistanceBits, OriginBits, GroupBits, Low, Top, Below, ToBits;
  }

  lemma AfterInLength(cx: Context, ph: Phase, bit: bool)
    requires PhaseOk(ph) && ph.LenTree?
    ensures var i := 2 * ph.i + Bit(bit);
      && ph.i >= 1 && ph.group < 3
      && After(cx, ph, bit) == (
        if ph.left == 1 then AfterLen(ph.origin, Leaf(i, if ph.group < 2 then 8 else 256) + 8 * ph.group)
        else LenTree(ph.origin, ph.group, i, ph.left - 1))
      && (ph.left == 1 ==> Pow2(LenBits(ph.group)) <= i < 2 * Pow2(LenBits(ph.group)))
  {
    InTreeNext(ph.i, ph.left, LenBits(ph.group), bit);
    hide Pow2, InTree, LenBits;
  }

  lemma LengthSaid(cx: Context, ph: Phase, bit: bool)
    requires PhaseOk(ph) && ph.LenTree?
    ensures var next := After(cx, ph, bit); PhaseOk(next) && Sound(next) && Sound(ph) && Said(next) == Said(ph) + [bit]
  {
    hide *;
    AfterOk(cx, ph, bit);
    AfterInLength(cx, ph, bit);
    SaidInLength(ph);
    TreeNext(ph.i, bit);
    var i := 2 * ph.i + Bit(bit);
    Last(OriginBits(ph.origin) + GroupBits(ph.group), TreeBits(ph.i), bit);
    if ph.left == 1 {
      LengthEnd(ph.group, i);
      Grouped(OriginBits(ph.origin), GroupBits(ph.group), TreeBits(i));
      LengthDone(ph.origin, Leaf(i, if ph.group < 2 then 8 else 256) + 8 * ph.group);
    } else {
      SaidInLength(After(cx, ph, bit));
    }
  }

  lemma LengthDone(origin: Origin, len: nat)
    requires OriginOk(origin) && PhaseOk(AfterLen(origin, len))
    ensures Sound(AfterLen(origin, len)) && Said(AfterLen(origin, len)) == OriginBits(origin) + LengthBits(len)
  {
    hide LengthBits, Pow2;
  }

  lemma SaidInSlot(ph: Phase)
    requires PhaseOk(ph) && ph.SlotTree?
    ensures Sound(ph) && Said(ph) == [true, false] + LengthBits(ph.len) + TreeBits(ph.i)
  {
    hide Pow2, InTree, TreeBits, HighFirst, LengthBits, DistanceBits, OriginBits, GroupBits, Low, Top, Below, ToBits;
  }

  lemma AfterInSlot(cx: Context, ph: Phase, bit: bool)
    requires PhaseOk(ph) && ph.SlotTree?
    ensures var i := 2 * ph.i + Bit(bit);
      && ph.i >= 1 && (ph.left == 1 ==> 64 <= i < 128)
      && After(cx, ph, bit) == (if ph.left == 1 then AfterSlot(ph.len, i - 64) else SlotTree(ph.len, i, ph.left - 1))
  {
    SomePowers();
    InTreeNext(ph.i, ph.left, 6, bit);
    hide Pow2, InTree;
  }

  lemma SlotEnd(i: nat)
    requires 64 <= i < 128
    ensures TreeBits(i) == HighFirst(i - 64, 6)
  {
    SomePowers();
    hide *;
    TreeEnd(i, 6);
  }

  lemma SlotSaid(cx: Context, ph: Phase, bit: bool)
    requires PhaseOk(ph) && ph.SlotTree?
    ensures var next := After(cx, ph, bit); PhaseOk(next) && Sound(next) && Sound(ph) && Said(next) == Said(ph) + [bit]
  {
    hide *;
    AfterOk(cx, ph, bit);
    AfterInSlot(cx, ph, bit);
    SaidInSlot(ph);
    TreeNext(ph.i, bit);
    Last([true, false] + LengthBits(ph.len), TreeBits(ph.i), bit);
    if ph.left == 1 {
      SlotEnd(2 * ph.i + Bit(bit));
      SlotDone(ph.len, 2 * ph.i + Bit(bit) - 64);
    } else {
      SaidInSlot(After(cx, ph, bit));
    }
  }

  lemma SlotDone(len: nat, slot: nat)
    requires slot < 64 && PhaseOk(AfterSlot(len, slot))
    ensures Sound(AfterSlot(len, slot)) && Said(AfterSlot(len, slot)) == [true, false] + LengthBits(len) + HighFirst(slot, 6)
  {
    hide LengthBits, Pow2, HighFirst, InTree, SpecStart;
    assert ToBits(0, 0) == [] && ToBits(slot, 0) == [];
    if slot < 4 {
      assert Low(slot) == 0 && Top(slot) == slot;
    } else if slot >= 14 {
      var d := 2 + slot % 2;
      assert Low(d) == 0 && Top(d) == d && Below(d) == [];
      assert 2 * (Low(d) + (slot / 2 - 5) + 4) + Top(d) == slot;
    }
  }

  lemma SaidInSpec(ph: Phase)
    requires PhaseOk(ph) && ph.SpecTree? && Sound(ph)
    ensures var k := ph.slot / 2 - 1;
      && 4 <= ph.slot < 14 && 1 <= ph.left <= k && ph.len < 272 && ph.dist >= SpecStart(ph.slot)
      && ph.mask == Pow2(k - ph.left) && ph.dist - SpecStart(ph.slot) < ph.mask
      && Said(ph) == [true, false] + LengthBits(ph.len) + HighFirst(ph.slot, 6) + ToBits(ph.dist - SpecStart(ph.slot), k - ph.left)
  {
    TreeLeft(ph.i, ph.left, ph.slot / 2 - 1);
    hide Pow2, InTree, TreeBits, HighFirst, LengthBits, DistanceBits, OriginBits, GroupBits, Low, Top, Below, ToBits, SpecStart;
  }

  lemma AfterInSpec(cx: Context, ph: Phase, bit: bool)
    requires PhaseOk(ph) && ph.SpecTree?
    ensures var d, next := (if bit then ph.dist + ph.mask else ph.dist), After(cx, ph, bit);
      if ph.left == 1 then next == Done(Match(ph.len, d))
      else next.SpecTree? && next.len == ph.len && next.slot == ph.slot && next.left == ph.left - 1 && next.dist == d
  {
    hide Pow2, InTree, SpecStart;
  }

  lemma StillSpec(ph: Phase)
    requires ph.SpecTree? && ph.dist >= SpecStart(ph.slot)
    ensures Sound(ph)
  {
    hide SpecStart;
  }

  lemma SpecSaid(cx: Context, ph: Phase, bit: bool)
    requires PhaseOk(ph) && ph.SpecTree? && Sound(ph)
    ensures var next := After(cx, ph, bit); PhaseOk(next) && Sound(next) && Said(next) == Said(ph) + [bit]
  {
    hide *;
    AfterOk(cx, ph, bit);
    AfterInSpec(cx, ph, bit);
    SaidInSpec(ph);
    var k := ph.slot / 2 - 1;
    var x := ph.dist - SpecStart(ph.slot);
    ToBitsSnoc(x, k - ph.left, bit);
    Last([true, false] + LengthBits(ph.len) + HighFirst(ph.slot, 6), ToBits(x, k - ph.left), bit);
    var y := Topped(x, k - ph.left, bit);
    ToppedBound(x, k - ph.left, bit);
    if ph.left == 1 {
      SpecDone(ph.len, ph.slot, y);
    } else {
      StillSpec(After(cx, ph, bit));
      SaidInSpec(After(cx, ph, bit));
    }
  }

  lemma ToppedBound(v: nat, n: nat, bit: bool)
    requires v < Pow2(n)
    ensures Topped(v, n, bit) == (if bit then v + Pow2(n) else v) && Topped(v, n, bit) < Pow2(n + 1)
  {
  }

  lemma SpecDone(len: nat, slot: nat, x: nat)
    requires len < 272 && 4 <= slot < 14 && x < Pow2(slot / 2 - 1)
    ensures SymbolOk(Match(len, SpecStart(slot) + x)) && Sound(Done(Match(len, SpecStart(slot) + x)))
    ensures Said(Done(Match(len, SpecStart(slot) + x)))
         == [true, false] + LengthBits(len) + HighFirst(slot, 6) + ToBits(x, slot / 2 - 1)
  {
    var k := slot / 2 - 1;
    SpecStartBound(slot);
    ShortDistance(slot, x);
    SaidMatch(len, SpecStart(slot) + x);
    hide *;
    Grouped([true, false] + LengthBits(len), HighFirst(slot, 6), ToBits(x, k));
  }

  lemma ShortDistance(slot: nat, x: nat)
    requires 4 <= slot < 14 && x < Pow2(slot / 2 - 1)
    ensures DistanceBits(SpecStart(slot) + x) == HighFirst(slot, 6) + ToBits(x, slot / 2 - 1)
  {
    var k := slot / 2 - 1;
    LowTop(2 + slot % 2, k, x);
    ToBitsLow(x, 2 + slot % 2, k);
    assert SpecStart(slot) == (2 + slot % 2) * Pow2(k);
    DistanceBitsAre(SpecStart(slot) + x);
    hide *;
    assert 2 * k + (2 + slot % 2) == slot;
  }

  lemma SaidMatch(len: nat, dist: nat)
    requires len < 272 && dist < 0xFFFF_FFFF
    ensures SymbolOk(Match(len, dist)) && PhaseOk(Done(Match(len, dist))) && Sound(Done(Match(len, dist)))
    ensures Said(Done(Match(len, dist))) == [true, false] + LengthBits(len) + DistanceBits(dist)
  {
    hide Pow2, InTree, TreeBits, HighFirst, LengthBits, DistanceBits, OriginBits, GroupBits, Low, Top, Below, ToBits;
  }

  lemma Grouped(a: Bits, b: Bits, c: Bits)
    ensures a + (b + c) == a + b + c
  {
  }

  /** The number of the slot of a distance that begins with d and has n more bits, and the bits down to it. */
  function HeadBits(len: nat, d: nat, n: nat): Bits {
    [true, false] + LengthBits(len) + HighFirst(2 * (Low(d) + n) + Top(d), 6)
  }

  lemma SaidInDirect(ph: Phase)
    requires PhaseOk(ph) && ph.DirectBits? && Sound(ph)
    ensures ph.left >= 1 && ph.dist >= 2 && 2 <= Low(ph.dist) + ph.left <= 26
    ensures Said(ph) == HeadBits(ph.len, ph.dist, ph.left + 4) + Below(ph.dist)
  {
    hide Pow2, InTree, TreeBits, HighFirst, LengthBits, DistanceBits, OriginBits, GroupBits, Low, Top, Below, ToBits;
  }

  lemma SaidInAlign(ph: Phase)
    requires PhaseOk(ph) && ph.AlignTree? && Sound(ph)
    ensures 1 <= ph.left <= 4 && ph.len < 272 && 2 <= ph.high < 0x1000_0000 && 2 <= Low(ph.high)
    ensures ph.mask == Pow2(4 - ph.left) && ph.low < ph.mask
    ensures Said(ph) == HeadBits(ph.len, ph.high, 4) + Below(ph.high) + ToBits(ph.low, 4 - ph.left)
  {
    TreeLeft(ph.i, ph.left, 4);
    hide Pow2, InTree, TreeBits, HighFirst, LengthBits, DistanceBits, OriginBits, GroupBits, Low, Top, Below, ToBits;
  }

  lemma AfterInDirect(cx: Context, ph: Phase, bit: bool)
    requires PhaseOk(ph) && ph.DirectBits?
    ensures After(cx, ph, bit) ==
      if ph.left == 1 then AlignTree(ph.len, 2 * ph.dist + Bit(bit), 1, 4, 0, 1)
      else DirectBits(ph.len, 2 * ph.dist + Bit(bit), ph.left - 1)
  {
  }

  lemma SoundInDirect(ph: Phase, next: Phase, bit: bool)
    requires ph.DirectBits? && ph.left >= 1 && ph.dist >= 2 && 2 <= Low(ph.dist) + ph.left <= 26
    requires var d := 2 * ph.dist + Bit(bit);
      && Low(d) == Low(ph.dist) + 1
      && next == if ph.left == 1 then AlignTree(ph.len, d, 1, 4, 0, 1) else DirectBits(ph.len, d, ph.left - 1)
    ensures Sound(next)
  {
    hide Low;
  }

  lemma SameHead(len: nat, d: nat, d': nat, n: nat)
    requires Low(d') == Low(d) + 1 && Top(d') == Top(d)
    ensures HeadBits(len, d, n + 1) == HeadBits(len, d', n)
  {
    hide LengthBits, HighFirst, Low, Top;
    assert 2 * (Low(d) + (n + 1)) + Top(d) == 2 * (Low(d') + n) + Top(d');
  }

  lemma DirectSaid(cx: Context, ph: Phase, bit: bool)
    requires PhaseOk(ph) && ph.DirectBits? && Sound(ph)
    ensures var next := After(cx, ph, bit); PhaseOk(next) && Sound(next) && Said(next) == Said(ph) + [bit]
  {
    hide *;
    AfterOk(cx, ph, bit);
    AfterInDirect(cx, ph, bit);
    SaidInDirect(ph);
    DistanceNext(ph.dist, bit);
    var d, next := 2 * ph.dist + Bit(bit), After(cx, ph, bit);
    SoundInDirect(ph, next, bit);
    SameHead(ph.len, ph.dist, d, ph.left + 3);
    Last(HeadBits(ph.len, ph.dist, ph.left + 4), Below(ph.dist), bit);
    if ph.left == 1 {
      SaidInAlign(next);
      NoBits(HeadBits(ph.len, d, 4) + Below(d));
    } else {
      SaidInDirect(next);
    }
  }

  lemma NoBits(t: Bits)
    ensures t + ToBits(0, 0) == t
  {
  }

  lemma AfterInAlign(cx: Context, ph: Phase, bit: bool)
    requires PhaseOk(ph) && ph.AlignTree?
    ensures var l, next := (if bit then ph.low + ph.mask else ph.low), After(cx, ph, bit);
      if ph.left == 1 then next == AfterAlign(ph.len, 16 * ph.high + l)
      else next.AlignTree? && next.len == ph.len && next.high == ph.high && next.left == ph.left - 1 && next.low == l
  {
    hide Pow2, InTree, AfterAlign;
  }

  lemma StillAlign(ph: Phase, next: Phase)
    requires ph.AlignTree? && next.AlignTree? && ph.high == next.high && Sound(ph)
    ensures Sound(next)
  {
    hide Low;
  }

  lemma AlignSaid(cx: Context, ph: Phase, bit: bool)
    requires PhaseOk(ph) && ph.AlignTree? && Sound(ph)
    ensures var next := After(cx, ph, bit); PhaseOk(next) && Sound(next) && Said(next) == Said(ph) + [bit]
  {
    hide *;
    AfterOk(cx, ph, bit);
    AfterInAlign(cx, ph, bit);
    SaidInAlign(ph);
    var n := 4 - ph.left;
    var head := HeadBits(ph.len, ph.high, 4) + Below(ph.high);
    ToppedBound(ph.low, n, bit);
    AlignBits(head, ph.low, n, bit);
    if ph.left == 1 {
      AlignDone(ph.len, ph.high, Topped(ph.low, n, bit));
    } else {
      StillAlign(ph, After(cx, ph, bit));
      SaidInAlign(After(cx, ph, bit));
    }
  }

  lemma AlignBits(head: Bits, low: nat, n: nat, bit: bool)
    requires low < Pow2(n) && n < 4
    ensures head + ToBits(Topped(low, n, bit), n + 1) == head + ToBits(low, n) + [bit]
    ensures n == 3 ==> Topped(low, n, bit) < 16
  {
    assert Pow2(4) == 16;
    hide *;
    ToBitsSnoc(low, n, bit);
    ToppedBound(low, n, bit);
  }

  lemma LongDistance(high: nat, low: nat)
    requires high >= 2 && 2 <= Low(high) && low < 16
    ensures DistanceBits(16 * high + low) == HighFirst(2 * (Low(high) + 4) + Top(high), 6) + (Below(high) + ToBits(low, 4))
  {
    hide *;
    LowTop16(high, low);
    LowFour(high, low);
    DistanceBitsAre(16 * high + low);
  }

  lemma LowFour(high: nat, low: nat)
    requires low < 16
    ensures (16 * high + low) / 16 == high && ToBits(16 * high + low, 4) == ToBits(low, 4)
  {
    assert high * Pow2(4) == 16 * high by {
      assert Pow2(4) == 16;
    }
    hide *;
    ToBitsLow(low, high, 4);
  }

  lemma DistanceBitsAre(d: nat)
    ensures DistanceBits(d) ==
      HighFirst(2 * Low(d) + Top(d), 6) + if Low(d) < 6 then ToBits(d, Low(d)) else Below(d / 16) + ToBits(d, 4)
  {
    hide HighFirst, ToBits, Low, Top, Below;
  }

  lemma SaidEndMark(len: nat)
    requires len < 272
    ensures PhaseOk(Done(EndMark(len))) && Sound(Done(EndMark(len)))
    ensures Said(Done(EndMark(len))) == [true, false] + LengthBits(len) + DistanceBits(0xFFFF_FFFF)
  {
    hide Pow2, InTree, TreeBits, HighFirst, LengthBits, DistanceBits, OriginBits, GroupBits, Low, Top, Below, ToBits;
  }

  lemma AfterAlignIs(len: nat, d: nat)
    ensures AfterAlign(len, d) == if d == 0xFFFF_FFFF then Done(EndMark(len)) else Done(Match(len, d))
  {
  }

  lemma HeadBitsAre(len: nat, d: nat, n: nat)
    ensures HeadBits(len, d, n) == [true, false] + LengthBits(len) + HighFirst(2 * (Low(d) + n) + Top(d), 6)
  {
    hide LengthBits, HighFirst, Low, Top;
  }

  lemma AlignDone(len: nat, high: nat, low: nat)
    requires len < 272 && 2 <= high < 0x1000_0000 && 2 <= Low(high) && low < 16
    ensures PhaseOk(AfterAlign(len, 16 * high + low)) && Sound(AfterAlign(len, 16 * high + low))
    ensures Said(AfterAlign(len, 16 * high + low)) == HeadBits(len, high, 4) + Below(high) + ToBits(low, 4)
  {
    hide *;
    var d := 16 * high + low;
    LongDistance(high, low);
    if d == 0xFFFF_FFFF {
      SaidEndMark(len);
    } else {
      SaidMatch(len, d);
    }
    AfterAlignIs(len, d);
    HeadBitsAre(len, high, 4);
    var six := HighFirst(2 * (Low(high) + 4) + Top(high), 6);
    Grouped([true, false] + LengthBits(len), six, Below(high) + ToBits(low, 4));
    Grouped([true, false] + LengthBits(len) + six, Below(high), ToBits(low, 4));
  }

  /** Every bit that is read is the next one of the spelling. */
  lemma SaidGrows(cx: Context, ph: Phase, bit: bool)
    requires PhaseOk(ph) && Sound(ph) && !ph.Done?
    ensures var next := After(cx, ph, bit); PhaseOk(next) && Sound(next) && Said(next) == Said(ph) + [bit]
  {
    match ph
    case LitTree(_, _) => LiteralSaid(cx, ph, bit);
    case LitMatched(_, _, _, _) => LiteralSaid(cx, ph, bit);
    case LenTree(_, _, _, _) => LengthSaid(cx, ph, bit);
    case SlotTree(_, _, _) => SlotSaid(cx, ph, bit);
    case SpecTree(_, _, _, _, _, _) => SpecSaid(cx, ph, bit);
    case DirectBits(_, _, _) => DirectSaid(cx, ph, bit);
    case AlignTree(_, _, _, _, _, _) => AlignSaid(cx, ph, bit);
    case _ =>
      AfterOk(cx, ph, bit);
      hide Pow2, InTree, LengthBits, HighFirst;
  }
}
