/** No spelling of an LZMA symbol is the beginning of another one, so the bits of a symbol tell which one it is. */
module LzmaPrefix {

  import opened Arith
  import opened BitStrings
  import opened Lz77
  import opened LzmaGrammar
  import opened LzmaSymbol
  import opened LzmaSpelling

  lemma Split(a: Bits, x: Bits, b: Bits, y: Bits)
    requires |a| == |b| && a + x <= b + y
    ensures a == b && x <= y
  {
    assert forall i :: 0 <= i < |a| ==> a[i] == (a + x)[i] == (b + y)[i] == b[i];
    assert forall i :: 0 <= i < |x| ==> x[i] == (a + x)[|a| + i] == (b + y)[|a| + i] == y[i];
  }

  /** Bits that differ before either ends. */
  lemma Differ(a: Bits, x: Bits, b: Bits, y: Bits, i: nat)
    requires i < |a| && i < |b| && a[i] != b[i]
    ensures !(a + x <= b + y)
  {
    assert (a + x)[i] == a[i] && (b + y)[i] == b[i];
  }

  lemma HighFirstOnce(v: nat, w: nat, n: nat)
    requires v < Pow2(n) && w < Pow2(n) && HighFirst(v, n) == HighFirst(w, n)
    ensures v == w
  {
    HighFirstValue(v, n);
    HighFirstValue(w, n);
  }

  /** The group of a length, and its number in the group in how many bits. */
  function Group(len: nat): nat {
    if len < 8 then 0 else if len < 16 then 1 else 2
  }

  function InGroup(len: nat): nat {
    if len < 8 then len else if len < 16 then len - 8 else len - 16
  }

  lemma LengthParts(len: nat)
    requires len < 272
    ensures LengthBits(len) == GroupBits(Group(len)) + HighFirst(InGroup(len), LenBits(Group(len)))
    ensures InGroup(len) < Pow2(LenBits(Group(len)))
  {
    SomePowers();
    hide HighFirst, Pow2;
  }

  lemma GroupsDiffer(g: nat, h: nat, x: Bits, y: Bits)
    requires g < 3 && h < 3 && GroupBits(g) + x <= GroupBits(h) + y
    ensures g == h && x <= y
  {
    if g == h {
      Split(GroupBits(g), x, GroupBits(h), y);
    } else if g == 0 || h == 0 {
      Differ(GroupBits(g), x, GroupBits(h), y, 0);
    } else {
      Differ(GroupBits(g), x, GroupBits(h), y, 1);
    }
  }

  lemma LengthPrefix(l: nat, m: nat, x: Bits, y: Bits)
    requires l < 272 && m < 272 && LengthBits(l) + x <= LengthBits(m) + y
    ensures l == m && x <= y
  {
    LengthParts(l);
    LengthParts(m);
    hide LengthBits, GroupBits, HighFirst, LenBits, Pow2;
    var a, b := HighFirst(InGroup(l), LenBits(Group(l))), HighFirst(InGroup(m), LenBits(Group(m)));
    Grouped(GroupBits(Group(l)), a, x);
    Grouped(GroupBits(Group(m)), b, y);
    GroupsDiffer(Group(l), Group(m), a + x, b + y);
    Split(a, x, b, y);
    HighFirstOnce(InGroup(l), InGroup(m), LenBits(Group(l)));
  }

  /** The low bits of a distance. */
  lemma ShortLow(d: nat, e: nat)
    requires d >= 4 && e >= 4 && Low(d) == Low(e) && Top(d) == Top(e) && ToBits(d, Low(d)) == ToBits(e, Low(e))
    ensures d == e
  {
    hide Low, Top, Below, ToBits, LE, BE, Pow2;
    var n := Low(d);
    DistanceParts(d);
    DistanceParts(e);
    BEBound(Below(d));
    BEBound(Below(e));
    ToBitsLow(BE(Below(d)), Top(d), n);
    ToBitsLow(BE(Below(e)), Top(e), n);
    LEToBits(BE(Below(d)), n);
    LEToBits(BE(Below(e)), n);
  }

  lemma {:induction false} BelowOnce(d: nat, e: nat)
    requires Top(d) == Top(e) && Below(d) == Below(e)
    ensures d == e
  {
    hide Low, Top, Below, BE, Pow2;
    DistanceParts(d);
    DistanceParts(e);
  }

  lemma LongLow(d: nat, e: nat)
    requires Low(d) == Low(e) >= 6 && Top(d) == Top(e)
    requires Below(d / 16) + ToBits(d, 4) <= Below(e / 16) + ToBits(e, 4)
    ensures d == e
  {
    hide *;
    AtLeast128(d);
    AtLeast128(e);
    var h, i := d / 16, e / 16;
    LowTop16(h, d % 16);
    LowTop16(i, e % 16);
    DistanceParts(h);
    DistanceParts(i);
    Split(Below(h), ToBits(d, 4), Below(i), ToBits(e, 4));
    BelowOnce(h, i);
    LowFour(h, d % 16);
    LowFour(i, e % 16);
    FourBits(d % 16, e % 16);
  }

  lemma FourBits(v: nat, w: nat)
    requires v < 16 && w < 16 && ToBits(v, 4) == ToBits(w, 4)
    ensures v == w
  {
    assert Pow2(4) == 16;
    hide *;
    LEToBits(v, 4);
    LEToBits(w, 4);
  }

  lemma AtLeast128(d: nat)
    requires Low(d) >= 6
    ensures d >= 128 && d == 16 * (d / 16) + d % 16
  {
    assert Low(d) == 1 + Low(d / 2);
    assert Low(d / 2) == 1 + Low(d / 2 / 2);
    assert Low(d / 2 / 2) == 1 + Low(d / 2 / 2 / 2);
    assert Low(d / 2 / 2 / 2) == 1 + Low(d / 2 / 2 / 2 / 2);
    assert Low(d / 2 / 2 / 2 / 2) == 1 + Low(d / 2 / 2 / 2 / 2 / 2);
  }

  lemma {:induction false} LowBound(d: nat, n: nat)
    requires d < 4 * Pow2(n)
    ensures Low(d) <= n
  {
    if n > 0 && d >= 4 {
      LowBound(d / 2, n - 1);
    }
  }

  lemma SlotOf(d: nat)
    requires d <= 0xFFFF_FFFF
    ensures Low(d) <= 30 && 2 * Low(d) + Top(d) < 64 && (Low(d) == 0 <==> d < 4)
    ensures if d < 4 then Top(d) == d else 2 <= Top(d) < 4
  {
    assert 4 * Pow2(30) == 0x1_0000_0000 by {
      Pow2Word();
    }
    LowBound(d, 30);
    DistanceParts(d);
    hide Pow2, BE, Below;
    if d >= 4 {
      DistanceParts(d / 2);
    }
  }

  /** The first six bits tell how many bits follow the two highest ones, and these two. */
  lemma SixBits(d: nat, e: nat)
    requires d <= 0xFFFF_FFFF && e <= 0xFFFF_FFFF && HighFirst(2 * Low(d) + Top(d), 6) == HighFirst(2 * Low(e) + Top(e), 6)
    ensures Low(d) == Low(e) && Top(d) == Top(e) && (d >= 4 <==> e >= 4) && (d < 4 ==> d == e)
  {
    SomePowers();
    hide *;
    SlotOf(d);
    SlotOf(e);
    HighFirstOnce(2 * Low(d) + Top(d), 2 * Low(e) + Top(e), 6);
  }

  lemma DistancePrefix(d: nat, e: nat)
    requires d <= 0xFFFF_FFFF && e <= 0xFFFF_FFFF && DistanceBits(d) <= DistanceBits(e)
    ensures d == e
  {
    DistanceBitsAre(d);
    DistanceBitsAre(e);
    hide DistanceBits, HighFirst, ToBits, Low, Top, Below;
    var x := if Low(d) < 6 then ToBits(d, Low(d)) else Below(d / 16) + ToBits(d, 4);
    var y := if Low(e) < 6 then ToBits(e, Low(e)) else Below(e / 16) + ToBits(e, 4);
    Split(HighFirst(2 * Low(d) + Top(d), 6), x, HighFirst(2 * Low(e) + Top(e), 6), y);
    SixBits(d, e);
    if d >= 4 {
      if Low(d) < 6 {
        ShortLow(d, e);
      } else {
        LongLow(d, e);
      }
    }
  }

  /** The kinds of symbols as spelled: literal, short repeat, the four repeats, match or end mark. */
  function KindNo(symbol: Symbol): nat {
    match symbol
    case Literal(_) => 0
    case ShortRep => 1
    case Repeat(k, _) => 2 + k
    case Match(_, _) => 6
    case EndMark(_) => 6
  }

  function KindBits(n: nat): Bits {
    if n == 0 then [false]
    else if n == 1 then [true, true, false, false]
    else if n < 6 then OriginBits(Again(n - 2))
    else [true, false]
  }

  function RestBits(symbol: Symbol): Bits
    requires SymbolOk(symbol)
  {
    match symbol
    case Literal(b) => HighFirst(b, 8)
    case ShortRep => []
    case Repeat(_, len) => LengthBits(len)
    case Match(len, dist) => LengthBits(len) + DistanceBits(dist)
    case EndMark(len) => LengthBits(len) + DistanceBits(0xFFFF_FFFF)
  }

  lemma SpellingParts(symbol: Symbol)
    requires SymbolOk(symbol)
    ensures KindNo(symbol) < 7 && Spelling(symbol) == KindBits(KindNo(symbol)) + RestBits(symbol)
  {
    hide HighFirst, LengthBits, DistanceBits;
  }

  lemma KindsDiffer(m: nat, n: nat, x: Bits, y: Bits)
    requires m < 7 && n < 7 && KindBits(m) + x <= KindBits(n) + y
    ensures m == n && x <= y
  {
    if m == n {
      Split(KindBits(m), x, KindBits(n), y);
    } else {
      var i: nat :=
        if m == 0 || n == 0 then 0
        else if m == 6 || n == 6 then 1
        else if (m < 3) != (n < 3) then 2
        else if m < 4 || n < 4 then 3
        else 4;
      Differ(KindBits(m), x, KindBits(n), y, i);
    }
  }

  /** No spelling is the beginning of another. */
  lemma PrefixFree(a: Symbol, b: Symbol)
    requires SymbolOk(a) && SymbolOk(b) && Spelling(a) <= Spelling(b)
    ensures a == b
  {
    SpellingParts(a);
    SpellingParts(b);
    assert Pow2(8) == 256;
    hide Spelling, KindBits, HighFirst, LengthBits, DistanceBits, Pow2;
    KindsDiffer(KindNo(a), KindNo(b), RestBits(a), RestBits(b));
    if a.Literal? {
      HighFirstOnce(a.byte, b.byte, 8);
    } else if a.Repeat? {
      assert LengthBits(a.len) + [] == LengthBits(a.len) && LengthBits(b.len) + [] == LengthBits(b.len);
      LengthPrefix(a.len, b.len, [], []);
    } else if a.Match? || a.EndMark? {
      var d, e := if a.Match? then a.dist else 0xFFFF_FFFF, if b.Match? then b.dist else 0xFFFF_FFFF;
      LengthPrefix(a.len, b.len, DistanceBits(d), DistanceBits(e));
      DistancePrefix(d, e);
    }
  }

  /** Where the bits t lead from a phase, stopping when a symbol is complete. */
  ghost function Along(cx: Context, ph: Phase, t: Bits): (r: Phase)
    requires PhaseOk(ph)
    ensures PhaseOk(r)
    decreases |t|
  {
    if t == [] || ph.Done? then ph
    else
      AfterOk(cx, ph, t[0]);
      Along(cx, After(cx, ph, t[0]), t[1..])
  }

  /** What has been said on the way is the bits that were followed. */
  lemma {:induction false} AlongSays(cx: Context, ph: Phase, t: Bits) returns (n: nat)
    requires PhaseOk(ph) && Sound(ph)
    ensures n <= |t| && Sound(Along(cx, ph, t)) && Said(Along(cx, ph, t)) == Said(ph) + t[..n]
    ensures n < |t| ==> Along(cx, ph, t).Done?
    decreases |t|
  {
    hide PhaseOk, Sound, Said, After;
    if t == [] || ph.Done? {
      n := 0;
    } else {
      SaidGrows(cx, ph, t[0]);
      n := AlongSays(cx, After(cx, ph, t[0]), t[1..]);
      n := n + 1;
      assert [t[0]] + t[1..][..n - 1] == t[..n];
    }
  }

  /** From every phase some symbol is completed. */
  lemma {:induction false} Completes(cx: Context, ph: Phase) returns (t: Bits, symbol: Symbol)
    requires PhaseOk(ph) && Sound(ph)
    ensures SymbolOk(symbol) && Spelling(symbol) == Said(ph) + t && (t == [] ==> ph.Done?)
    decreases Left(ph)
  {
    hide *;
    if ph.Done? {
      t, symbol := [], ph.symbol;
      DoneSaid(ph);
    } else {
      SaidGrows(cx, ph, false);
      LeftFalls(cx, ph, false);
      t, symbol := Completes(cx, After(cx, ph, false));
      Grouped(Said(ph), [false], t);
      t := [false] + t;
    }
  }

  lemma DoneSaid(ph: Phase)
    requires PhaseOk(ph) && ph.Done?
    ensures SymbolOk(ph.symbol) && Sound(ph) && Said(ph) == Spelling(ph.symbol) == Spelling(ph.symbol) + []
  {
    hide Spelling;
  }

  lemma LeftFalls(cx: Context, ph: Phase, bit: bool)
    requires PhaseOk(ph) && !ph.Done?
    ensures Left(After(cx, ph, bit)) < Left(ph)
  {
    AfterCosts(cx, ph, bit);
    hide After, PhaseOk, BitsOwed, DirectsOwed;
  }

  /** In every context, following the bits that spell a symbol from the start of a symbol ends in that symbol. */
  lemma SpellingLeads(cx: Context, symbol: Symbol)
    requires SymbolOk(symbol)
    ensures Along(cx, IsMatch, Spelling(symbol)) == Done(symbol)
  {
    hide Spelling, After, Along;
    assert Said(IsMatch) == [];
    var t := Spelling(symbol);
    var ph := Along(cx, IsMatch, t);
    var n := AlongSays(cx, IsMatch, t);
    var more, other := Completes(cx, ph);
    if ph.Done? {
      assert t[..n] <= t;
      PrefixFree(ph.symbol, symbol);
    } else {
      assert t[..n] == t && t <= t + more;
      PrefixFree(symbol, other);
    }
  }
}
