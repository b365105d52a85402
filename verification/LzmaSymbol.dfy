/**
 * Reading one LZMA symbol, with adaptation of the probabilities as the decoder does it and without as the dry run
 * does it: both come to the same symbol, within 20 bytes (lzmadec.c).
 */
module LzmaSymbol {

  import opened Arith
  import opened Lz77
  import opened LzmaCoder
  import opened LzmaGrammar

  type Probs = seq<Prob>

  /** How far reading a symbol has come. */
  datatype Reading = Reading(ph: Phase, rc: Rc, probs: Probs)

  /** A reading from which the next bit can be read when there is input. */
  ghost predicate ReadingOk(cx: Context, a: Reading) {
    ContextOk(cx, |a.probs|) && PhaseOk(a.ph) && a.rc.range >= 0x1_0000
  }

  /** Bits that are still to be read. */
  function Left(ph: Phase): nat {
    BitsOwed(ph) + DirectsOwed(ph)
  }

  /** Reads one bit. The probability that it is read with is adapted or left as it is. */
  ghost function ReadBit(cx: Context, a: Reading, s: seq<Byte>, adapt: bool): (r: Reading)
    requires ReadingOk(cx, a) && !a.ph.Done? && !Starved(s, a.rc)
    ensures ReadingOk(cx, r) && |r.probs| == |a.probs| && Left(r.ph) < Left(a.ph)
    ensures r.rc.pos == Norm(s, a.rc).pos
  {
    hide SpecStart, PhaseOk, After, BitsOwed, DirectsOwed, Direct, Decide;
    var n := Norm(s, a.rc);
    if a.ph.DirectBits? then
      var (bit, rc) := Direct(n);
      AfterOk(cx, a.ph, bit);
      AfterCosts(cx, a.ph, bit);
      Reading(After(cx, a.ph, bit), rc, a.probs)
    else
      SlotInRange(cx, a.ph, |a.probs|);
      var i := Slot(cx, a.ph);
      var (bit, rc) := Decide(n, a.probs[i]);
      AfterOk(cx, a.ph, bit);
      AfterCosts(cx, a.ph, bit);
      Reading(After(cx, a.ph, bit), rc, if adapt then a.probs[i := Adapted(a.probs[i], bit)] else a.probs)
  }

  function Adapted(p: Prob, bit: bool): Prob {
    if bit then Update1(p) else Update0(p)
  }

  /** A symbol and where the coder stands after it, normalised. Short means that the input ends inside the symbol. */
  datatype Outcome = Finished(symbol: Symbol, rc: Rc, probs: Probs) | Short

  ghost function Run(cx: Context, a: Reading, s: seq<Byte>, adapt: bool): (r: Outcome)
    requires ReadingOk(cx, a)
    ensures r.Finished? ==> SymbolOk(r.symbol) && |r.probs| == |a.probs| && r.rc.range >= 0x100_0000
    ensures r.Finished? ==> a.rc.pos <= r.rc.pos && (a.rc.pos <= |s| ==> r.rc.pos <= |s|)
    decreases Left(a.ph)
  {
    if Starved(s, a.rc) then Short
    else if a.ph.Done? then Finished(a.ph.symbol, Norm(s, a.rc), a.probs)
    else Run(cx, ReadBit(cx, a, s, adapt), s, adapt)
  }

  /** The probabilities from a mark on are the same. */
  ghost predicate SameFrom(p: Probs, q: Probs, mark: int) {
    |p| == |q| && forall i :: 0 <= i < |p| && Key(i) >= mark ==> p[i] == q[i]
  }

  /** A bit read with and without adaptation is the same bit, and the probabilities of later bits stay the same. */
  lemma ReadBitAgrees(cx: Context, a: Reading, b: Reading, s: seq<Byte>)
    requires ReadingOk(cx, a) && ReadingOk(cx, b) && !a.ph.Done? && !Starved(s, a.rc)
    requires a.ph == b.ph && a.rc == b.rc && SameFrom(a.probs, b.probs, Mark(cx, a.ph))
    ensures var r, d := ReadBit(cx, a, s, true), ReadBit(cx, b, s, false);
      r.ph == d.ph && r.rc == d.rc && SameFrom(r.probs, d.probs, Mark(cx, r.ph))
  {
    hide SpecStart, PhaseOk, After, BitsOwed, DirectsOwed, Direct, Decide, Norm, Key, Slot, Adapted;
    var n := Norm(s, a.rc);
    if a.ph.DirectBits? {
      MarkGrows(cx, a.ph, Direct(n).0, |a.probs|);
    } else {
      SlotInRange(cx, a.ph, |a.probs|);
      assert a.probs[Slot(cx, a.ph)] == b.probs[Slot(cx, a.ph)];
      MarkGrows(cx, a.ph, Decide(n, a.probs[Slot(cx, a.ph)]).0, |a.probs|);
    }
  }

  /**
   * The dry run predicts the decoder: from the same state it comes to the same symbol and the same place in the
   * input, or ends for want of input just when the decoder would.
   */
  lemma {:induction false} DryRunAgrees(cx: Context, a: Reading, b: Reading, s: seq<Byte>)
    requires ReadingOk(cx, a) && ReadingOk(cx, b)
    requires a.ph == b.ph && a.rc == b.rc && SameFrom(a.probs, b.probs, Mark(cx, a.ph))
    ensures var r, d := Run(cx, a, s, true), Run(cx, b, s, false);
      if r.Short? then d.Short? else d.Finished? && d.symbol == r.symbol && d.rc == r.rc
    decreases Left(a.ph)
  {
    hide ReadBit, ReadingOk, Mark, BitsOwed, DirectsOwed, PhaseOk;
    if !Starved(s, a.rc) && !a.ph.Done? {
      ReadBitAgrees(cx, a, b, s);
      DryRunAgrees(cx, ReadBit(cx, a, s, true), ReadBit(cx, b, s, false), s);
    }
  }

  /** What the range is at least, start being where the symbol begins. */
  ghost predicate Paid(a: Reading, start: nat) {
    start <= a.rc.pos && a.rc.range as real >= Floor(a.rc.pos - start, BitsOwed(a.ph), DirectsOwed(a.ph))
  }

  /** Normalising reads at most the 20th byte. */
  lemma NormPaid(s: seq<Byte>, rc: Rc, start: nat, a: nat, b: nat)
    requires start <= rc.pos && rc.range as real >= Floor(rc.pos - start, a, b)
    ensures rc.pos <= start + 20 && (rc.range < 0x100_0000 ==> rc.pos < start + 20)
    ensures !Starved(s, rc) ==> Norm(s, rc).range as real >= Floor(Norm(s, rc).pos - start, a, b)
  {
    var n := rc.pos - start;
    assert Floor(n + 1, a, b) == 256.0 * Floor(n, a, b);
    hide Floor;
    if n >= 21 {
      TwentyOneIsTooMany();
      FloorNeedsLess(n, a, b);
      MoreBytes(21, n);
    } else if rc.range < 0x100_0000 && n >= 20 {
      TwentyOneIsTooMany();
      FloorNeedsLess(n + 1, a, b);
    }
  }

  lemma {:induction false} MoreBytes(n: nat, m: nat)
    requires n <= m
    ensures Floor(m, 0, 0) >= Floor(n, 0, 0)
    decreases m
  {
    FloorPositive(n, 0, 0);
    if n < m {
      MoreBytes(n, m - 1);
      FloorPositive(m - 1, 0, 0);
    }
  }

  lemma {:induction false} FloorGrows(n: nat, a: nat, b: nat, a': nat, b': nat)
    requires a' <= a && b' <= b
    ensures Floor(n, a', b') <= Floor(n, a, b)
    decreases a + b
  {
    hide Floor;
    if a' < a {
      FloorOfBit(n, a - 1, b);
      FloorPositive(n, a - 1, b);
      FloorGrows(n, a - 1, b, a', b');
    } else if b' < b {
      FloorOfDirect(n, a, b - 1);
      FloorPositive(n, a, b - 1);
      FloorGrows(n, a, b - 1, a', b');
    }
  }

  /** A bit with a probability is worth no more than seven direct bits. */
  lemma SevenDirects(n: nat, a: nat, b: nat)
    ensures Floor(n, a, b + 7) >= 66.5 * Floor(n, a, b)
  {
    hide Floor;
    FloorPositive(n, a, b);
    FloorOfDirect(n, a, b);
    FloorOfDirect(n, a, b + 1);
    FloorOfDirect(n, a, b + 2);
    FloorOfDirect(n, a, b + 3);
    FloorOfDirect(n, a, b + 4);
    FloorOfDirect(n, a, b + 5);
    FloorOfDirect(n, a, b + 6);
  }

  /** What a bit takes off the range is what its phase has put by for it. */
  lemma CostCovered(n: nat, ph: Phase, next: Phase, range: Word, range': Word)
    requires range as real >= Floor(n, BitsOwed(ph), DirectsOwed(ph))
    requires if ph.DirectBits? then range' * 201 >= range * 100 else range' * 133 >= range * 2
    requires PaysFor(ph, next)
    ensures range' as real >= Floor(n, BitsOwed(next), DirectsOwed(next))
  {
    hide Floor;
    var a, b := BitsOwed(next), DirectsOwed(next);
    if ph.DirectBits? {
      FloorGrows(n, BitsOwed(ph), DirectsOwed(ph), a, b + 1);
      FloorOfDirect(n, a, b);
    } else if a < BitsOwed(ph) {
      FloorGrows(n, BitsOwed(ph), DirectsOwed(ph), a + 1, b);
      FloorOfBit(n, a, b);
    } else {
      SevenDirects(n, a, b);
    }
  }

  lemma ReadBitPaid(cx: Context, a: Reading, s: seq<Byte>, adapt: bool, start: nat)
    requires ReadingOk(cx, a) && !a.ph.Done? && !Starved(s, a.rc) && Paid(a, start)
    ensures Paid(ReadBit(cx, a, s, adapt), start)
  {
    hide SpecStart, PhaseOk, After, BitsOwed, DirectsOwed, Direct, Decide, Norm, Floor, Slot, Adapted;
    var n := Norm(s, a.rc);
    NormPaid(s, a.rc, start, BitsOwed(a.ph), DirectsOwed(a.ph));
    var bit, rc;
    if a.ph.DirectBits? {
      bit, rc := Direct(n).0, Direct(n).1;
    } else {
      SlotInRange(cx, a.ph, |a.probs|);
      var d := Decide(n, a.probs[Slot(cx, a.ph)]);
      bit, rc := d.0, d.1;
    }
    AfterOk(cx, a.ph, bit);
    AfterCosts(cx, a.ph, bit);
    CostCovered(n.pos - start, a.ph, After(cx, a.ph, bit), n.range, rc.range);
  }

  lemma {:induction false} PaidRun(cx: Context, a: Reading, s: seq<Byte>, adapt: bool, start: nat)
    requires ReadingOk(cx, a) && Paid(a, start)
    ensures var r := Run(cx, a, s, adapt);
      (r.Finished? ==> r.rc.pos <= start + 20) && (|s| >= start + 20 ==> r.Finished?)
    decreases Left(a.ph)
  {
    hide ReadBit, ReadingOk, BitsOwed, DirectsOwed, PhaseOk, Floor;
    NormPaid(s, a.rc, start, BitsOwed(a.ph), DirectsOwed(a.ph));
    if Starved(s, a.rc) {
    } else if a.ph.Done? {
      NormPaid(s, Norm(s, a.rc), start, BitsOwed(a.ph), DirectsOwed(a.ph));
    } else {
      ReadBitPaid(cx, a, s, adapt, start);
      PaidRun(cx, ReadBit(cx, a, s, adapt), s, adapt, start);
    }
  }

  /** One symbol, from a normalised state, takes no more than 20 bytes, and 20 bytes are always enough for it. */
  lemma TwentyBytes(cx: Context, rc: Rc, probs: Probs, s: seq<Byte>, adapt: bool)
    requires ContextOk(cx, |probs|) && rc.range >= 0x100_0000
    ensures var r := Run(cx, Reading(IsMatch, rc, probs), s, adapt);
      (r.Finished? ==> r.rc.pos <= rc.pos + 20) && (|s| >= rc.pos + 20 ==> r.Finished?)
  {
    hide Floor, Run;
    AllowanceFits();
    PaidRun(cx, Reading(IsMatch, rc, probs), s, adapt, rc.pos);
  }

  /** Normalising first, or leaving it to the next bit, makes no difference. */
  lemma NormFirst(cx: Context, a: Reading, s: seq<Byte>, adapt: bool)
    requires ReadingOk(cx, a) && !Starved(s, a.rc)
    ensures Run(cx, a, s, adapt) == Run(cx, a.(rc := Norm(s, a.rc)), s, adapt)
  {
    hide PhaseOk, After, BitsOwed, DirectsOwed, Decide, Direct, Slot;
    var b := a.(rc := Norm(s, a.rc));
    assert Norm(s, b.rc) == b.rc;
    if !a.ph.Done? {
      assert ReadBit(cx, a, s, adapt) == ReadBit(cx, b, s, adapt);
    }
  }

  lemma ReadBitPrefix(cx: Context, a: Reading, s: seq<Byte>, s': seq<Byte>, adapt: bool)
    requires ReadingOk(cx, a) && !a.ph.Done? && !Starved(s, a.rc) && s <= s'
    ensures !Starved(s', a.rc) && ReadBit(cx, a, s', adapt) == ReadBit(cx, a, s, adapt)
  {
    hide PhaseOk, After, BitsOwed, DirectsOwed, Decide, Direct, Slot, Adapted;
    assert Norm(s', a.rc) == Norm(s, a.rc);
  }

  /** A symbol that is complete is the same whatever follows it in the input. */
  lemma {:induction false} MoreInput(cx: Context, a: Reading, s: seq<Byte>, s': seq<Byte>, adapt: bool)
    requires ReadingOk(cx, a) && s <= s' && Run(cx, a, s, adapt).Finished?
    ensures Run(cx, a, s', adapt) == Run(cx, a, s, adapt)
    decreases Left(a.ph)
  {
    hide ReadBit, ReadingOk, BitsOwed, DirectsOwed, PhaseOk;
    if !a.ph.Done? {
      ReadBitPrefix(cx, a, s, s', adapt);
      MoreInput(cx, ReadBit(cx, a, s, adapt), s, s', adapt);
    }
  }

  /** And what follows the place where it ends is not needed. */
  lemma {:induction false} LessInput(cx: Context, a: Reading, s: seq<Byte>, s': seq<Byte>, adapt: bool)
    requires ReadingOk(cx, a) && s <= s'
    requires var r := Run(cx, a, s', adapt); r.Finished? && r.rc.pos <= |s|
    ensures Run(cx, a, s, adapt) == Run(cx, a, s', adapt)
    decreases Left(a.ph)
  {
    hide ReadBit, ReadingOk, BitsOwed, DirectsOwed, PhaseOk;
    if !a.ph.Done? {
      var next := ReadBit(cx, a, s', adapt);
      assert next.rc.pos <= Run(cx, next, s', adapt).rc.pos;
      assert !Starved(s, a.rc);
      ReadBitPrefix(cx, a, s, s', adapt);
      LessInput(cx, next, s, s', adapt);
    }
  }

  /** The kinds of symbols that a dry run tells apart. */
  datatype Kind = LIT | MATCH | REP | UNKNOWN

  function SymbolKind(symbol: Symbol): Kind {
    match symbol
    case Literal(_) => LIT
    case ShortRep => REP
    case Repeat(_, _) => REP
    case Match(_, _) => MATCH
    case EndMark(_) => MATCH
  }

  /** The kind of symbol that a phase belongs to. */
  function PhaseKind(ph: Phase): Kind {
    match ph
    case IsMatch => UNKNOWN
    case IsRep => UNKNOWN
    case LitTree(_, _) => LIT
    case LitMatched(_, _, _, _) => LIT
    case Choice(origin) => if origin.Fresh? then MATCH else REP
    case Choice2(origin) => if origin.Fresh? then MATCH else REP
    case LenTree(origin, _, _, _) => if origin.Fresh? then MATCH else REP
    case SlotTree(_, _, _) => MATCH
    case SpecTree(_, _, _, _, _, _) => MATCH
    case DirectBits(_, _, _) => MATCH
    case AlignTree(_, _, _, _, _, _) => MATCH
    case Done(symbol) => SymbolKind(symbol)
    case _ => REP
  }

  lemma {:induction false} RunKind(cx: Context, a: Reading, s: seq<Byte>, adapt: bool)
    requires ReadingOk(cx, a) && Run(cx, a, s, adapt).Finished? && PhaseKind(a.ph) != UNKNOWN
    ensures SymbolKind(Run(cx, a, s, adapt).symbol) == PhaseKind(a.ph)
    decreases Left(a.ph)
  {
    hide ReadBit, ReadingOk, BitsOwed, DirectsOwed, PhaseOk;
    if !a.ph.Done? {
      ReadBitKind(cx, a, s, adapt);
      RunKind(cx, ReadBit(cx, a, s, adapt), s, adapt);
    }
  }

  lemma ReadBitKind(cx: Context, a: Reading, s: seq<Byte>, adapt: bool)
    requires ReadingOk(cx, a) && !a.ph.Done? && !Starved(s, a.rc) && PhaseKind(a.ph) != UNKNOWN
    ensures PhaseKind(ReadBit(cx, a, s, adapt).ph) == PhaseKind(a.ph)
  {
    hide SpecStart, Pow2, InTree, Decide, Direct, Norm, Slot;
  }
}
