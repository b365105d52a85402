/**
 * What an LZMA stream means: symbols, spelled by the decisions of the coder, and the bytes they stand for by copying
 * and by the list of the last four distances. The decoder puts out these bytes (lzmadec.c).
 */
module LzmaMeaning {

  import opened BitStrings
  import opened Lz77
  import opened LzmaCoder
  import opened LzmaGrammar
  import opened LzmaSymbol
  import opened LzmaState
  import opened LzmaRun
  import opened LzmaSpelling
  import opened LzmaPrefix

  /** The bit that is read next. */
  ghost function Decision(cx: Context, a: Reading, s: seq<Byte>): bool
    requires ReadingOk(cx, a) && !a.ph.Done? && !Starved(s, a.rc)
  {
    var n := Norm(s, a.rc);
    if a.ph.DirectBits? then Direct(n).0
    else
      SlotInRange(cx, a.ph, |a.probs|);
      Decide(n, a.probs[Slot(cx, a.ph)]).0
  }

  lemma DecisionMoves(cx: Context, a: Reading, s: seq<Byte>, adapt: bool)
    requires ReadingOk(cx, a) && !a.ph.Done? && !Starved(s, a.rc)
    ensures ReadBit(cx, a, s, adapt).ph == After(cx, a.ph, Decision(cx, a, s))
  {
    hide After, PhaseOk, Slot, Direct, Decide, BitsOwed, DirectsOwed;
  }

  /** The bits that are read for a symbol. */
  ghost function Decisions(cx: Context, a: Reading, s: seq<Byte>): Bits
    requires ReadingOk(cx, a)
    decreases Left(a.ph)
  {
    if a.ph.Done? || Starved(s, a.rc) then []
    else [Decision(cx, a, s)] + Decisions(cx, ReadBit(cx, a, s, true), s)
  }

  lemma {:induction false} RunSpells(cx: Context, a: Reading, s: seq<Byte>)
    requires ReadingOk(cx, a) && Run(cx, a, s, true).Finished? && PhaseOk(a.ph) && Sound(a.ph)
    ensures Spelling(Run(cx, a, s, true).symbol) == Said(a.ph) + Decisions(cx, a, s)
    decreases Left(a.ph)
  {
    hide ReadBit, ReadingOk, PhaseOk, Sound, Said, After, BitsOwed, DirectsOwed, Spelling, Decision;
    if a.ph.Done? {
      DoneSaid(a.ph);
    } else {
      var next := ReadBit(cx, a, s, true);
      DecisionMoves(cx, a, s, true);
      SaidGrows(cx, a.ph, Decision(cx, a, s));
      RunSpells(cx, next, s);
      Grouped(Said(a.ph), [Decision(cx, a, s)], Decisions(cx, next, s));
    }
  }

  /** The bits read for a symbol are the spelling of it, and of no other. */
  lemma ReadIsSpelled(cx: Context, rc: Rc, probs: Probs, s: seq<Byte>, symbol: Symbol)
    requires ContextOk(cx, |probs|) && rc.range >= 0x1_0000 && Run(cx, Reading(IsMatch, rc, probs), s, true).Finished?
    requires SymbolOk(symbol)
    ensures Decisions(cx, Reading(IsMatch, rc, probs), s) == Spelling(symbol)
      <==> Run(cx, Reading(IsMatch, rc, probs), s, true).symbol == symbol
  {
    hide Decisions, Run, Spelling;
    RunSpells(cx, Reading(IsMatch, rc, probs), s);
    if Decisions(cx, Reading(IsMatch, rc, probs), s) == Spelling(symbol) {
      PrefixFree(Run(cx, Reading(IsMatch, rc, probs), s, true).symbol, symbol);
    }
  }

  /** The output so far, and the last four distances, latest first. */
  datatype History = History(out: seq<Byte>, dists: seq<nat>)

  ghost predicate HistoryOk(p: Props, h: History) {
    |h.dists| == 4 && forall k :: 0 <= k < 4 ==> DistanceOk(p, h.out, h.dists[k])
  }

  const NOTHING: History := History([], [1, 1, 1, 1])

  /** A symbol makes sense: there is something to repeat, and a distance leads to the output and the dictionary. */
  predicate Allowed(p: Props, h: History, op: Symbol) {
    && SymbolOk(op)
    && match op
       case ShortRep => h.out != []
       case Repeat(_, _) => h.out != []
       case Match(_, dist) => dist < |h.out| && dist < p.dicSize
       case _ => true
  }

  /** What a symbol stands for. A distance that is used again moves to the front of the list. */
  ghost function Performed(p: Props, h: History, op: Symbol): (r: History)
    requires HistoryOk(p, h) && Allowed(p, h, op)
    ensures HistoryOk(p, r) && h.out <= r.out
  {
    match op
    case Literal(b) => History(h.out + [b], h.dists)
    case ShortRep =>
      assert DistanceOk(p, h.out, h.dists[0]);
      History(Copied(h.out, h.dists[0], 1), h.dists)
    case Repeat(k, len) =>
      var d := h.dists[k];
      assert DistanceOk(p, h.out, d);
      History(Copied(h.out, d, len + 2), [d] + h.dists[..k] + h.dists[k + 1..])
    case Match(len, dist) => History(Copied(h.out, dist + 1, len + 2), [dist + 1] + h.dists[..3])
    case EndMark(_) => h
  }

  /** The bytes that a symbol appends: as many as it says, each found its distance back. */
  lemma PerformedBytes(p: Props, h: History, op: Symbol, i: nat)
    requires HistoryOk(p, h) && Allowed(p, h, op)
    ensures var r := Performed(p, h, op).out; |r| == |h.out| + match op
      case Literal(_) => 1
      case ShortRep => 1
      case Repeat(_, len) => len + 2
      case Match(len, _) => len + 2
      case EndMark(_) => 0
    ensures var r := Performed(p, h, op).out; |h.out| <= i < |r| ==> match op
      case Literal(b) => r[i] == b
      case ShortRep => 1 <= h.dists[0] <= i && r[i] == r[i - h.dists[0]]
      case Repeat(k, _) => 1 <= h.dists[k] <= i && r[i] == r[i - h.dists[k]]
      case Match(_, dist) => dist + 1 <= i && r[i] == r[i - (dist + 1)]
      case EndMark(_) => true
  {
    hide Copied;
    match op
    case ShortRep =>
      assert DistanceOk(p, h.out, h.dists[0]);
      if i == |h.out| {
        CopiedByte(h.out, h.dists[0], 1, i);
      }
    case Repeat(k, len) =>
      assert DistanceOk(p, h.out, h.dists[k]);
      if |h.out| <= i < |h.out| + len + 2 {
        CopiedByte(h.out, h.dists[k], len + 2, i);
      }
    case Match(len, dist) =>
      if |h.out| <= i < |h.out| + len + 2 {
        CopiedByte(h.out, dist + 1, len + 2, i);
      }
    case _ =>
  }

  /** The state of a run has this history. */
  ghost predicate Has(z: Lz, h: History) {
    z.out == h.out && [z.reps.r0, z.reps.r1, z.reps.r2, z.reps.r3] == h.dists
  }

  /** What the decoder does with a symbol is what it stands for, and a symbol is an error just if it makes no sense. */
  lemma ApplyPerforms(p: Props, z: Lz, h: History, op: Symbol, rc: Rc, probs: Probs)
    requires LzOk(p, z) && z.status == Going && HistoryOk(p, h) && Has(z, h)
    requires SymbolOk(op) && rc.range >= 0x100_0000 && |probs| == |z.probs|
    ensures var y := Apply(p, z, op, rc, probs);
      if Allowed(p, h, op) then Has(y, Performed(p, h, op)) && y.status == if op.EndMark? then Ended else Going
      else y.status == Bad
  {
    hide NumProbs, Copied;
    RepsOk(p, z);
    if op.ShortRep? && h.out != [] {
      CopiedNext(h.out, h.dists[0], 0);
      CopiedNone(h.out, h.dists[0]);
    }
  }

  /** Every symbol makes sense after those before it, and only the last one may be the end mark. */
  ghost predicate Sensible(p: Props, ops: seq<Symbol>)
    requires PropsOk(p)
    decreases |ops|, 0
  {
    ops == [] ||
    (var front, op := ops[..|ops| - 1], ops[|ops| - 1];
      Sensible(p, front) && !Closed(front) && Allowed(p, Expanded(p, front), op))
  }

  predicate Closed(ops: seq<Symbol>) {
    ops != [] && ops[|ops| - 1].EndMark?
  }

  /** What a list of symbols stands for. */
  ghost function Expanded(p: Props, ops: seq<Symbol>): (h: History)
    requires PropsOk(p) && Sensible(p, ops)
    ensures HistoryOk(p, h)
    decreases |ops|, 1
  {
    if ops == [] then NOTHING else Performed(p, Expanded(p, ops[..|ops| - 1]), ops[|ops| - 1])
  }

  /** The bits read for symbol k of a stream. */
  ghost function BitsAt(p: Props, s: seq<Byte>, k: nat): Bits
    requires PropsOk(p) && |s| >= 5
  {
    var z := RunAt(p, s, k);
    Decisions(ContextOf(p, z), Reading(IsMatch, z.rc, z.probs), s)
  }

  /** Symbol k of a stream is complete, and its bits spell this symbol. */
  ghost predicate Spells(p: Props, s: seq<Byte>, k: nat, op: Symbol)
    requires PropsOk(p) && |s| >= 5
  {
    Read(p, s, RunAt(p, s, k)).Finished? && SymbolOk(op) && BitsAt(p, s, k) == Spelling(op)
  }

  lemma ReadSpells(p: Props, s: seq<Byte>, k: nat, op: Symbol)
    requires PropsOk(p) && |s| >= 5 && Read(p, s, RunAt(p, s, k)).Finished? && SymbolOk(op)
    ensures Spells(p, s, k, op) <==> Read(p, s, RunAt(p, s, k)).symbol == op
  {
    hide RunAt, ContextOf, Decisions, Run, Spelling, NumProbs;
    var z := RunAt(p, s, k);
    ReadIsSpelled(ContextOf(p, z), z.rc, z.probs, s, op);
  }

  /** The stream begins with the symbols of a list, as its decisions spell them. */
  ghost predicate SpellsAll(p: Props, s: seq<Byte>, ops: seq<Symbol>)
    requires PropsOk(p) && |s| >= 5
  {
    forall k :: 0 <= k < |ops| ==> Spells(p, s, k, ops[k])
  }

  /** A symbol that is spelled and makes sense does what it stands for. */
  lemma StepPerforms(p: Props, s: seq<Byte>, k: nat, h: History, op: Symbol)
    requires PropsOk(p) && |s| >= 5 && Spells(p, s, k, op) && HistoryOk(p, h) && Has(RunAt(p, s, k), h)
    requires RunAt(p, s, k).status == Going
    ensures var y := RunAt(p, s, k + 1);
      if Allowed(p, h, op) then Has(y, Performed(p, h, op)) && y.status == if op.EndMark? then Ended else Going
      else y.status == Bad
  {
    hide ContextOf, Run, NumProbs, Apply, Has, Performed, Allowed, HistoryOk, Spells, Start;
    var z := RunAt(p, s, k);
    SpellsFinishes(p, s, k, op);
    ReadSpells(p, s, k, op);
    var r := Read(p, s, z);
    assert RunAt(p, s, k + 1) == Next(p, s, z);
    ApplyPerforms(p, z, h, r.symbol, r.rc, r.probs);
  }

  lemma SpellsFinishes(p: Props, s: seq<Byte>, k: nat, op: Symbol)
    requires PropsOk(p) && |s| >= 5 && Spells(p, s, k, op)
    ensures Read(p, s, RunAt(p, s, k)).Finished? && SymbolOk(op)
  {
    hide RunAt, Read, BitsAt;
  }

  /** A stream whose decisions spell a list of symbols that make sense expands to what these stand for. */
  lemma {:induction false} RunExpands(p: Props, s: seq<Byte>, ops: seq<Symbol>)
    requires PropsOk(p) && |s| >= 5 && Sensible(p, ops) && SpellsAll(p, s, ops)
    ensures var z := RunAt(p, s, |ops|); Has(z, Expanded(p, ops)) && z.status == if Closed(ops) then Ended else Going
    decreases |ops|
  {
    hide ContextOf, Run, NumProbs, Next, Performed, Allowed, HistoryOk, Spells;
    if ops != [] {
      var front, op := ops[..|ops| - 1], ops[|ops| - 1];
      assert SpellsAll(p, s, front) by {
        assert forall k :: 0 <= k < |front| ==> front[k] == ops[k];
      }
      RunExpands(p, s, front);
      hide RunAt;
      StepPerforms(p, s, |front|, Expanded(p, front), op);
    }
  }

  /** The symbols that a stream begins with. */
  ghost function SymbolsOf(p: Props, s: seq<Byte>, n: nat): (ops: seq<Symbol>)
    requires PropsOk(p) && |s| >= 5 && forall k :: 0 <= k < n ==> Read(p, s, RunAt(p, s, k)).Finished?
    ensures |ops| == n
  {
    seq(n, k requires 0 <= k < n => Read(p, s, RunAt(p, s, k)).symbol)
  }

  /**
   * And every run without a fault is spelled: as far as it goes, the decisions are those of symbols that make sense,
   * and the run has come to what these stand for.
   */
  lemma {:induction false} RunIsSpelled(p: Props, s: seq<Byte>, n: nat)
    requires PropsOk(p) && |s| >= 5 && forall k :: 0 <= k < n ==> RunAt(p, s, k).status == Going
    requires RunAt(p, s, n).status == Going || RunAt(p, s, n).status == Ended
    ensures forall k :: 0 <= k < n ==> Read(p, s, RunAt(p, s, k)).Finished?
    ensures var ops := SymbolsOf(p, s, n); Sensible(p, ops) && SpellsAll(p, s, ops) && Has(RunAt(p, s, n), Expanded(p, ops))
    decreases n
  {
    hide ContextOf, Run, NumProbs, Performed, Allowed, HistoryOk, Spells, RunAt, Read;
    if n > 0 {
      RunIsSpelled(p, s, n - 1);
      NextReads(p, s, n - 1);
      var front, op := SymbolsOf(p, s, n - 1), Read(p, s, RunAt(p, s, n - 1)).symbol;
      var ops := SymbolsOf(p, s, n);
      assert ops[..n - 1] == front && ops[n - 1] == op;
      RunExpands(p, s, front);
      ReadSpells(p, s, n - 1, op);
      StepPerforms(p, s, n - 1, Expanded(p, front), op);
    } else {
      StartsWithNothing(p, s);
    }
  }

  lemma StartsWithNothing(p: Props, s: seq<Byte>)
    requires PropsOk(p) && |s| >= 5
    ensures Has(RunAt(p, s, 0), NOTHING)
  {
    hide NumProbs;
  }

  lemma NextReads(p: Props, s: seq<Byte>, k: nat)
    requires PropsOk(p) && |s| >= 5 && RunAt(p, s, k).status == Going
    requires RunAt(p, s, k + 1).status == Going || RunAt(p, s, k + 1).status == Ended
    ensures Read(p, s, RunAt(p, s, k)).Finished? && SymbolOk(Read(p, s, RunAt(p, s, k)).symbol)
  {
    hide ContextOf, Run, NumProbs, Apply, Start;
    assert RunAt(p, s, k + 1) == Next(p, s, RunAt(p, s, k));
  }

  lemma {:induction false} SensibleFront(p: Props, ops: seq<Symbol>, k: nat)
    requires PropsOk(p) && Sensible(p, ops) && k <= |ops|
    ensures Sensible(p, ops[..k]) && (k < |ops| ==> !Closed(ops[..k]))
    ensures Expanded(p, ops[..k]).out <= Expanded(p, ops).out
    decreases |ops|
  {
    hide Performed, Allowed, HistoryOk;
    if k == |ops| {
      assert ops[..k] == ops;
    } else {
      var front := ops[..|ops| - 1];
      SensibleFront(p, front, k);
      assert front[..k] == ops[..k];
      if k == |ops| - 1 {
        assert ops[..k] == front;
      }
    }
  }

  /** Every symbol but the end mark adds to the output. */
  lemma MoreOutput(p: Props, ops: seq<Symbol>, k: nat)
    requires PropsOk(p) && Sensible(p, ops) && k < |ops|
    ensures Sensible(p, ops[..k]) && !Closed(ops[..k])
    ensures !ops[k].EndMark? ==> |Expanded(p, ops[..k]).out| < |Expanded(p, ops).out|
    ensures ops[k].EndMark? ==> k == |ops| - 1
  {
    SensibleFront(p, ops, k);
    SensibleFront(p, ops, k + 1);
    var more := ops[..k + 1];
    assert more[..k] == ops[..k] && more[k] == ops[k];
    hide Performed, HistoryOk, Allowed;
    PerformedBytes(p, Expanded(p, ops[..k]), ops[k], 0);
  }

  lemma {:induction false} PositionInStream(p: Props, s: seq<Byte>, n: nat)
    requires PropsOk(p) && |s| >= 5
    ensures RunAt(p, s, n).rc.pos <= |s|
  {
    hide Run, ContextOf, NumProbs, Apply;
    if n > 0 {
      PositionInStream(p, s, n - 1);
      assert RunAt(p, s, n) == Next(p, s, RunAt(p, s, n - 1));
    }
  }

  /**
   * The stream is these symbols and there is room for what they stand for: they end with the end mark and a code of 0,
   * or they fill all the room and nothing more is asked for.
   */
  ghost predicate Complete(p: Props, s: seq<Byte>, ops: seq<Symbol>, size: int, mode: FinishMode)
    requires PropsOk(p) && |s| >= 5
  {
    && s[0] == 0 && Sensible(p, ops) && SpellsAll(p, s, ops)
    && var out, code := Expanded(p, ops).out, RunAt(p, s, |ops|).rc.code;
       if Closed(ops) then code == 0 && |out| <= size else |out| == size && (mode == LZMA_FINISH_ANY || code == 0)
  }

  /** Before each of the symbols there is room for output, but for the end mark. */
  lemma RoomFor(p: Props, s: seq<Byte>, ops: seq<Symbol>, size: int, mode: FinishMode, k: nat)
    requires PropsOk(p) && |s| >= 5 && Complete(p, s, ops, size, mode) && k < |ops|
    ensures RunAt(p, s, k).status == Going && |RunAt(p, s, k).out| <= size
    ensures ops[k].EndMark? ==> k == |ops| - 1 && RunAt(p, s, k).out == Expanded(p, ops).out
    ensures !ops[k].EndMark? ==> |RunAt(p, s, k).out| < size
    ensures RunAt(p, s, k + 1).status == if ops[k].EndMark? then Ended else Going
  {
    hide RunAt, Performed, Allowed, HistoryOk, Spells;
    MoreOutput(p, ops, k);
    SensibleFront(p, ops, k);
    SensibleFront(p, ops, k + 1);
    var front, more := ops[..k], ops[..k + 1];
    assert forall i :: 0 <= i < k ==> front[i] == ops[i];
    assert forall i :: 0 <= i < k + 1 ==> more[i] == ops[i];
    RunExpands(p, s, front);
    RunExpands(p, s, more);
    if ops[k].EndMark? {
      assert more == ops;
      EndMarkKeeps(p, ops);
    }
  }

  lemma EndMarkKeeps(p: Props, ops: seq<Symbol>)
    requires PropsOk(p) && Sensible(p, ops) && Closed(ops)
    ensures Sensible(p, ops[..|ops| - 1]) && Expanded(p, ops) == Expanded(p, ops[..|ops| - 1])
  {
  }

  lemma TookEach(p: Props, s: seq<Byte>, ops: seq<Symbol>, size: int, mode: FinishMode, k: nat)
    requires PropsOk(p) && |s| >= 5 && Complete(p, s, ops, size, mode) && k < |ops|
    requires ops[k].EndMark? ==> Wants(p, s, size, mode, k)
    ensures Took(p, s, size, mode, k)
  {
    hide RunAt, Complete;
    RoomFor(p, s, ops, size, mode, k);
  }

  /** Decoding such a stream does not fail, needs no more input, and puts out just what its symbols stand for. */
  lemma CompleteRests(p: Props, s: seq<Byte>, ops: seq<Symbol>, size: int, mode: FinishMode, n: nat)
    requires PropsOk(p) && |s| >= 5 && Complete(p, s, ops, size, mode)
    requires Reached(p, s, size, mode, |s|, n) || AtFault(p, s, size, mode, |s|, n)
    ensures Reached(p, s, size, mode, |s|, n) && !AtFault(p, s, size, mode, |s|, n) && !Wants(p, s, size, mode, n)
    ensures RunAt(p, s, n).out == Expanded(p, ops).out
  {
    hide RunAt, Performed, Allowed, HistoryOk, Spells, Took, Read, SpellsAll, Sensible, Expanded;
    var m: nat := |ops|;
    RunExpands(p, s, ops);
    if Closed(ops) {
      RoomFor(p, s, ops, size, mode, m - 1);
      if !Wants(p, s, size, mode, m - 1) {
        m := m - 1;
      }
    }
    forall k | 0 <= k < m
      ensures Took(p, s, size, mode, k)
    {
      RoomFor(p, s, ops, size, mode, k);
      TookEach(p, s, ops, size, mode, k);
    }
    PositionInStream(p, s, m);
    assert RestsAt(p, s, size, mode, |s|, m);
    OneVerdict(p, s, size, mode, |s|, n, m);
  }

  lemma CompleteFits(p: Props, s: seq<Byte>, ops: seq<Symbol>, size: int, mode: FinishMode)
    requires PropsOk(p) && |s| >= 5 && Complete(p, s, ops, size, mode)
    ensures Sensible(p, ops) && |Expanded(p, ops).out| <= size
  {
    hide Expanded, Sensible, RunAt;
  }
}
