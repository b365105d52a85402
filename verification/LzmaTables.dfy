/**
 * What the numbers of the LZMA decoder mean: the twelve states, the places of the probabilities, and how far these
 * move (lzmadec.c).
 */
module LzmaTables {

  import opened Arith
  import opened BitStrings
  import opened Lz77
  import opened LzmaCoder
  import opened LzmaGrammar
  import opened LzmaSymbol
  import opened LzmaState
  import opened LzmaRun
  import opened LzmaSpelling
  import opened LzmaPrefix
  import opened LzmaMeaning

  /** A probability moves by 1/32 of what it is short of 2048, or of itself, rounded down. */
  lemma Moves(p: Prob)
    ensures var up, down := Update0(p) - p, p - Update1(p);
      32 * up <= 2048 - p < 32 * up + 32 && 32 * down <= p < 32 * down + 32
  {
  }

  /** Literals at the end of a list of symbols. */
  function LiteralsAtEnd(ops: seq<Symbol>): (n: nat)
    ensures n <= |ops|
  {
    if ops == [] || !ops[|ops| - 1].Literal? then 0 else 1 + LiteralsAtEnd(ops[..|ops| - 1])
  }

  /** Whether the first n symbols end with a literal, or are none. */
  predicate AfterALiteral(ops: seq<Symbol>, n: nat)
    requires n <= |ops|
  {
    n == 0 || ops[n - 1].Literal?
  }

  /**
   * The state, by the last symbol that is no literal, what was before it, and how many literals came after it. A short
   * repeat counts as one only after a literal.
   */
  function StateTable(ops: seq<Symbol>): (r: nat)
    ensures r < 12 && (r < 7 <==> AfterALiteral(ops, |ops|))
  {
    var n := LiteralsAtEnd(ops);
    LastIsNone(ops);
    if n == |ops| || n >= 3 then 0
    else
      var i := |ops| - 1 - n;
      var column: nat := if ops[i].Match? then 0 else if ops[i].ShortRep? && AfterALiteral(ops, i) then 2 else 1;
      if n == 2 then 1 + column
      else if n == 1 then 4 + column
      else if AfterALiteral(ops, i) then 7 + column
      else 10 + column
  }

  lemma LastIsNone(ops: seq<Symbol>)
    ensures LiteralsAtEnd(ops) == 0 <==> ops == [] || !ops[|ops| - 1].Literal?
    ensures LiteralsAtEnd(ops) < |ops| ==> !ops[|ops| - 1 - LiteralsAtEnd(ops)].Literal?
  {
    if ops != [] && ops[|ops| - 1].Literal? {
      LastIsNone(ops[..|ops| - 1]);
    }
  }

  /** One more symbol moves the state as the decoder does. */
  lemma TableStep(ops: seq<Symbol>, op: Symbol)
    requires !op.EndMark?
    ensures StateTable(ops + [op]) ==
      match op
      case Literal(_) => AfterLiteral(StateTable(ops))
      case ShortRep => if StateTable(ops) < 7 then 9 else 11
      case Repeat(_, _) => if StateTable(ops) < 7 then 8 else 11
      case _ => if StateTable(ops) < 7 then 7 else 10
  {
    var more := ops + [op];
    assert more[..|more| - 1] == ops;
    LastIsNone(ops);
    LastIsNone(more);
  }

  /** The state of the decoder after a list of symbols is that of the table. */
  lemma {:induction false} StateIsTable(p: Props, s: seq<Byte>, ops: seq<Symbol>)
    requires PropsOk(p) && |s| >= 5 && Sensible(p, ops) && SpellsAll(p, s, ops) && !Closed(ops)
    ensures RunAt(p, s, |ops|).state == StateTable(ops)
    decreases |ops|
  {
    hide ContextOf, Run, NumProbs, Performed, Spells, StateTable, SpellsAll, Expanded;
    if ops == [] {
      assert StateTable([]) == 0 by {
        EmptyTable();
      }
    } else {
      var front, op := ops[..|ops| - 1], ops[|ops| - 1];
      FrontSpells(p, s, ops);
      StateIsTable(p, s, front);
      RunExpands(p, s, front);
      LastStep(p, s, front, op);
      TableStep(front, op);
      assert front + [op] == ops;
    }
  }

  lemma EmptyTable()
    ensures StateTable([]) == 0
  {
  }

  lemma FrontSpells(p: Props, s: seq<Byte>, ops: seq<Symbol>)
    requires PropsOk(p) && |s| >= 5 && SpellsAll(p, s, ops) && ops != []
    ensures SpellsAll(p, s, ops[..|ops| - 1]) && Spells(p, s, |ops| - 1, ops[|ops| - 1])
  {
    hide Spells;
    var front := ops[..|ops| - 1];
    assert forall k :: 0 <= k < |front| ==> front[k] == ops[k];
  }

  lemma LastStep(p: Props, s: seq<Byte>, front: seq<Symbol>, op: Symbol)
    requires PropsOk(p) && |s| >= 5 && Spells(p, s, |front|, op) && !op.EndMark?
    requires Sensible(p, front) && Allowed(p, Expanded(p, front), op) && Has(RunAt(p, s, |front|), Expanded(p, front))
    requires RunAt(p, s, |front|).status == Going
    ensures var x, y := RunAt(p, s, |front|).state, RunAt(p, s, |front| + 1).state;
      y == match op
        case Literal(_) => AfterLiteral(x)
        case ShortRep => if x < 7 then 9 else 11
        case Repeat(_, _) => if x < 7 then 8 else 11
        case _ => if x < 7 then 7 else 10
  {
    hide ContextOf, Run, NumProbs, Performed, Sensible, Start, Copied, Expanded;
    SpellsFinishes(p, s, |front|, op);
    ReadSpells(p, s, |front|, op);
    assert RunAt(p, s, |front| + 1) == Next(p, s, RunAt(p, s, |front|));
  }

  /** Where the probabilities of each kind begin: one kind after the other. */
  const POS_STATES := 16
  const STATES := 12
  const NUM_LEN_PROBS := 2 + 8 * POS_STATES + 8 * POS_STATES + 256
  const IS_MATCH := 0
  const IS_REP := IS_MATCH + STATES * POS_STATES
  const IS_REP_G0 := IS_REP + STATES
  const IS_REP_G1 := IS_REP_G0 + STATES
  const IS_REP_G2 := IS_REP_G1 + STATES
  const IS_REP0_LONG := IS_REP_G2 + STATES
  const POS_SLOT := IS_REP0_LONG + STATES * POS_STATES
  const SPEC_POS := POS_SLOT + 4 * 64
  const ALIGN := SPEC_POS + 128 - 14
  const LEN_CODER := ALIGN + 16
  const REP_LEN_CODER := LEN_CODER + NUM_LEN_PROBS
  const LITERAL := REP_LEN_CODER + NUM_LEN_PROBS

  /** Every bit has its probability in the place of its kind, by state and position or by the place in its tree. */
  lemma Layout(cx: Context, ph: Phase)
    requires PhaseOk(ph) && !ph.Done? && !ph.DirectBits? && !ph.LitMatched?
    ensures Slot(cx, ph) == match ph
      case IsMatch => IS_MATCH + POS_STATES * cx.state + cx.posState
      case IsRep => IS_REP + cx.state
      case IsRepG0 => IS_REP_G0 + cx.state
      case IsRepG1 => IS_REP_G1 + cx.state
      case IsRepG2 => IS_REP_G2 + cx.state
      case IsRep0Long => IS_REP0_LONG + POS_STATES * cx.state + cx.posState
      case LitTree(i, _) => cx.litBase + i
      case Choice(origin) => LenCoder(origin)
      case Choice2(origin) => LenCoder(origin) + 1
      case LenTree(origin, group, i, _) =>
        if group == 0 then LenCoder(origin) + 2 + 8 * cx.posState + i
        else if group == 1 then LenCoder(origin) + 2 + 8 * POS_STATES + 8 * cx.posState + i
        else LenCoder(origin) + 2 + 16 * POS_STATES + i
      case SlotTree(len, i, _) => POS_SLOT + 64 * Min(len, 3) + i
      case SpecTree(_, slot, i, _, _, _) => SPEC_POS + (2 + slot % 2) * Pow2(slot / 2 - 1) - slot - 1 + i
      case AlignTree(_, _, i, _, _, _) => ALIGN + i
      case _ => 0
  {
    hide Pow2, InTree;
  }

  function LenCoder(origin: Origin): nat {
    if origin.Fresh? then LEN_CODER else REP_LEN_CODER
  }

  /** All of them, and the literals after them. */
  lemma LayoutSize(p: Props)
    requires PropsOk(p)
    ensures LITERAL == 1846 && NumProbs(p) == LITERAL + 768 * Pow2(p.lc + p.lp)
  {
  }

  /** The set of a literal: the low lp bits of the position, and then the high lc bits of the byte before. */
  lemma LiteralSetParts(p: Props, at: nat, before: Byte)
    requires PropsOk(p)
    ensures LiteralSet(p, at, before) / Pow2(p.lc) == at % Pow2(p.lp)
    ensures LiteralSet(p, at, before) % Pow2(p.lc) == before / Pow2(8 - p.lc)
  {
    hide Pow2;
    HighBits(p.lc, before);
    DivUnique(LiteralSet(p, at, before), Pow2(p.lc), at % Pow2(p.lp), before / Pow2(8 - p.lc));
  }

  /** Bit j of a byte, the highest one first. */
  function ByteBit(m: nat, j: nat): bool
    requires j < 8
  {
    (m / Pow2(7 - j)) % 2 == 1
  }

  /** The bits so far are those that the byte to match begins with. */
  ghost predicate Matching(m: nat, t: Bits)
    requires |t| < 8
  {
    forall j :: 0 <= j < |t| ==> t[j] == ByteBit(m, j)
  }

  /** Where reading a literal after a match stands when the bits t have been read. */
  ghost predicate MatchedTo(cx: Context, ph: Phase, t: Bits)
    requires |t| < 8
  {
    && ph.LitMatched? && ph.left == 8 - |t| && ph.matchByte == cx.matchByte * Pow2(|t|)
    && ph.offs == if Matching(cx.matchByte, t) then 256 else 0
  }

  lemma MatchedBit(m: Byte, j: nat)
    requires j < 8
    ensures (2 * (m * Pow2(j)) / 256) % 2 == Bit(ByteBit(m, j))
  {
    SomePowers();
    hide Pow2;
    MatchedShift(m, j);
  }

  lemma MatchedShift(m: Byte, j: nat)
    requires j < 8
    ensures 2 * (m * Pow2(j)) / 256 == m / Pow2(7 - j)
  {
    SomePowers();
    hide Pow2;
    assert j == 0 || j == 1 || j == 2 || j == 3 || j == 4 || j == 5 || j == 6 || j == 7;
  }

  /**
   * A literal after a match: as long as its bits are those of the byte at the last distance, the tree is one of two
   * others, by the next bit of that byte.
   */
  lemma MatchedSlot(cx: Context, ph: Phase, t: Bits)
    requires |t| < 8 && MatchedTo(cx, ph, t)
    ensures Slot(cx, ph) == cx.litBase + ph.i +
      if !Matching(cx.matchByte, t) then 0 else if ByteBit(cx.matchByte, |t|) then 512 else 256
  {
    MatchedBit(cx.matchByte, |t|);
    hide Pow2, Matching, ByteBit;
  }

  lemma MatchedOn(cx: Context, ph: Phase, t: Bits, bit: bool)
    requires |t| < 7 && MatchedTo(cx, ph, t) && PhaseOk(ph)
    ensures MatchedTo(cx, After(cx, ph, bit), t + [bit])
  {
    MatchedBit(cx.matchByte, |t|);
    MatchingOn(cx.matchByte, t, bit);
    assert Pow2(|t| + 1) == 2 * Pow2(|t|);
    MulAssoc(cx.matchByte, 2, Pow2(|t|));
    hide Pow2, Matching, ByteBit, InTree;
  }

  lemma MatchingOn(m: nat, t: Bits, bit: bool)
    requires |t| < 7
    ensures Matching(m, t + [bit]) <==> Matching(m, t) && bit == ByteBit(m, |t|)
  {
    hide ByteBit;
    var u := t + [bit];
    assert u[|t|] == bit && forall j :: 0 <= j < |t| ==> u[j] == t[j];
  }

  lemma MatchedStart(cx: Context)
    ensures MatchedTo(cx, LitMatched(1, 8, 256, cx.matchByte), [])
  {
    assert Pow2(0) == 1;
  }
}
