/**
 * Every list of symbols that makes sense has a stream: a coder for the decoder, which works from the last bit back to
 * the first. What the decoder makes of the stream is what the symbols stand for (lzmadec.c).
 */
module LzmaEncode {

  import opened BitStrings
  import opened Lz77
  import opened LzmaCoder
  import opened LzmaGrammar
  import opened LzmaSymbol
  import opened LzmaState
  import opened LzmaRun
  import opened LzmaSpelling
  import opened LzmaPrefix
  import opened LzmaMeaning
  import LzmaPieces
  import LzmaStream

  /** A reading without the code and the position in the input: what the bits alone determine. */
  datatype Core = Core(ph: Phase, range: Word, probs: Probs)

  ghost predicate CoreOk(cx: Context, a: Core) {
    ReadingOk(cx, Reading(a.ph, Rc(a.range, 0, 0), a.probs))
  }

  /** A code, and the input from here on that is still to be read. */
  datatype Ahead = Ahead(code: Word, bytes: seq<Byte>)

  function Widened(range: Word): (r: Word)
    ensures range >= 0x1_0000 ==> r >= 0x100_0000
  {
    if range < 0x100_0000 then range * 256 else range
  }

  /** Takes back a normalisation: a byte goes from the code to the input. */
  function Unread(range: Word, next: Ahead): Ahead {
    if range < 0x100_0000 then Ahead(next.code / 256, [next.code % 256] + next.bytes) else next
  }

  /** The bytes stand in the stream at a position. */
  ghost predicate At(s: seq<Byte>, pos: nat, bytes: seq<Byte>) {
    pos + |bytes| <= |s| && s[pos..pos + |bytes|] == bytes
  }

  lemma NormUnread(s: seq<Byte>, pos: nat, range: Word, next: Ahead)
    requires range >= 0x1_0000 && next.code < Widened(range) && At(s, pos, Unread(range, next).bytes)
    ensures var rc := Rc(range, Unread(range, next).code, pos);
      && rc.code < range && !Starved(s, rc)
      && Norm(s, rc).range == Widened(range) && Norm(s, rc).code == next.code && At(s, Norm(s, rc).pos, next.bytes)
      && Norm(s, rc).pos + |next.bytes| == pos + |Unread(range, next).bytes|
  {
    if range < 0x100_0000 {
      var bytes := [next.code % 256] + next.bytes;
      assert s[pos] == s[pos..pos + |bytes|][0] == next.code % 256;
      assert s[pos + 1..pos + 1 + |next.bytes|] == s[pos..pos + |bytes|][1..] == next.bytes;
    }
  }

  /** Where the range is split for a bit: at a probability's share of it, or in the middle. */
  ghost function Bound(cx: Context, a: Core): (r: Word)
    requires CoreOk(cx, a) && !a.ph.Done?
    ensures 0 < r < Widened(a.range)
  {
    var range := Widened(a.range);
    if a.ph.DirectBits? then range / 2
    else
      SlotInRange(cx, a.ph, |a.probs|);
      BoundInRange(range, a.probs[Slot(cx, a.ph)]);
      (range / 2048) * a.probs[Slot(cx, a.ph)]
  }

  /** What is left of the range when the bit has been read. */
  ghost function Share(cx: Context, a: Core, bit: bool): (r: Word)
    requires CoreOk(cx, a) && !a.ph.Done?
    ensures r > 0
  {
    if a.ph.DirectBits? then Bound(cx, a) else if bit then Widened(a.range) - Bound(cx, a) else Bound(cx, a)
  }

  /** The state after a bit. */
  ghost function Given(cx: Context, a: Core, bit: bool): Core
    requires CoreOk(cx, a) && !a.ph.Done?
  {
    Core(After(cx, a.ph, bit), Share(cx, a, bit),
         if a.ph.DirectBits? then a.probs
         else
           SlotInRange(cx, a.ph, |a.probs|);
           a.probs[Slot(cx, a.ph) := Adapted(a.probs[Slot(cx, a.ph)], bit)])
  }

  /** The code and input from which reading gives this bit, and then goes on with next. */
  ghost function BeforeBit(cx: Context, a: Core, bit: bool, next: Ahead): Ahead
    requires CoreOk(cx, a) && !a.ph.Done? && next.code < Share(cx, a, bit)
  {
    Unread(a.range, if bit then next.(code := next.code + Bound(cx, a)) else next)
  }

  lemma BitWorks(cx: Context, a: Core, bit: bool, next: Ahead, s: seq<Byte>, pos: nat)
    requires CoreOk(cx, a) && !a.ph.Done? && next.code < Share(cx, a, bit)
    requires At(s, pos, BeforeBit(cx, a, bit, next).bytes)
    ensures var from := Reading(a.ph, Rc(a.range, BeforeBit(cx, a, bit, next).code, pos), a.probs);
      && from.rc.code < a.range && ReadingOk(cx, from) && !Starved(s, from.rc)
      && var r, y := ReadBit(cx, from, s, true), Given(cx, a, bit);
         && r.ph == y.ph && r.probs == y.probs && r.rc.range == y.range && r.rc.code == next.code
         && At(s, r.rc.pos, next.bytes) && r.rc.pos + |next.bytes| == pos + |BeforeBit(cx, a, bit, next).bytes|
         && CoreOk(cx, y)
  {
    hide PhaseOk, After, BitsOwed, DirectsOwed, Slot, SpecStart, Norm, Starved, Unread, At;
    var mid := if bit then next.(code := next.code + Bound(cx, a)) else next;
    assert mid.code < Widened(a.range);
    NormUnread(s, pos, a.range, mid);
    var n := Norm(s, Rc(a.range, BeforeBit(cx, a, bit, next).code, pos));
    if a.ph.DirectBits? {
      DirectSplit(n, bit, next.code);
    } else {
      SlotInRange(cx, a.ph, |a.probs|);
      DecideSplit(n, a.probs[Slot(cx, a.ph)], bit, next.code);
    }
  }

  /** The code tells the bit by which side of the split it is on, and keeps how far it is above the lower end. */
  lemma DecideSplit(rc: Rc, p: Prob, bit: bool, code: Word)
    requires rc.range >= 0x100_0000
    requires var bound := (rc.range / 2048) * p; rc.code == (if bit then code + bound else code) && rc.code < rc.range
    requires !bit ==> code < (rc.range / 2048) * p
    ensures var bound := (rc.range / 2048) * p;
      0 < bound < rc.range && Decide(rc, p) == (bit, Rc(if bit then rc.range - bound else bound, code, rc.pos))
  {
    BoundInRange(rc.range, p);
  }

  lemma DirectSplit(rc: Rc, bit: bool, code: Word)
    requires rc.range >= 0x100_0000 && code < rc.range / 2
    requires rc.code == if bit then code + rc.range / 2 else code
    ensures Direct(rc) == (bit, Rc(rc.range / 2, code, rc.pos))
  {
  }

  /** The bits lead to a symbol that is complete with the last of them. */
  ghost predicate Leads(cx: Context, ph: Phase, t: Bits, symbol: Symbol)
    requires PhaseOk(ph)
    decreases |t|
  {
    if t == [] then ph == Done(symbol)
    else
      AfterOkUnlessDone(cx, ph, t[0]);
      !ph.Done? && Leads(cx, After(cx, ph, t[0]), t[1..], symbol)
  }

  lemma AfterOkUnlessDone(cx: Context, ph: Phase, bit: bool)
    requires PhaseOk(ph)
    ensures !ph.Done? ==> PhaseOk(After(cx, ph, bit))
  {
    hide PhaseOk, After;
    if !ph.Done? {
      AfterOk(cx, ph, bit);
    }
  }

  lemma {:induction false} AlongLeads(cx: Context, ph: Phase, t: Bits, symbol: Symbol)
    requires PhaseOk(ph) && Sound(ph) && SymbolOk(symbol)
    requires Along(cx, ph, t) == Done(symbol) && Said(ph) + t == Spelling(symbol)
    ensures Leads(cx, ph, t, symbol)
    decreases |t|
  {
    hide PhaseOk, Sound, Said, After, Spelling;
    if ph.Done? {
      DoneSaid(ph);
      assert |Said(ph) + t| == |Said(ph)|;
    } else if t != [] {
      SaidGrows(cx, ph, t[0]);
      Grouped(Said(ph), [t[0]], t[1..]);
      assert [t[0]] + t[1..] == t;
      AlongLeads(cx, After(cx, ph, t[0]), t[1..], symbol);
    }
  }

  /** The state after the bits of a symbol, and the code and input from which reading gives them. */
  ghost function GivenAll(cx: Context, a: Core, t: Bits, symbol: Symbol): (r: Core)
    requires CoreOk(cx, a) && PhaseOk(a.ph) && Leads(cx, a.ph, t, symbol)
    ensures CoreOk(cx, r) && r.ph == Done(symbol) && |r.probs| == |a.probs|
    decreases |t|
  {
    if t == [] then a
    else
      GivenOk(cx, a, t[0]);
      GivenAll(cx, Given(cx, a, t[0]), t[1..], symbol)
  }

  lemma GivenOk(cx: Context, a: Core, bit: bool)
    requires CoreOk(cx, a) && !a.ph.Done?
    ensures CoreOk(cx, Given(cx, a, bit)) && PhaseOk(Given(cx, a, bit).ph) && Given(cx, a, bit).ph == After(cx, a.ph, bit)
    ensures |Given(cx, a, bit).probs| == |a.probs| && Given(cx, a, bit).range == Share(cx, a, bit)
  {
    hide PhaseOk, After, Slot, SpecStart;
    AfterOk(cx, a.ph, bit);
    if !a.ph.DirectBits? {
      SlotInRange(cx, a.ph, |a.probs|);
      BoundInRange(Widened(a.range), a.probs[Slot(cx, a.ph)]);
    }
  }

  ghost function BeforeAll(cx: Context, a: Core, t: Bits, symbol: Symbol, next: Ahead): (r: Ahead)
    requires CoreOk(cx, a) && PhaseOk(a.ph) && Leads(cx, a.ph, t, symbol)
    requires next.code < Widened(GivenAll(cx, a, t, symbol).range)
    ensures r.code < a.range
    decreases |t|
  {
    if t == [] then Unread(a.range, next)
    else
      GivenOk(cx, a, t[0]);
      var mid := BeforeAll(cx, Given(cx, a, t[0]), t[1..], symbol, next);
      BeforeBitBelow(cx, a, t[0], mid);
      BeforeBit(cx, a, t[0], mid)
  }

  lemma BeforeBitBelow(cx: Context, a: Core, bit: bool, next: Ahead)
    requires CoreOk(cx, a) && !a.ph.Done? && next.code < Share(cx, a, bit)
    ensures BeforeBit(cx, a, bit, next).code < a.range
  {
    hide PhaseOk, SpecStart, Slot;
    var mid := if bit then next.(code := next.code + Bound(cx, a)) else next;
    assert mid.code < Widened(a.range);
  }

  /** Reading from there gives the symbol, and comes to the code and input that were to come next. */
  lemma {:induction false} AllWorks(cx: Context, a: Core, t: Bits, symbol: Symbol, next: Ahead, s: seq<Byte>, pos: nat)
    requires CoreOk(cx, a) && PhaseOk(a.ph) && Leads(cx, a.ph, t, symbol)
    requires next.code < Widened(GivenAll(cx, a, t, symbol).range)
    requires At(s, pos, BeforeAll(cx, a, t, symbol, next).bytes)
    ensures var from := Reading(a.ph, Rc(a.range, BeforeAll(cx, a, t, symbol, next).code, pos), a.probs);
      var y := GivenAll(cx, a, t, symbol);
      && ReadingOk(cx, from)
      && var r := Run(cx, from, s, true);
         && r.Finished? && r.symbol == symbol && r.probs == y.probs && r.rc.range == Widened(y.range)
         && r.rc.code == next.code && At(s, r.rc.pos, next.bytes)
         && r.rc.pos + |next.bytes| == pos + |BeforeAll(cx, a, t, symbol, next).bytes|
    decreases |t|
  {
    hide PhaseOk, After, BitsOwed, DirectsOwed, At, Unread, ReadBit, Given, BeforeBit, Share, Norm;
    if t == [] {
      NormUnread(s, pos, a.range, next);
    } else {
      GivenOk(cx, a, t[0]);
      var y := Given(cx, a, t[0]);
      var mid := BeforeAll(cx, y, t[1..], symbol, next);
      BitWorks(cx, a, t[0], mid, s, pos);
      var r := ReadBit(cx, Reading(a.ph, Rc(a.range, BeforeBit(cx, a, t[0], mid).code, pos), a.probs), s, true);
      AllWorks(cx, y, t[1..], symbol, next, s, r.rc.pos);
    }
  }

  lemma StartLeads(cx: Context, symbol: Symbol)
    requires SymbolOk(symbol)
    ensures PhaseOk(IsMatch) && Leads(cx, IsMatch, Spelling(symbol), symbol)
  {
    assert PhaseOk(IsMatch) && Sound(IsMatch) && Said(IsMatch) + Spelling(symbol) == Spelling(symbol);
    hide PhaseOk, Sound, Said, Leads, Along, Spelling;
    SpellingLeads(cx, symbol);
    AlongLeads(cx, IsMatch, Spelling(symbol), symbol);
  }

  ghost function Begun(z: Lz): Core {
    Core(IsMatch, z.rc.range, z.probs)
  }

  lemma BegunOk(p: Props, z: Lz, op: Symbol)
    requires LzOk(p, z) && SymbolOk(op)
    ensures CoreOk(ContextOf(p, z), Begun(z)) && PhaseOk(IsMatch) && Leads(ContextOf(p, z), IsMatch, Spelling(op), op)
  {
    hide ContextOf, NumProbs, Leads, Spelling;
    StartLeads(ContextOf(p, z), op);
  }

  /** The state after a symbol, but for code and position. */
  ghost function Chosen(p: Props, z: Lz, op: Symbol): (r: Lz)
    requires LzOk(p, z) && SymbolOk(op)
    ensures LzOk(p, r)
  {
    BegunOk(p, z, op);
    var y := GivenAll(ContextOf(p, z), Begun(z), Spelling(op), op);
    Apply(p, z, op, Rc(Widened(y.range), 0, 0), y.probs)
  }

  /** The state has come to where the first i symbols lead. */
  ghost predicate HasCome(p: Props, z: Lz, ops: seq<Symbol>, i: nat)
    requires PropsOk(p) && i <= |ops|
  {
    && LzOk(p, z) && Sensible(p, ops) && Sensible(p, ops[..i]) && Has(z, Expanded(p, ops[..i]))
    && z.status == if Closed(ops[..i]) then Ended else Going
  }

  lemma ComesFurther(p: Props, z: Lz, ops: seq<Symbol>, i: nat)
    requires PropsOk(p) && i < |ops| && HasCome(p, z, ops, i)
    ensures SymbolOk(ops[i]) && HasCome(p, Chosen(p, z, ops[i]), ops, i + 1) && z.status == Going
  {
    hide ContextOf, NumProbs, Leads, Spelling, GivenAll, Apply, Performed, HistoryOk, Has;
    SensibleFront(p, ops, i);
    SensibleFront(p, ops, i + 1);
    assert ops[..i + 1][..i] == ops[..i] && ops[..i + 1][i] == ops[i];
    BegunOk(p, z, ops[i]);
    var y := GivenAll(ContextOf(p, z), Begun(z), Spelling(ops[i]), ops[i]);
    ApplyPerforms(p, z, Expanded(p, ops[..i]), ops[i], Rc(Widened(y.range), 0, 0), y.probs);
  }

  /** The code and input from which the symbols from the i-th on are read, and a code of 0 is left at the end. */
  ghost function Before(p: Props, z: Lz, ops: seq<Symbol>, i: nat): (r: Ahead)
    requires PropsOk(p) && i <= |ops| && HasCome(p, z, ops, i)
    ensures r.code < z.rc.range
    decreases |ops| - i
  {
    if i == |ops| then Ahead(0, [])
    else
      ComesFurther(p, z, ops, i);
      BegunOk(p, z, ops[i]);
      ChosenRange(p, z, ops[i]);
      BeforeAll(ContextOf(p, z), Begun(z), Spelling(ops[i]), ops[i], Before(p, Chosen(p, z, ops[i]), ops, i + 1))
  }

  lemma ChosenRange(p: Props, z: Lz, op: Symbol)
    requires LzOk(p, z) && SymbolOk(op)
    ensures CoreOk(ContextOf(p, z), Begun(z)) && PhaseOk(IsMatch) && Leads(ContextOf(p, z), IsMatch, Spelling(op), op)
    ensures Chosen(p, z, op).rc.range == Widened(GivenAll(ContextOf(p, z), Begun(z), Spelling(op), op).range)
  {
    hide ContextOf, NumProbs, Leads, Spelling, GivenAll;
    BegunOk(p, z, op);
  }

  /** Code and position play no part in what a symbol does. */
  lemma OnlyCoder(p: Props, z: Lz, rc: Rc, op: Symbol, rc1: Rc, rc2: Rc, probs: Probs)
    requires LzOk(p, z) && rc.range >= 0x100_0000
    requires SymbolOk(op) && rc1.range >= 0x100_0000 && rc2.range >= 0x100_0000 && |probs| == |z.probs|
    ensures LzOk(p, z.(rc := rc)) && ContextOf(p, z.(rc := rc)) == ContextOf(p, z)
    ensures Apply(p, z.(rc := rc), op, rc1, probs) == Apply(p, z, op, rc2, probs).(rc := rc1)
  {
    hide NumProbs, Copied, LiteralSet;
    assert forall k :: 0 <= k < 4 ==> DistanceOk(p, z.out, Rep(z.reps, k));
  }

  /** One symbol of the stream: it is read as it was written, and leaves what was to come after it. */
  lemma SymbolWorks(p: Props, s: seq<Byte>, z: Lz, ops: seq<Symbol>, i: nat, pos: nat)
    requires PropsOk(p) && |s| >= 5 && i < |ops| && HasCome(p, z, ops, i)
    requires RunAt(p, s, i) == z.(rc := Rc(z.rc.range, Before(p, z, ops, i).code, pos))
    requires At(s, pos, Before(p, z, ops, i).bytes)
    ensures SymbolOk(ops[i]) && HasCome(p, Chosen(p, z, ops[i]), ops, i + 1)
    ensures var r := Read(p, s, RunAt(p, s, i)); r.Finished? && r.symbol == ops[i]
    ensures var y, later := Chosen(p, z, ops[i]), Before(p, Chosen(p, z, ops[i]), ops, i + 1);
      var pos' := RunAt(p, s, i + 1).rc.pos;
      RunAt(p, s, i + 1) == y.(rc := Rc(y.rc.range, later.code, pos')) && At(s, pos', later.bytes)
  {
    hide ContextOf, NumProbs, Leads, Spelling, GivenAll, Apply, HasCome, At, BeforeAll, Run, Start;
    ComesFurther(p, z, ops, i);
    ChosenRange(p, z, ops[i]);
    var cx, op := ContextOf(p, z), ops[i];
    var later := Before(p, Chosen(p, z, op), ops, i + 1);
    AllWorks(cx, Begun(z), Spelling(op), op, later, s, pos);
    var rc := Rc(z.rc.range, Before(p, z, ops, i).code, pos);
    var r := Run(cx, Reading(IsMatch, rc, z.probs), s, true);
    var y := GivenAll(cx, Begun(z), Spelling(op), op);
    OnlyCoder(p, z, rc, op, r.rc, Rc(Widened(y.range), 0, 0), r.probs);
    assert RunAt(p, s, i + 1) == Next(p, s, RunAt(p, s, i));
  }

  lemma {:induction false} AllSymbolsWork(p: Props, s: seq<Byte>, z: Lz, ops: seq<Symbol>, i: nat, pos: nat)
    requires PropsOk(p) && |s| >= 5 && i <= |ops| && HasCome(p, z, ops, i)
    requires RunAt(p, s, i) == z.(rc := Rc(z.rc.range, Before(p, z, ops, i).code, pos))
    requires At(s, pos, Before(p, z, ops, i).bytes)
    ensures forall k :: i <= k < |ops| ==> var r := Read(p, s, RunAt(p, s, k)); r.Finished? && r.symbol == ops[k]
    ensures RunAt(p, s, |ops|).rc.code == 0
    decreases |ops| - i
  {
    hide *;
    if i < |ops| {
      WellFormed(p, z, ops, i);
      SymbolWorks(p, s, z, ops, i, pos);
      AllSymbolsWork(p, s, Chosen(p, z, ops[i]), ops, i + 1, RunAt(p, s, i + 1).rc.pos);
    } else {
      NothingMore(p, z, ops);
    }
  }

  lemma WellFormed(p: Props, z: Lz, ops: seq<Symbol>, i: nat)
    requires PropsOk(p) && i < |ops| && HasCome(p, z, ops, i)
    ensures LzOk(p, z) && SymbolOk(ops[i])
  {
    hide Chosen, LzOk;
    ComesFurther(p, z, ops, i);
  }

  lemma NothingMore(p: Props, z: Lz, ops: seq<Symbol>)
    requires PropsOk(p) && HasCome(p, z, ops, |ops|)
    ensures Before(p, z, ops, |ops|) == Ahead(0, [])
  {
    hide HasCome;
  }

  /** The state that every stream starts in, but for the code. */
  ghost function Blank(p: Props): (z: Lz)
    requires PropsOk(p)
    ensures LzOk(p, z)
  {
    hide NumProbs;
    Lz(Rc(0xFFFF_FFFF, 0, 5), seq(NumProbs(p), i => 1024), 0, Reps(1, 1, 1, 1), [], Going)
  }

  lemma BlankHasCome(p: Props, ops: seq<Symbol>)
    requires PropsOk(p) && Sensible(p, ops)
    ensures HasCome(p, Blank(p), ops, 0)
  {
    hide NumProbs;
    SensibleFront(p, ops, 0);
    assert ops[..0] == [];
  }

  /** A stream for a list of symbols: the byte 0, the first code, highest byte first, and the rest of the input. */
  ghost function Stream(p: Props, ops: seq<Symbol>): (s: seq<Byte>)
    requires PropsOk(p) && Sensible(p, ops)
    ensures |s| >= 5
  {
    BlankHasCome(p, ops);
    var a := Before(p, Blank(p), ops, 0);
    [0, a.code / 0x100_0000, a.code / 0x1_0000 % 256, a.code / 256 % 256, a.code % 256] + a.bytes
  }

  lemma CodeBytes(c: Word)
    ensures FirstCode([0, c / 0x100_0000, c / 0x1_0000 % 256, c / 256 % 256, c % 256]) == c
  {
    var a, b, d := c / 256, c / 0x1_0000, c / 0x100_0000;
    assert c == a * 256 + c % 256 && a == b * 256 + a % 256 && b == d * 256 + b % 256;
  }

  /** The stream of a list of symbols is complete: its decisions spell them, and the code that is left is 0. */
  lemma StreamIsComplete(p: Props, ops: seq<Symbol>, size: int, mode: FinishMode)
    requires PropsOk(p) && Sensible(p, ops)
    requires var n := |Expanded(p, ops).out|; n == size || (Closed(ops) && n <= size)
    ensures Complete(p, Stream(p, ops), ops, size, mode)
  {
    hide NumProbs, RunAt, Read, Before, BeforeAll, HasCome, Sensible, Expanded;
    BlankHasCome(p, ops);
    var a, s := Before(p, Blank(p), ops, 0), Stream(p, ops);
    StartsThere(p, s, a.code, a.bytes);
    AllSymbolsWork(p, s, Blank(p), ops, 0, 5);
    forall k | 0 <= k < |ops|
      ensures Spells(p, s, k, ops[k])
    {
      SymbolsFine(p, ops, k);
      ReadSpells(p, s, k, ops[k]);
    }
  }

  lemma SymbolsFine(p: Props, ops: seq<Symbol>, k: nat)
    requires PropsOk(p) && Sensible(p, ops) && k < |ops|
    ensures SymbolOk(ops[k])
  {
    hide Performed, HistoryOk;
    SensibleFront(p, ops, k + 1);
    var more := ops[..k + 1];
    assert more[k] == ops[k];
  }

  lemma StartsThere(p: Props, s: seq<Byte>, code: Word, bytes: seq<Byte>)
    requires PropsOk(p)
    requires s == [0, code / 0x100_0000, code / 0x1_0000 % 256, code / 256 % 256, code % 256] + bytes
    ensures RunAt(p, s, 0) == Blank(p).(rc := Rc(0xFFFF_FFFF, code, 5)) && At(s, 5, bytes) && s[0] == 0
  {
    hide NumProbs;
    CodeBytes(code);
    assert s[5..5 + |bytes|] == bytes;
  }

  /** LzmaDecode takes back what Stream does: it puts out the bytes that the symbols stand for, and nothing else. */
  method RoundTrip(dest: array<Byte>, src: seq<Byte>, propData: seq<Byte>, mode: FinishMode, ghost ops: seq<Symbol>)
    returns (destLen: nat)
    requires LzmaPieces.DecodeProps(propData).GoodProps?
    requires var p := LzmaPieces.DecodeProps(propData).props;
      && Sensible(p, ops) && src == Stream(p, ops)
      && var n := |Expanded(p, ops).out|; n == dest.Length || (Closed(ops) && n <= dest.Length)
    modifies dest
    ensures destLen <= dest.Length && dest[..destLen] == Expanded(LzmaPieces.DecodeProps(propData).props, ops).out
  {
    hide Sensible, Expanded, Stream, Complete;
    StreamIsComplete(LzmaPieces.DecodeProps(propData).props, ops, dest.Length, mode);
    var r, srcLen, status;
    ghost var n;
    r, destLen, srcLen, status, n := LzmaPieces.LzmaDecode(dest, src, propData, mode);
  }
}
