/** The dry run: whether the next symbol is complete, and of what kind it is, without changing the decoder (lzmadec.c). */
module LzmaDummy {

  import opened Arith
  import opened BitStrings
  import opened Lz77
  import opened LzmaCoder
  import opened LzmaGrammar
  import opened LzmaSymbol
  import opened LzmaState
  import opened LzmaReader
  import opened LzmaDictionary
  import opened LzmaDecoder

  datatype ELzmaDummy = DUMMY_ERROR | DUMMY_LIT | DUMMY_MATCH | DUMMY_REP

  /** What the dry run reports of an outcome. */
  function Report(goal: Outcome): ELzmaDummy {
    if goal.Short? then DUMMY_ERROR
    else match SymbolKind(goal.symbol)
      case LIT => DUMMY_LIT
      case MATCH => DUMMY_MATCH
      case _ => DUMMY_REP
  }

  /** The local range, code and input pointer of the dry run. The probabilities are those of the decoder. */
  class DryDecoder {
    const probs: array<Prob>
    var range: Word
    var code: Word
    var buf: nat

    constructor (rc: RangeDecoder)
      ensures probs == rc.probs && range == rc.range && code == rc.code && buf == 0
    {
      probs := rc.probs;
      range, code, buf := rc.range, rc.code, 0;
    }

    ghost function Coder(s: seq<Byte>, src: seq<Byte>): Rc
      requires |src| <= |s|
      reads `range, `code, `buf
    {
      Rc(range, code, |s| - |src| + buf)
    }

    ghost predicate On(task: Task, src: seq<Byte>, ph: Phase)
      reads `range, `code, `buf, probs
    {
      && Here(task.s, src) && ReadingOk(task.cx, Reading(ph, Coder(task.s, src), probs[..]))
      && Run(task.cx, Reading(ph, Coder(task.s, src), probs[..]), task.s, false) == task.goal
    }

    /** NORMALIZE_CHECK: fails when there is no byte to read. */
    method NormalizeCheck(src: seq<Byte>, ghost s: seq<Byte>) returns (ok: bool)
      requires Here(s, src)
      modifies `range, `code, `buf
      ensures ok <==> !Starved(s, old(Coder(s, src)))
      ensures ok ==> Coder(s, src) == Norm(s, old(Coder(s, src)))
    {
      ok := true;
      if range < 0x100_0000 {
        if buf >= |src| {
          return false;
        }
        assert s[|s| - |src|..][buf] == s[|s| - |src| + buf];
        range, code, buf := range * 256, (code * 256) % 0x1_0000_0000 + src[buf], buf + 1;
      }
    }

    lemma OneStep(task: Task, src: seq<Byte>, ph: Phase)
      requires On(task, src, ph)
      ensures PhaseOk(ph) && range >= 0x1_0000 && ContextOk(task.cx, probs.Length)
      ensures !ph.DirectBits? && !ph.Done? ==> 0 <= Slot(task.cx, ph) < probs.Length
      ensures Starved(task.s, Coder(task.s, src)) ==> task.goal.Short?
      ensures !Starved(task.s, Coder(task.s, src)) && !ph.Done? ==>
        var r := ReadBit(task.cx, Reading(ph, Coder(task.s, src), probs[..]), task.s, false);
        ReadingOk(task.cx, r) && Run(task.cx, r, task.s, false) == task.goal
      ensures !Starved(task.s, Coder(task.s, src)) && ph.Done? ==> task.goal.Finished? && task.goal.symbol == ph.symbol
    {
      hide ReadBit, PhaseOk, ContextOk, BitsOwed, DirectsOwed;
      if !ph.DirectBits? && !ph.Done? {
        SlotInRange(task.cx, ph, probs.Length);
      }
    }

    /** GET_BIT_CHECK. */
    method GetBitCheck(i: int, src: seq<Byte>, ghost task: Task, ghost ph: Phase) returns (ok: bool, bit: bool)
      requires On(task, src, ph) && !ph.Done? && !ph.DirectBits? && i == Slot(task.cx, ph)
      modifies `range, `code, `buf
      ensures !ok ==> task.goal.Short?
      ensures PhaseOk(ph) && (ok ==> On(task, src, After(task.cx, ph, bit)))
    {
      hide Run, ReadingOk, After, PhaseOk, Slot, Norm, Starved;
      OneStep(task, src, ph);
      ghost var a := Reading(ph, Coder(task.s, src), probs[..]);
      var ttt := probs[i];
      bit := false;
      ok := NormalizeCheck(src, task.s);
      if ok {
        var bound := (range / 2048) * ttt;
        BoundInRange(range, ttt);
        if code < bound {
          range := bound;
        } else {
          range, code := range - bound, code - bound;
          bit := true;
        }
        assert Reading(After(task.cx, ph, bit), Coder(task.s, src), probs[..]) == ReadBit(task.cx, a, task.s, false);
      }
    }

    /** A direct bit, which the dry run takes off the code with a mask. */
    method DirectCheck(src: seq<Byte>, ghost task: Task, ghost ph: Phase) returns (ok: bool, ghost bit: bool)
      requires On(task, src, ph) && ph.DirectBits?
      modifies `range, `code, `buf
      ensures !ok ==> task.goal.Short?
      ensures PhaseOk(ph) && (ok ==> On(task, src, After(task.cx, ph, bit)))
    {
      hide Run, ReadingOk, After, PhaseOk, Norm, Starved;
      OneStep(task, src, ph);
      ghost var a := Reading(ph, Coder(task.s, src), probs[..]);
      bit := false;
      ok := NormalizeCheck(src, task.s);
      if ok {
        range := range / 2;
        var sign := Minus(code, range) / 0x8000_0000;
        // (sign - 1) is a mask of no bits or of all
        bit := sign == 0;
        code := Minus(code, if sign == 1 then 0 else range);
        assert Reading(After(task.cx, ph, bit), Coder(task.s, src), probs[..]) == ReadBit(task.cx, a, task.s, false);
      }
    }

    /** The NORMALIZE_CHECK at the end of a symbol. */
    method FinishCheck(src: seq<Byte>, ghost task: Task, ghost symbol: Symbol) returns (ok: bool)
      requires On(task, src, Done(symbol))
      modifies `range, `code, `buf
      ensures if ok then task.goal.Finished? && task.goal.symbol == symbol else task.goal.Short?
    {
      hide Run, ReadingOk, PhaseOk;
      OneStep(task, src, Done(symbol));
      ok := NormalizeCheck(src, task.s);
    }

    /** A literal after a literal. */
    method PlainCheck(prob: nat, src: seq<Byte>, ghost task: Task) returns (ok: bool, ghost symbol: nat)
      requires On(task, src, LitTree(1, 8)) && prob == task.cx.litBase
      modifies `range, `code, `buf
      ensures !ok ==> task.goal.Short?
      ensures ok ==> On(task, src, Done(Literal(symbol % 256)))
    {
      hide Run, ReadingOk, Norm, On, InTree, Pow2;
      ok, symbol := true, 0;
      var i: nat := 1;
      ghost var left: nat := 8;
      while i < 0x100
        invariant left > 0 ==> On(task, src, LitTree(i, left)) && i < 256
        invariant left == 0 ==> On(task, src, Done(Literal(i % 256))) && i >= 256
        decreases left
      {
        var bit;
        ok, bit := GetBitCheck(prob + i, src, task, LitTree(i, left));
        if !ok {
          return;
        }
        LiteralBounds(i, left, bit);
        i := 2 * i + Bit(bit);
        left := left - 1;
      }
      ok, symbol := true, i;
    }

    /** A literal after a match. */
    method MatchedCheck(prob: nat, matchByte0: nat, src: seq<Byte>, ghost task: Task) returns (ok: bool, ghost symbol: nat)
      requires On(task, src, LitMatched(1, 8, 256, matchByte0)) && prob == task.cx.litBase
      modifies `range, `code, `buf
      ensures !ok ==> task.goal.Short?
      ensures ok ==> On(task, src, Done(Literal(symbol % 256)))
    {
      hide Run, ReadingOk, Norm, On, InTree, Pow2;
      ok, symbol := true, 0;
      var i: nat, offs: nat, matchByte: nat := 1, 0x100, matchByte0;
      ghost var left: nat := 8;
      while i < 0x100
        invariant left > 0 ==> On(task, src, LitMatched(i, left, offs, matchByte)) && i < 256
        invariant left == 0 ==> On(task, src, Done(Literal(i % 256))) && i >= 256
        decreases left
      {
        var bit;
        var matched := MatchBit(offs, matchByte);
        ok, bit := GetBitCheck(prob + offs + matched + i, src, task, LitMatched(i, left, offs, matchByte));
        if !ok {
          return;
        }
        LiteralBounds(i, left, bit);
        matchByte := 2 * matchByte;
        i := 2 * i + Bit(bit);
        offs := if bit then matched else offs - matched;
        left := left - 1;
      }
      ok, symbol := true, i;
    }

    /** The length of a match. */
    method LengthCheck(prob: nat, posState: nat, src: seq<Byte>, ghost task: Task, ghost origin: Origin)
      returns (ok: bool, len: nat)
      requires On(task, src, Choice(origin)) && prob == LenBase(origin) && posState == task.cx.posState
      modifies `range, `code, `buf
      ensures !ok ==> task.goal.Short?
      ensures ok ==> On(task, src, AfterLen(origin, len))
    {
      hide Run, ReadingOk, Norm, On, InTree, Pow2;
      len := 1;
      var probLen: nat, limit: nat, offset: nat := 0, 0, 0;
      ghost var group: nat := 0;
      var bit;
      ok, bit := GetBitCheck(prob, src, task, Choice(origin));
      if !ok {
        return;
      }
      if !bit {
        probLen, offset, limit := prob + 2 + 8 * posState, 0, 8;
      } else {
        ok, bit := GetBitCheck(prob + 1, src, task, Choice2(origin));
        if !ok {
          return;
        }
        if !bit {
          probLen, offset, limit := prob + 130 + 8 * posState, 8, 8;
          group := 1;
        } else {
          probLen, offset, limit := prob + 258, 16, 256;
          group := 2;
        }
      }
      ghost var left: nat := LenBits(group);
      while len < limit
        invariant left > 0 ==> On(task, src, LenTree(origin, group, len, left)) && len < limit
        invariant left == 0 ==> len >= limit && On(task, src, AfterLen(origin, len - limit + offset))
        decreases left
      {
        ok, bit := GetBitCheck(probLen + len, src, task, LenTree(origin, group, len, left));
        if !ok {
          return;
        }
        LengthBounds(len, left, LenBits(group), bit);
        len := 2 * len + Bit(bit);
        left := left - 1;
      }
      ok, len := true, len - limit + offset;
    }

    /** TREE_DECODE_CHECK of a position slot. */
    method SlotCheck(prob: nat, src: seq<Byte>, ghost task: Task, ghost len: nat) returns (ok: bool, slot: nat)
      requires On(task, src, SlotTree(len, 1, 6)) && prob == 432 + 64 * (if len < 4 then len else 3)
      modifies `range, `code, `buf
      ensures !ok ==> task.goal.Short?
      ensures ok ==> On(task, src, AfterSlot(len, slot)) && slot < 64
    {
      hide Run, ReadingOk, Norm, On, InTree, Pow2;
      ok, slot := true, 1;
      ghost var left: nat := 6;
      while slot < 64
        invariant left > 0 ==> On(task, src, SlotTree(len, slot, left)) && slot < 64
        invariant left == 0 ==> 64 <= slot < 128 && On(task, src, AfterSlot(len, slot - 64))
        decreases left
      {
        var bit;
        ok, bit := GetBitCheck(prob + slot, src, task, SlotTree(len, slot, left));
        if !ok {
          return;
        }
        LengthBounds(slot, left, 6, bit);
        slot := 2 * slot + Bit(bit);
        left := left - 1;
      }
      ok, slot := true, slot - 64;
    }

    /** The last bits of a distance, short or long: the same loop for both. */
    method TailCheck(prob: int, numDirectBits: nat, src: seq<Byte>, ghost task: Task, ghost ph0: Phase)
      returns (ok: bool, ghost symbol: Symbol)
      requires On(task, src, ph0) && (ph0.SpecTree? || ph0.AlignTree?) && ph0.i == 1 && ph0.left == numDirectBits
      requires Slot(task.cx, ph0) == prob + 1
      modifies `range, `code, `buf
      ensures !ok ==> task.goal.Short?
      ensures ok ==> On(task, src, Done(symbol)) && SymbolKind(symbol) == MATCH
    {
      hide Run, ReadingOk, Norm, On, InTree, Pow2, SpecStart;
      symbol := ShortRep;
      ok := true;
      var i: nat, n: nat := 1, numDirectBits;
      ghost var ph := ph0;
      OneStepOk(task, src, ph);
      while n != 0
        invariant On(task, src, ph)
        invariant if n > 0 then (ph.SpecTree? || ph.AlignTree?) && ph.i == i && ph.left == n && Slot(task.cx, ph) == prob + i
                  else ph.Done? && SymbolKind(ph.symbol) == MATCH
      {
        var bit;
        ok, bit := GetBitCheck(prob + i, src, task, ph);
        if !ok {
          return;
        }
        ph := After(task.cx, ph, bit);
        i := 2 * i + Bit(bit);
        n := n - 1;
      }
      ok, symbol := true, ph.symbol;
    }

    lemma OneStepOk(task: Task, src: seq<Byte>, ph: Phase)
      requires On(task, src, ph)
      ensures PhaseOk(ph)
      ensures ph.SpecTree? || ph.AlignTree? ==> ph.left >= 1
    {
      hide Run, Pow2, SpecStart;
    }

    /** The distance of a new match. */
    method DistanceCheck(len: nat, src: seq<Byte>, ghost task: Task) returns (ok: bool, ghost symbol: Symbol)
      requires On(task, src, SlotTree(len, 1, 6))
      modifies `range, `code, `buf
      ensures !ok ==> task.goal.Short?
      ensures ok ==> On(task, src, Done(symbol)) && SymbolKind(symbol) == MATCH
    {
      hide Run, ReadingOk, Norm, On, InTree, Pow2, SpecStart;
      symbol := ShortRep;
      var posSlot;
      ok, posSlot := SlotCheck(432 + 64 * (if len < 4 then len else 3), src, task, len);
      if !ok {
        return;
      }
      if posSlot < 4 {
        return true, Match(len, posSlot);
      }
      var numDirectBits := posSlot / 2 - 1;
      if posSlot < 14 {
        ok, symbol := TailCheck(688 + SpecStart(posSlot) - posSlot - 1, numDirectBits, src, task, AfterSlot(len, posSlot));
      } else {
        numDirectBits := numDirectBits - 4;
        ghost var distance: nat := 2 + posSlot % 2;
        while numDirectBits != 0
          invariant numDirectBits >= 0
          invariant numDirectBits > 0 ==> On(task, src, DirectBits(len, distance, numDirectBits))
          invariant numDirectBits == 0 ==> On(task, src, AlignTree(len, distance, 1, 4, 0, 1))
        {
          ghost var bit;
          ok, bit := DirectCheck(src, task, DirectBits(len, distance, numDirectBits));
          if !ok {
            return;
          }
          distance := 2 * distance + Bit(bit);
          numDirectBits := numDirectBits - 1;
        }
        ok, symbol := TailCheck(802, 4, src, task, AlignTree(len, distance, 1, 4, 0, 1));
      }
    }
  }

  /** The decoder stands at z, and src is the input from there on, up to the end of s. */
  ghost predicate StandsAt(p: LzmaDec, s: seq<Byte>, src: seq<Byte>, z: Lz)
    reads p, p.rc, p.rc.probs, p.dict, p.dict.dic
  {
    && LzOk(p.prop, z) && z.status == Going && Here(s, src) && z.rc == Rc(p.rc.range, p.rc.code, |s| - |src|)
    && p.rc.probs[..] == z.probs && p.Written(z, 0) && p.Remembers(z) && p.Checked()
  }

  lemma StandsFacts(p: LzmaDec, s: seq<Byte>, src: seq<Byte>, z: Lz)
    requires StandsAt(p, s, src, z)
    ensures LzOk(p.prop, z) && p.Written(z, 0) && p.Remembers(z) && p.Checked()
    ensures p.dict.produced == z.out && p.dict.Valid()
    ensures p.processedPos % Pow2(p.prop.pb) == |z.out| % Pow2(p.prop.pb)
    ensures z.state >= 7 ==> 1 <= z.reps.r0 <= |z.out| && z.reps.r0 <= p.dict.dic.Length
  {
    hide Pow2;
    p.AllWritten(z);
    p.PosStateIs(z);
    RepsOk(p.prop, z);
    if z.state >= 7 {
      p.Reachable(z, z.reps.r0);
    }
  }

  ghost function DryTask(p: LzmaDec, s: seq<Byte>, z: Lz): Task
    requires LzOk(p.prop, z)
  {
    Task(ContextOf(p.prop, z), s, Run(ContextOf(p.prop, z), Reading(IsMatch, z.rc, z.probs), s, false))
  }

  lemma DryStart(p: LzmaDec, d: DryDecoder, s: seq<Byte>, src: seq<Byte>, z: Lz)
    requires StandsAt(p, s, src, z) && d.probs == p.rc.probs && d.range == p.rc.range && d.code == p.rc.code && d.buf == 0
    ensures d.On(DryTask(p, s, z), src, IsMatch)
  {
    hide Run, ContextOf;
  }

  /** The dry run and the decoder come to the same symbol. */
  lemma DryIsReal(p: LzmaDec, s: seq<Byte>, z: Lz)
    requires LzOk(p.prop, z)
    ensures Report(DryTask(p, s, z).goal) == Report(Read(p.prop, s, z))
  {
    hide Run, ContextOf, NumProbs;
    var a := Reading(IsMatch, z.rc, z.probs);
    DryRunAgrees(ContextOf(p.prop, z), a, a, s);
  }

  /** The literal part of the dry run. */
  method LiteralDry(p: LzmaDec, d: DryDecoder, src: seq<Byte>, ghost s: seq<Byte>, ghost z: Lz)
    returns (ok: bool, ghost symbol: nat)
    requires StandsAt(p, s, src, z) && d.On(DryTask(p, s, z), src, After(ContextOf(p.prop, z), IsMatch, false))
    modifies d
    ensures !ok ==> DryTask(p, s, z).goal.Short?
    ensures ok ==> d.On(DryTask(p, s, z), src, Done(Literal(symbol % 256)))
  {
    hide NumProbs, ContextOf, Run, DryDecoder.On, LzOk, Dictionary.Valid;
    StandsFacts(p, s, src, z);
    ContextIs(p.prop, z);
    var prob := p.LiteralBase(z);
    if p.state < 7 {
      ok, symbol := d.PlainCheck(prob, src, DryTask(p, s, z));
    } else {
      var matchByte := p.dict.ByteBack(p.reps.r0);
      ok, symbol := d.MatchedCheck(prob, matchByte, src, DryTask(p, s, z));
    }
  }

  /** The part of the dry run that says which of the last distances is meant. */
  method RepeatDry(d: DryDecoder, state: nat, posState: nat, src: seq<Byte>, ghost task: Task)
    returns (ok: bool, short: bool, ghost k: nat)
    requires d.On(task, src, IsRepG0) && state == task.cx.state && posState == task.cx.posState
    modifies d
    ensures !ok ==> task.goal.Short?
    ensures ok && short ==> d.On(task, src, Done(ShortRep))
    ensures ok && !short ==> d.On(task, src, Choice(Again(k)))
  {
    hide Run, DryDecoder.On;
    short, k := false, 0;
    var bit;
    ok, bit := d.GetBitCheck(204 + state, src, task, IsRepG0);
    if !ok {
      return;
    }
    if !bit {
      ok, bit := d.GetBitCheck(240 + 16 * state + posState, src, task, IsRep0Long);
      short := !bit;
    } else {
      ok, bit := d.GetBitCheck(216 + state, src, task, IsRepG1);
      if !ok {
        return;
      }
      if !bit {
        k := 1;
      } else {
        ok, bit := d.GetBitCheck(228 + state, src, task, IsRepG2);
        k := if bit then 3 else 2;
      }
    }
  }

  /**
   * LzmaDec_TryDummy: reports an error exactly when the input ends before the symbol does, and else the kind of
   * symbol that the decoder will come to.
   */
  method TryDummy(p: LzmaDec, src: seq<Byte>, ghost s: seq<Byte>, ghost z: Lz) returns (res: ELzmaDummy)
    requires StandsAt(p, s, src, z)
    ensures res == Report(Read(p.prop, s, z))
  {
    hide NumProbs, ContextOf, Run, Read, DryDecoder.On, LzOk, StandsAt;
    StandsFacts(p, s, src, z);
    ContextIs(p.prop, z);
    DryIsReal(p, s, z);
    ghost var task := DryTask(p, s, z);
    var d := new DryDecoder(p.rc);
    DryStart(p, d, s, src, z);
    var posState := p.processedPos % Pow2(p.prop.pb);
    var ok, bit := d.GetBitCheck(16 * p.state + posState, src, task, IsMatch);
    if !ok {
      return DUMMY_ERROR;
    }
    ghost var symbol;
    if !bit {
      ghost var lit;
      ok, lit := LiteralDry(p, d, src, s, z);
      symbol := Literal(lit % 256);
      res := DUMMY_LIT;
    } else {
      ok, bit := d.GetBitCheck(192 + p.state, src, task, IsRep);
      if !ok {
        return DUMMY_ERROR;
      }
      var len;
      if !bit {
        res := DUMMY_MATCH;
        ok, len := d.LengthCheck(818, posState, src, task, Fresh);
        if ok {
          ok, symbol := d.DistanceCheck(len, src, task);
        }
      } else {
        res := DUMMY_REP;
        var short;
        ghost var k;
        ok, short, k := RepeatDry(d, p.state, posState, src, task);
        if ok {
          if short {
            symbol := ShortRep;
          } else {
            ok, len := d.LengthCheck(1332, posState, src, task, Again(k));
            symbol := Repeat(k, len);
          }
        }
      }
    }
    if !ok {
      return DUMMY_ERROR;
    }
    ok := d.FinishCheck(src, task, symbol);
    if !ok {
      return DUMMY_ERROR;
    }
  }
}
