/** Reading the bits of an LZMA symbol from the input, step by step as the decoder does it (lzmadec.c). */
module LzmaReader {

  import opened Arith
  import opened BitStrings
  import opened Lz77
  import opened LzmaCoder
  import opened LzmaGrammar
  import opened LzmaSymbol

  /** src is the end of the stream s, as far as it is known. */
  ghost predicate Here(s: seq<Byte>, src: seq<Byte>) {
    |src| <= |s| && s[|s| - |src|..] == src
  }

  /** What the steps of reading a symbol stand for: the context, the known stream, and what it all comes to. */
  datatype Task = Task(cx: Context, s: seq<Byte>, goal: Outcome)

  /** Range, code and input pointer, and the probabilities. buf is an index into the input at hand. */
  class RangeDecoder {
    const probs: array<Prob>
    var range: Word
    var code: Word
    var buf: nat

    constructor (numProbs: nat)
      ensures fresh(probs) && probs.Length == numProbs
    {
      probs := new Prob[numProbs];
      range, code, buf := 0, 0, 0;
    }

    /** The state of the coder, with the position in the stream s that src is the end of. */
    ghost function Coder(s: seq<Byte>, src: seq<Byte>): Rc
      requires |src| <= |s|
      reads `range, `code, `buf
    {
      Rc(range, code, |s| - |src| + buf)
    }

    /** The symbol has been read up to phase ph, and reading on from here comes to the goal of the task. */
    ghost predicate On(task: Task, src: seq<Byte>, ph: Phase)
      reads `range, `code, `buf, probs
    {
      && Here(task.s, src) && ReadingOk(task.cx, Reading(ph, Coder(task.s, src), probs[..]))
      && task.goal.Finished? && Run(task.cx, Reading(ph, Coder(task.s, src), probs[..]), task.s, true) == task.goal
    }

    /** NORMALIZE. */
    method Normalize(src: seq<Byte>, ghost s: seq<Byte>)
      requires Here(s, src) && !Starved(s, Coder(s, src))
      modifies `range, `code, `buf
      ensures Coder(s, src) == Norm(s, old(Coder(s, src)))
    {
      if range < 0x100_0000 {
        assert s[|s| - |src|..][buf] == s[|s| - |src| + buf];
        range, code, buf := range * 256, (code * 256) % 0x1_0000_0000 + src[buf], buf + 1;
      }
    }

    /** Reading one more bit is a step towards the goal. */
    lemma OneStep(task: Task, src: seq<Byte>, ph: Phase)
      requires On(task, src, ph) && !ph.Done?
      ensures !Starved(task.s, Coder(task.s, src)) && PhaseOk(ph) && range >= 0x1_0000
      ensures !ph.DirectBits? ==> 0 <= Slot(task.cx, ph) < probs.Length
      ensures var r := ReadBit(task.cx, Reading(ph, Coder(task.s, src), probs[..]), task.s, true);
        ReadingOk(task.cx, r) && Run(task.cx, r, task.s, true) == task.goal
    {
      hide ReadBit, PhaseOk, ContextOk, BitsOwed, DirectsOwed;
      if !ph.DirectBits? {
        SlotInRange(task.cx, ph, probs.Length);
      }
    }

    /** GET_BIT: decodes a bit with probability i and adapts it. */
    method GetBit(i: int, src: seq<Byte>, ghost task: Task, ghost ph: Phase) returns (bit: bool)
      requires On(task, src, ph) && !ph.Done? && !ph.DirectBits? && i == Slot(task.cx, ph)
      modifies `range, `code, `buf, probs
      ensures PhaseOk(ph) && On(task, src, After(task.cx, ph, bit))
    {
      hide Run, ReadingOk, After, PhaseOk, Slot, Norm;
      OneStep(task, src, ph);
      ghost var a := Reading(ph, Coder(task.s, src), probs[..]);
      var ttt := probs[i];
      Normalize(src, task.s);
      var bound := (range / 2048) * ttt;
      BoundInRange(range, ttt);
      if code < bound {
        range := bound;
        probs[i] := Update0(ttt);
        bit := false;
      } else {
        range, code := range - bound, code - bound;
        probs[i] := Update1(ttt);
        bit := true;
      }
      assert probs[..] == a.probs[i := Adapted(ttt, bit)];
      assert Reading(After(task.cx, ph, bit), Coder(task.s, src), probs[..]) == ReadBit(task.cx, a, task.s, true);
    }

    /** A direct bit: code -= range, t is the sign of that, and the range is added back when it is negative. */
    method GetDirectBit(src: seq<Byte>, ghost task: Task, ghost ph: Phase) returns (bit: bool)
      requires On(task, src, ph) && ph.DirectBits?
      modifies `range, `code, `buf
      ensures PhaseOk(ph) && On(task, src, After(task.cx, ph, bit))
    {
      hide Run, ReadingOk, After, PhaseOk, Norm;
      OneStep(task, src, ph);
      ghost var a := Reading(ph, Coder(task.s, src), probs[..]);
      Normalize(src, task.s);
      range := range / 2;
      code := Minus(code, range);
      bit := code < 0x8000_0000;
      if !bit {
        code := (code + range) % 0x1_0000_0000;
      }
      assert Reading(After(task.cx, ph, bit), Coder(task.s, src), probs[..]) == ReadBit(task.cx, a, task.s, true);
    }

    /** A literal after a literal: do { GET_BIT(prob + symbol, symbol) } while (symbol < 0x100). */
    method PlainLiteral(prob: nat, src: seq<Byte>, ghost task: Task) returns (symbol: nat)
      requires On(task, src, LitTree(1, 8)) && prob == task.cx.litBase
      modifies this, probs
      ensures On(task, src, Done(Literal(symbol % 256)))
    {
      hide Run, ReadingOk, Norm, On, InTree, Pow2;
      symbol := 1;
      ghost var left: nat := 8;
      while symbol < 0x100
        invariant left > 0 ==> On(task, src, LitTree(symbol, left)) && symbol < 256
        invariant left == 0 ==> On(task, src, Done(Literal(symbol % 256))) && symbol >= 256
        decreases left
      {
        ghost var ph := LitTree(symbol, left);
        var bit := GetBit(prob + symbol, src, task, ph);
        LiteralBounds(symbol, left, bit);
        symbol := 2 * symbol + Bit(bit);
        left := left - 1;
      }
    }

    /** A literal after a match: the tree also depends on how far the byte at the last distance has been matched. */
    method MatchedLiteral(prob: nat, matchByte0: nat, src: seq<Byte>, ghost task: Task) returns (symbol: nat)
      requires On(task, src, LitMatched(1, 8, 256, matchByte0)) && prob == task.cx.litBase
      modifies this, probs
      ensures On(task, src, Done(Literal(symbol % 256)))
    {
      hide Run, ReadingOk, Norm, On, InTree, Pow2;
      symbol := 1;
      var offs, matchByte := 0x100, matchByte0;
      ghost var left: nat := 8;
      while symbol < 0x100
        invariant left > 0 ==> On(task, src, LitMatched(symbol, left, offs, matchByte)) && symbol < 256
        invariant left == 0 ==> On(task, src, Done(Literal(symbol % 256))) && symbol >= 256
        decreases left
      {
        ghost var ph := LitMatched(symbol, left, offs, matchByte);
        var matched := MatchBit(offs, matchByte);
        var bit := GetBit(prob + offs + matched + symbol, src, task, ph);
        LiteralBounds(symbol, left, bit);
        matchByte := 2 * matchByte;
        symbol := 2 * symbol + Bit(bit);
        offs := if bit then matched else offs - matched;
        left := left - 1;
      }
    }

    /** The length of a match: LenChoice, LenChoice2, and TREE_DECODE in one of three trees. */
    method ReadLength(prob: nat, posState: nat, src: seq<Byte>, ghost task: Task, ghost origin: Origin)
      returns (len: nat)
      requires On(task, src, Choice(origin)) && prob == LenBase(origin) && posState == task.cx.posState
      modifies this, probs
      ensures On(task, src, AfterLen(origin, len))
    {
      hide Run, ReadingOk, Norm, On, InTree, Pow2;
      var probLen: nat, limit: nat, offset: nat;
      ghost var group: nat;
      var bit := GetBit(prob, src, task, Choice(origin));
      if !bit {
        probLen, offset, limit := prob + 2 + 8 * posState, 0, 8;
        group := 0;
      } else {
        bit := GetBit(prob + 1, src, task, Choice2(origin));
        if !bit {
          probLen, offset, limit := prob + 130 + 8 * posState, 8, 8;
          group := 1;
        } else {
          probLen, offset, limit := prob + 258, 16, 256;
          group := 2;
        }
      }
      len := 1;
      ghost var left: nat := LenBits(group);
      while len < limit
        invariant left > 0 ==> On(task, src, LenTree(origin, group, len, left)) && len < limit
        invariant left == 0 ==> len >= limit && On(task, src, AfterLen(origin, len - limit + offset))
        decreases left
      {
        bit := GetBit(probLen + len, src, task, LenTree(origin, group, len, left));
        LengthBounds(len, left, LenBits(group), bit);
        len := 2 * len + Bit(bit);
        left := left - 1;
      }
      len := len - limit + offset;
    }

    /** TREE_6_DECODE. */
    method ReadSlot(prob: nat, src: seq<Byte>, ghost task: Task, ghost len: nat) returns (slot: nat)
      requires On(task, src, SlotTree(len, 1, 6)) && prob == 432 + 64 * (if len < 4 then len else 3)
      modifies this, probs
      ensures On(task, src, AfterSlot(len, slot)) && slot < 64
    {
      hide Run, ReadingOk, Norm, On, InTree, Pow2;
      slot := 1;
      ghost var left: nat := 6;
      while slot < 64
        invariant left > 0 ==> On(task, src, SlotTree(len, slot, left)) && slot < 64
        invariant left == 0 ==> 64 <= slot < 128 && On(task, src, AfterSlot(len, slot - 64))
        decreases left
      {
        var bit := GetBit(prob + slot, src, task, SlotTree(len, slot, left));
        LengthBounds(slot, left, 6, bit);
        slot := 2 * slot + Bit(bit);
        left := left - 1;
      }
      slot := slot - 64;
    }

    /** The low bits of a short distance: each sets a higher bit of the distance. */
    method ReadSpec(slot: nat, src: seq<Byte>, ghost task: Task, ghost len: nat) returns (distance: nat)
      requires On(task, src, AfterSlot(len, slot)) && 4 <= slot < 14
      modifies this, probs
      ensures On(task, src, Done(Match(len, distance)))
    {
      hide Run, ReadingOk, Norm, On, InTree, Pow2, SpecStart;
      SpecStartBound(slot);
      var numDirectBits := slot / 2 - 1;
      distance := SpecStart(slot);
      var prob := 688 + distance - slot - 1;
      var mask: nat, i: nat := 1, 1;
      while numDirectBits != 0
        invariant numDirectBits >= 0
        invariant numDirectBits > 0 ==> On(task, src, SpecTree(len, slot, i, numDirectBits, distance, mask))
        invariant numDirectBits == 0 ==> On(task, src, Done(Match(len, distance)))
      {
        var bit := GetBit(prob + i, src, task, SpecTree(len, slot, i, numDirectBits, distance, mask));
        if bit {
          distance := distance + mask;
        }
        i := 2 * i + Bit(bit);
        mask := 2 * mask;
        numDirectBits := numDirectBits - 1;
      }
    }

    /** The distance of a new match, or 0xFFFFFFFF for the end mark. */
    method ReadDistance(len: nat, src: seq<Byte>, ghost task: Task) returns (distance: nat)
      requires On(task, src, SlotTree(len, 1, 6))
      modifies this, probs
      ensures On(task, src, AfterAlign(len, distance))
    {
      hide Run, ReadingOk, Norm, On, InTree, Pow2, SpecStart;
      distance := ReadSlot(432 + 64 * (if len < 4 then len else 3), src, task, len);
      if distance >= 4 {
        var slot := distance;
        if slot < 14 {
          distance := ReadSpec(slot, src, task, len);
          DoneOk(task, src, Done(Match(len, distance)));
        } else {
          var numDirectBits := slot / 2 - 5;
          distance := 2 + slot % 2;
          while numDirectBits != 0
            invariant numDirectBits >= 0
            invariant numDirectBits > 0 ==> On(task, src, DirectBits(len, distance, numDirectBits))
            invariant numDirectBits == 0 ==> On(task, src, AlignTree(len, distance, 1, 4, 0, 1))
          {
            var bit := GetDirectBit(src, task, DirectBits(len, distance, numDirectBits));
            distance := 2 * distance + Bit(bit);
            numDirectBits := numDirectBits - 1;
          }
          distance := ReadAlign(distance, src, task, len);
        }
      }
    }

    /** The lowest four bits of a long distance. */
    method ReadAlign(high: nat, src: seq<Byte>, ghost task: Task, ghost len: nat) returns (distance: nat)
      requires On(task, src, AlignTree(len, high, 1, 4, 0, 1))
      modifies this, probs
      ensures On(task, src, AfterAlign(len, distance))
    {
      hide Run, ReadingOk, Norm, On, InTree, Pow2;
      distance := 16 * high;
      var i: nat, mask: nat := 1, 1;
      ghost var left: nat := 4;
      SomePowers();
      while mask != 16
        invariant left <= 4 && distance >= 16 * high && mask * Pow2(left) == 16
        invariant left > 0 ==> On(task, src, AlignTree(len, high, i, left, distance - 16 * high, mask))
        invariant left == 0 ==> On(task, src, AfterAlign(len, distance))
        decreases left
      {
        var bit := GetBit(802 + i, src, task, AlignTree(len, high, i, left, distance - 16 * high, mask));
        if bit {
          distance := distance + mask;
        }
        i := 2 * i + Bit(bit);
        mask := 2 * mask;
        left := left - 1;
      }
    }

    /** When the symbol is complete the goal is reached. */
    lemma Reached(task: Task, src: seq<Byte>, symbol: Symbol)
      requires On(task, src, Done(symbol))
      ensures !Starved(task.s, Coder(task.s, src)) && range >= 0x1_0000
      ensures task.goal == Finished(symbol, Norm(task.s, Coder(task.s, src)), probs[..]) && Here(task.s, src)
    {
      hide PhaseOk;
    }

    lemma DoneOk(task: Task, src: seq<Byte>, ph: Phase)
      requires On(task, src, ph)
      ensures PhaseOk(ph)
    {
      hide PhaseOk, Run;
    }
  }

  lemma LiteralBounds(i: nat, left: nat, bit: bool)
    requires InTree(i, left, 8)
    ensures left >= 1
    ensures left > 1 ==> InTree(2 * i + Bit(bit), left - 1, 8) && 2 * i + Bit(bit) < 256
    ensures left == 1 ==> 256 <= 2 * i + Bit(bit)
  {
    hide Pow2;
    SomePowers();
    InTreeNext(i, left, 8, bit);
    if left > 1 {
      InTreeNext(2 * i + Bit(bit), left - 1, 8, false);
    }
  }

  lemma LengthBounds(i: nat, left: nat, n: nat, bit: bool)
    requires InTree(i, left, n) && (n == 3 || n == 6 || n == 8)
    ensures left >= 1
    ensures var limit := if n == 3 then 8 else if n == 6 then 64 else 256;
      (left > 1 ==> 2 * i + Bit(bit) < limit) && (left == 1 ==> limit <= 2 * i + Bit(bit) < 2 * limit)
  {
    hide Pow2;
    SomePowers();
    InTreeNext(i, left, n, bit);
    if left > 1 {
      InTreeNext(2 * i + Bit(bit), left - 1, n, false);
    }
  }
}
