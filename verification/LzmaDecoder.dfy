/** The LZMA decoder: symbols from the input to the dictionary (lzmadec.c). */
module LzmaDecoder {

  import opened Arith
  import opened BitStrings
  import opened Lz77
  import opened LzmaCoder
  import opened LzmaGrammar
  import opened LzmaSymbol
  import opened LzmaState
  import opened LzmaReader
  import opened LzmaDictionary

  datatype SRes = SZ_OK | SZ_ERROR_DATA

  /** kMatchSpecLenStart: lengths from here on are not lengths but marks. */
  const SPEC_LEN_START := 274

  /** processedPos is a 32-bit count, but its low bits are those of the whole count. */
  lemma LowBits(n: nat, b: nat)
    requires b <= 4
    ensures (n % 0x1_0000_0000) % Pow2(b) == n % Pow2(b)
  {
    var q, m, p, c := n / 0x1_0000_0000, n % 0x1_0000_0000, Pow2(b), Pow2(32 - b);
    Pow2Word();
    Pow2Add(32 - b, b);
    hide Pow2;
    Decompose(n, 0x1_0000_0000);
    MulAssoc(q, c, p);
    MultipleOff(q * c, p, m);
  }

  lemma MultipleOff(q: nat, p: nat, m: nat)
    requires p > 0
    ensures (q * p + m) % p == m % p
  {
    Decompose(m, p);
    MulDist(q, m / p, p);
    DivUnique(q * p + m, p, q + m / p, m % p);
  }

  class LzmaDec {
    const prop: Props
    const rc: RangeDecoder
    const dict: Dictionary
    var processedPos: Word
    var checkDicSize: nat
    var state: nat
    var reps: Reps
    var remainLen: nat

    constructor (prop: Props, rc: RangeDecoder, dict: Dictionary)
      ensures this.prop == prop && this.rc == rc && this.dict == dict
      ensures processedPos == 0 && checkDicSize == 0 && remainLen == 0
    {
      this.prop, this.rc, this.dict := prop, rc, dict;
      processedPos, checkDicSize, state, reps, remainLen := 0, 0, 0, Reps(1, 1, 1, 1), 0;
    }

    /** Distances reach no further back than the dictionary: it has not been started over, or it is large enough. */
    ghost predicate Roomy()
      reads dict
    {
      dict.dicPos == |dict.produced| || prop.dicSize <= dict.dic.Length
    }

    /** How much output lies before the beginning of the dictionary. It changes only when the caller starts over. */
    ghost function Offset(): int
      reads dict
    {
      |dict.produced| - dict.dicPos
    }

    /** The counters for n bytes of output. */
    ghost predicate Counted(n: nat)
      reads `processedPos, `checkDicSize
    {
      processedPos == n % 0x1_0000_0000 && (checkDicSize == 0 || (checkDicSize == prop.dicSize && n >= prop.dicSize))
    }

    /** The coder and its probabilities stand at z, but perhaps not normalised yet. */
    ghost predicate CoderAt(s: seq<Byte>, src: seq<Byte>, z: Lz)
      reads rc, rc.probs
    {
      && Here(s, src) && rc.range >= 0x1_0000 && !Starved(s, rc.Coder(s, src))
      && Norm(s, rc.Coder(s, src)) == z.rc && rc.probs[..] == z.probs
    }

    /** All but the last rest bytes of the output have been written. */
    ghost predicate Written(z: Lz, rest: nat)
      reads `processedPos, `checkDicSize, dict, dict.dic
    {
      && dict.Valid() && Roomy() && Counted(|dict.produced|)
      && rest <= |z.out| && dict.produced == z.out[..|z.out| - rest]
      && (rest > 0 ==> ToCopy(z, rest))
    }

    /** The bytes that are missing are a copy. */
    ghost predicate ToCopy(z: Lz, rest: nat)
      reads dict
    {
      && 1 <= z.reps.r0 <= |dict.produced| && z.reps.r0 <= dict.dic.Length
      && z.out == Copied(dict.produced, z.reps.r0, rest)
    }

    /** The fields that tell the last symbols and distances. */
    ghost predicate Remembers(z: Lz)
      reads `state, `reps
    {
      state == z.state && reps == z.reps
    }

    /** A distance within the output and the dictionary is within the ring. */
    lemma Reachable(z: Lz, d: nat)
      requires LzOk(prop, z) && Written(z, 0) && DistanceOk(prop, z.out, d) && z.out != []
      ensures 1 <= d <= |dict.produced| && d <= dict.dic.Length
    {
    }

    /** Nothing is missing of what is written. */
    lemma AllWritten(z: Lz)
      requires Written(z, 0)
      ensures dict.produced == z.out && dict.Valid()
      ensures processedPos == |z.out| % 0x1_0000_0000 && Counted(|z.out|)
    {
    }

    /** The index of the first probability for a literal. */
    method LiteralBase(ghost z: Lz) returns (prob: nat)
      requires LzOk(prop, z) && Written(z, 0) && (checkDicSize == 0 ==> |z.out| < prop.dicSize)
      ensures prob == ContextOf(prop, z).litBase
    {
      hide Pow2, NumProbs, LiteralSet, ContextOf;
      AllWritten(z);
      ContextIs(prop, z);
      prob := 1846;
      if checkDicSize != 0 || processedPos != 0 {
        SomeOutput(z);
        Reachable(z, 1);
        var before := dict.ByteBack(1);
        SameSet(z, before);
        prob := prob + 768 * LiteralSet(prop, processedPos, before);
      }
    }

    lemma SameSet(z: Lz, before: Byte)
      requires PropsOk(prop) && processedPos == |z.out| % 0x1_0000_0000
      ensures LiteralSet(prop, processedPos, before) == LiteralSet(prop, |z.out|, before)
    {
      hide Pow2;
      LowBits(|z.out|, prop.lp);
    }

    /** Reads a literal, after the bit that says so. */
    method ReadLiteral(src: seq<Byte>, ghost z: Lz, ghost task: Task) returns (symbol: nat)
      requires LzOk(prop, z) && Written(z, 0) && (checkDicSize == 0 ==> |z.out| < prop.dicSize)
      requires Remembers(z) && task.cx == ContextOf(prop, z)
      requires rc.On(task, src, After(task.cx, IsMatch, false))
      modifies rc, rc.probs
      ensures rc.On(task, src, Done(Literal(symbol % 256)))
    {
      hide NumProbs, ContextOf, LiteralSet, Pow2, Run, RangeDecoder.On;
      AllWritten(z);
      ContextIs(prop, z);
      var prob := LiteralBase(z);
      if state < 7 {
        symbol := rc.PlainLiteral(prob, src, task);
      } else {
        Reachable(z, reps.r0);
        var matchByte := dict.ByteBack(reps.r0);
        symbol := rc.MatchedLiteral(prob, matchByte, src, task);
      }
    }

    lemma CountOne(n: nat)
      ensures (n % 0x1_0000_0000 + 1) % 0x1_0000_0000 == (n + 1) % 0x1_0000_0000
    {
    }

    /** Writes one byte that makes the output that of z', and counts it. */
    method WriteByte(x: Byte, ghost z: Lz, ghost z': Lz)
      requires Written(z, 0) && dict.dicPos < dict.dic.Length && z'.out == z.out + [x]
      modifies `processedPos, dict, dict.dic
      ensures Written(z', 0) && dict.dicPos == old(dict.dicPos) + 1 && Offset() == old(Offset())
    {
      hide Dictionary.Valid;
      AllWritten(z);
      CountOne(|z.out|);
      dict.Put(x);
      processedPos := (processedPos + 1) % 0x1_0000_0000;
    }

    /** The turn of the loop has come to z': all of it, or as much of a copy as there was room for. */
    ghost predicate TurnDone(s: seq<Byte>, src: seq<Byte>, z': Lz, limit: nat)
      reads this, rc, rc.probs, dict, dict.dic
    {
      && CoderAt(s, src, z') && Remembers(z') && dict.dicPos <= limit
      && (z'.status == Going ==> Written(z', remainLen) && (remainLen > 0 ==> dict.dicPos == limit && remainLen < SPEC_LEN_START))
      && (z'.status == Ended ==> Written(z', 0) && remainLen >= SPEC_LEN_START)
    }

    /** The literal case of a turn. */
    method LiteralTurn(limit: nat, src: seq<Byte>, ghost s: seq<Byte>, ghost z: Lz)
      requires LzOk(prop, z) && z.status == Going && Written(z, 0) && Remembers(z)
      requires (checkDicSize == 0 ==> |z.out| < prop.dicSize) && dict.dicPos < limit <= dict.dic.Length
      requires rc.On(Task(ContextOf(prop, z), s, Read(prop, s, z)), src, After(ContextOf(prop, z), IsMatch, false))
      modifies this, rc, rc.probs, dict, dict.dic
      ensures checkDicSize == old(checkDicSize) && dict.dicPos == old(dict.dicPos) + 1 && Offset() == old(Offset())
      ensures Next(prop, s, z).status == Going && TurnDone(s, src, Next(prop, s, z), limit)
    {
      hide NumProbs, ContextOf, Read, LiteralSet, LzOk, Run, RangeDecoder.On, Dictionary.Valid;
      ghost var task := Task(ContextOf(prop, z), s, Read(prop, s, z));
      var symbol := ReadLiteral(src, z, task);
      rc.Reached(task, src, Literal(symbol % 256));
      state := if state < 7 then state - (if state < 4 then state else 3) else state - if state < 10 then 3 else 6;
      WriteByte(symbol % 256, z, Next(prop, s, z));
      remainLen := 0;
    }

    /**
     * The bits that say which of the last distances is meant, which moves to the front. A short repeat has no length.
     */
    method ReadRepeat(posState: nat, src: seq<Byte>, ghost task: Task) returns (short: bool, ghost k: nat)
      requires rc.On(task, src, IsRepG0) && state == task.cx.state && posState == task.cx.posState
      modifies `reps, rc, rc.probs
      ensures k < 4 && reps == Rotated(old(reps), k)
      ensures short ==> k == 0 && rc.On(task, src, Done(ShortRep))
      ensures !short ==> rc.On(task, src, Choice(Again(k)))
    {
      hide Run, RangeDecoder.On;
      short, k := false, 0;
      var bit := rc.GetBit(204 + state, src, task, IsRepG0);
      if !bit {
        bit := rc.GetBit(240 + 16 * state + posState, src, task, IsRep0Long);
        short := !bit;
      } else {
        var distance;
        bit := rc.GetBit(216 + state, src, task, IsRepG1);
        if !bit {
          distance := reps.r1;
          k := 1;
        } else {
          bit := rc.GetBit(228 + state, src, task, IsRepG2);
          if !bit {
            distance := reps.r2;
            k := 2;
          } else {
            distance := reps.r3;
            reps := reps.(r3 := reps.r2);
            k := 3;
          }
          reps := reps.(r2 := reps.r1);
        }
        reps := reps.(r1 := reps.r0);
        reps := reps.(r0 := distance);
      }
    }

    /** Copies len bytes, or as many as there is room for. What is left becomes remainLen. */
    method CopyOut(limit: nat, len: nat, ghost z: Lz, ghost z': Lz)
      requires Written(z, 0) && dict.dicPos < limit <= dict.dic.Length && len > 0 && reps == z'.reps
      requires 1 <= reps.r0 <= |z.out| && reps.r0 <= dict.dic.Length && z'.out == Copied(z.out, reps.r0, len)
      modifies `processedPos, `remainLen, dict, dict.dic
      ensures Written(z', remainLen) && dict.dicPos <= limit && (remainLen > 0 ==> dict.dicPos == limit)
      ensures remainLen < len && dict.dicPos > old(dict.dicPos) && Offset() == old(Offset())
    {
      hide Dictionary.Valid, Copied;
      AllWritten(z);
      var rem := limit - dict.dicPos;
      var curLen := if rem < len then rem else len;
      processedPos := (processedPos + curLen) % 0x1_0000_0000;
      dict.CopyMatch(reps.r0, curLen);
      remainLen := len - curLen;
      CopiedParts(z.out, reps.r0, curLen, len);
    }

    /** What a turn may rely on: the decoder is at z, and the phase that the symbol has been read to. */
    ghost predicate InTurn(s: seq<Byte>, src: seq<Byte>, z: Lz, ph: Phase, limit: nat)
      reads this, rc, rc.probs, dict, dict.dic
    {
      && LzOk(prop, z) && z.status == Going && Written(z, 0) && Remembers(z)
      && (checkDicSize == 0 ==> |z.out| < prop.dicSize) && dict.dicPos <= limit <= dict.dic.Length
      && rc.On(TaskOf(s, z), src, ph)
    }

    ghost function TaskOf(s: seq<Byte>, z: Lz): Task
      requires LzOk(prop, z)
    {
      Task(ContextOf(prop, z), s, Read(prop, s, z))
    }

    /** Why a turn may fail: the symbol makes no sense, or there is no room even for its first byte. */
    ghost predicate TurnFails(s: seq<Byte>, z: Lz, full: bool)
      requires LzOk(prop, z)
    {
      Next(prop, s, z).status == Bad || (full && Next(prop, s, z).status == Going)
    }

    /** A turn with one of the last distances. */
    method RepeatTurn(limit: nat, posState: nat, src: seq<Byte>, ghost s: seq<Byte>, ghost z: Lz) returns (r: SRes)
      requires InTurn(s, src, z, IsRepG0, limit) && dict.dicPos < limit && posState == ContextOf(prop, z).posState
      modifies this, rc, rc.probs, dict, dict.dic
      ensures checkDicSize == old(checkDicSize) && Offset() == old(Offset())
      ensures r == SZ_OK ==> TurnDone(s, src, Next(prop, s, z), limit) && Next(prop, s, z).status == Going
      ensures r == SZ_OK ==> dict.dicPos > old(dict.dicPos)
      ensures r == SZ_ERROR_DATA ==> TurnFails(s, z, false)
    {
      hide NumProbs, ContextOf, Read, Run, RangeDecoder.On, Dictionary.Valid, Copied, LzOk, Next, TurnDone, Rotated, Written, Counted;
      AllWritten(z);
      ContextIs(prop, z);
      if checkDicSize == 0 && processedPos == 0 {
        NoOutput(z);
        OnlyRepeats(s, src, z);
        return SZ_ERROR_DATA;
      }
      SomeOutput(z);
      var short, k := ReadRepeat(posState, src, TaskOf(s, z));
      RepIsReachable(z, k);
      if short {
        RotatedNone(z.reps);
        ShortTurn(limit, src, s, z);
      } else {
        state := if state < 7 then 8 else 11;
        var len := rc.ReadLength(1332, posState, src, TaskOf(s, z), Again(k));
        AfterRepeat(s, src, z, k, len);
        FinishCopy(limit, len, src, s, z, Repeat(k, len));
      }
      return SZ_OK;
    }

    lemma NoOutput(z: Lz)
      requires LzOk(prop, z) && Written(z, 0) && processedPos == 0 && |z.out| < prop.dicSize
      ensures z.out == []
    {
    }

    lemma SomeOutput(z: Lz)
      requires LzOk(prop, z) && Written(z, 0) && (checkDicSize != 0 || processedPos != 0)
      ensures z.out != []
    {
    }

    /** A short repeat: one byte. */
    method ShortTurn(limit: nat, src: seq<Byte>, ghost s: seq<Byte>, ghost z: Lz)
      requires LzOk(prop, z) && z.status == Going && Written(z, 0) && Remembers(z) && z.out != []
      requires dict.dicPos < limit <= dict.dic.Length && rc.On(TaskOf(s, z), src, Done(ShortRep))
      requires 1 <= reps.r0 <= |dict.produced| && reps.r0 <= dict.dic.Length
      modifies this, dict, dict.dic
      ensures checkDicSize == old(checkDicSize) && dict.dicPos > old(dict.dicPos) && Offset() == old(Offset())
      ensures TurnDone(s, src, Next(prop, s, z), limit) && Next(prop, s, z).status == Going
    {
      hide NumProbs, ContextOf, Read, Run, RangeDecoder.On, Dictionary.Valid, LzOk;
      rc.Reached(TaskOf(s, z), src, ShortRep);
      AllWritten(z);
      var x := dict.ByteBack(reps.r0);
      WriteByte(x, z, Next(prop, s, z));
      state := if state < 7 then 9 else 11;
      remainLen := 0;
    }

    /** What a repeat makes of the state. */
    lemma AfterRepeat(s: seq<Byte>, src: seq<Byte>, z: Lz, k: nat, len: nat)
      requires LzOk(prop, z) && z.status == Going && z.out != [] && rc.On(TaskOf(s, z), src, Done(Repeat(k, len)))
      ensures k < 4 && len < 272
      ensures var y := Next(prop, s, z);
        && y.status == Going && y.state == (if z.state < 7 then 8 else 11) && y.reps == Rotated(z.reps, k)
        && 1 <= y.reps.r0 <= |z.out| && y.out == Copied(z.out, y.reps.r0, len + 2)
    {
      hide NumProbs, ContextOf, Run, Copied;
      rc.Reached(TaskOf(s, z), src, Repeat(k, len));
      GoalOk(s, z);
      RepsOk(prop, z);
    }

    /** The copy that ends the turn of a match. */
    method FinishCopy(limit: nat, len: nat, src: seq<Byte>, ghost s: seq<Byte>, ghost z: Lz, ghost symbol: Symbol)
      requires LzOk(prop, z) && z.status == Going && Written(z, 0) && dict.dicPos < limit <= dict.dic.Length
      requires rc.On(TaskOf(s, z), src, Done(symbol)) && len < 272
      requires Next(prop, s, z).status == Going && Remembers(Next(prop, s, z))
      requires 1 <= reps.r0 <= |z.out| && reps.r0 <= dict.dic.Length
      requires Next(prop, s, z).out == Copied(z.out, reps.r0, len + 2)
      modifies `processedPos, `remainLen, dict, dict.dic
      ensures TurnDone(s, src, Next(prop, s, z), limit) && dict.dicPos > old(dict.dicPos) && Offset() == old(Offset())
    {
      hide NumProbs, ContextOf, Run, RangeDecoder.On, Dictionary.Valid, LzOk, Copied;
      CoderThere(s, src, z, symbol);
      CopyOut(limit, len + 2, z, Next(prop, s, z));
    }

    /** When the symbol is complete the coder is where the next one begins. */
    lemma CoderThere(s: seq<Byte>, src: seq<Byte>, z: Lz, symbol: Symbol)
      requires LzOk(prop, z) && z.status == Going && rc.On(TaskOf(s, z), src, Done(symbol))
      ensures Next(prop, s, z).status != OutOfInput && CoderAt(s, src, Next(prop, s, z))
    {
      hide NumProbs, ContextOf, Run, RangeDecoder.On, LzOk;
      rc.Reached(TaskOf(s, z), src, symbol);
      GoalOk(s, z);
    }

    lemma RotatedNone(reps: Reps)
      ensures Rotated(reps, 0) == reps
    {
    }

    /** A distance that was moved to the front leads to a byte of the dictionary. */
    lemma RepIsReachable(z: Lz, k: nat)
      requires LzOk(prop, z) && Written(z, 0) && z.out != [] && k < 4
      ensures 1 <= Rotated(z.reps, k).r0 <= |dict.produced| && Rotated(z.reps, k).r0 <= dict.dic.Length
    {
      hide NumProbs;
      RepsOk(prop, z);
      Reachable(z, Rep(z.reps, k));
    }

    lemma GoalOk(s: seq<Byte>, z: Lz)
      requires LzOk(prop, z) && Read(prop, s, z).Finished?
      ensures SymbolOk(Read(prop, s, z).symbol)
    {
      hide Run;
    }

    /** A repeat before there is any output makes no sense. */
    lemma OnlyRepeats(s: seq<Byte>, src: seq<Byte>, z: Lz)
      requires LzOk(prop, z) && z.status == Going && z.out == [] && rc.On(TaskOf(s, z), src, IsRepG0)
      ensures Next(prop, s, z).status == Bad
    {
      hide NumProbs, ContextOf, Run, LzOk, PhaseOk;
      var task := TaskOf(s, z);
      RunKind(task.cx, Reading(IsRepG0, rc.Coder(s, src), rc.probs[..]), s, true);
    }

    /** A turn with a new distance, or with the end mark. */
    method FreshTurn(limit: nat, posState: nat, src: seq<Byte>, ghost s: seq<Byte>, ghost z: Lz) returns (r: SRes)
      requires InTurn(s, src, z, Choice(Fresh), limit) && posState == ContextOf(prop, z).posState
      modifies this, rc, rc.probs, dict, dict.dic
      ensures checkDicSize == old(checkDicSize) && Offset() == old(Offset())
      ensures r == SZ_OK ==> TurnDone(s, src, Next(prop, s, z), limit) && Next(prop, s, z).status in {Going, Ended}
      ensures r == SZ_OK ==> dict.dicPos >= old(dict.dicPos)
      ensures r == SZ_OK && Next(prop, s, z).status == Going ==> dict.dicPos > old(dict.dicPos)
      ensures r == SZ_ERROR_DATA ==> TurnFails(s, z, old(dict.dicPos) == limit)
    {
      hide NumProbs, ContextOf, Read, Run, RangeDecoder.On, Dictionary.Valid, Copied, LzOk, Next, TurnDone, Written, Counted;
      AllWritten(z);
      var len := rc.ReadLength(818, posState, src, TaskOf(s, z), Fresh);
      var distance := rc.ReadDistance(len, src, TaskOf(s, z));
      if distance == 0xFFFF_FFFF {
        remainLen := len + SPEC_LEN_START;
        AfterEndMark(s, src, z, len, limit);
        return SZ_OK;
      }
      AfterMatch(s, src, z, len, distance);
      reps := Reps(distance + 1, reps.r0, reps.r1, reps.r2);
      CheckDistance(z, distance);
      if checkDicSize == 0 {
        if distance >= processedPos {
          return SZ_ERROR_DATA;
        }
      } else if distance >= checkDicSize {
        return SZ_ERROR_DATA;
      }
      state := if state < 7 then 7 else 10;
      if limit == dict.dicPos {
        return SZ_ERROR_DATA;
      }
      FinishCopy(limit, len, src, s, z, Match(len, distance));
      return SZ_OK;
    }

    /** Both ways of checking a distance ask whether it leads to a byte of the dictionary. */
    lemma CheckDistance(z: Lz, distance: nat)
      requires LzOk(prop, z) && Written(z, 0) && (checkDicSize == 0 ==> |z.out| < prop.dicSize)
      ensures distance >= |z.out| || distance >= prop.dicSize <==>
        if checkDicSize == 0 then distance >= processedPos else distance >= checkDicSize
      ensures distance < |z.out| && distance < prop.dicSize ==> distance + 1 <= dict.dic.Length
    {
    }

    /** What a match makes of the state. */
    lemma AfterMatch(s: seq<Byte>, src: seq<Byte>, z: Lz, len: nat, distance: nat)
      requires LzOk(prop, z) && z.status == Going && rc.On(TaskOf(s, z), src, Done(Match(len, distance)))
      ensures len < 272
      ensures var y := Next(prop, s, z);
        if distance >= |z.out| || distance >= prop.dicSize then y.status == Bad
        else
          && y.status == Going && y.state == (if z.state < 7 then 7 else 10)
          && y.reps == Reps(distance + 1, z.reps.r0, z.reps.r1, z.reps.r2)
          && y.out == Copied(z.out, distance + 1, len + 2)
    {
      hide NumProbs, ContextOf, Run, Copied;
      rc.Reached(TaskOf(s, z), src, Match(len, distance));
      GoalOk(s, z);
    }

    lemma AfterEndMark(s: seq<Byte>, src: seq<Byte>, z: Lz, len: nat, limit: nat)
      requires LzOk(prop, z) && z.status == Going && rc.On(TaskOf(s, z), src, Done(EndMark(len)))
      requires Written(z, 0) && Remembers(z) && remainLen >= SPEC_LEN_START && dict.dicPos <= limit
      ensures Next(prop, s, z).status == Ended && TurnDone(s, src, Next(prop, s, z), limit)
    {
      hide NumProbs, ContextOf, Run, LzOk;
      CoderThere(s, src, z, EndMark(len));
      rc.Reached(TaskOf(s, z), src, EndMark(len));
    }

    /**
     * One turn of the loop of LzmaDec_DecodeReal: a symbol. Without room for a byte the symbol must not be one that
     * writes without looking.
     */
    method DecodeOne(limit: nat, src: seq<Byte>, ghost s: seq<Byte>, ghost z: Lz) returns (r: SRes)
      requires LzOk(prop, z) && z.status == Going && CoderAt(s, src, z) && Written(z, 0) && Remembers(z)
      requires (checkDicSize == 0 ==> |z.out| < prop.dicSize) && dict.dicPos <= limit <= dict.dic.Length
      requires Read(prop, s, z).Finished?
      requires dict.dicPos == limit ==> SymbolKind(Read(prop, s, z).symbol) == MATCH
      modifies this, rc, rc.probs, dict, dict.dic
      ensures checkDicSize == old(checkDicSize) && Offset() == old(Offset())
      ensures r == SZ_OK ==> TurnDone(s, src, Next(prop, s, z), limit) && Next(prop, s, z).status in {Going, Ended}
      ensures r == SZ_OK ==> dict.dicPos >= old(dict.dicPos)
      ensures r == SZ_OK && Next(prop, s, z).status == Going ==> dict.dicPos > old(dict.dicPos)
      ensures r == SZ_ERROR_DATA ==> TurnFails(s, z, old(dict.dicPos) == limit)
    {
      hide NumProbs, ContextOf, Read, Run, RangeDecoder.On, Dictionary.Valid, LzOk, Next, TurnDone, Written, Counted, TurnFails;
      StartTurn(s, src, z);
      PosStateIs(z);
      ContextIs(prop, z);
      var posState := processedPos % Pow2(prop.pb);
      var bit := rc.GetBit(16 * state + posState, src, TaskOf(s, z), IsMatch);
      if !bit {
        KindKnown(s, src, z, After(ContextOf(prop, z), IsMatch, false));
        LiteralTurn(limit, src, s, z);
        return SZ_OK;
      }
      bit := rc.GetBit(192 + state, src, TaskOf(s, z), IsRep);
      if !bit {
        r := FreshTurn(limit, posState, src, s, z);
      } else {
        KindKnown(s, src, z, IsRepG0);
        r := RepeatTurn(limit, posState, src, s, z);
      }
    }

    lemma StartTurn(s: seq<Byte>, src: seq<Byte>, z: Lz)
      requires LzOk(prop, z) && CoderAt(s, src, z) && Read(prop, s, z).Finished?
      ensures rc.On(TaskOf(s, z), src, IsMatch)
    {
      hide NumProbs, ContextOf, Run;
      NormFirst(ContextOf(prop, z), Reading(IsMatch, rc.Coder(s, src), rc.probs[..]), s, true);
    }

    lemma PosStateIs(z: Lz)
      requires LzOk(prop, z) && Written(z, 0)
      ensures processedPos % Pow2(prop.pb) == |z.out| % Pow2(prop.pb)
    {
      hide Pow2;
      LowBits(|z.out|, prop.pb);
    }

    lemma KindKnown(s: seq<Byte>, src: seq<Byte>, z: Lz, ph: Phase)
      requires LzOk(prop, z) && rc.On(TaskOf(s, z), src, ph) && PhaseKind(ph) != UNKNOWN
      ensures SymbolKind(Read(prop, s, z).symbol) == PhaseKind(ph)
    {
      hide NumProbs, ContextOf, Run, PhaseOk;
      RunKind(ContextOf(prop, z), Reading(ph, rc.Coder(s, src), rc.probs[..]), s, true);
    }

    /** Between two symbols, with everything in place for the next one. */
    ghost predicate Ready(s: seq<Byte>, src: seq<Byte>, z: Lz)
      reads this, rc, rc.probs, dict, dict.dic
    {
      && LzOk(prop, z) && z.status == Going && CoderAt(s, src, z) && Written(z, 0) && Remembers(z)
      && (checkDicSize == 0 ==> |z.out| < prop.dicSize)
    }

    /**
     * A run of the whole stream that has come from symbol m to symbol n, all of which but perhaps the first of these
     * began before there were size bytes of output.
     */
    ghost predicate Stretch(whole: seq<Byte>, z0: Lz, m: nat, n: nat, z: Lz, size: int)
      requires LzOk(prop, z0)
    {
      && m <= n && z == Steps(prop, whole, z0, n)
      && forall k :: m <= k < n ==>
        Steps(prop, whole, z0, k).status == Going && (k > m ==> |Steps(prop, whole, z0, k).out| < size)
    }

    /** One symbol more, which was complete in the part s of the stream. */
    lemma Longer(s: seq<Byte>, whole: seq<Byte>, z0: Lz, m: nat, n: nat, z: Lz, size: int)
      requires LzOk(prop, z0) && LzOk(prop, z) && Stretch(whole, z0, m, n, z, size) && z.status == Going
      requires (n > m ==> |z.out| < size) && s <= whole && Read(prop, s, z).Finished?
      ensures Stretch(whole, z0, m, n + 1, Next(prop, s, z), size)
    {
      hide Next, LzOk, Stretch, Read;
      SameNext(s, whole, z);
      OneMore(whole, z0, m, n, z, size);
    }

    lemma OneMore(whole: seq<Byte>, z0: Lz, m: nat, n: nat, z: Lz, size: int)
      requires LzOk(prop, z0) && LzOk(prop, z) && Stretch(whole, z0, m, n, z, size) && z.status == Going
      requires n > m ==> |z.out| < size
      ensures Stretch(whole, z0, m, n + 1, Next(prop, whole, z), size)
    {
      hide Next, LzOk;
    }

    lemma SameNext(s: seq<Byte>, whole: seq<Byte>, z: Lz)
      requires LzOk(prop, z) && s <= whole && Read(prop, s, z).Finished?
      ensures Next(prop, whole, z) == Next(prop, s, z)
    {
      hide Run, ContextOf, NumProbs;
      MoreInput(ContextOf(prop, z), Reading(IsMatch, z.rc, z.probs), s, whole, true);
    }

    /** With 20 bytes to go the next symbol is complete. */
    lemma EnoughInput(s: seq<Byte>, src: seq<Byte>, z: Lz, bufLimit: nat)
      requires LzOk(prop, z) && CoderAt(s, src, z) && rc.buf < bufLimit && bufLimit + 20 <= |src|
      ensures Read(prop, s, z).Finished?
    {
      hide NumProbs, ContextOf, Run;
      TwentyBytes(ContextOf(prop, z), z.rc, z.probs, s, true);
    }

    /** After a turn that was not the last of a stretch. */
    lemma ReadyAgain(s: seq<Byte>, src: seq<Byte>, z: Lz, limit: nat)
      requires LzOk(prop, z) && TurnDone(s, src, z, limit) && z.status == Going && dict.dicPos < limit
      requires checkDicSize == 0 ==> limit + Offset() <= prop.dicSize
      ensures remainLen == 0 && Ready(s, src, z) && |z.out| < limit + Offset()
    {
      hide LzOk, Counted, Dictionary.Valid, CoderAt;
    }

    lemma ReadyFacts(s: seq<Byte>, src: seq<Byte>, z: Lz)
      requires Ready(s, src, z)
      ensures LzOk(prop, z) && z.status == Going && CoderAt(s, src, z) && Written(z, 0) && Remembers(z)
    {
    }

    lemma TurnFacts(s: seq<Byte>, src: seq<Byte>, z': Lz, limit: nat)
      requires TurnDone(s, src, z', limit) && z'.status in {Going, Ended}
      ensures dict.dicPos <= limit && (z'.status == Ended <==> remainLen >= SPEC_LEN_START)
    {
      hide Written, CoderAt;
    }

    /** Reading a symbol does not go beyond the input. */
    lemma NextWithin(s: seq<Byte>, z: Lz)
      requires LzOk(prop, z) && z.rc.pos <= |s|
      ensures Next(prop, s, z).rc.pos <= |s|
    {
      hide Run, ContextOf, NumProbs, Apply;
    }

    lemma FailsAnyway(s: seq<Byte>, z: Lz, full: bool)
      requires LzOk(prop, z) && TurnFails(s, z, false)
      ensures TurnFails(s, z, full)
    {
      hide Next, LzOk;
    }

    /** The normalisation after the last symbol. */
    method NormalizeAt(src: seq<Byte>, ghost s: seq<Byte>, ghost z': Lz, ghost limit: nat)
      requires TurnDone(s, src, z', limit)
      modifies rc`range, rc`code, rc`buf
      ensures TurnDone(s, src, z', limit) && rc.Coder(s, src) == z'.rc
    {
      hide Written;
      rc.Normalize(src, s);
    }

    /** LzmaDec_DecodeReal: symbols while there is room, and input before bufLimit. At least one. */
    method DecodeReal(limit: nat, src: seq<Byte>, bufLimit: nat, ghost s: seq<Byte>, ghost z: Lz,
                      ghost whole: seq<Byte>, ghost z0: Lz, ghost m: nat, ghost n0: nat, ghost size: int)
      returns (r: SRes, ghost z': Lz, ghost n: nat)
      requires Ready(s, src, z) && dict.dicPos <= limit <= dict.dic.Length
      requires checkDicSize == 0 ==> limit + Offset() <= prop.dicSize
      requires Read(prop, s, z).Finished? && (bufLimit == 0 || bufLimit + 20 <= |src|)
      requires dict.dicPos == limit ==> SymbolKind(Read(prop, s, z).symbol) == MATCH
      requires s <= whole && LzOk(prop, z0) && Stretch(whole, z0, m, n0, z, size) && (n0 > m ==> |z.out| < size)
      requires limit + Offset() <= size && z.rc.pos <= |s|
      modifies this, rc, rc.probs, dict, dict.dic
      ensures checkDicSize == old(checkDicSize) && Offset() == old(Offset())
      ensures LzOk(prop, z') && Stretch(whole, z0, m, n, z', size) && z'.rc.pos <= |s|
      ensures r == SZ_OK ==> n > n0 && TurnDone(s, src, z', limit) && rc.Coder(s, src) == z'.rc
      ensures r == SZ_OK ==> z'.status in {Going, Ended} && dict.dicPos >= old(dict.dicPos)
      ensures r == SZ_OK ==> z'.status == Going ==> dict.dicPos > old(dict.dicPos)
      ensures r == SZ_ERROR_DATA ==> z'.status == Going && TurnFails(s, z', old(dict.dicPos) == limit)
      ensures r == SZ_ERROR_DATA && n > m ==> |z'.out| < size
    {
      hide NumProbs, Read, LzOk, Next, TurnDone, Written, Counted, TurnFails, Steps, Stretch, CoderAt, Remembers;
      n, z' := n0, z;
      ReadyFacts(s, src, z);
      r := DecodeOne(limit, src, s, z);
      if r != SZ_OK {
        return;
      }
      Longer(s, whole, z0, m, n, z, size);
      NextWithin(s, z);
      n, z' := n + 1, Next(prop, s, z);
      TurnFacts(s, src, z', limit);
      while remainLen < SPEC_LEN_START && dict.dicPos < limit && rc.buf < bufLimit
        invariant r == SZ_OK && n > n0 && LzOk(prop, z') && TurnDone(s, src, z', limit) && z'.status in {Going, Ended}
        invariant Stretch(whole, z0, m, n, z', size) && z'.rc.pos <= |s|
        invariant checkDicSize == old(checkDicSize) && Offset() == old(Offset()) && dict.dicPos <= limit
        invariant dict.dicPos >= old(dict.dicPos) && (z'.status == Going ==> dict.dicPos > old(dict.dicPos))
        invariant z'.status == Ended <==> remainLen >= SPEC_LEN_START
        decreases limit - dict.dicPos, z'.status == Going
      {
        ReadyAgain(s, src, z', limit);
        ReadyFacts(s, src, z');
        EnoughInput(s, src, z', bufLimit);
        r := DecodeOne(limit, src, s, z');
        if r != SZ_OK {
          FailsAnyway(s, z', old(dict.dicPos) == limit);
          return;
        }
        Longer(s, whole, z0, m, n, z', size);
        NextWithin(s, z');
        n, z' := n + 1, Next(prop, s, z');
        TurnFacts(s, src, z', limit);
      }
      NormalizeAt(src, s, z', limit);
    }

    /** The output is as long as the dictionary is large from when the check for that says so. */
    ghost predicate Checked()
      reads `checkDicSize, dict
    {
      checkDicSize == 0 ==> |dict.produced| < prop.dicSize
    }

    /** Counts the bytes that LzmaDec_WriteRem is about to write. */
    method CountRem(len: nat)
      requires PropsOk(prop) && Counted(|dict.produced|) && Checked()
      modifies `processedPos, `checkDicSize
      ensures Counted(|dict.produced| + len) && (checkDicSize == 0 ==> |dict.produced| + len < prop.dicSize)
    {
      if checkDicSize == 0 && prop.dicSize - processedPos <= len {
        checkDicSize := prop.dicSize;
      }
      processedPos := (processedPos + len) % 0x1_0000_0000;
    }

    lemma HasProps(z: Lz)
      requires LzOk(prop, z)
      ensures PropsOk(prop)
    {
    }

    /**
     * LzmaDec_WriteRem: writes what is left of a copy, as much as there is room for, and sees whether the dictionary
     * is full by then.
     */
    method WriteRem(limit: nat, ghost z: Lz)
      requires LzOk(prop, z) && (remainLen != 0 ==> Remembers(z)) && dict.dicPos <= limit <= dict.dic.Length && Checked()
      requires Written(z, if remainLen < SPEC_LEN_START then remainLen else 0)
      modifies `processedPos, `checkDicSize, `remainLen, dict, dict.dic
      ensures Written(z, if remainLen < SPEC_LEN_START then remainLen else 0)
      ensures dict.dicPos <= limit && Checked() && Offset() == old(Offset()) && dict.dicPos >= old(dict.dicPos)
      ensures 0 < remainLen < SPEC_LEN_START ==> dict.dicPos == limit
      ensures remainLen >= SPEC_LEN_START || old(remainLen) >= SPEC_LEN_START ==> remainLen == old(remainLen)
      ensures old(remainLen) == 0 ==> dict.dicPos == old(dict.dicPos) && remainLen == 0
    {
      hide LzOk, Dictionary.Valid, Copied, Counted;
      HasProps(z);
      if remainLen != 0 && remainLen < SPEC_LEN_START {
        var len := remainLen;
        if limit - dict.dicPos < len {
          len := limit - dict.dicPos;
        }
        CopiedParts(dict.produced, reps.r0, len, remainLen);
        CountRem(len);
        remainLen := remainLen - len;
        dict.CopyBytes(reps.r0, len);
      }
    }

    /** At rest after symbols were decoded: normalised, counted, and what is missing of a copy has no room. */
    ghost predicate Resting(s: seq<Byte>, src: seq<Byte>, z: Lz, limit: nat)
      reads this, rc, rc.probs, dict, dict.dic
    {
      TurnDone(s, src, z, limit) && rc.Coder(s, src) == z.rc && z.status in {Going, Ended} && Checked()
    }

    lemma ReadyFromRest(s: seq<Byte>, src: seq<Byte>, z: Lz, limit: nat)
      requires LzOk(prop, z) && Resting(s, src, z, limit) && z.status == Going && dict.dicPos < limit
      ensures Ready(s, src, z) && CoderAt(s, src, z) && |z.out| < limit + Offset()
    {
      hide LzOk, Counted, Dictionary.Valid, CoderAt;
    }

    lemma RestFacts(s: seq<Byte>, src: seq<Byte>, z: Lz, limit: nat)
      requires Resting(s, src, z, limit)
      ensures dict.dicPos <= limit && (z.status == Ended <==> remainLen >= SPEC_LEN_START)
    {
      hide Written, CoderAt;
    }

    /** As long as the dictionary is not full, the count of bytes is exact. */
    lemma ExactCount(s: seq<Byte>, src: seq<Byte>, z: Lz)
      requires Ready(s, src, z)
      ensures checkDicSize == 0 ==> processedPos == |dict.produced| < prop.dicSize
    {
      hide NumProbs, CoderAt;
    }

    /** After DecodeReal up to limit2: sees whether the dictionary is full, and goes on to the limit with a copy. */
    method Settle(limit2: nat, limit: nat, src: seq<Byte>, ghost s: seq<Byte>, ghost z: Lz)
      requires LzOk(prop, z) && TurnDone(s, src, z, limit2) && rc.Coder(s, src) == z.rc && z.status in {Going, Ended}
      requires limit2 <= limit <= dict.dic.Length
      requires checkDicSize == 0 ==> limit2 + Offset() <= prop.dicSize
      modifies `processedPos, `checkDicSize, `remainLen, dict, dict.dic
      ensures Resting(s, src, z, limit) && Offset() == old(Offset()) && dict.dicPos >= old(dict.dicPos)
    {
      hide LzOk, CoderAt, Dictionary.Valid;
      HasProps(z);
      FullByNow(s, src, z, limit2);
      if processedPos >= prop.dicSize {
        checkDicSize := prop.dicSize;
      }
      WriteRem(limit, z);
    }

    lemma FullByNow(s: seq<Byte>, src: seq<Byte>, z: Lz, limit2: nat)
      requires PropsOk(prop) && TurnDone(s, src, z, limit2) && z.status in {Going, Ended}
      requires checkDicSize == 0 ==> limit2 + Offset() <= prop.dicSize
      ensures checkDicSize == 0 ==> processedPos == |dict.produced| <= prop.dicSize
      ensures checkDicSize != 0 ==> checkDicSize == prop.dicSize
      ensures processedPos >= prop.dicSize ==> |dict.produced| >= prop.dicSize
    {
      hide LzOk, CoderAt, Dictionary.Valid;
    }

    /** LzmaDec_DecodeReal2: stops at the end of the dictionary's size, to have distances checked against it after. */
    method DecodeReal2(limit: nat, src: seq<Byte>, bufLimit: nat, ghost s: seq<Byte>, ghost z: Lz,
                       ghost whole: seq<Byte>, ghost z0: Lz, ghost n0: nat)
      returns (r: SRes, ghost z': Lz, ghost n: nat)
      requires Ready(s, src, z) && dict.dicPos <= limit <= dict.dic.Length
      requires Read(prop, s, z).Finished? && (bufLimit == 0 || bufLimit + 20 <= |src|)
      requires dict.dicPos == limit ==> SymbolKind(Read(prop, s, z).symbol) == MATCH
      requires s <= whole && LzOk(prop, z0) && Stretch(whole, z0, n0, n0, z, limit + Offset()) && z.rc.pos <= |s|
      modifies this, rc, rc.probs, dict, dict.dic
      ensures Offset() == old(Offset()) && LzOk(prop, z') && Stretch(whole, z0, n0, n, z', limit + Offset())
      ensures z'.rc.pos <= |s|
      ensures r == SZ_OK ==> n > n0 && Resting(s, src, z', limit)
      ensures r == SZ_OK && z'.status == Going ==> dict.dicPos > old(dict.dicPos)
      ensures r == SZ_OK ==> z'.status == Ended ==> remainLen == SPEC_LEN_START
      ensures r == SZ_ERROR_DATA ==> z'.status == Going && TurnFails(s, z', old(dict.dicPos) == limit)
      ensures r == SZ_ERROR_DATA && n > n0 ==> |z'.out| < limit + Offset()
    {
      hide NumProbs, Read, LzOk, Next, TurnDone, Written, Counted, TurnFails, Steps, Stretch, CoderAt, Remembers;
      r, n, z' := SZ_OK, n0, z;
      var go := true;
      while go
        invariant LzOk(prop, z') && Stretch(whole, z0, n0, n, z', limit + Offset()) && Offset() == old(Offset())
        invariant r == SZ_OK && z'.rc.pos <= |s|
        invariant n >= n0 && (n == n0 ==> go && z' == z && dict.dicPos == old(dict.dicPos) && Ready(s, src, z))
        invariant n > n0 ==> Resting(s, src, z', limit) && dict.dicPos >= old(dict.dicPos)
        invariant n > n0 && z'.status == Going ==> dict.dicPos > old(dict.dicPos)
        invariant go && n > n0 ==> z'.status == Going && dict.dicPos < limit && rc.buf < bufLimit
        decreases go, limit - dict.dicPos
      {
        if n > n0 {
          ReadyFromRest(s, src, z', limit);
          EnoughInput(s, src, z', bufLimit);
        }
        ExactCount(s, src, z');
        var limit2 := limit;
        if checkDicSize == 0 {
          var rem := prop.dicSize - processedPos;
          if limit - dict.dicPos > rem {
            limit2 := dict.dicPos + rem;
          }
        }
        ghost var full := dict.dicPos == limit2;
        r, z', n := DecodeReal(limit2, src, bufLimit, s, z', whole, z0, n0, n, limit + Offset());
        if r != SZ_OK {
          if !full {
            FailsAnyway(s, z', old(dict.dicPos) == limit);
          }
          return;
        }
        Settle(limit2, limit, src, s, z');
        RestFacts(s, src, z', limit);
        go := dict.dicPos < limit && rc.buf < bufLimit && remainLen < SPEC_LEN_START;
      }
      Clamp(src, s, z', limit);
    }

    /** Lengths beyond the end mark's are end marks too. */
    method Clamp(ghost src: seq<Byte>, ghost s: seq<Byte>, ghost z: Lz, ghost limit: nat)
      requires Resting(s, src, z, limit)
      modifies `remainLen
      ensures Resting(s, src, z, limit) && (z.status == Ended ==> remainLen == SPEC_LEN_START)
    {
      hide CoderAt;
      if remainLen > SPEC_LEN_START {
        remainLen := SPEC_LEN_START;
      }
    }
  }
}
