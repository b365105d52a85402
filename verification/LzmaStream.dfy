/**
 * Decoding an LZMA stream that comes in pieces, with a buffer for the bytes of a symbol that is not complete
 * (lzmadec.c, LzmaDec_DecodeToDic).
 */
module LzmaStream {

  import opened Arith
  import opened Lz77
  import opened LzmaCoder
  import opened LzmaGrammar
  import opened LzmaSymbol
  import opened LzmaState
  import opened LzmaReader
  import opened LzmaDictionary
  import opened LzmaDecoder
  import opened LzmaDummy
  import opened LzmaRun

  datatype LzmaStatus =
    | LZMA_STATUS_NOT_SPECIFIED
    | LZMA_STATUS_FINISHED_WITH_MARK
    | LZMA_STATUS_NOT_FINISHED
    | LZMA_STATUS_NEEDS_MORE_INPUT
    | LZMA_STATUS_MAYBE_FINISHED_WITHOUT_MARK

  /**
   * The decoder with the fields for input in pieces. whole is all the input there will ever be, fed of its bytes
   * have been taken so far, and n symbols have been decoded from them.
   */
  class LzmaStream {
    const dec: LzmaDec
    const tempBuf: array<Byte>
    var tempBufSize: nat
    var needFlush: bool
    var needInitState: bool
    ghost const whole: seq<Byte>
    ghost var fed: nat
    ghost var n: nat

    ghost predicate Shape()
      reads this
    {
      && PropsOk(dec.prop) && tempBuf != dec.dict.dic && tempBuf.Length == 20 && tempBufSize <= fed <= |whole| && tempBufSize <= 20
      && (!needFlush ==> |whole| >= 5 && whole[0] == 0)
    }

    /** The run so far. */
    ghost function Z(): (z: Lz)
      requires Shape() && !needFlush
      reads this
      ensures LzOk(dec.prop, z)
    {
      RunAt(dec.prop, whole, n)
    }

    /** The decoder before the first bytes of the stream have been read. */
    ghost predicate Fresh()
      requires Shape()
      reads this, dec, dec.dict, dec.dict.dic
    {
      && tempBufSize == fed <= 5 && n == 0 && needInitState && dec.remainLen == 0
      && dec.dict.Valid() && dec.dict.produced == [] && dec.processedPos == 0 && dec.checkDicSize == 0
    }

    /** The state of the coder, the last symbols, and the output. */
    ghost predicate Stands()
      requires Shape() && !needFlush
      reads this, dec, dec.rc, dec.rc.probs, dec.dict, dec.dict.dic
    {
      && Z().status in {Going, Ended} && Z().rc == Rc(dec.rc.range, dec.rc.code, fed - tempBufSize)
      && (if needInitState then n == 0 && dec.remainLen == 0 else dec.rc.probs[..] == Z().probs && dec.Remembers(Z()))
      && dec.Written(Z(), if dec.remainLen < SPEC_LEN_START then dec.remainLen else 0) && dec.Checked()
      && (if Z().status == Ended then dec.remainLen == SPEC_LEN_START else dec.remainLen < SPEC_LEN_START)
    }

    /** What is in the buffer: bytes that were taken, of a symbol that is not complete. */
    ghost predicate Buffered()
      requires Shape()
      reads this, dec, tempBuf
    {
      && tempBuf[..tempBufSize] == whole[fed - tempBufSize..fed]
      && (tempBufSize > 0 && !needFlush ==>
        tempBufSize < 20 && dec.remainLen == 0 && !needInitState && Z().status == Going
        && Read(dec.prop, whole[..fed], Z()).Short?)
    }

    ghost predicate Valid()
      reads this, tempBuf, dec, dec.rc, dec.rc.probs, dec.dict, dec.dict.dic
    {
      Shape() && Buffered() && dec.rc.probs.Length == NumProbs(dec.prop) && (if needFlush then Fresh() else Stands())
    }

    /** Construction and LzmaDec_Init. */
    constructor (prop: Props, dic: array<Byte>, ghost whole: seq<Byte>)
      requires PropsOk(prop)
      ensures Valid() && needFlush && fed == 0 && this.whole == whole && dec.prop == prop && dec.dict.dic == dic
      ensures fresh(dec) && fresh(dec.rc) && fresh(dec.rc.probs) && fresh(dec.dict) && fresh(tempBuf)
      ensures dec.dict.dicPos == 0 && dec.Offset() == 0
    {
      hide NumProbs, Stands, Dictionary.Valid, RunAt, Read, PropsOk, Buffered, Valid;
      var rc := new RangeDecoder(NumProbs(prop));
      var dict := new Dictionary(dic);
      dec := new LzmaDec(prop, rc, dict);
      tempBuf := new Byte[20];
      tempBufSize, needFlush, needInitState := 0, true, true;
      this.whole := whole;
      fed, n := 0, 0;
      new;
      BeginsValid();
    }

    lemma BeginsValid()
      requires PropsOk(dec.prop) && tempBuf != dec.dict.dic && tempBuf.Length == 20 && tempBufSize == fed == 0 && needFlush && Fresh()
      requires dec.rc.probs.Length == NumProbs(dec.prop)
      ensures Valid()
    {
      hide NumProbs, Stands, Fresh;
      assert tempBuf[..0] == whole[0..0];
    }

    /** LzmaDec_InitStateReal. */
    method InitStateReal()
      requires Valid() && !needFlush && needInitState
      modifies `needInitState, dec`reps, dec`state, dec.rc.probs
      ensures Valid() && !needFlush && !needInitState
    {
      hide NumProbs, Next, LzOk, LzmaDec.Written;
      var i := 0;
      while i < dec.rc.probs.Length
        invariant i <= dec.rc.probs.Length && forall j :: 0 <= j < i ==> dec.rc.probs[j] == 1024
        modifies dec.rc.probs
      {
        dec.rc.probs[i] := 1024;
        i := i + 1;
      }
      dec.reps := Reps(1, 1, 1, 1);
      dec.state := 0;
      needInitState := false;
    }

    /** The next bytes of the stream. */
    ghost predicate Comes(piece: seq<Byte>)
      reads `fed
    {
      fed + |piece| <= |whole| && whole[fed..fed + |piece|] == piece
    }

    lemma NextByte(piece: seq<Byte>, i: nat)
      requires Comes(piece) && i < |piece|
      ensures piece[i] == whole[fed + i]
    {
      assert piece[i] == whole[fed..fed + |piece|][i];
    }

    /** tempBuf[i] = x, which is the next byte of the stream from position start on. */
    method PutByte(i: nat, x: Byte, ghost start: nat)
      requires i < tempBuf.Length && start + i < |whole| && x == whole[start + i] && tempBuf[..i] == whole[start..start + i]
      modifies tempBuf
      ensures tempBuf[..i + 1] == whole[start..start + i + 1]
    {
      ghost var before := tempBuf[..i];
      tempBuf[i] := x;
      assert tempBuf[..i] == before && tempBuf[..i + 1] == tempBuf[..i] + [x];
      assert whole[start..start + i + 1] == whole[start..start + i] + [whole[start + i]];
    }

    /** Copies bytes of the piece to the end of what is in the buffer, until there are upTo or the piece ends. */
    method TakeBytes(piece: seq<Byte>, upTo: nat) returns (took: nat)
      requires tempBuf.Length == 20 && tempBufSize <= upTo <= 20 && tempBufSize <= fed && Comes(piece)
      requires tempBuf[..tempBufSize] == whole[fed - tempBufSize..fed]
      modifies tempBuf
      ensures took <= |piece| && tempBufSize + took <= upTo && (tempBufSize + took < upTo ==> took == |piece|)
      ensures tempBuf[..tempBufSize + took] == whole[fed - tempBufSize..fed + took]
    {
      took := 0;
      while took < |piece| && tempBufSize + took < upTo
        invariant took <= |piece| && tempBufSize + took <= upTo
        invariant tempBuf[..tempBufSize + took] == whole[fed - tempBufSize..fed + took]
      {
        NextByte(piece, took);
        PutByte(tempBufSize + took, piece[took], fed - tempBufSize);
        took := took + 1;
      }
    }

    /** Takes bytes into the buffer until there are five: the header. */
    method TakeHeader(src: seq<Byte>) returns (took: nat)
      requires Valid() && needFlush && Comes(src)
      modifies `tempBufSize, `fed, tempBuf
      ensures Valid() && took <= |src| && fed == old(fed) + took && (tempBufSize < 5 ==> took == |src|)
    {
      hide NumProbs, Stands, Dictionary.Valid, RunAt, Read, Steps;
      took := TakeBytes(src, 5);
      tempBufSize, fed := tempBufSize + took, fed + took;
    }

    /** LzmaDec_InitRc, from the header in the buffer. */
    method InitRc()
      requires Valid() && needFlush && tempBufSize == 5 && tempBuf[0] == 0
      modifies `needFlush, `tempBufSize, dec.rc`range, dec.rc`code
      ensures Valid() && !needFlush && tempBufSize == 0 && n == 0 && Z().status == Going && whole[0] == 0
    {
      hide NumProbs;
      var header := tempBuf[..5];
      assert header == whole[0..5];
      dec.rc.code := FirstCode(header);
      dec.rc.range := 0xFFFF_FFFF;
      needFlush, tempBufSize := false, 0;
    }

    /** What the caller does when the dictionary is full: goes on at its beginning, if it is as large as it must be. */
    method StartOver()
      requires Valid() && dec.dict.dicPos == dec.dict.dic.Length && dec.prop.dicSize <= dec.dict.dic.Length
      modifies dec.dict`dicPos
      ensures Valid() && dec.dict.dicPos == 0 && dec.Offset() == old(dec.Offset()) + dec.dict.dic.Length
    {
      hide NumProbs, RunAt, Read, LzmaDec.Counted, Dictionary.Valid;
      dec.dict.Rewind();
    }

    /** Able to decode the next symbol. */
    ghost predicate Able()
      reads this, dec, dec.rc, dec.rc.probs, dec.dict, dec.dict.dic
    {
      && Shape() && dec.rc.probs.Length == NumProbs(dec.prop) && !needFlush && Stands()
      && !needInitState && dec.remainLen == 0 && Z().status == Going
    }

    ghost predicate Decoding()
      reads this, tempBuf, dec, dec.rc, dec.rc.probs, dec.dict, dec.dict.dic
    {
      Able() && Buffered()
    }

    /** The input at hand: what is in the buffer, or the piece, up to the end of what is known of the stream. */
    lemma StandsHere(s: seq<Byte>, src: seq<Byte>)
      requires Able() && Here(s, src) && |s| - |src| == fed - tempBufSize
      ensures Shape() && StandsAt(dec, s, src, Z())
    {
      hide NumProbs, RunAt, Read, Dictionary.Valid, LzmaDec.Counted;
    }

    lemma ReadyHere(s: seq<Byte>, src: seq<Byte>)
      requires Able() && Here(s, src) && |s| - |src| == fed - tempBufSize && dec.rc.buf == 0
      ensures dec.Ready(s, src, Z())
    {
      hide NumProbs, RunAt, Read, Dictionary.Valid, LzmaDec.Counted;
    }

    /** The symbols from m on were all read and in order. */
    ghost predicate Began(m: nat, size: int, mode: FinishMode)
      requires Shape() && !needFlush
      reads this
    {
      AllTook(dec.prop, whole, size, mode, m, n)
    }

    /** The next symbol is to be read. */
    ghost predicate Wanting(limit: nat, mode: FinishMode)
      requires Shape() && !needFlush
      reads this, dec.dict
    {
      Wants(dec.prop, whole, limit + dec.Offset(), mode, n)
    }

    /** With f bytes of input, the symbols from m to k are in order, and then there is a fault. */
    ghost predicate Fails(m: nat, size: int, mode: FinishMode, f: nat, k: nat) {
      && PropsOk(dec.prop) && |whole| >= 5
      && AllTook(dec.prop, whole, size, mode, m, k) && WrongAt(dec.prop, whole, size, mode, f, k)
    }

    /** After symbols were decoded from src, the end of s: the new state, when nothing is left in the buffer. */
    method TakeOver(limit: nat, src: seq<Byte>, ghost s: seq<Byte>, ghost z: Lz, ghost n': nat)
      requires Shape() && !needFlush && !needInitState && dec.rc.probs.Length == NumProbs(dec.prop)
      requires s <= whole && z == RunAt(dec.prop, whole, n') && dec.Resting(s, src, z, limit)
      requires z.status == Ended ==> dec.remainLen == SPEC_LEN_START
      requires |src| <= |s| && dec.rc.buf <= |src|
      modifies `tempBufSize, `fed, `n
      ensures Valid() && !needFlush && !needInitState && tempBufSize == 0 && n == n'
      ensures fed == |s| - |src| + dec.rc.buf
    {
      hide NumProbs, RunAt, Read, Dictionary.Valid, LzmaDec.Counted;
      tempBufSize := 0;
      fed := |s| - |src| + dec.rc.buf;
      n := n';
      assert tempBuf[..0] == whole[fed..fed];
    }

    /** No symbols of a stretch. */
    lemma Stretched(size: int)
      requires Shape() && !needFlush
      ensures dec.Stretch(whole, Start(dec.prop, whole), n, n, Z(), size)
    {
      hide Steps;
    }

    lemma AtPosition(s: seq<Byte>, src: seq<Byte>)
      requires Able() && Here(s, src) && |s| - |src| == fed - tempBufSize
      ensures Z().rc.pos == |s| - |src| && |Z().out| == dec.dict.dicPos + dec.Offset()
    {
      hide NumProbs, RunAt, Read, Dictionary.Valid, LzmaDec.Counted;
    }

    /** What a stretch from m on says about its symbols: without room to begin with, it can only be the end mark. */
    lemma StretchTook(m: nat, n': nat, z: Lz, size: int, mode: FinishMode)
      requires Shape() && !needFlush && dec.Stretch(whole, Start(dec.prop, whole), m, n', z, size)
      requires Wants(dec.prop, whole, size, mode, m) && z.status in {Going, Ended}
      requires |RunAt(dec.prop, whole, m).out| >= size ==>
        n' == m || z.status == Ended || |z.out| < size
      ensures z == RunAt(dec.prop, whole, n') && AllTook(dec.prop, whole, size, mode, m, n')
      ensures |RunAt(dec.prop, whole, m).out| >= size && z.status == Going ==> n' == m
    {
      hide NumProbs, Steps, Start;
      if n' > m {
        OutputGrows(dec.prop, whole, m, n');
        OutputGrows(dec.prop, whole, m, m + 1);
      }
    }

    lemma RestingFacts(limit: nat, src: seq<Byte>, s: seq<Byte>, z: Lz)
      requires dec.Resting(s, src, z, limit) && z.rc.pos <= |s|
      ensures |src| <= |s| && dec.rc.buf <= |src| && dec.dict.dicPos <= limit && z.status in {Going, Ended}
      ensures 0 < dec.remainLen < SPEC_LEN_START ==> dec.dict.dicPos == limit
    {
      hide LzmaDec.Written;
    }

    /** LzmaDec_DecodeReal2 from the input at hand. */
    method DecodeFrom(limit: nat, src: seq<Byte>, bufLimit: nat, mode: FinishMode, ghost s: seq<Byte>)
      returns (r: SRes, ghost bad: nat)
      requires Able() && s <= whole && Here(s, src) && |s| - |src| == fed - tempBufSize && Wanting(limit, mode)
      requires dec.dict.dicPos <= limit <= dec.dict.dic.Length && Read(dec.prop, s, Z()).Finished?
      requires bufLimit == 0 || bufLimit + 20 <= |src|
      requires dec.dict.dicPos == limit ==> SymbolKind(Read(dec.prop, s, Z()).symbol) == MATCH
      modifies this, dec, dec.rc, dec.rc.probs, dec.dict, dec.dict.dic
      ensures r == SZ_OK ==> Valid() && !needFlush && !needInitState && tempBufSize == 0 && n > old(n)
      ensures r == SZ_OK ==> fed == |s| - |src| + dec.rc.buf && dec.rc.buf <= |src| && dec.Offset() == old(dec.Offset())
      ensures r == SZ_OK ==> dec.dict.dicPos <= limit && Began(old(n), limit + dec.Offset(), mode)
      ensures r == SZ_OK && Z().status == Going ==> dec.dict.dicPos > old(dec.dict.dicPos)
      ensures r == SZ_OK && 0 < dec.remainLen < SPEC_LEN_START ==> dec.dict.dicPos == limit
      ensures r == SZ_ERROR_DATA ==> Fails(old(n), limit + old(dec.Offset()), mode, |s|, bad)
    {
      hide NumProbs, RunAt, Read, Dictionary.Valid, LzmaDec.Counted, LzmaDec.Resting, LzmaDec.Ready, Steps, LzmaDec.Stretch,
        LzmaDec.Written, Wants, AllTook, LzmaDec.TurnFails, WrongAt;
      dec.rc.buf := 0;
      ReadyHere(s, src);
      ghost var z, z0 := Z(), Start(dec.prop, whole);
      ghost var size := limit + dec.Offset();
      Stretched(size);
      AtPosition(s, src);
      ghost var z', n';
      r, z', n' := dec.DecodeReal2(limit, src, bufLimit, s, z, whole, z0, n);
      bad := n';
      if r == SZ_OK {
        RestingFacts(limit, src, s, z');
        StretchTook(old(n), n', z', size, mode);
        TakeOver(limit, src, s, z', n');
      } else {
        FailsInRun(s, old(n), n', z', size, mode, old(dec.dict.dicPos) == limit);
      }
    }

    /** A symbol that makes no sense makes none in the whole stream. */
    lemma FailsInRun(s: seq<Byte>, m: nat, n': nat, z: Lz, size: int, mode: FinishMode, full: bool)
      requires Shape() && !needFlush && s <= whole && LzOk(dec.prop, z) && z.status == Going && z.rc.pos <= |s|
      requires dec.Stretch(whole, Start(dec.prop, whole), m, n', z, size) && Wants(dec.prop, whole, size, mode, m)
      requires n' > m ==> |z.out| < size
      requires full ==> |RunAt(dec.prop, whole, m).out| >= size
      requires dec.TurnFails(s, z, full)
      ensures Fails(m, size, mode, |s|, n')
    {
      hide NumProbs, Run, ContextOf, Start, Apply;
      StretchTook(m, n', z, size, mode);
      dec.SameNext(s, whole, z);
      assert RunAt(dec.prop, whole, n' + 1) == Next(dec.prop, whole, z);
      assert whole[..|s|] == s;
    }

    /** With 20 bytes at hand the next symbol is complete. */
    lemma TwentyAreEnough(s: seq<Byte>, src: seq<Byte>)
      requires Able() && Here(s, src) && |s| - |src| == fed - tempBufSize && |src| >= 20
      ensures Read(dec.prop, s, Z()).Finished?
    {
      hide NumProbs, RunAt, Run, Dictionary.Valid, ContextOf;
      AtPosition(s, src);
      TwentyBytes(ContextOf(dec.prop, Z()), Z().rc, Z().probs, s, true);
    }

    /** Whether the next symbol is complete in the input at hand, and of what kind it is. */
    method Ask(src: seq<Byte>, ghost s: seq<Byte>) returns (dummyRes: ELzmaDummy)
      requires Able() && Here(s, src) && |s| - |src| == fed - tempBufSize
      ensures dummyRes == DUMMY_ERROR <==> Read(dec.prop, s, Z()).Short?
      ensures dummyRes == DUMMY_ERROR ==> |src| < 20
      ensures dummyRes == DUMMY_MATCH <==>
        Read(dec.prop, s, Z()).Finished? && SymbolKind(Read(dec.prop, s, Z()).symbol) == MATCH
    {
      hide NumProbs, RunAt, Read, Valid;
      StandsHere(s, src);
      dummyRes := TryDummy(dec, src, s, Z());
      if |src| >= 20 {
        TwentyAreEnough(s, src);
      }
    }

    /** A symbol that is no match is no end mark, and a fault when there is no room. */
    lemma NoEndMark(s: seq<Byte>, size: int, mode: FinishMode)
      requires Able() && s <= whole && Z().rc.pos <= |s| && Wants(dec.prop, whole, size, mode, n)
      requires Read(dec.prop, s, Z()).Finished? && SymbolKind(Read(dec.prop, s, Z()).symbol) != MATCH && |Z().out| >= size
      ensures Fails(n, size, mode, |s|, n)
    {
      hide NumProbs, Run, ContextOf, Start, LzmaDec.Written;
      dec.SameNext(s, whole, Z());
      assert RunAt(dec.prop, whole, n + 1) == Next(dec.prop, whole, Z());
      assert whole[..|s|] == s;
    }

    /** A symbol that was not complete is kept in the buffer. */
    method Keep(piece: seq<Byte>)
      requires Decoding() && Comes(piece) && tempBufSize == 0 && |piece| < 20
      requires Read(dec.prop, whole[..fed + |piece|], Z()).Short?
      modifies `tempBufSize, `fed, tempBuf
      ensures Valid() && Decoding() && tempBufSize == |piece| && fed == old(fed) + |piece|
      ensures Read(dec.prop, whole[..fed], Z()).Short?
    {
      hide NumProbs, RunAt, Read, Dictionary.Valid, LzmaDec.Counted;
      assert tempBuf[..0] == whole[fed..fed];
      var took := TakeBytes(piece, 20);
      tempBufSize := |piece|;
      fed := fed + |piece|;
    }

    /** What decoding a symbol or more, or finding out that there is none, leaves behind. */
    twostate predicate Went(limit: nat, mode: FinishMode, done: bool, used: nat)
      reads this, tempBuf, dec, dec.rc, dec.rc.probs, dec.dict, dec.dict.dic
    {
      && Valid() && !needFlush && !needInitState && fed == old(fed) + used
      && dec.Offset() == old(dec.Offset()) && dec.dict.dicPos <= limit && n >= old(n)
      && Began(old(n), limit + dec.Offset(), mode)
      && (0 < dec.remainLen < SPEC_LEN_START ==> dec.dict.dicPos == limit)
      && (done ==>
        n == old(n) && Decoding() && dec.dict.dicPos == old(dec.dict.dicPos) && Read(dec.prop, whole[..fed], Z()).Short?)
      && (!done ==>
        tempBufSize == 0 && n > old(n) && (Z().status == Going ==> dec.dict.dicPos > old(dec.dict.dicPos)))
    }

    /** Decodes from a piece of input, with nothing in the buffer. */
    method FromPiece(limit: nat, piece: seq<Byte>, mode: FinishMode, checkEndMarkNow: bool)
      returns (done: bool, res: SRes, status: LzmaStatus, used: nat, ghost bad: nat)
      requires Decoding() && Comes(piece) && tempBufSize == 0 && Wanting(limit, mode)
      requires dec.dict.dicPos <= limit <= dec.dict.dic.Length && checkEndMarkNow == (dec.dict.dicPos == limit)
      modifies this, tempBuf, dec, dec.rc, dec.rc.probs, dec.dict, dec.dict.dic
      ensures res == SZ_OK ==> Went(limit, mode, done, used) && used <= |piece|
      ensures res == SZ_OK && done ==> status == LZMA_STATUS_NEEDS_MORE_INPUT && used == |piece|
      ensures res == SZ_ERROR_DATA ==> done && Fails(old(n), limit + old(dec.Offset()), mode, old(fed) + |piece|, bad)
    {
      hide NumProbs, RunAt, Read, Valid;
      done, res, status, used, bad := true, SZ_OK, LZMA_STATUS_NOT_SPECIFIED, 0, 0;
      ghost var s := whole[..fed + |piece|];
      assert Here(s, piece);
      var bufLimit := 0;
      if |piece| < 20 || checkEndMarkNow {
        var dummyRes := Ask(piece, s);
        if dummyRes == DUMMY_ERROR {
          Keep(piece);
          return true, SZ_OK, LZMA_STATUS_NEEDS_MORE_INPUT, |piece|, bad;
        }
        if checkEndMarkNow && dummyRes != DUMMY_MATCH {
          AtPosition(s, piece);
          NoEndMark(s, limit + dec.Offset(), mode);
          return true, SZ_ERROR_DATA, LZMA_STATUS_NOT_FINISHED, 0, n;
        }
      } else {
        TwentyAreEnough(s, piece);
        bufLimit := |piece| - 20;
      }
      var r;
      r, bad := DecodeFrom(limit, piece, bufLimit, mode, s);
      if r != SZ_OK {
        return true, SZ_ERROR_DATA, status, 0, bad;
      }
      return false, SZ_OK, status, dec.rc.buf, bad;
    }

    /** Fills the buffer up to 20 bytes from the piece. */
    method FillUp(piece: seq<Byte>) returns (rem: nat, lookAhead: nat)
      requires Decoding() && Comes(piece) && tempBufSize > 0
      modifies `tempBufSize, `fed, tempBuf
      ensures lookAhead <= |piece| && rem == old(tempBufSize) + lookAhead <= 20 && (rem < 20 ==> lookAhead == |piece|)
      ensures rem == tempBufSize && fed == old(fed) + lookAhead && tempBuf[..rem] == whole[fed - rem..fed]
      ensures Able() && fed - tempBufSize == old(fed - tempBufSize)
    {
      hide NumProbs, RunAt, Read, Dictionary.Valid, LzmaDec.Counted;
      lookAhead := TakeBytes(piece, 20);
      rem := tempBufSize + lookAhead;
      tempBufSize := rem;
      fed := fed + lookAhead;
    }

    /**
     * Decodes the symbol in the buffer, with more bytes from the piece. What is not used of these is given back:
     * never more than there was of them.
     */
    method FromBuffer(limit: nat, piece: seq<Byte>, mode: FinishMode, checkEndMarkNow: bool)
      returns (done: bool, res: SRes, status: LzmaStatus, used: nat, ghost bad: nat)
      requires Decoding() && Comes(piece) && tempBufSize > 0 && Wanting(limit, mode)
      requires dec.dict.dicPos <= limit <= dec.dict.dic.Length && checkEndMarkNow == (dec.dict.dicPos == limit)
      modifies this, tempBuf, dec, dec.rc, dec.rc.probs, dec.dict, dec.dict.dic
      ensures res == SZ_OK ==> Went(limit, mode, done, used) && used <= |piece|
      ensures res == SZ_OK && done ==> status == LZMA_STATUS_NEEDS_MORE_INPUT && used == |piece|
      ensures res == SZ_ERROR_DATA ==> done && Fails(old(n), limit + old(dec.Offset()), mode, old(fed) + |piece|, bad)
    {
      hide NumProbs, RunAt, Read;
      done, res, status, used, bad := true, SZ_OK, LZMA_STATUS_NOT_SPECIFIED, 0, 0;
      ghost var z, f := Z(), fed + |piece|;
      var rem, lookAhead := FillUp(piece);
      var src := tempBuf[..rem];
      ghost var s := whole[..fed];
      assert Here(s, src);
      if rem < 20 || checkEndMarkNow {
        var dummyRes := Ask(src, s);
        if dummyRes == DUMMY_ERROR {
          assert Z() == z;
          return true, SZ_OK, LZMA_STATUS_NEEDS_MORE_INPUT, lookAhead, bad;
        }
        if checkEndMarkNow && dummyRes != DUMMY_MATCH {
          AtPosition(s, src);
          NoEndMark(s, limit + dec.Offset(), mode);
          WrongWithMore(dec.prop, whole, limit + dec.Offset(), mode, |s|, f, n);
          return true, SZ_ERROR_DATA, LZMA_STATUS_NOT_FINISHED, 0, n;
        }
      } else {
        TwentyAreEnough(s, src);
      }
      var r;
      r, bad := DecodeFrom(limit, src, 0, mode, s);
      if r != SZ_OK {
        WrongWithMore(dec.prop, whole, limit + old(dec.Offset()), mode, |s|, f, bad);
        return true, SZ_ERROR_DATA, status, 0, bad;
      }
      EndsBeyond(dec.prop, whole, old(fed), |s|, old(n), n);
      lookAhead := lookAhead - (rem - dec.rc.buf);
      return false, SZ_OK, status, lookAhead, bad;
    }

    /** The LzmaDec_WriteRem that every call begins with. Before the stream has begun there is nothing to write. */
    method WriteRest(limit: nat)
      requires Valid() && dec.dict.dicPos <= limit <= dec.dict.dic.Length
      modifies dec`processedPos, dec`checkDicSize, dec`remainLen, dec.dict, dec.dict.dic
      ensures Valid() && dec.dict.dicPos <= limit && dec.Offset() == old(dec.Offset())
      ensures 0 < dec.remainLen < SPEC_LEN_START ==> dec.dict.dicPos == limit
      ensures dec.remainLen == SPEC_LEN_START <==> !needFlush && Z().status == Ended
    {
      hide NumProbs, RunAt, Read, Dictionary.Valid, LzmaDec.Counted, LzmaDec.Written;
      if !needFlush {
        dec.WriteRem(limit, Z());
      }
    }

    /** Where a call stands: what it has taken of the input, and what the symbols since have come to. */
    twostate predicate OnTheWay(limit: nat, srcLen: nat, mode: FinishMode)
      reads this, tempBuf, dec, dec.rc, dec.rc.probs, dec.dict, dec.dict.dic
    {
      && Valid() && fed == old(fed) + srcLen && dec.Offset() == old(dec.Offset()) && dec.dict.dicPos <= limit
      && old(n) <= n && (0 < dec.remainLen < SPEC_LEN_START ==> dec.dict.dicPos == limit)
      && (dec.remainLen == SPEC_LEN_START <==> !needFlush && Z().status == Ended)
      && (!needFlush ==> Began(old(n), limit + dec.Offset(), mode))
      && (needFlush ==> old(needFlush))
    }

    /** Why a call comes back without an error. */
    ghost predicate Stops(limit: nat, status: LzmaStatus, mode: FinishMode)
      requires Shape()
      reads this, tempBuf, dec, dec.rc, dec.rc.probs, dec.dict, dec.dict.dic
    {
      match status
      case LZMA_STATUS_NEEDS_MORE_INPUT =>
        if needFlush then fed < 5 else Able() && Wanting(limit, mode) && Read(dec.prop, whole[..fed], Z()).Short?
      case LZMA_STATUS_NOT_FINISHED =>
        mode == LZMA_FINISH_ANY && !needFlush && Z().status == Going && dec.dict.dicPos == limit && !(dec.remainLen == 0 && dec.rc.code == 0)
      case LZMA_STATUS_MAYBE_FINISHED_WITHOUT_MARK =>
        !needFlush && Z().status == Going && dec.dict.dicPos == limit && dec.remainLen == 0 && dec.rc.code == 0
      case LZMA_STATUS_FINISHED_WITH_MARK => !needFlush && Z().status == Ended && dec.rc.code == 0
      case LZMA_STATUS_NOT_SPECIFIED => false
    }

    /** The header, when it has not been read yet. */
    method Begin(piece: seq<Byte>) returns (done: bool, res: SRes, used: nat)
      requires Valid() && Comes(piece)
      modifies `needFlush, `tempBufSize, `fed, tempBuf, dec.rc`range, dec.rc`code
      ensures used <= |piece| && fed == old(fed) + used
      ensures old(!needFlush) ==> !done && used == 0 && tempBufSize == old(tempBufSize)
      ensures res == SZ_OK ==> Valid() && (if done then needFlush && used == |piece| else !needFlush)
      ensures !done ==> res == SZ_OK && (old(needFlush) ==> tempBufSize == 0 && Z().status == Going)
      ensures res == SZ_OK && old(!needFlush) ==> Z() == old(Z())
      ensures res == SZ_OK && done ==> fed < 5
      ensures res == SZ_ERROR_DATA ==> PropsOk(dec.prop) && n == 0 && 5 == fed <= |whole| && whole[0] != 0
    {
      hide NumProbs, RunAt, Read, Dictionary.Valid, LzmaDec.Counted, LzmaDec.Written, Stands, Fresh, Buffered;
      done, res, used := false, SZ_OK, 0;
      if needFlush {
        used := TakeHeader(piece);
        if tempBufSize < 5 {
          HeaderShort();
          return true, SZ_OK, used;
        }
        HeaderFull();
        if tempBuf[0] != 0 {
          return true, SZ_ERROR_DATA, used;
        }
        InitRc();
      }
    }

    lemma HeaderShort()
      requires Valid() && needFlush && tempBufSize < 5
      ensures fed < 5
    {
      hide NumProbs, Dictionary.Valid;
    }

    lemma HeaderFull()
      requires Valid() && needFlush && tempBufSize >= 5
      ensures tempBufSize == 5 && tempBuf.Length == 20 && |whole| >= 5 && tempBuf[0] == whole[0]
      ensures PropsOk(dec.prop) && n == 0 && fed == 5
    {
      hide NumProbs, Dictionary.Valid;
      assert tempBuf[0] == tempBuf[..tempBufSize][0];
    }

    /** What a call does when there is no room for output: whether it comes back, or looks for the end mark. */
    method CheckLimit(limit: nat, mode: FinishMode) returns (done: bool, res: SRes, status: LzmaStatus)
      requires Valid() && !needFlush && Z().status == Going && dec.dict.dicPos == limit
      ensures res == SZ_OK && done ==> Stops(limit, status, mode) && status != LZMA_STATUS_NEEDS_MORE_INPUT
      ensures !done ==> res == SZ_OK
      ensures !done <==> mode == LZMA_FINISH_END && dec.remainLen == 0 && dec.rc.code != 0
      ensures res == SZ_ERROR_DATA <==> mode == LZMA_FINISH_END && dec.remainLen != 0
    {
      hide NumProbs, RunAt, Stands, Buffered;
      done, res, status := true, SZ_OK, LZMA_STATUS_NOT_SPECIFIED;
      if dec.remainLen == 0 && dec.rc.code == 0 {
        status := LZMA_STATUS_MAYBE_FINISHED_WITHOUT_MARK;
      } else if mode == LZMA_FINISH_ANY {
        status := LZMA_STATUS_NOT_FINISHED;
      } else if dec.remainLen != 0 {
        status, res := LZMA_STATUS_NOT_FINISHED, SZ_ERROR_DATA;
      } else {
        done := false;
      }
    }

    lemma StatusFacts()
      requires Valid() && !needFlush
      ensures Z().status in {Going, Ended} && (dec.remainLen == SPEC_LEN_START <==> Z().status == Ended)
      ensures !needInitState && dec.remainLen == 0 ==> Decoding()
    {
      hide NumProbs, RunAt, Buffered, LzmaDec.Written;
    }

    lemma NothingLeft()
      requires Valid() && needFlush
      ensures dec.remainLen == 0 && needInitState
    {
      hide NumProbs, Buffered, Dictionary.Valid;
    }

    /** Something is wrong with the stream, in what there is of it and in what is asked for: with symbol k at first. */
    ghost predicate Faulty(m: nat, size: int, mode: FinishMode, f: nat, k: nat) {
      if |whole| >= 5 && whole[0] != 0 then PropsOk(dec.prop) && 5 <= f <= |whole| && m == k == 0
      else Fails(m, size, mode, f, k)
    }

    /** What is written and what is missing of a copy is the output. Without room and at a fault, or not. */
    lemma RoomTaken(limit: nat)
      requires Valid() && !needFlush && Z().status == Going && dec.dict.dicPos <= limit
      requires dec.remainLen > 0 ==> dec.dict.dicPos == limit
      ensures |Z().out| == dec.dict.dicPos + dec.Offset() + dec.remainLen && Z().rc.code == dec.rc.code && Z().rc.pos <= fed
      ensures dec.remainLen == 0 && (dec.dict.dicPos < limit || dec.rc.code != 0) ==> Wanting(limit, LZMA_FINISH_END)
      ensures dec.remainLen == 0 && dec.dict.dicPos < limit ==> Wanting(limit, LZMA_FINISH_ANY)
      ensures dec.remainLen > 0 ==> Fails(n, limit + dec.Offset(), LZMA_FINISH_END, fed, n)
    {
      hide NumProbs, RunAt, Buffered, Dictionary.Valid, Read;
    }

    /** More input, and the symbols before. */
    lemma FailsFrom(m: nat, m': nat, size: int, mode: FinishMode, f: nat, f': nat, k: nat)
      requires Fails(m', size, mode, f, k) && f <= f' <= |whole| && AllTook(dec.prop, whole, size, mode, m, m')
      ensures Fails(m, size, mode, f', k)
    {
      hide RunAt, Took, WrongAt;
      WrongWithMore(dec.prop, whole, size, mode, f, f', k);
    }

    /** The decoding part of a turn: from the buffer if there is something in it. */
    method DecodePart(limit: nat, piece: seq<Byte>, mode: FinishMode, checkEndMarkNow: bool)
      returns (done: bool, res: SRes, status: LzmaStatus, used: nat, ghost bad: nat)
      requires Valid() && !needFlush && Z().status == Going && dec.remainLen == 0 && Comes(piece) && Wanting(limit, mode)
      requires dec.dict.dicPos <= limit <= dec.dict.dic.Length && checkEndMarkNow == (dec.dict.dicPos == limit)
      modifies this, tempBuf, dec, dec.rc, dec.rc.probs, dec.dict, dec.dict.dic
      ensures res == SZ_OK ==> Went(limit, mode, done, used) && used <= |piece|
      ensures res == SZ_OK && done ==> status == LZMA_STATUS_NEEDS_MORE_INPUT && used == |piece|
      ensures res == SZ_ERROR_DATA ==> done && Fails(old(n), limit + old(dec.Offset()), mode, old(fed) + |piece|, bad)
    {
      hide NumProbs, RunAt, Stands, Fresh, Buffered, LzmaDec.Counted, Read, Wants, AllTook, WrongAt;
      if needInitState {
        InitStateReal();
      }
      StatusFacts();
      if tempBufSize == 0 {
        done, res, status, used, bad := FromPiece(limit, piece, mode, checkEndMarkNow);
      } else {
        done, res, status, used, bad := FromBuffer(limit, piece, mode, checkEndMarkNow);
      }
    }

    /** One turn of the loop of LzmaDec_DecodeToDic. */
    method LoopTurn(limit: nat, piece: seq<Byte>, mode: FinishMode)
      returns (done: bool, res: SRes, status: LzmaStatus, used: nat, ghost bad: nat)
      requires Valid() && Comes(piece) && dec.remainLen < SPEC_LEN_START && dec.dict.dicPos <= limit <= dec.dict.dic.Length
      requires 0 < dec.remainLen ==> dec.dict.dicPos == limit
      modifies this, tempBuf, dec, dec.rc, dec.rc.probs, dec.dict, dec.dict.dic
      ensures used <= |piece| && (res == SZ_OK ==> OnTheWay(limit, used, mode))
      ensures res == SZ_OK && done ==> Stops(limit, status, mode) && (status == LZMA_STATUS_NEEDS_MORE_INPUT ==> used == |piece|)
      ensures !done ==> res == SZ_OK && !needFlush && tempBufSize == 0
      ensures res == SZ_OK && done && status != LZMA_STATUS_NEEDS_MORE_INPUT ==>
        n == old(n) && tempBufSize == if old(needFlush) then 0 else old(tempBufSize)
      ensures !done && Z().status == Going ==> dec.dict.dicPos > old(dec.dict.dicPos)
      ensures res == SZ_ERROR_DATA ==> Faulty(old(n), limit + old(dec.Offset()), mode, old(fed) + |piece|, bad)
    {
      hide NumProbs, RunAt, Stands, Fresh, Buffered, LzmaDec.Counted, Read, Wants, Took, WrongAt;
      done, res, status, used, bad := true, SZ_OK, LZMA_STATUS_NOT_SPECIFIED, 0, 0;
      ghost var f := fed + |piece|;
      done, res, used := Begin(piece);
      if done {
        if res == SZ_OK {
          status := LZMA_STATUS_NEEDS_MORE_INPUT;
          NothingLeft();
        }
        return;
      }
      StatusFacts();
      RoomTaken(limit);
      var checkEndMarkNow := false;
      if dec.dict.dicPos >= limit {
        done, res, status := CheckLimit(limit, mode);
        if done {
          if res != SZ_OK {
            FailsFrom(n, n, limit + dec.Offset(), mode, fed, f, n);
          }
          bad := n;
          return;
        }
        checkEndMarkNow := true;
      }
      var more;
      done, res, status, more, bad := DecodePart(limit, piece[used..], mode, checkEndMarkNow);
      if res == SZ_OK {
        StatusFacts();
        used := used + more;
      }
    }

    /**
     * LzmaDec_DecodeToDic: decodes until there is no room, no input, or no more stream. srcLen is how much of the
     * input was taken.
     */
    method DecodeToDic(limit: nat, src: seq<Byte>, mode: FinishMode)
      returns (res: SRes, srcLen: nat, status: LzmaStatus, ghost bad: nat)
      requires Valid() && Comes(src) && dec.dict.dicPos <= limit <= dec.dict.dic.Length
      modifies this, tempBuf, dec, dec.rc, dec.rc.probs, dec.dict, dec.dict.dic
      ensures srcLen <= |src|
      ensures res == SZ_OK ==> OnTheWay(limit, srcLen, mode) && Stops(limit, status, mode)
      ensures res == SZ_OK && status == LZMA_STATUS_NEEDS_MORE_INPUT ==> srcLen == |src|
      ensures res == SZ_OK && status != LZMA_STATUS_NEEDS_MORE_INPUT ==>
        tempBufSize == 0 || (n == old(n) && !old(needFlush) && tempBufSize == old(tempBufSize))
      ensures res == SZ_ERROR_DATA ==> Faulty(old(n), limit + old(dec.Offset()), mode, old(fed) + |src|, bad)
    {
      hide NumProbs, RunAt, Stands, Fresh, Buffered, LzmaDec.Counted, Read, Dictionary.Valid, Wants, Took, WrongAt;
      res, srcLen, status, bad := SZ_OK, 0, LZMA_STATUS_NOT_SPECIFIED, 0;
      WriteRest(limit);
      while dec.remainLen != SPEC_LEN_START
        invariant res == SZ_OK && srcLen <= |src| && OnTheWay(limit, srcLen, mode)
        invariant dec.dict.dicPos <= limit <= dec.dict.dic.Length && (needFlush ==> n == old(n))
        invariant (n == old(n) && needFlush == old(needFlush) && tempBufSize == old(tempBufSize)) || (!needFlush && tempBufSize == 0)
        decreases if dec.remainLen == SPEC_LEN_START then 0 else 1, limit - dec.dict.dicPos
      {
        LengthFacts();
        assert Comes(src[srcLen..]) by {
          Further(src, srcLen, old(fed));
        }
        var done, used;
        ghost var m, f := n, fed;
        done, res, status, used, bad := LoopTurn(limit, src[srcLen..], mode);
        srcLen := srcLen + used;
        if done {
          return;
        }
        StatusFacts();
      }
      Ends(limit, mode);
      if dec.rc.code != 0 {
        FailsFrom(old(n), n, limit + dec.Offset(), mode, fed, old(fed) + |src|, n);
        return SZ_ERROR_DATA, srcLen, status, n;
      }
      status := LZMA_STATUS_FINISHED_WITH_MARK;
    }

    lemma LengthFacts()
      requires Valid()
      ensures dec.remainLen <= SPEC_LEN_START
      ensures needFlush ==> dec.remainLen == 0
    {
      hide NumProbs, RunAt, Buffered, Dictionary.Valid, LzmaDec.Written;
    }

    lemma Further(src: seq<Byte>, i: nat, from: nat)
      requires i <= |src| && from + |src| <= |whole| && whole[from..from + |src|] == src && fed == from + i
      ensures Comes(src[i..])
    {
    }

    lemma Ends(limit: nat, mode: FinishMode)
      requires Valid() && dec.remainLen == SPEC_LEN_START
      ensures PropsOk(dec.prop) && !needFlush && Z().status == Ended && |whole| >= 5 && Z().rc.code == dec.rc.code
      ensures dec.rc.code != 0 ==> Fails(n, limit + dec.Offset(), mode, fed, n)
    {
      hide NumProbs, RunAt, Buffered, Dictionary.Valid, LzmaDec.Written;
    }
  }
}
