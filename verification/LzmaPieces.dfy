/** An LZMA stream decodes to the same, however its input is cut into pieces (lzmadec.c). */
module LzmaPieces {

  import opened Lz77
  import opened LzmaCoder
  import opened LzmaGrammar
  import opened LzmaSymbol
  import opened LzmaState
  import opened LzmaReader
  import opened LzmaDictionary
  import opened LzmaDecoder
  import opened LzmaDummy
  import opened LzmaRun
  import opened LzmaStream
  import opened LzmaMeaning
  import opened Pieces

  /** As much of the output as there is room for. */
  ghost function Fitting(out: seq<Byte>, size: int): seq<Byte> {
    if 0 <= size < |out| then out[..size] else out
  }

  /**
   * Where decoding has come to with f bytes of input, and room for size bytes of output in all: the symbols decoded,
   * the contents of the dictionary, and the bytes of input accounted for are all those that f and size determine.
   */
  ghost predicate CameTo(d: LzmaStream, size: int, mode: FinishMode, f: nat)
    requires d.Shape() && !d.needFlush
    reads d, d.dec, d.dec.dict
  {
    && Reached(d.dec.prop, d.whole, size, mode, f, d.n)
    && d.dec.dict.produced == Fitting(d.Z().out, size)
    && d.fed == if Wants(d.dec.prop, d.whole, size, mode, d.n) then f else d.Z().rc.pos
  }

  /**
   * What decoding the first f bytes of the stream, in calls that returned res in the end, has come to: it is still in
   * the header, or has come to rest, or has met a fault after bad symbols.
   */
  ghost predicate Outcome(d: LzmaStream, res: SRes, size: int, mode: FinishMode, f: nat, bad: nat)
    reads d, d.tempBuf, d.dec, d.dec.rc, d.dec.rc.probs, d.dec.dict, d.dec.dict.dic
  {
    if res == SZ_OK then d.Valid() && d.needFlush == (f < 5) && if f < 5 then d.fed == f else CameTo(d, size, mode, f)
    else PropsOk(d.dec.prop) && |d.whole| >= 5 && AtFault(d.dec.prop, d.whole, size, mode, f, bad)
  }

  /**
   * Two ways of decoding the same bytes into the same room come to the same: both fail, after the same symbol, or
   * neither does, and then the symbols decoded, the output and the bytes accounted for are the same.
   */
  lemma CutsDoNotMatter(d: LzmaStream, res: SRes, bad: nat, e: LzmaStream, res': SRes, bad': nat, size: int, mode: FinishMode, f: nat)
    requires d.whole == e.whole && d.dec.prop == e.dec.prop
    requires Outcome(d, res, size, mode, f, bad) && Outcome(e, res', size, mode, f, bad')
    ensures res == res' && (res == SZ_ERROR_DATA ==> bad == bad')
    ensures res == SZ_OK ==> d.n == e.n && d.fed == e.fed && (f >= 5 ==> d.dec.dict.produced == e.dec.dict.produced)
  {
    hide RunAt, Reached, AtFault, NumProbs, Read, Dictionary.Valid, LzmaDec.Counted, LzmaStream.Stands, LzmaStream.Fresh;
    if f < 5 {
      FewBytes(d, res, bad, size, mode, f);
      FewBytes(e, res', bad', size, mode, f);
    } else {
      var n, m := if res == SZ_OK then d.n else bad, if res' == SZ_OK then e.n else bad';
      OneVerdict(d.dec.prop, d.whole, size, mode, f, n, m);
    }
  }

  /** Nothing is decoded of less than a header. */
  lemma FewBytes(d: LzmaStream, res: SRes, bad: nat, size: int, mode: FinishMode, f: nat)
    requires Outcome(d, res, size, mode, f, bad) && f < 5
    ensures res == SZ_OK && d.n == 0 && d.fed == f
  {
    hide Run, ContextOf, NumProbs, Dictionary.Valid, Read;
    if res == SZ_ERROR_DATA {
      PositionGrows(d.dec.prop, d.whole, 0, bad);
    } else {
      HeaderOnly(d);
    }
  }

  /** Why a call came back tells where decoding has come to. */
  lemma StopsAt(d: LzmaStream, limit: nat, status: LzmaStatus, mode: FinishMode, f: nat)
    requires d.Valid() && !d.needFlush && d.Stops(limit, status, mode) && d.Began(0, limit + d.dec.Offset(), mode)
    requires d.fed <= f <= |d.whole|
    requires d.dec.dict.dicPos <= limit && (0 < d.dec.remainLen < SPEC_LEN_START ==> d.dec.dict.dicPos == limit)
    requires if status == LZMA_STATUS_NEEDS_MORE_INPUT then d.fed == f else d.tempBufSize == 0
    ensures CameTo(d, limit + d.dec.Offset(), mode, f)
  {
    hide RunAt, Read, NumProbs, Dictionary.Valid, LzmaDec.Counted, Took;
  }

  /** Between two pieces: all the input so far has been taken, and the next symbol is wanted. */
  ghost predicate Between(d: LzmaStream, limit: nat, mode: FinishMode, f: nat)
    reads d, d.tempBuf, d.dec, d.dec.rc, d.dec.rc.probs, d.dec.dict, d.dec.dict.dic
  {
    && d.Valid() && d.fed == f
    && if d.needFlush then d.n == 0 && d.tempBufSize == f < 5
       else d.Began(0, limit + d.dec.Offset(), mode) && d.Stops(limit, LZMA_STATUS_NEEDS_MORE_INPUT, mode)
  }

  lemma Starved(d: LzmaStream, limit: nat, mode: FinishMode, f: nat)
    requires Between(d, limit, mode, f) && d.dec.dict.dicPos <= limit
    ensures Outcome(d, SZ_OK, limit + d.dec.Offset(), mode, f, 0)
  {
    hide RunAt, Read, NumProbs, Dictionary.Valid, LzmaDec.Counted, CameTo;
    if !d.needFlush {
      StopsAt(d, limit, LZMA_STATUS_NEEDS_MORE_INPUT, mode, f);
      AfterHeader(d);
    }
  }

  /** Decoding begins with the header. */
  lemma AfterHeader(d: LzmaStream)
    requires d.Valid() && !d.needFlush
    ensures d.fed >= 5
  {
    hide Run, ContextOf, NumProbs, Dictionary.Valid, Read;
    PositionGrows(d.dec.prop, d.whole, 0, d.n);
  }

  lemma HeaderOnly(d: LzmaStream)
    requires d.Valid() && d.needFlush
    ensures d.n == 0 && d.tempBufSize == d.fed
  {
    hide NumProbs, Dictionary.Valid;
  }

  /** A call that needs no more input has come to where no symbol is wanted. */
  lemma WantsNoMore(d: LzmaStream, limit: nat, status: LzmaStatus, mode: FinishMode)
    requires d.Valid() && d.Stops(limit, status, mode) && status != LZMA_STATUS_NEEDS_MORE_INPUT
    ensures !d.needFlush && !d.Wanting(limit, mode)
  {
    hide NumProbs, RunAt, Dictionary.Valid, Read, LzmaDec.Counted;
  }

  /** One call. total is how much input there will be in all. */
  method Feed(d: LzmaStream, limit: nat, piece: seq<Byte>, mode: FinishMode, ghost total: nat)
    returns (res: SRes, srcLen: nat, status: LzmaStatus, ghost bad: nat)
    requires Between(d, limit, mode, d.fed) && d.Comes(piece) && d.fed + |piece| <= total <= |d.whole|
    requires d.dec.dict.dicPos <= limit <= d.dec.dict.dic.Length
    modifies d, d.tempBuf, d.dec, d.dec.rc, d.dec.rc.probs, d.dec.dict, d.dec.dict.dic
    ensures srcLen <= |piece|
    ensures res == SZ_OK ==> d.dec.dict.dicPos <= limit && d.dec.Offset() == old(d.dec.Offset())
    ensures res == SZ_OK && status == LZMA_STATUS_NEEDS_MORE_INPUT ==> Between(d, limit, mode, old(d.fed) + |piece|)
    ensures res == SZ_OK && status != LZMA_STATUS_NEEDS_MORE_INPUT ==> d.Valid() && !d.needFlush && !d.Wanting(limit, mode)
    ensures res != SZ_OK || status != LZMA_STATUS_NEEDS_MORE_INPUT ==>
      Outcome(d, res, limit + old(d.dec.Offset()), mode, total, bad)
  {
    hide RunAt, Read, NumProbs, Dictionary.Valid, LzmaStream.Valid, LzmaStream.Able, CameTo, Wants, Took, WrongAt;
    ghost var n0, f := d.n, d.fed + |piece|;
    ghost var begun := !d.needFlush;
    res, srcLen, status, bad := d.DecodeToDic(limit, piece, mode);
    if res != SZ_OK {
      FaultFromStart(d, n0, limit + old(d.dec.Offset()), mode, f, total, bad);
    } else if status != LZMA_STATUS_NEEDS_MORE_INPUT {
      WantsNoMore(d, limit, status, mode);
      assert begun ==> d.n != n0;
      StopsAt(d, limit, status, mode, total);
      AfterHeader(d);
    } else if d.needFlush {
      HeaderOnly(d);
    }
  }

  /** A fault of a call, after calls without one. */
  lemma FaultFromStart(d: LzmaStream, m: nat, size: int, mode: FinishMode, f: nat, total: nat, bad: nat)
    requires d.Faulty(m, size, mode, f, bad) && f <= total <= |d.whole|
    requires PropsOk(d.dec.prop) && |d.whole| >= 5 && AllTook(d.dec.prop, d.whole, size, mode, 0, m)
    ensures AtFault(d.dec.prop, d.whole, size, mode, total, bad)
  {
    hide RunAt, Took, WrongAt;
    if d.whole[0] == 0 {
      WrongWithMore(d.dec.prop, d.whole, size, mode, f, total, bad);
    }
  }

  /**
   * Decodes a stream that comes in pieces, one call for each until a call says that it needs no more. What it comes to
   * depends on the bytes of all the pieces and on the room for output, also whether it fails.
   */
  method DecodePieces(d: LzmaStream, limit: nat, pieces: seq<seq<Byte>>, mode: FinishMode) returns (res: SRes, ghost bad: nat)
    requires d.Valid() && d.needFlush && d.fed == 0 && Flat(pieces) <= d.whole
    requires d.dec.dict.dicPos <= limit <= d.dec.dict.dic.Length
    modifies d, d.tempBuf, d.dec, d.dec.rc, d.dec.rc.probs, d.dec.dict, d.dec.dict.dic
    ensures res == SZ_OK ==> d.dec.dict.dicPos <= limit && d.dec.Offset() == old(d.dec.Offset())
    ensures Outcome(d, res, limit + old(d.dec.Offset()), mode, |Flat(pieces)|, bad)
  {
    hide NumProbs, RunAt, Read, Dictionary.Valid, LzmaStream.Valid, LzmaStream.Able, CameTo, Outcome, Wants;
    HeaderOnly(d);
    res, bad := SZ_OK, 0;
    var i := 0;
    while i < |pieces|
      invariant res == SZ_OK && i <= |pieces| && Between(d, limit, mode, |Flat(pieces[..i])|)
      invariant d.dec.dict.dicPos <= limit <= d.dec.dict.dic.Length && d.dec.Offset() == old(d.dec.Offset())
    {
      FlatPrefix(pieces, i);
      NextPiece(d, Flat(pieces[..i]), pieces[i]);
      var srcLen, status;
      res, srcLen, status, bad := Feed(d, limit, pieces[i], mode, |Flat(pieces)|);
      i := i + 1;
      if res != SZ_OK || status != LZMA_STATUS_NEEDS_MORE_INPUT {
        return;
      }
    }
    assert pieces[..i] == pieces;
    Starved(d, limit, mode, |Flat(pieces)|);
    bad := 0;
  }

  lemma NextPiece(d: LzmaStream, before: seq<Byte>, piece: seq<Byte>)
    requires before + piece <= d.whole && d.fed == |before|
    ensures d.Comes(piece)
  {
  }

  /** In every state that a decoder can be in, the last four distances lead to bytes of the output. */
  lemma DistancesInOutput(d: LzmaStream, k: nat)
    requires d.Valid() && !d.needFlush && !d.needInitState && k < 4 && d.dec.dict.produced != []
    ensures 1 <= Rep(d.dec.reps, k) <= |d.Z().out| && Rep(d.dec.reps, k) <= d.dec.prop.dicSize
    ensures Rep(d.dec.reps, k) <= |d.dec.dict.produced| + d.dec.remainLen
  {
    hide NumProbs, RunAt, Dictionary.Valid, LzmaDec.Counted, Read;
  }

  /** What is in the dictionary before dicPos, when it was never started over. */
  lemma DictionaryHolds(dict: Dictionary)
    requires dict.Valid() && dict.dicPos == |dict.produced|
    ensures dict.dic[..dict.dicPos] == dict.produced
  {
    forall i | 0 <= i < dict.dicPos
      ensures dict.dic[i] == dict.produced[i]
    {
      assert Back(dict.dicPos, dict.dicPos - i, dict.dic.Length) == i;
    }
  }

  datatype PropsResult = GoodProps(props: Props) | Unsupported

  /** LzmaProps_Decode. */
  function DecodeProps(data: seq<Byte>): (r: PropsResult)
    ensures r.GoodProps? <==> |data| >= 5 && data[0] < 225
    ensures r.GoodProps? ==> PropsOk(r.props) && (r.props.pb * 5 + r.props.lp) * 9 + r.props.lc == data[0]
    ensures r.GoodProps? ==> r.props.dicSize >= 4096 && r.props.dicSize == if SizeField(data) < 4096 then 4096 else SizeField(data)
  {
    if |data| < 5 then Unsupported
    else
      var d: nat := data[0];
      var size := SizeField(data);
      if d >= 9 * 5 * 5 then Unsupported
      else GoodProps(Props(d % 9, d / 9 % 5, d / 9 / 5, if size < 4096 then 4096 else size))
  }

  function SizeField(data: seq<Byte>): nat
    requires |data| >= 5
    ensures SizeField(data) < 0x1_0000_0000
  {
    var b2: int, b3: int, b4: int := data[2], data[3], data[4];
    data[1] + b2 * 0x100 + b3 * 0x1_0000 + b4 * 0x100_0000
  }

  /** The five bytes that hold properties, the size of the dictionary lowest byte first, give them back. */
  lemma PropsBack(lc: nat, lp: nat, pb: nat, size: Word)
    requires lc <= 8 && lp <= 4 && pb <= 4
    ensures DecodeProps([(pb * 5 + lp) * 9 + lc, size % 256, size / 256 % 256, size / 0x1_0000 % 256, size / 0x100_0000])
         == GoodProps(Props(lc, lp, pb, if size < 4096 then 4096 else size))
  {
    var a, b, c := size / 256, size / 0x1_0000, size / 0x100_0000;
    assert size == a * 256 + size % 256 && a == b * 256 + a % 256 && b == c * 256 + b % 256;
    var d := (pb * 5 + lp) * 9 + lc;
    assert d % 9 == lc && d / 9 == pb * 5 + lp;
  }

  datatype CallResult = Decoded(res: SRes) | InputEof | NotSupported

  /**
   * LzmaDecode: a whole stream in one call. The result is that of all its bytes in the room of dest: it fails if there
   * is a fault, it lacks input if one more symbol is wanted, and else destLen bytes of dest are the output of n symbols,
   * which take srcLen bytes. The status tells whether the stream has ended.
   *
   * In particular, a stream whose decisions spell a list of symbols, from the first to the end mark or until dest is
   * full, decodes to the bytes that these symbols stand for.
   */
  method LzmaDecode(dest: array<Byte>, src: seq<Byte>, propData: seq<Byte>, mode: FinishMode)
    returns (r: CallResult, destLen: nat, srcLen: nat, status: LzmaStatus, ghost n: nat)
    modifies dest
    ensures |src| < 5 ==> r == InputEof && srcLen == destLen == 0
    ensures r == NotSupported <==> |src| >= 5 && DecodeProps(propData).Unsupported?
    ensures |src| >= 5 && DecodeProps(propData).GoodProps? ==>
      var p := DecodeProps(propData).props; var z := RunAt(p, src, n);
      if r == Decoded(SZ_ERROR_DATA) then AtFault(p, src, dest.Length, mode, |src|, n)
      else
        && destLen <= dest.Length && dest[..destLen] == Fitting(z.out, dest.Length)
        && Reached(p, src, dest.Length, mode, |src|, n)
        && (r == InputEof <==> Wants(p, src, dest.Length, mode, n))
        && srcLen == (if r == InputEof then |src| else z.rc.pos)
        && (status == LZMA_STATUS_FINISHED_WITH_MARK <==> z.status == Ended)
        && (status == LZMA_STATUS_MAYBE_FINISHED_WITHOUT_MARK <==>
              z.status == Going && |z.out| == dest.Length && z.rc.code == 0)
    ensures |src| >= 5 && DecodeProps(propData).GoodProps? ==>
      var p := DecodeProps(propData).props;
      forall ops :: Complete(p, src, ops, dest.Length, mode) ==>
        r == Decoded(SZ_OK) && destLen <= dest.Length && dest[..destLen] == Expanded(p, ops).out
  {
    hide Complete, Sensible, Expanded;
    hide NumProbs, RunAt, Read, Dictionary.Valid, LzmaStream.Valid, LzmaStream.Able, DecodeProps, Reached, Wants, Took, WrongAt;
    destLen, srcLen, status, n := 0, 0, LZMA_STATUS_NOT_SPECIFIED, 0;
    if |src| < 5 {
      return InputEof, destLen, srcLen, status, n;
    }
    var p := DecodeProps(propData);
    if p.Unsupported? {
      return NotSupported, destLen, srcLen, status, n;
    }
    var d := new LzmaStream(p.props, dest, src);
    HeaderOnly(d);
    var res;
    ghost var bad;
    res, srcLen, status, bad := d.DecodeToDic(dest.Length, src, mode);
    destLen := d.dec.dict.dicPos;
    r := if res == SZ_OK && status == LZMA_STATUS_NEEDS_MORE_INPUT then InputEof else Decoded(res);
    if res == SZ_OK {
      n := d.n;
      NotInHeader(d, dest.Length, status, mode);
      OneCall(d, dest.Length);
      StatusMeans(d, dest.Length, status, mode);
      StopsAt(d, dest.Length, status, mode, |src|);
    } else {
      n := bad;
      FaultFromStart(d, 0, dest.Length, mode, |src|, |src|, bad);
    }
    forall ops | Complete(p.props, src, ops, dest.Length, mode)
      ensures Sensible(p.props, ops) && r == Decoded(SZ_OK) && dest[..destLen] == Expanded(p.props, ops).out
    {
      CompleteFits(p.props, src, ops, dest.Length, mode);
      CompleteRests(p.props, src, ops, dest.Length, mode, n);
    }
  }

  lemma NotInHeader(d: LzmaStream, limit: nat, status: LzmaStatus, mode: FinishMode)
    requires d.Valid() && d.Stops(limit, status, mode) && (status == LZMA_STATUS_NEEDS_MORE_INPUT ==> d.fed >= 5)
    ensures !d.needFlush
  {
    hide NumProbs, RunAt, Dictionary.Valid, Read, LzmaDec.Counted;
  }

  /** What the status says of the run. */
  lemma StatusMeans(d: LzmaStream, limit: nat, status: LzmaStatus, mode: FinishMode)
    requires d.Valid() && !d.needFlush && d.Stops(limit, status, mode) && d.dec.dict.dicPos <= limit
    requires 0 < d.dec.remainLen < SPEC_LEN_START ==> d.dec.dict.dicPos == limit
    ensures status == LZMA_STATUS_NEEDS_MORE_INPUT <==> d.Wanting(limit, mode)
    ensures status == LZMA_STATUS_FINISHED_WITH_MARK <==> d.Z().status == Ended
    ensures status == LZMA_STATUS_MAYBE_FINISHED_WITHOUT_MARK <==>
      d.Z().status == Going && |d.Z().out| == limit + d.dec.Offset() && d.Z().rc.code == 0
  {
    hide NumProbs, RunAt, Dictionary.Valid, Read, LzmaDec.Counted;
  }

  lemma OneCall(d: LzmaStream, limit: nat)
    requires d.Valid() && !d.needFlush && d.dec.Offset() == 0 && d.dec.dict.dicPos <= limit
    requires 0 < d.dec.remainLen < SPEC_LEN_START ==> d.dec.dict.dicPos == limit
    ensures d.dec.dict.dicPos <= d.dec.dict.dic.Length
    ensures d.dec.dict.dic[..d.dec.dict.dicPos] == Fitting(d.Z().out, limit)
  {
    hide NumProbs, RunAt, LzmaDec.Counted, Read;
    DictionaryHolds(d.dec.dict);
  }
}
