/** The resumable decoding loop of inflate, which stops and goes on anywhere within a token (zlib.c, inflate_codes). */
module InflateCodes {

  import opened Arith
  import opened BitStrings
  import opened HuffmanTable
  import opened HuffmanInvariant
  import opened HuftBuild
  import opened Adler32
  import opened InflateSpec
  import opened Lz77
  import opened InflateModes
  import opened InflateCopy
  import opened InflateFast
  import opened BitBuffer
  import opened ReturnCodes
  import opened Window

  /**
   * The codes state with the input and the window it works on. run is how far the run of tokens from init has come:
   * count whole tokens.
   */
  class Inflater {
    const cx: Codes
    const rd: BitReader
    const win: RingWindow
    ghost const init: Run
    var mode: Mode
    var len: nat
    ghost var run: Run
    ghost var count: nat
    ghost var from: nat
    ghost var total: nat

    ghost predicate Valid()
      reads this, rd, win, win.buf
    {
      && ValidCodes(cx) && rd.Valid() && win.Valid() && Following()
      && ModeOk(cx, rd.input, win.buf.Length, run, mode, len, rd.Pos(), from, total, win.produced)
      && (mode == END ==> win.out == win.produced)
    }

    /** run is a run of the tokens of the input, in which every copy is one that deflate allows. */
    ghost predicate Following()
      reads `run, `count
    {
      && Proper(cx, rd.input, win.buf.Length, init)
      && run == Steps(cx, rd.input, win.buf.Length, init, count)
    }

    constructor (cx: Codes, rd: BitReader, win: RingWindow)
      requires ValidCodes(cx) && rd.Valid() && win.Valid()
      requires Proper(cx, rd.input, win.buf.Length, Run(rd.Pos(), win.produced, Going))
      ensures Valid() && this.cx == cx && this.rd == rd && this.win == win && mode == START
      ensures init == Run(rd.Pos(), win.produced, Going)
    {
      this.cx, this.rd, this.win := cx, rd, win;
      mode, len := START, 0;
      init, run := Run(rd.Pos(), win.produced, Going), Run(rd.Pos(), win.produced, Going);
      count, from, total := 0, 0, 0;
    }

    /** There are fewer bits at hand than the mode asks for, and no more input. */
    ghost predicate Starving()
      reads `mode, rd
    {
      rd.n == 0 &&
      match mode
      case LEN(_, need) => rd.k < need
      case LENEXT(get) => rd.k < get
      case DIST(_, need) => rd.k < need
      case DISTEXT(get, _) => rd.k < get
      case _ => false
    }

    /** The token of the run is complete. */
    ghost method Advance()
      requires Following()
      modifies `run, `count
      ensures Following() && run == Step(cx, rd.input, win.buf.Length, old(run)) && run.status != Improper
      ensures count == old(count) + 1
    {
      hide Step;
      count := count + 1;
      run := Step(cx, rd.input, win.buf.Length, run);
    }

    /** NEEDBITS and one lookup: the slot for the next bits, which are dropped. */
    method NextSlot(tabs: Tables, l: nat, ghost s: nat, tree: nat, j: nat, r: Code)
      returns (r': Code, ok: bool, t: Huft)
      requires Solid(tabs, l, s) && rd.Valid() && from <= rd.Pos() && j <= 15 && tree < |tabs|
      requires Along(tabs, l, Rest(rd.input, from), tree, j, rd.Pos() - from)
      modifies rd
      ensures rd.Valid() && rd.p + rd.n == old(rd.p + rd.n)
      ensures !ok ==> rd.n == 0 && rd.k < j && rd.Pos() == old(rd.Pos())
      ensures ok ==> t != Unset && 1 <= t.bits && rd.Pos() == old(rd.Pos()) + t.bits
      ensures ok ==> FoundSlot(tabs, l, s, rd.input, from, old(rd.Pos()), t)
      ensures r' == if rd.p > old(rd.p) then Z_OK else r
      ensures rd.p >= old(rd.p)
    {
      hide LE, Rest, Holds, FoundSlot, Along, Solid;
      r', ok := rd.NeedBits(j, r);
      t := Unset;
      if ok {
        LookupSlow(tabs, l, s, rd, from, tree, j);
        t := tabs[tree][rd.Low(j)];
        rd.DumpBits(t.bits);
      }
    }

    /** The state that LEN starts from. */
    lemma InLen()
      requires Valid() && mode.LEN?
      ensures run == Run(from, win.produced, Going) && from <= rd.Pos() && mode.need <= 15
      ensures mode.tree < |cx.lt| && Along(cx.lt, cx.lbits, Rest(rd.input, from), mode.tree, mode.need, rd.Pos() - from)
    {
    }

    /** LEN: one lookup of a literal or length code. */
    method LenStep(r: Code) returns (r': Code, ok: bool)
      requires Valid() && mode.LEN?
      modifies this, rd
      ensures Valid() && rd.p + rd.n == old(rd.p + rd.n) && count >= old(count)
      ensures ok ==> rd.Pos() > old(rd.Pos())
      ensures !ok ==> (Starving() && mode == old(mode)) || (mode == BADCODE && r' == Z_DATA_ERROR)
      ensures !ok && mode != BADCODE ==> r' == r || r' == Z_OK
      ensures r' == Z_BUF_ERROR ==> r == Z_BUF_ERROR && rd.p == old(rd.p)
      ensures ok ==> mode != BADCODE && (r' == r || r' == Z_OK)
    {
      hide LE, Rest, Holds, Step, RingWindow.Valid, Steps, Proper, FoundSlot, ModeOk, Along, Solid, LengthEntries;
      InLen();
      ghost var pos := rd.Pos();
      var t;
      r', ok, t := NextSlot(cx.lt, cx.lbits, 257, mode.tree, mode.need, r);
      if !ok {
        return;
      }
      LenTurn(cx, rd.input, win.buf.Length, run, len, pos, from, total, win.produced, t);
      var e := t.exop;
      if e == 0 {
        mode := LIT(t.base % 256);
      } else if HasExtra(e) {
        len := t.base;
        mode := LENEXT(e % 16);
      } else if (e / 64) % 2 == 0 {
        mode := LEN(t.next, e);
      } else if (e / 32) % 2 == 1 {
        Advance();
        mode := WASH;
      } else {
        Advance();
        mode := BADCODE;
        r', ok := Z_DATA_ERROR, false;
      }
    }

    lemma NextIsProper()
      requires Following()
      ensures Step(cx, rd.input, win.buf.Length, run).status != Improper
    {
      hide Step;
      assert Steps(cx, rd.input, win.buf.Length, init, count + 1).status != Improper;
    }

    /** LENEXT: the extra bits of a length. */
    method LenExtStep(r: Code) returns (r': Code, ok: bool)
      requires Valid() && mode.LENEXT?
      modifies this, rd
      ensures Valid() && rd.p + rd.n == old(rd.p + rd.n) && count == old(count)
      ensures ok ==> rd.Pos() >= old(rd.Pos()) && mode.DIST?
      ensures !ok ==> Starving() && mode == old(mode)
      ensures r' == r || r' == Z_OK
      ensures r' == Z_BUF_ERROR ==> rd.p == old(rd.p)
    {
      hide LE, Holds, Step, RingWindow.Valid, Steps, Proper, Along, Solid, LengthEntries, TokenAt, DistCode, InputBits;
      var j := mode.get;
      r', ok := rd.NeedBits(j, r);
      if !ok {
        return;
      }
      rd.LowIsInput(j);
      LenExtTurn(cx, rd.input, win.buf.Length, run, j, len, rd.Pos(), total, win.produced);
      len := len + rd.Low(j);
      rd.DumpBits(j);
      from := rd.Pos();
      mode := DIST(0, cx.dbits);
    }

    /** The state that DIST starts from. */
    lemma InDist()
      requires Valid() && mode.DIST?
      ensures run == Run(run.pos, win.produced, Going) && from <= rd.Pos() && mode.need <= 15
      ensures TokenAt(cx, rd.input, run.pos) == DistCode(cx, rd.input, from, len)
      ensures mode.tree < |cx.dt| && Along(cx.dt, cx.dbits, Rest(rd.input, from), mode.tree, mode.need, rd.Pos() - from)
    {
    }

    /** DIST: one lookup of a distance code. */
    method DistStep(r: Code) returns (r': Code, ok: bool)
      requires Valid() && mode.DIST?
      modifies this, rd
      ensures Valid() && rd.p + rd.n == old(rd.p + rd.n) && count >= old(count)
      ensures ok ==> rd.Pos() > old(rd.Pos())
      ensures !ok ==> (Starving() && mode == old(mode)) || (mode == BADCODE && r' == Z_DATA_ERROR)
      ensures !ok && mode != BADCODE ==> r' == r || r' == Z_OK
      ensures r' == Z_BUF_ERROR ==> r == Z_BUF_ERROR && rd.p == old(rd.p)
      ensures ok ==> mode != BADCODE && (r' == r || r' == Z_OK)
    {
      hide LE, Rest, Holds, Step, RingWindow.Valid, Steps, Proper, FoundSlot, ModeOk, Along, Solid, LengthEntries;
      InDist();
      ghost var pos := rd.Pos();
      var t;
      r', ok, t := NextSlot(cx.dt, cx.dbits, 0, mode.tree, mode.need, r);
      if !ok {
        return;
      }
      DistTurn(cx, rd.input, win.buf.Length, run, len, pos, from, total, win.produced, t);
      var e := t.exop;
      if HasExtra(e) {
        mode := DISTEXT(e % 16, t.base);
      } else if (e / 64) % 2 == 0 {
        mode := DIST(t.next, e);
      } else {
        Advance();
        mode := BADCODE;
        r', ok := Z_DATA_ERROR, false;
      }
    }

    /** DISTEXT: the extra bits of a distance. */
    method DistExtStep(r: Code) returns (r': Code, ok: bool)
      requires Valid() && mode.DISTEXT?
      modifies this, rd
      ensures Valid() && rd.p + rd.n == old(rd.p + rd.n) && count == old(count)
      ensures ok ==> rd.Pos() >= old(rd.Pos()) && mode.COPY?
      ensures !ok ==> Starving() && mode == old(mode)
      ensures r' == r || r' == Z_OK
      ensures r' == Z_BUF_ERROR ==> rd.p == old(rd.p)
    {
      hide LE, Holds, Step, RingWindow.Valid, Steps, Proper, Along, Solid, LengthEntries, TokenAt, InputBits;
      var j := mode.get;
      r', ok := rd.NeedBits(j, r);
      if !ok {
        return;
      }
      rd.LowIsInput(j);
      NextIsProper();
      DistExtTurn(cx, rd.input, win.buf.Length, run, j, mode.dist, len, rd.Pos(), from, win.produced);
      mode := COPY(mode.dist + rd.Low(j));
      rd.DumpBits(j);
      total := len;
    }

    lemma InCopy()
      requires Valid() && mode.COPY?
      ensures 1 <= mode.dist <= win.buf.Length
    {
    }

    /** COPY: copies what is left of the string, or leaves when there is no room for more output. */
    method CopyStep(r: Code) returns (r': Code, ok: bool)
      requires Valid() && mode.COPY?
      modifies this, win, win.buf
      ensures Valid() && old(win.out) <= win.out && count >= old(count)
      ensures ok ==> mode == START
      ensures !ok ==> win.availOut == 0 && mode == old(mode)
      ensures r' == r || r' == Z_OK
      ensures r' == Z_BUF_ERROR ==> win.out == old(win.out)
      ensures win.Capacity() == old(win.Capacity())
    {
      hide Step, RingWindow.Valid, Steps, Proper, ValidCodes, ModeOk, Holds, Back;
      InCopy();
      r', ok := r, true;
      var f: int := Back(win.write, mode.dist, win.buf.Length);
      while len > 0
        invariant Valid() && old(win.out) <= win.out && mode == old(mode) && count == old(count)
        invariant win.Capacity() == old(win.Capacity())
        invariant r' == r || r' == Z_OK
        invariant r' == Z_BUF_ERROR ==> win.out == old(win.out)
        invariant f == Back(win.write, mode.dist, win.buf.Length)
        decreases len
        modifies `len, win, win.buf
      {
        CopyByteTurn(cx, rd.input, win.buf.Length, run, mode.dist, len, rd.Pos(), from, total, win.produced);
        r', ok := win.NeedOut(r');
        if !ok {
          return;
        }
        BackToStart(win.buf.Length);
        BackNext(win.write, mode.dist, win.buf.Length);
        CopyByte(win, f, mode.dist);
        f := f + 1;
        if f == win.buf.Length {
          f := 0;
        }
        len := len - 1;
      }
      CopyTurn(cx, rd.input, win.buf.Length, run, mode.dist, rd.Pos(), from, total, win.produced);
      Advance();
      mode := START;
    }

    /** LIT: writes the literal, or leaves when there is no room for more output. */
    method LitStep(r: Code) returns (r': Code, ok: bool)
      requires Valid() && mode.LIT?
      modifies this, win, win.buf
      ensures Valid() && old(win.out) <= win.out && count >= old(count)
      ensures ok ==> mode == START
      ensures !ok ==> win.availOut == 0 && mode == old(mode)
      ensures r' == r || r' == Z_OK
      ensures r' == Z_BUF_ERROR ==> win.out == old(win.out)
      ensures win.Capacity() == old(win.Capacity())
    {
      hide Step, RingWindow.Valid, Steps, Proper, ValidCodes, ModeOk, Holds;
      LitTurn(cx, rd.input, win.buf.Length, run, mode.lit, len, rd.Pos(), from, total, win.produced);
      r', ok := win.NeedOut(r);
      if !ok {
        return;
      }
      win.OutByte(mode.lit);
      Advance();
      mode := START;
    }

    /** The block ends after m tokens, and this leaves 14 bytes of input and 258 places in the window. */
    ghost predicate EndsWithin(m: nat)
      reads this, rd, win
    {
      var z := Steps(cx, rd.input, win.buf.Length, init, m);
      && z.status == Ended && z.pos + 8 * 14 <= 8 * (rd.p + rd.n)
      && |z.out| + 258 <= win.Avail() + |win.produced|
    }

    /** START: the fast loop if there is plenty of both, and then one token the slow way. */
    method StartStep(r: Code) returns (r': Code)
      requires Valid() && mode == START
      modifies this, rd, win, win.buf
      ensures Valid() && old(win.out) <= win.out && count >= old(count) && rd.p + rd.n == old(rd.p + rd.n)
      ensures rd.Pos() > old(rd.Pos()) || mode.LEN?
      ensures rd.Pos() >= old(rd.Pos())
      ensures (mode == WASH && r' == Z_STREAM_END) || (mode == BADCODE && r' == Z_DATA_ERROR)
           || (mode.LEN? && (r' == r || r' == Z_OK))
      ensures r' == Z_BUF_ERROR ==> rd.p == old(rd.p) && win.out == old(win.out)
      ensures win.Capacity() == old(win.Capacity()) && (mode == WASH ==> win.buf.Length >= 258)
      ensures forall m: nat :: old(EndsWithin(m)) ==> mode == WASH
    {
      hide Step, RingWindow.Valid, Steps, Proper, ValidCodes, ModeOk, Holds;
      r' := r;
      InStart();
      ghost var c0 := count;
      forall m: nat | EndsWithin(m)
        ensures win.Avail() >= 258 && rd.n >= 10
      {
        Plenty(c0, m);
      }
      win.AvailBound();
      if win.Avail() >= 258 && rd.n >= 10 {
        r', count := InflateFast.InflateFast(cx, rd, win, init, count);
        run := Steps(cx, rd.input, win.buf.Length, init, count);
        forall m: nat | old(EndsWithin(m))
          ensures r' == Z_STREAM_END
        {
          EndFound(r', m, old(win.Avail() + |win.produced|));
        }
        if r' != Z_OK {
          mode := if r' == Z_STREAM_END then WASH else BADCODE;
          Begun(mode);
          return;
        }
      }
      from := rd.Pos();
      mode := LEN(0, cx.lbits);
      Begun(mode);
    }

    /** A run that ends where there is plenty of input and space has plenty of them before. */
    lemma Plenty(c: nat, m: nat)
      requires EndsWithin(m) && rd.Valid() && Following() && run == Run(rd.Pos(), win.produced, Going)
      ensures win.Avail() >= 258 && rd.n >= 10
    {
      hide Step, Steps, Proper, InputBits;
      if m <= count {
        EndsOnce(cx, rd.input, win.buf.Length, init, m, count);
      } else {
        PositionGrows(cx, rd.input, win.buf.Length, init, count, m);
        OutputGrows(cx, rd.input, win.buf.Length, init, count, m);
      }
    }

    /** Then the fast loop comes to the end. */
    lemma EndFound(r: Code, m: nat, space: int)
      requires rd.Valid() && (r == Z_OK || r == Z_STREAM_END || r == Z_DATA_ERROR)
      requires Steps(cx, rd.input, win.buf.Length, init, count) == Run(rd.Pos(), win.produced, StatusOf(r))
      requires win.Avail() + |win.produced| == space && rd.k < 8 && (r == Z_OK ==> win.Avail() < 258 || rd.n < 14)
      requires var z := Steps(cx, rd.input, win.buf.Length, init, m);
        z.status == Ended && z.pos + 8 * 14 <= 8 * (rd.p + rd.n) && |z.out| + 258 <= space
      ensures r == Z_STREAM_END
    {
      hide Step, Steps, InputBits;
      if m <= count {
        EndsOnce(cx, rd.input, win.buf.Length, init, m, count);
      } else {
        if r != Z_OK {
          EndsOnce(cx, rd.input, win.buf.Length, init, count, m);
        }
        PositionGrows(cx, rd.input, win.buf.Length, init, count, m);
        OutputGrows(cx, rd.input, win.buf.Length, init, count, m);
      }
    }

    lemma InStart()
      requires Valid() && mode == START
      ensures run == Run(rd.Pos(), win.produced, Going)
    {
    }

    lemma Begun(m: Mode)
      requires ValidCodes(cx) && rd.Valid()
      requires (m == LEN(0, cx.lbits) && from == rd.Pos() && run == Run(rd.Pos(), win.produced, Going))
            || (m == WASH && run == Run(rd.Pos(), win.produced, Ended))
            || (m == BADCODE && run == Run(rd.Pos(), win.produced, Failed))
      ensures ModeOk(cx, rd.input, win.buf.Length, run, m, len, rd.Pos(), from, total, win.produced)
    {
      hide Along, LengthEntries, Solid, Rest, Holds;
      AlongRoot(cx.lt, cx.lbits, 257, Rest(rd.input, from));
    }

    /** WASH: delivers what is pending, and leaves if and only if there is no room for all of it. */
    method WashStep(r: Code) returns (r': Code, ok: bool)
      requires Valid() && mode == WASH
      modifies this, win
      ensures Valid() && old(win.out) <= win.out && count == old(count)
      ensures ok ==> mode == END && win.out == win.produced
      ensures !ok ==> win.availOut == 0 && mode == WASH
      ensures ok <==> |old(win.Pending())| <= old(win.availOut)
      ensures ok <==> |win.produced| <= win.Capacity()
      ensures r' == r || (r == Z_BUF_ERROR && r' == Z_OK)
      ensures r' == Z_BUF_ERROR ==> win.out == old(win.out)
      ensures win.Capacity() == old(win.Capacity())
    {
      hide Step, Steps, Proper, ValidCodes, Holds;
      var n;
      r', n := win.Flush(r);
      ok := win.read == win.write;
      if ok {
        mode := END;
      }
    }

    /** LEAVE: delivers what there is room for. */
    method Leave(r: Code) returns (r': Code)
      requires Valid()
      modifies win
      ensures Valid() && old(win.out) <= win.out && (win.availOut == 0 || win.out == win.produced)
      ensures r' == r || (r == Z_BUF_ERROR && r' == Z_OK)
      ensures r' == Z_BUF_ERROR ==> win.out == old(win.out)
      ensures old(win.availOut) == 0 ==> win.availOut == 0
      ensures win.Capacity() == old(win.Capacity())
    {
      hide Step, Steps, Proper, ValidCodes, Holds, ModeOk, RingWindow.History;
      var n;
      r', n := win.Flush(r);
    }

    /** Codes for the end and for bad input come with the modes for them. */
    ghost predicate Fits(r: Code)
      reads `mode
    {
      (r == Z_STREAM_END ==> mode == WASH || mode == END) && (r == Z_DATA_ERROR ==> mode == BADCODE)
    }

    /** A reason to leave: the end, bad input, no room for output, or no input. */
    ghost predicate Stopped(r: Code)
      reads `mode, win, rd
    {
      match mode
      case END => r == Z_STREAM_END
      case BADCODE => r == Z_DATA_ERROR
      case WASH => win.availOut == 0 && |win.produced| > win.Capacity()
      case _ => win.availOut == 0 || Starving()
    }

    /** One turn of the loop: the case for the mode, and whether to go on. */
    method Turn(r: Code) returns (r': Code, ok: bool)
      requires Valid() && Fits(r)
      modifies this, rd, win, win.buf
      ensures Valid() && old(win.out) <= win.out && count >= old(count) && rd.p + rd.n == old(rd.p + rd.n)
      ensures ok ==> rd.Pos() > old(rd.Pos()) || (rd.Pos() == old(rd.Pos()) && Rank(mode) < Rank(old(mode)))
      ensures Fits(r')
      ensures r' == Z_BUF_ERROR ==> r == Z_BUF_ERROR && rd.p == old(rd.p) && win.out == old(win.out)
      ensures ok || Stopped(r')
      ensures win.Capacity() == old(win.Capacity())
      ensures mode == WASH ==> (r' == Z_STREAM_END <==> r == Z_STREAM_END || old(mode) == START)
      ensures old(mode) == START && mode == WASH ==> win.buf.Length >= 258
      ensures (old(mode) == WASH ==> mode == WASH || mode == END) && (old(mode) == END ==> mode == END)
      ensures ok || mode != START
      ensures old(mode) == START ==> forall m: nat :: old(EndsWithin(m)) ==> mode == WASH
    {
      hide Step, RingWindow.Valid, Steps, Proper, ValidCodes, ModeOk, Holds;
      r', ok := r, true;
      match mode
      case START => r' := StartStep(r);
      case LEN(_, _) => r', ok := LenStep(r);
      case LENEXT(_) => r', ok := LenExtStep(r);
      case DIST(_, _) => r', ok := DistStep(r);
      case DISTEXT(_, _) => r', ok := DistExtStep(r);
      case COPY(_) => r', ok := CopyStep(r);
      case LIT(_) => r', ok := LitStep(r);
      case WASH => r', ok := WashStep(r);
      case END => r', ok := Z_STREAM_END, false;
      case BADCODE => r', ok := Z_DATA_ERROR, false;
    }

    /**
     * inflate_codes: one call. It comes back when the block has ended, when the input is bad, or when it is out of
     * input or of room for output. Whatever there is room for has been delivered. Z_BUF_ERROR means that no input
     * was taken and nothing was delivered. fast tells whether the fast loop has found the end of the block in this
     * call: a turn that begins at START has gone to WASH. Then the call returns Z_STREAM_END even with output pending,
     * which is so if and only if there was no room for all of it. Otherwise Z_STREAM_END means that all is delivered.
     */
    method Codes(r: Code) returns (r': Code, ghost fast: bool)
      requires Valid() && (r == Z_OK || r == Z_BUF_ERROR)
      modifies this, rd, win, win.buf
      ensures Valid() && old(win.out) <= win.out && count >= old(count) && rd.p + rd.n == old(rd.p + rd.n)
      ensures mode == END ==> r' == Z_STREAM_END && run.status == Ended && win.out == run.out
      ensures r' == Z_STREAM_END ==> run.status == Ended && win.produced == run.out && (mode == END || win.availOut == 0)
      ensures r' == Z_DATA_ERROR <==> mode == BADCODE
      ensures mode == BADCODE ==> run.status == Failed
      ensures mode != END && mode != BADCODE ==> win.availOut == 0 || (Starving() && win.out == win.produced)
      ensures r' == Z_BUF_ERROR ==> r == Z_BUF_ERROR && rd.p == old(rd.p) && win.out == old(win.out)
      ensures win.Capacity() == old(win.Capacity())
      ensures run.status == Ended ==> (mode == END <==> |run.out| <= win.Capacity())
      ensures r' == Z_STREAM_END <==> mode == END || fast
      ensures r' == Z_STREAM_END && win.out != run.out <==> fast && |run.out| > win.Capacity()
      ensures fast ==> run.status == Ended && win.buf.Length >= 258
      ensures old(mode) == START ==> forall m: nat :: old(EndsWithin(m)) ==> fast
    {
      hide Step, RingWindow.Valid, Steps, Proper, ValidCodes, ModeOk, Holds;
      r', fast := r, false;
      var ok := true;
      while ok
        invariant Valid() && old(win.out) <= win.out && count >= old(count) && rd.p + rd.n == old(rd.p + rd.n)
        invariant Fits(r') && (ok || Stopped(r'))
        invariant r' == Z_BUF_ERROR ==> r == Z_BUF_ERROR && rd.p == old(rd.p) && win.out == old(win.out)
        invariant win.Capacity() == old(win.Capacity()) && (mode == WASH ==> (r' == Z_STREAM_END <==> fast))
        invariant ok || mode != START
        invariant fast ==> (mode == WASH || mode == END) && win.buf.Length >= 258
        invariant old(mode) == START ==> forall m: nat :: old(EndsWithin(m)) ==> fast || (mode == START && EndsWithin(m))
        decreases ok, 8 * |rd.input| - rd.Pos(), Rank(mode)
      {
        ghost var began := mode;
        r', ok := Turn(r');
        fast := fast || (began == START && mode == WASH);
      }
      ByMode();
      r' := Leave(r');
      ByMode();
    }

    /** Between calls the caller may make more input and more room for output available. */
    method Supply(bytes: nat, room: nat)
      requires Valid() && rd.p + rd.n + bytes <= |rd.input|
      modifies rd`n, win`availOut
      ensures Valid() && rd.n == old(rd.n) + bytes && win.availOut == old(win.availOut) + room
    {
      hide Step, Steps, Proper, ValidCodes, ModeOk, Holds, RingWindow.History, Update, Pack;
      rd.n := rd.n + bytes;
      win.availOut := win.availOut + room;
    }

    /** What the modes in which a call ends say about the run. */
    lemma ByMode()
      requires Valid()
      ensures mode == START || mode == WASH || mode == END || mode == BADCODE ==> win.produced == run.out
      ensures mode == WASH || mode == END <==> run.status == Ended
      ensures mode == BADCODE ==> run.status == Failed
    {
    }
  }

  /** The same block read through the same window. */
  ghost predicate SameBlock(a: Inflater, b: Inflater) {
    a.cx == b.cx && a.rd.input == b.rd.input && a.win.buf.Length == b.win.buf.Length && a.init == b.init
  }

  /**
   * However the input was cut into pieces and however little room for output there was at a time, what has been
   * written is the beginning of what any other way of reading the block comes to in the end.
   */
  lemma CutsDoNotMatter(a: Inflater, b: Inflater)
    requires a.Valid() && b.Valid() && SameBlock(a, b) && b.mode == END
    ensures a.win.produced <= b.win.out
    ensures a.mode == END ==> a.win.out == b.win.out
  {
    hide Step, Steps, Proper, ValidCodes, Holds, RingWindow.Valid;
    WrittenSoFar(a.cx, a.rd.input, a.win.buf.Length, a.init, a.count, b.count, a.mode, a.len, a.rd.Pos(), a.from,
                 a.total, a.win.produced);
    if a.mode == END {
      WrittenSoFar(a.cx, a.rd.input, a.win.buf.Length, a.init, b.count, a.count, b.mode, b.len, b.rd.Pos(), b.from,
                   b.total, b.win.produced);
    }
  }

  /** With all the input of a block that ends well, or badly, no call comes back for want of input. */
  lemma NotStarving(a: Inflater, m: nat)
    requires a.Valid() && a.rd.p + a.rd.n == |a.rd.input|
    requires Steps(a.cx, a.rd.input, a.win.buf.Length, a.init, m).status in {Ended, Failed}
    ensures !a.Starving()
  {
    hide LE, Holds, Steps, Proper, RingWindow.Valid, Rest, ValidCodes, Pow2;
    if a.Starving() {
      if m <= a.count {
        EndsOnce(a.cx, a.rd.input, a.win.buf.Length, a.init, m, a.count);
        assert false;
      } else {
        TokenComes(a.cx, a.rd.input, a.win.buf.Length, a.init, a.count, m);
        NeededBits(a.cx, a.rd.input, a.win.buf.Length, a.run, a.mode, a.len, a.rd.Pos(), a.from, a.total, a.win.produced);
      }
    }
  }

  /** One lookup in the slow loop. */
  lemma LookupSlow(tabs: Tables, l: nat, s: nat, rd: BitReader, from: nat, t: nat, sz: nat)
    requires Solid(tabs, l, s) && rd.Valid() && sz <= rd.k && from <= rd.Pos()
    requires Along(tabs, l, Rest(rd.input, from), t, sz, rd.Pos() - from)
    ensures rd.Low(sz) < |tabs[t]|
    ensures var h := tabs[t][rd.Low(sz)];
      h != Unset && 1 <= h.bits <= sz && FoundSlot(tabs, l, s, rd.input, from, rd.Pos(), h)
  {
    hide LE, InputBits, Walk, Rest, Pow2, Holds, Solid, Along;
    rd.LowIsInput(sz);
    RestSlice(rd.input, from, rd.Pos(), sz);
    Lookup(tabs, l, s, Rest(rd.input, from), t, sz, rd.Pos() - from);
  }
}
