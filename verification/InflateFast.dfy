/** The fast loop of inflate, for when there is plenty of input and window space (zlib.c, inflate_fast). */
module InflateFast {

  import opened Arith
  import opened BitStrings
  import opened HuffmanTable
  import opened HuffmanInvariant
  import opened HuftBuild
  import opened Adler32
  import opened InflateSpec
  import opened Lz77
  import opened InflateModes
  import opened InflateCopy
  import opened BitBuffer
  import opened ReturnCodes
  import opened Window

  /** A lookup within 15 bits never runs out of them. */
  lemma WithinFifteen(tabs: Tables, l: nat, s: nat, bits: Bits, t: nat, sz: nat, w: nat)
    requires Solid(tabs, l, s) && Along(tabs, l, bits, t, sz, w) && |bits| == 15
    ensures w + sz <= 15
  {
    hide LE, Pow2;
  }

  /** What the lookup of 15 bits found is what the lookup of all the input found. */
  lemma FifteenAreEnough(tabs: Tables, l: nat, s: nat, input: seq<Byte>, from: nat)
    requires Solid(tabs, l, s) && from + 15 <= 8 * |input|
    ensures Walk(tabs, 0, l, 0, InputBits(input, from, 15)) == Walk(tabs, 0, l, 0, Rest(input, from))
  {
    hide Walk, InputBits, Pow2;
    RestSlice(input, from, from, 15);
    assert InputBits(input, from, 15) <= Rest(input, from);
    WalkMore(tabs, 0, l, 0, InputBits(input, from, 15), Rest(input, from));
  }

  lemma SubBits(input: seq<Byte>, from: nat, w: nat, n: nat)
    requires from + 15 <= 8 * |input| && w + n <= 15
    ensures InputBits(input, from, 15)[w..w + n] == InputBits(input, from + w, n)
  {
    hide InputBit;
    var a, b := InputBits(input, from, 15), InputBits(input, from + w, n);
    forall i | 0 <= i < n
      ensures a[w..w + n][i] == b[i]
    {
      assert a[w + i] == InputBit(input, from + w + i);
    }
  }

  /** h is the slot that the lookup begun at position from has come to, w bits on; k is what the buffer still holds. */
  ghost predicate AtSlot(tabs: Tables, l: nat, s: nat, input: seq<Byte>, from: nat, h: Huft, w: nat, k: nat) {
    && from + 15 <= 8 * |input| && h != Unset && 1 <= h.bits && w + h.bits <= 15 <= w + k && SlotOk(h, s)
    && var bits := InputBits(input, from, 15);
      && (h.Entry? ==> Walk(tabs, 0, l, 0, bits) == Found(h.exop, h.base, w + h.bits))
      && (h.Link? ==> h.next < |tabs| && Along(tabs, l, bits, h.next, h.exop, w + h.bits))
  }

  /** Looking up the slot for the next bits in a table. */
  lemma LookupFast(tabs: Tables, l: nat, s: nat, rd: BitReader, from: nat, t: nat, sz: nat, w: nat)
    requires Solid(tabs, l, s) && rd.Valid() && from + 15 <= 8 * |rd.input|
    requires Along(tabs, l, InputBits(rd.input, from, 15), t, sz, w) && rd.Pos() == from + w && w + rd.k >= 15
    ensures sz <= 15 && rd.Low(sz) < |tabs[t]| && AtSlot(tabs, l, s, rd.input, from, tabs[t][rd.Low(sz)], w, rd.k)
  {
    hide LE, InputBits, Walk, Holds, Solid, Pow2;
    var bits := InputBits(rd.input, from, 15);
    WithinFifteen(tabs, l, s, bits, t, sz, w);
    rd.LowIsInput(sz);
    SubBits(rd.input, from, w, sz);
    Lookup(tabs, l, s, bits, t, sz, w);
  }

  /** The first lookup of a code. */
  lemma LookupRoot(tabs: Tables, l: nat, s: nat, rd: BitReader)
    requires Solid(tabs, l, s) && rd.Valid() && rd.k >= 15
    ensures tabs != [] && l <= 15 && rd.Low(l) < |tabs[0]|
    ensures AtSlot(tabs, l, s, rd.input, rd.Pos(), tabs[0][rd.Low(l)], 0, rd.k)
  {
    hide LE, InputBits, Walk, Pow2, InputBit;
    rd.LowIsInput(15);
    AlongRoot(tabs, l, s, InputBits(rd.input, rd.Pos(), 15));
    LookupFast(tabs, l, s, rd, rd.Pos(), 0, l, 0);
  }

  /** How a run stands by the verdict. */
  function StatusOf(r: Code): Status {
    if r == Z_OK then Going else if r == Z_STREAM_END then Ended else Failed
  }

  /** Follows the links of a table to the entry for the next bits, and drops them. */
  method FastFind(tabs: Tables, l: nat, ghost s: nat, rd: BitReader) returns (t: Huft)
    requires Solid(tabs, l, s) && rd.Valid() && rd.k >= 15
    modifies rd`b, rd`k
    ensures rd.Valid() && old(rd.Pos()) < rd.Pos() <= old(rd.Pos()) + 15
    ensures rd.k == old(rd.k) - (rd.Pos() - old(rd.Pos()))
    ensures t.Entry? && SlotOk(t, s) && exists i, j :: 0 <= i < |tabs| && 0 <= j < |tabs[i]| && tabs[i][j] == t
    ensures Walk(tabs, 0, l, 0, Rest(rd.input, old(rd.Pos()))) == Found(t.exop, t.base, rd.Pos() - old(rd.Pos()))
  {
    hide LE, InputBits, Walk, Pow2, Holds, Solid, Along;
    ghost var from, w := rd.Pos(), 0;
    LookupRoot(tabs, l, s, rd);
    FifteenAreEnough(tabs, l, s, rd.input, from);
    t := tabs[0][rd.Low(l)];
    rd.DumpBits(t.bits);
    while t.exop != 0 && !HasExtra(t.exop) && (t.exop / 64) % 2 == 0
      invariant t != Unset && rd.Valid() && AtSlot(tabs, l, s, rd.input, from, t, w, rd.k + t.bits)
      invariant rd.Pos() == from + w + t.bits && rd.k == old(rd.k) - w - t.bits
      invariant exists i, j :: 0 <= i < |tabs| && 0 <= j < |tabs[i]| && tabs[i][j] == t
      decreases 15 - w
    {
      w := w + t.bits;
      LookupFast(tabs, l, s, rd, from, t.next, t.exop, w);
      t := tabs[t.next][rd.Low(t.exop)];
      rd.DumpBits(t.bits);
    }
  }

  /** The distance of a copy, and the copy. len is its length, and 15 bits are in the buffer. */
  method FastDistance(cx: Codes, rd: BitReader, win: RingWindow, len: nat, ghost token: Token) returns (r: Code)
    requires ValidCodes(cx) && rd.Valid() && win.Valid()
    requires rd.k >= 15 && rd.n >= 3 && len <= win.Avail()
    requires token == DistCode(cx, rd.input, rd.Pos(), len)
    requires token.Copy? ==> 3 <= len && 1 <= token.dist <= |win.produced| && token.dist <= win.buf.Length
    modifies rd, win`write, win`produced, win.buf
    ensures rd.Valid() && win.Valid() && rd.p + rd.n == old(rd.p + rd.n) && rd.Pos() > old(rd.Pos())
    ensures rd.n >= old(rd.n) - 3
    ensures r == Z_OK || r == Z_DATA_ERROR
    ensures r == Z_OK ==> token.Copy? && token == Copy(len, token.dist, rd.Pos())
    ensures r == Z_OK ==> win.produced == Copied(old(win.produced), token.dist, len)
    ensures r == Z_DATA_ERROR ==> token == BadCode(rd.Pos()) && win.produced == old(win.produced)
    ensures win.Avail() + |win.produced| == old(win.Avail() + |win.produced|)
  {
    hide LE, InputBits, Walk, Pow2, Holds, Copied, RingWindow.Valid, Solid;
    var t := FastFind(cx.dt, cx.dbits, 0, rd);
    DistFound(cx, rd.input, old(rd.Pos()), rd.Pos() - old(rd.Pos()), t.exop, t.base, len);
    if !HasExtra(t.exop) {
      return Z_DATA_ERROR;
    }
    var e := t.exop % 16;
    rd.GrabBits(e);
    rd.LowIsInput(e);
    var d := t.base + rd.Low(e);
    rd.DumpBits(e);
    FastCopy(win, len, d);
    r := Z_OK;
  }

  /** A length with its extra bits is at most 258. */
  lemma LengthFits(tabs: Tables, h: Huft, v: nat)
    requires LengthEntries(tabs) && h.Entry? && HasExtra(h.exop) && v < Pow2(h.exop % 16)
    requires exists t, j :: 0 <= t < |tabs| && 0 <= j < |tabs[t]| && tabs[t][j] == h
    ensures h.exop % 16 <= 5 && h.base + v <= 258
  {
    hide Pow2;
    var t, j :| 0 <= t < |tabs| && 0 <= j < |tabs[t]| && tabs[t][j] == h;
    assert LengthEntry(tabs[t][j]);
  }

  /**
   * One turn of the loop: a token of the run, with 20 bits in the buffer, 7 more bytes of input and 258 bytes of
   * space at hand.
   */
  method FastToken(cx: Codes, rd: BitReader, win: RingWindow, ghost token: Token) returns (r: Code)
    requires ValidCodes(cx) && rd.Valid() && win.Valid()
    requires rd.k >= 20 && rd.n >= 7 && 258 <= win.Avail()
    requires token == TokenAt(cx, rd.input, rd.Pos())
    requires token.Copy? ==> 3 <= token.len && 1 <= token.dist <= |win.produced| && token.dist <= win.buf.Length
    modifies rd, win`write, win`produced, win.buf
    ensures rd.Valid() && win.Valid() && rd.p + rd.n == old(rd.p + rd.n) && rd.Pos() > old(rd.Pos())
    ensures r == Z_OK || r == Z_STREAM_END || r == Z_DATA_ERROR
    ensures r == Z_OK ==>
      || (token.Literal? && token.next == rd.Pos() && win.produced == old(win.produced) + [token.byte])
      || (token.Copy? && token.next == rd.Pos() && win.produced == Copied(old(win.produced), token.dist, token.len))
    ensures r == Z_STREAM_END ==> token == EndOfBlock(rd.Pos()) && win.produced == old(win.produced)
    ensures r == Z_DATA_ERROR ==> token == BadCode(rd.Pos()) && win.produced == old(win.produced)
    ensures win.Avail() + |win.produced| == old(win.Avail() + |win.produced|)
  {
    hide LE, InputBits, Walk, Pow2, Holds, Copied, RingWindow.Valid, Solid, LengthEntries;
    var t := FastFind(cx.lt, cx.lbits, 257, rd);
    LenFound(cx, rd.input, old(rd.Pos()), rd.Pos() - old(rd.Pos()), t.exop, t.base);
    if t.exop == 0 {
      win.OutByte(t.base % 256);
      return Z_OK;
    } else if !HasExtra(t.exop) {
      return if (t.exop / 32) % 2 == 1 then Z_STREAM_END else Z_DATA_ERROR;
    }
    var e := t.exop % 16;
    LEBound(rd.b[..e]);
    LengthFits(cx.lt, t, rd.Low(e));
    rd.LowIsInput(e);
    var c := t.base + rd.Low(e);
    rd.DumpBits(e);
    rd.GrabBits(15);
    r := FastDistance(cx, rd, win, c, token);
  }

  /**
   * inflate_fast: as long as there is enough of both, tokens are taken from the input. What it comes to is the run
   * of tokens, count of them, that the slow loop follows too. It stops for want of input or space only when little is
   * left of one of them.
   */
  method InflateFast(cx: Codes, rd: BitReader, win: RingWindow, ghost init: Run, ghost start: nat)
    returns (r: Code, ghost count: nat)
    requires ValidCodes(cx) && rd.Valid() && win.Valid() && win.Avail() >= 258 && rd.n >= 10
    requires Proper(cx, rd.input, win.buf.Length, init)
    requires Steps(cx, rd.input, win.buf.Length, init, start) == Run(rd.Pos(), win.produced, Going)
    modifies rd, win`write, win`produced, win.buf
    ensures rd.Valid() && win.Valid() && rd.p + rd.n == old(rd.p + rd.n)
    ensures count > start && rd.Pos() > old(rd.Pos())
    ensures r == Z_OK || r == Z_STREAM_END || r == Z_DATA_ERROR
    ensures Steps(cx, rd.input, win.buf.Length, init, count) == Run(rd.Pos(), win.produced, StatusOf(r))
    ensures win.Avail() + |win.produced| == old(win.Avail() + |win.produced|) && rd.k < 8
    ensures r == Z_OK ==> win.Avail() < 258 || rd.n < 14
  {
    hide LE, InputBits, Walk, Pow2, Holds, Copied, Update, Pack, Between, RingWindow.History, TokenAt, ValidCodes;
    count := start;
    // the loop tests at its end, and the caller has tested before
    while win.Avail() >= 258 && rd.n >= 10
      invariant rd.Valid() && win.Valid() && rd.p + rd.n == old(rd.p + rd.n) && rd.Pos() >= old(rd.Pos())
      invariant count >= start && (count == start ==> win.Avail() >= 258 && rd.n >= 10)
      invariant count > start ==> rd.Pos() > old(rd.Pos())
      invariant win.Avail() + |win.produced| == old(win.Avail() + |win.produced|)
      invariant Steps(cx, rd.input, win.buf.Length, init, count) == Run(rd.Pos(), win.produced, Going)
      decreases 8 * |rd.input| - rd.Pos()
    {
      ghost var token := TokenAt(cx, rd.input, rd.Pos());
      assert Steps(cx, rd.input, win.buf.Length, init, count + 1).status != Improper;
      rd.GrabBits(20);
      r := FastToken(cx, rd, win, token);
      count := count + 1;
      if r != Z_OK {
        rd.Ungrab();
        return;
      }
    }
    rd.Ungrab();
    r := Z_OK;
  }
}
