/** The states of the resumable decoding loop of inflate, and what each of them says about the run of tokens (zlib.c). */
module InflateModes {

  import opened Arith
  import opened BitStrings
  import opened HuffmanTable
  import opened HuffmanInvariant
  import opened HuftBuild
  import opened Adler32
  import opened InflateSpec
  import opened Lz77

  /** The mode of the codes state, with the members of its union that are in use in that mode. */
  datatype Mode =
    | START
    | LEN(tree: nat, need: nat)
    | LENEXT(get: nat)
    | DIST(tree: nat, need: nat)
    | DISTEXT(get: nat, dist: nat)
    | COPY(dist: nat)
    | LIT(lit: Byte)
    | WASH
    | END
    | BADCODE

  /** How near a mode is to needing input: orders the modes between which no bits are used. */
  function Rank(mode: Mode): nat {
    match mode
    case DISTEXT(_, _) => 5
    case COPY(_) => 4
    case LIT(_) => 4
    case START => 3
    case LEN(_, _) => 2
    case LENEXT(_) => 2
    case DIST(_, _) => 1
    case WASH => 1
    case END => 0
    case BADCODE => 0
  }

  /** Table t of sz bits, w bits in, is where the lookup of a string goes on. */
  ghost predicate Along(tabs: Tables, l: nat, bits: Bits, t: nat, sz: nat, w: nat) {
    && t < |tabs| && |tabs[t]| == Pow2(sz) && 1 <= sz <= 15
    && Walk(tabs, 0, l, 0, bits) == Walk(tabs, t, sz, w, bits)
  }

  lemma AlongRoot(tabs: Tables, l: nat, s: nat, bits: Bits)
    requires Solid(tabs, l, s)
    ensures Along(tabs, l, bits, 0, l, 0)
  {
    hide Walk, Pow2;
  }

  lemma {:induction false} Pow2Order(a: nat, b: nat)
    requires Pow2(a) <= Pow2(b)
    ensures a <= b
  {
    if a > 0 && b > 0 {
      Pow2Order(a - 1, b - 1);
    }
  }

  lemma RestSlice(input: seq<Byte>, from: nat, pos: nat, n: nat)
    requires from <= pos && pos + n <= 8 * |input|
    ensures pos - from + n <= |Rest(input, from)|
    ensures Rest(input, from)[pos - from..pos - from + n] == InputBits(input, pos, n)
  {
    hide InputBit;
    var r, q := Rest(input, from), InputBits(input, pos, n);
    forall i | 0 <= i < n
      ensures r[pos - from..pos - from + n][i] == q[i]
    {
      assert r[pos - from + i] == InputBit(input, pos + i);
    }
  }

  /** The slot that table t of sz bits has for the bits from w on. */
  ghost function SlotAt(tabs: Tables, bits: Bits, t: nat, sz: nat, w: nat): Huft {
    if t < |tabs| && w + sz <= |bits| && LE(bits[w..w + sz]) < |tabs[t]| then tabs[t][LE(bits[w..w + sz])] else Unset
  }

  /** One lookup: the slot exists and is set, drops no more bits than were looked up, and the walk goes on from it. */
  lemma Lookup(tabs: Tables, l: nat, s: nat, bits: Bits, t: nat, sz: nat, w: nat)
    requires Solid(tabs, l, s) && Along(tabs, l, bits, t, sz, w) && w + sz <= |bits|
    ensures var j, h := LE(bits[w..w + sz]), SlotAt(tabs, bits, t, sz, w);
      && j < |tabs[t]| && h == tabs[t][j] && h != Unset
      && 1 <= h.bits <= sz && SlotOk(h, s)
      && (h.Entry? ==> Walk(tabs, 0, l, 0, bits) == Found(h.exop, h.base, w + h.bits))
      && (h.Link? ==> Along(tabs, l, bits, h.next, h.exop, w + h.bits))
  {
    hide LE, Pow2;
    LEBound(bits[w..w + sz]);
    var h := tabs[t][LE(bits[w..w + sz])];
    assert SlotFits(tabs, t, h);
    Pow2Order(h.bits, sz);
  }

  /**
   * What a mode says: how much of the next token has been read, how much of it is written, and where in the input
   * the rest of it is. from is where the lookup in progress began, total the length of the copy in progress.
   */
  ghost predicate ModeOk(cx: Codes, input: seq<Byte>, window: nat, run: Run, mode: Mode, len: nat,
                         pos: nat, from: nat, total: nat, produced: seq<Byte>) {
    match mode
    case START => run == Run(pos, produced, Going)
    case LEN(t, sz) =>
      run == Run(from, produced, Going) && from <= pos && Along(cx.lt, cx.lbits, Rest(input, from), t, sz, pos - from)
    case LENEXT(get) =>
      run == Run(run.pos, produced, Going) && get <= 15 && TokenAt(cx, input, run.pos) == LenExtra(cx, input, pos, get, len)
    case DIST(t, sz) =>
      && run == Run(run.pos, produced, Going) && TokenAt(cx, input, run.pos) == DistCode(cx, input, from, len)
      && from <= pos && Along(cx.dt, cx.dbits, Rest(input, from), t, sz, pos - from)
    case DISTEXT(get, dist) =>
      && run == Run(run.pos, produced, Going) && get <= 15
      && TokenAt(cx, input, run.pos) == DistExtra(input, pos, get, dist, len)
    case COPY(dist) =>
      && run.status == Going && TokenAt(cx, input, run.pos) == Copy(total, dist, pos)
      && 3 <= total && 1 <= dist <= |run.out| && dist <= window && len <= total
      && produced == Copied(run.out, dist, total - len)
    case LIT(x) => run == Run(run.pos, produced, Going) && TokenAt(cx, input, run.pos) == Literal(x, pos)
    case WASH => run == Run(pos, produced, Ended)
    case END => run == Run(pos, produced, Ended)
    case BADCODE => run == Run(pos, produced, Failed)
  }

  /** What looking up a literal or length code found, as a token. */
  lemma LenFound(cx: Codes, input: seq<Byte>, from: nat, used: nat, exop: nat, base: nat)
    requires Walk(cx.lt, 0, cx.lbits, 0, Rest(input, from)) == Found(exop, base, used)
    ensures TokenAt(cx, input, from) == AfterLen(cx, input, from + used, exop, base)
  {
    hide Walk, Rest, AfterLen;
  }

  lemma DistFound(cx: Codes, input: seq<Byte>, from: nat, used: nat, exop: nat, base: nat, len: nat)
    requires Walk(cx.dt, 0, cx.dbits, 0, Rest(input, from)) == Found(exop, base, used)
    ensures DistCode(cx, input, from, len) == AfterDist(input, from + used, exop, base, len)
  {
    hide Walk, Rest, AfterDist;
  }

  /** The slot t was found for the bits at position pos, in the lookup that began at from. */
  ghost predicate FoundSlot(tabs: Tables, l: nat, s: nat, input: seq<Byte>, from: nat, pos: nat, t: Huft) {
    && t != Unset && 1 <= t.bits && from <= pos && SlotOk(t, s)
    && var w := pos + t.bits - from;
      && (t.Entry? ==> Walk(tabs, 0, l, 0, Rest(input, from)) == Found(t.exop, t.base, w))
      && (t.Link? ==> Along(tabs, l, Rest(input, from), t.next, t.exop, w))
  }

  /** Where LEN goes from a slot: the next mode, and whether a token is complete. */
  lemma LenTurn(cx: Codes, input: seq<Byte>, window: nat, run: Run, len: nat, pos: nat, from: nat, total: nat,
                produced: seq<Byte>, t: Huft)
    requires run == Run(from, produced, Going) && FoundSlot(cx.lt, cx.lbits, 257, input, from, pos, t)
    ensures var next := pos + t.bits;
      if t.exop == 0 then
        t.Entry? && ModeOk(cx, input, window, run, LIT(t.base % 256), len, next, from, total, produced)
      else if HasExtra(t.exop) then
        t.Entry? && ModeOk(cx, input, window, run, LENEXT(t.exop % 16), t.base, next, from, total, produced)
      else if (t.exop / 64) % 2 == 0 then
        t.Link? && ModeOk(cx, input, window, run, LEN(t.next, t.exop), len, next, from, total, produced)
      else
        var mode := if (t.exop / 32) % 2 == 1 then WASH else BADCODE;
        ModeOk(cx, input, window, Step(cx, input, window, run), mode, len, next, from, total, produced)
  {
    hide Walk, Rest, Along, TokenAt;
    if t.Entry? {
      LenFound(cx, input, from, pos + t.bits - from, t.exop, t.base);
    }
  }

  /** Where DIST goes from a slot. */
  lemma DistTurn(cx: Codes, input: seq<Byte>, window: nat, run: Run, len: nat, pos: nat, from: nat, total: nat,
                 produced: seq<Byte>, t: Huft)
    requires run == Run(run.pos, produced, Going) && FoundSlot(cx.dt, cx.dbits, 0, input, from, pos, t)
    requires TokenAt(cx, input, run.pos) == DistCode(cx, input, from, len)
    ensures var next := pos + t.bits;
      if HasExtra(t.exop) then
        t.Entry? && ModeOk(cx, input, window, run, DISTEXT(t.exop % 16, t.base), len, next, from, total, produced)
      else if (t.exop / 64) % 2 == 0 then
        t.Link? && ModeOk(cx, input, window, run, DIST(t.next, t.exop), len, next, from, total, produced)
      else
        ModeOk(cx, input, window, Step(cx, input, window, run), BADCODE, len, next, from, total, produced)
  {
    hide Walk, Rest, Along, TokenAt;
    if t.Entry? {
      DistFound(cx, input, from, pos + t.bits - from, t.exop, t.base, len);
    }
  }

  lemma SolidBits(tabs: Tables, l: nat, s: nat)
    requires Solid(tabs, l, s)
    ensures 1 <= l <= 15
  {
  }

  /** LENEXT goes on to the distance code. */
  lemma LenExtTurn(cx: Codes, input: seq<Byte>, window: nat, run: Run, get: nat, len: nat, pos: nat, total: nat,
                   produced: seq<Byte>)
    requires Solid(cx.dt, cx.dbits, 0) && run == Run(run.pos, produced, Going)
    requires TokenAt(cx, input, run.pos) == LenExtra(cx, input, pos, get, len) && pos + get <= 8 * |input|
    ensures var next, len' := pos + get, len + LE(InputBits(input, pos, get));
      ModeOk(cx, input, window, run, DIST(0, cx.dbits), len', next, next, total, produced)
  {
    hide Walk, Rest, TokenAt, DistCode, LE, InputBits, Along, Solid;
    AlongRoot(cx.dt, cx.dbits, 0, Rest(input, pos + get));
    SolidBits(cx.dt, cx.dbits, 0);
  }

  /** DISTEXT goes on to the copy. */
  lemma DistExtTurn(cx: Codes, input: seq<Byte>, window: nat, run: Run, get: nat, dist: nat, len: nat, pos: nat,
                    from: nat, produced: seq<Byte>)
    requires run == Run(run.pos, produced, Going) && Step(cx, input, window, run).status != Improper
    requires TokenAt(cx, input, run.pos) == DistExtra(input, pos, get, dist, len) && pos + get <= 8 * |input|
    ensures var d := dist + LE(InputBits(input, pos, get));
      ModeOk(cx, input, window, run, COPY(d), len, pos + get, from, len, produced)
  {
    hide Walk, Rest, TokenAt, LE, InputBits;
    assert Copied(run.out, dist + LE(InputBits(input, pos, get)), 0) == produced;
  }

  /** The bytes of a literal or a copy complete the token. */
  lemma LitTurn(cx: Codes, input: seq<Byte>, window: nat, run: Run, x: Byte, len: nat, pos: nat, from: nat, total: nat,
                produced: seq<Byte>)
    requires ModeOk(cx, input, window, run, LIT(x), len, pos, from, total, produced)
    ensures ModeOk(cx, input, window, Step(cx, input, window, run), START, len, pos, from, total, produced + [x])
  {
    hide TokenAt;
  }

  lemma CopyTurn(cx: Codes, input: seq<Byte>, window: nat, run: Run, dist: nat, pos: nat, from: nat, total: nat,
                 produced: seq<Byte>)
    requires ModeOk(cx, input, window, run, COPY(dist), 0, pos, from, total, produced)
    ensures ModeOk(cx, input, window, Step(cx, input, window, run), START, 0, pos, from, total, produced)
  {
    hide TokenAt, Copied;
  }

  /** One byte of a copy. */
  lemma CopyByteTurn(cx: Codes, input: seq<Byte>, window: nat, run: Run, dist: nat, len: nat, pos: nat, from: nat,
                     total: nat, produced: seq<Byte>)
    requires ModeOk(cx, input, window, run, COPY(dist), len, pos, from, total, produced) && len > 0
    ensures 1 <= dist <= |produced| && dist <= window
    ensures ModeOk(cx, input, window, run, COPY(dist), len - 1, pos, from, total, produced + [produced[|produced| - dist]])
  {
    hide TokenAt;
    assert Copied(run.out, dist, total - len + 1) == produced + [produced[|produced| - dist]];
  }

  /** Every copy of the run is one that deflate allows. */
  ghost predicate Proper(cx: Codes, input: seq<Byte>, window: nat, init: Run) {
    forall n: nat :: Steps(cx, input, window, init, n).status != Improper
  }

  /** A run ends in one way only, however far it is followed. */
  lemma {:induction false} EndsOnce(cx: Codes, input: seq<Byte>, window: nat, init: Run, n: nat, m: nat)
    requires n <= m && Steps(cx, input, window, init, n).status != Going
    ensures Steps(cx, input, window, init, m) == Steps(cx, input, window, init, n)
    decreases m
  {
    if n < m {
      EndsOnce(cx, input, window, init, n, m - 1);
    }
  }

  /** What has been produced is never taken back. */
  lemma {:induction false} OutputGrows(cx: Codes, input: seq<Byte>, window: nat, init: Run, n: nat, m: nat)
    requires n <= m
    ensures Steps(cx, input, window, init, n).out <= Steps(cx, input, window, init, m).out
    decreases m
  {
    hide TokenAt, Copied;
    if n < m {
      OutputGrows(cx, input, window, init, n, m - 1);
    }
  }

  lemma TokenForward(cx: Codes, input: seq<Byte>, p: nat)
    ensures TokenAt(cx, input, p) != Starved ==> TokenAt(cx, input, p).next >= p
  {
    hide Walk, Rest, LE, InputBits;
  }

  lemma {:induction false} PositionGrows(cx: Codes, input: seq<Byte>, window: nat, init: Run, n: nat, m: nat)
    requires n <= m
    ensures Steps(cx, input, window, init, n).pos <= Steps(cx, input, window, init, m).pos
    decreases m
  {
    hide TokenAt, Copied;
    if n < m {
      PositionGrows(cx, input, window, init, n, m - 1);
      TokenForward(cx, input, Steps(cx, input, window, init, m - 1).pos);
    }
  }

  /** What a run has written so far, even of a copy it is in the middle of, is the beginning of what it ends with. */
  lemma WrittenSoFar(cx: Codes, input: seq<Byte>, window: nat, init: Run, n: nat, m: nat, mode: Mode, len: nat,
                     pos: nat, from: nat, total: nat, produced: seq<Byte>)
    requires ModeOk(cx, input, window, Steps(cx, input, window, init, n), mode, len, pos, from, total, produced)
    requires Steps(cx, input, window, init, m).status == Ended
    ensures produced <= Steps(cx, input, window, init, m).out
  {
    hide Walk, Rest, TokenAt, Along;
    var run := Steps(cx, input, window, init, n);
    if n >= m {
      EndsOnce(cx, input, window, init, m, n);
    } else if mode.COPY? {
      CopiedGrows(run.out, mode.dist, total - len, total);
      assert Steps(cx, input, window, init, n + 1) == Step(cx, input, window, run);
      OutputGrows(cx, input, window, init, n + 1, m);
    } else {
      OutputGrows(cx, input, window, init, n, m);
    }
  }

  /** A run that ends does not meet the end of the input. */
  lemma TokenComes(cx: Codes, input: seq<Byte>, window: nat, init: Run, n: nat, m: nat)
    requires n < m && Steps(cx, input, window, init, n).status == Going
    requires Steps(cx, input, window, init, m).status in {Ended, Failed}
    ensures TokenAt(cx, input, Steps(cx, input, window, init, n).pos) != Starved
  {
    hide TokenAt;
    if Steps(cx, input, window, init, n + 1).status == OutOfInput {
      EndsOnce(cx, input, window, init, n + 1, m);
    }
  }

  /** The bits that a mode asks for in the middle of a token are there, if the token is. */
  lemma NeededBits(cx: Codes, input: seq<Byte>, window: nat, run: Run, mode: Mode, len: nat, pos: nat, from: nat,
                   total: nat, produced: seq<Byte>)
    requires ModeOk(cx, input, window, run, mode, len, pos, from, total, produced)
    requires TokenAt(cx, input, run.pos) != Starved && pos <= 8 * |input|
    ensures match mode
            case LEN(_, need) => pos + need <= 8 * |input|
            case LENEXT(get) => pos + get <= 8 * |input|
            case DIST(_, need) => pos + need <= 8 * |input|
            case DISTEXT(get, _) => pos + get <= 8 * |input|
            case _ => true
  {
  }
}
