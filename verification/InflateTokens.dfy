/**
 * What a compressed block means by RFC 1951, said without tables: a sequence of literals and copies, spelled with
 * canonical codes and extra bits. The tables of huft_build decode every block that is spelled like this.
 */
module InflateTokens {

  import opened Arith
  import opened DeflateLengths
  import opened BitStrings
  import opened HuffmanCode
  import opened HuffmanTable
  import opened HuftBuild
  import opened InflateSpec
  import opened InflateCodes
  import opened InflateModes
  import opened InflateTrees
  import opened Lz77

  /** One step of a block; the extra bits of lengths and distances are given as numbers. */
  datatype Op =
    | Lit(x: Byte)
    | Match(length: nat, lengthExtra: nat, distance: nat, distanceExtra: nat)

  /** The code lengths of a block. */
  datatype Book = Book(lits: seq<nat>, dists: seq<nat>)

  ghost predicate BookOk(book: Book) {
    Lengths(book.lits) && 257 <= |book.lits| <= 288 && Lengths(book.dists) && |book.dists| <= 30
  }

  /** The canonical code of a symbol stands at position p. */
  ghost predicate SymbolAt(input: seq<Byte>, p: nat, b: seq<nat>, sym: nat)
    requires Lengths(b)
  {
    && sym < |b| && b[sym] != 0 && p + b[sym] <= 8 * |input|
    && BE(InputBits(input, p, b[sym])) == CodeOf(b, CountsIn(b), sym)
  }

  ghost predicate ExtraAt(input: seq<Byte>, p: nat, n: nat, x: nat) {
    p + n <= 8 * |input| && LE(InputBits(input, p, n)) == x
  }

  /** Where the parts of a match begin: its length's extra bits, its distance code, and that one's extra bits. */
  ghost function Parts(book: Book, p: nat, op: Op): (nat, nat, nat)
    requires BookOk(book) && op.Match? && op.length < 29 && 257 + op.length < |book.lits| && op.distance < |book.dists|
  {
    var p1 := p + book.lits[257 + op.length];
    var p2 := p1 + LengthExtra(op.length);
    (p1, p2, p2 + book.dists[op.distance])
  }

  ghost predicate InBook(book: Book, op: Op) {
    op.Match? ==> op.length < 29 && 257 + op.length < |book.lits| && op.distance < |book.dists|
  }

  /** The step is spelled out from position p on. */
  ghost predicate OpAt(input: seq<Byte>, book: Book, p: nat, op: Op)
    requires BookOk(book)
  {
    && InBook(book, op)
    && match op
       case Lit(x) => SymbolAt(input, p, book.lits, x)
       case Match(l, lx, d, dx) =>
         var (p1, p2, p3) := Parts(book, p, op);
         && SymbolAt(input, p, book.lits, 257 + l) && ExtraAt(input, p1, LengthExtra(l), lx)
         && SymbolAt(input, p2, book.dists, d) && ExtraAt(input, p3, DistanceExtra(d), dx)
  }

  ghost function OpEnd(book: Book, p: nat, op: Op): (r: nat)
    requires BookOk(book) && InBook(book, op)
    ensures r >= p
  {
    match op
    case Lit(x) => p + book.lits[x]
    case Match(_, _, d, _) => Parts(book, p, op).2 + DistanceExtra(d)
  }

  /** A step appends a byte, or the bytes found some way back (section 3.2.5 of RFC 1951). */
  ghost predicate Allowed(out: seq<Byte>, window: nat, op: Op) {
    op.Match? ==> op.length < 29 && op.distance < 30 && Distance(op) <= |out| && Distance(op) <= window
  }

  function Length(op: Op): nat
    requires op.Match?
  {
    LengthBase(op.length) + op.lengthExtra
  }

  function Distance(op: Op): (r: nat)
    requires op.Match?
    ensures r >= 1
  {
    DistanceBase(op.distance) + op.distanceExtra
  }

  ghost function Apply(out: seq<Byte>, window: nat, op: Op): seq<Byte>
    requires Allowed(out, window, op)
  {
    match op
    case Lit(x) => out + [x]
    case Match(_, _, _, _) => Copied(out, Distance(op), Length(op))
  }

  /** What a match appends, byte by byte: as many as its length says, each found its distance back. */
  lemma MatchAppends(out: seq<Byte>, window: nat, op: Op)
    requires op.Match? && Allowed(out, window, op)
    ensures var r := Apply(out, window, op);
      && |r| == |out| + Length(op) && r[..|out|] == out
      && forall i :: |out| <= i < |r| ==> r[i] == r[i - Distance(op)]
  {
    hide Copied, Distance, Length;
    forall i | |out| <= i < |out| + Length(op)
      ensures Apply(out, window, op)[i] == Apply(out, window, op)[i - Distance(op)]
    {
      CopiedByte(out, Distance(op), Length(op), i);
    }
  }

  /** The steps are spelled out one after the other from position p on, and each is allowed where it stands. */
  ghost predicate Spelled(input: seq<Byte>, book: Book, window: nat, p: nat, out: seq<Byte>, ops: seq<Op>)
    requires BookOk(book)
    decreases |ops|, 0
  {
    ops == [] ||
    (var front, op := ops[..|ops| - 1], ops[|ops| - 1];
      && Spelled(input, book, window, p, out, front)
      && OpAt(input, book, EndOf(input, book, window, p, out, front).0, op)
      && Allowed(EndOf(input, book, window, p, out, front).1, window, op))
  }

  /** Where the steps end and what they have made of the output. */
  ghost function EndOf(input: seq<Byte>, book: Book, window: nat, p: nat, out: seq<Byte>, ops: seq<Op>): (nat, seq<Byte>)
    requires BookOk(book) && Spelled(input, book, window, p, out, ops)
    decreases |ops|, 1
  {
    if ops == [] then (p, out)
    else
      var front, op := ops[..|ops| - 1], ops[|ops| - 1];
      var (q, made) := EndOf(input, book, window, p, out, front);
      (OpEnd(book, q, op), Apply(made, window, op))
  }

  /** The tables decode the canonical codes of the book. */
  ghost predicate Reads(cx: Codes, book: Book)
    requires BookOk(book)
  {
    && |CPLENS| == |CPLEXT| == 31 && |CPDIST| == |CPDEXT| == 30
    && DecodesCanonical(cx.lt, cx.lbits, book.lits, 257, CPLENS, CPLEXT)
    && DecodesCanonical(cx.dt, cx.dbits, book.dists, 0, CPDIST, CPDEXT)
  }

  /** A symbol whose code stands at p is found there, with 15 bits to look at. */
  lemma SymbolFound(tabs: Tables, l: nat, b: seq<nat>, s: nat, d: seq<nat>, e: seq<nat>, input: seq<Byte>, p: nat, sym: nat)
    requires Lengths(b) && |b| <= s + |d| && |d| == |e| && DecodesCanonical(tabs, l, b, s, d, e)
    requires SymbolAt(input, p, b, sym) && p + 15 <= 8 * |input|
    ensures Walk(tabs, 0, l, 0, Rest(input, p)) == Found(SymbolExop(s, e, sym), SymbolBase(s, d, sym), b[sym])
  {
    hide Walk, CodeOf, BE;
    assert Rest(input, p)[..b[sym]] == InputBits(input, p, b[sym]);
  }

  lemma MatchExops(l: nat, d: nat)
    requires l < 29 && d < 30
    ensures CPLEXT[l] <= 5 && CPDEXT[d] <= 13 && CPLENS[l] >= 3
    ensures CPLENS[l] == LengthBase(l) && CPLEXT[l] == LengthExtra(l)
    ensures CPDIST[d] == DistanceBase(d) && CPDEXT[d] == DistanceExtra(d)
  {
    hide LengthBase, DistanceBase;
    TablesAreStandard(l, d);
  }

  /** Reading one step reads what is spelled. */
  lemma OpToken(cx: Codes, book: Book, input: seq<Byte>, p: nat, op: Op)
    requires BookOk(book) && Reads(cx, book) && OpAt(input, book, p, op)
    requires OpEnd(book, p, op) + 15 <= 8 * |input|
    ensures TokenAt(cx, input, p) == match op
            case Lit(x) => Literal(x, OpEnd(book, p, op))
            case Match(_, _, _, _) => Copy(Length(op), Distance(op), OpEnd(book, p, op))
  {
    hide Walk, CodeOf, BE, LE, Rest, InputBits, DecodesCanonical, CPLENS, CPLEXT, CPDIST, CPDEXT, LengthBase, LengthExtra, DistanceBase, DistanceExtra;
    match op
    case Lit(x) =>
      SymbolFound(cx.lt, cx.lbits, book.lits, 257, CPLENS, CPLEXT, input, p, x);
    case Match(l, lx, d, dx) =>
      var (p1, p2, p3) := Parts(book, p, op);
      MatchExops(l, d);
      SymbolFound(cx.lt, cx.lbits, book.lits, 257, CPLENS, CPLEXT, input, p, 257 + l);
      LengthToken(cx, input, p, book.lits[257 + l], l, lx);
      SymbolFound(cx.dt, cx.dbits, book.dists, 0, CPDIST, CPDEXT, input, p2, d);
      DistanceToken(cx, input, p2, book.dists[d], d, dx, CPLENS[l] + lx);
  }

  /** From a length symbol on. */
  lemma LengthToken(cx: Codes, input: seq<Byte>, p: nat, used: nat, l: nat, lx: nat)
    requires l < 29 && |CPLENS| == |CPLEXT| == 31
    requires Walk(cx.lt, 0, cx.lbits, 0, Rest(input, p)) == Found(SymbolExop(257, CPLEXT, 257 + l), CPLENS[l], used)
    requires ExtraAt(input, p + used, CPLEXT[l], lx)
    ensures TokenAt(cx, input, p) == DistCode(cx, input, p + used + CPLEXT[l], CPLENS[l] + lx)
  {
    hide Walk, LE, Rest, InputBits, DistCode, CPLENS, CPLEXT;
    MatchExops(l, 0);
    ExopOfExtra(CPLEXT[l]);
  }

  /** From a distance symbol on. */
  lemma DistanceToken(cx: Codes, input: seq<Byte>, p: nat, used: nat, d: nat, dx: nat, len: nat)
    requires d < 30 && |CPDIST| == |CPDEXT| == 30
    requires Walk(cx.dt, 0, cx.dbits, 0, Rest(input, p)) == Found(SymbolExop(0, CPDEXT, d), CPDIST[d], used)
    requires ExtraAt(input, p + used, CPDEXT[d], dx)
    ensures DistCode(cx, input, p, len) == Copy(len, CPDIST[d] + dx, p + used + CPDEXT[d])
  {
    hide Walk, LE, Rest, InputBits, CPDIST, CPDEXT;
    MatchExops(0, d);
    ExopOfExtra(CPDEXT[d]);
  }

  /** Following the tokens of a spelled block makes the output that its steps mean. */
  lemma {:induction false} StepsFollow(cx: Codes, book: Book, input: seq<Byte>, window: nat, p: nat, out: seq<Byte>, ops: seq<Op>)
    requires BookOk(book) && Reads(cx, book) && Spelled(input, book, window, p, out, ops)
    requires EndOf(input, book, window, p, out, ops).0 + 15 <= 8 * |input|
    ensures var (q, made) := EndOf(input, book, window, p, out, ops);
      Steps(cx, input, window, Run(p, out, Going), |ops|) == Run(q, made, Going)
    decreases |ops|
  {
    hide TokenAt, OpAt, DecodesCanonical, CPLENS, CPLEXT, CPDIST, CPDEXT, LengthBase, LengthExtra, DistanceBase, DistanceExtra;
    if ops != [] {
      var front, op := ops[..|ops| - 1], ops[|ops| - 1];
      StepsFollow(cx, book, input, window, p, out, front);
      OpToken(cx, book, input, EndOf(input, book, window, p, out, front).0, op);
      if op.Match? {
        MatchExops(op.length, op.distance);
      }
    }
  }

  /** A whole block: steps and then the code of symbol 256. It ends there, with the output that it means. */
  lemma BlockDecodes(cx: Codes, book: Book, input: seq<Byte>, window: nat, p: nat, out: seq<Byte>, ops: seq<Op>)
    requires BookOk(book) && Reads(cx, book) && Spelled(input, book, window, p, out, ops)
    requires SymbolAt(input, EndOf(input, book, window, p, out, ops).0, book.lits, 256)
    requires EndOf(input, book, window, p, out, ops).0 + 15 <= 8 * |input|
    ensures var (q, made) := EndOf(input, book, window, p, out, ops);
      Steps(cx, input, window, Run(p, out, Going), |ops| + 1) == Run(q + book.lits[256], made, Ended)
    ensures Proper(cx, input, window, Run(p, out, Going))
  {
    hide Walk, Spelled, EndOf, DecodesCanonical, InputBits, Rest, BE, CodeOf, CPLENS, CPLEXT, CPDIST, CPDEXT;
    var (q, made) := EndOf(input, book, window, p, out, ops);
    StepsFollow(cx, book, input, window, p, out, ops);
    SymbolFound(cx.lt, cx.lbits, book.lits, 257, CPLENS, CPLEXT, input, q, 256);
    EndToken(cx, input, q, book.lits[256]);
    EndsProperly(cx, input, window, Run(p, out, Going), |ops| + 1);
  }

  lemma EndToken(cx: Codes, input: seq<Byte>, p: nat, used: nat)
    requires Walk(cx.lt, 0, cx.lbits, 0, Rest(input, p)) == Found(96, 256, used)
    ensures TokenAt(cx, input, p) == EndOfBlock(p + used)
  {
    hide Walk, Rest;
    assert !HasExtra(96);
  }

  /** A run that ends well has only met copies that deflate allows. */
  lemma EndsProperly(cx: Codes, input: seq<Byte>, window: nat, init: Run, m: nat)
    requires Steps(cx, input, window, init, m).status == Ended
    ensures Proper(cx, input, window, init)
  {
    hide Step;
    forall n: nat
      ensures Steps(cx, input, window, init, n).status != Improper
    {
      if Steps(cx, input, window, init, n).status != Going {
        if n <= m {
          EndsOnce(cx, input, window, init, n, m);
        } else {
          EndsOnce(cx, input, window, init, m, n);
        }
      }
    }
  }

  /**
   * inflate_codes on a spelled block: whatever calls were made, it never reports bad data, what has been written is
   * the beginning of what the block means, and at the end all of it has been delivered. Once all the input is
   * there, no call comes back for want of it.
   */
  lemma BlockInflates(a: Inflater, book: Book, ops: seq<Op>)
    requires a.Valid() && a.init.status == Going && BookOk(book) && Reads(a.cx, book)
    requires Spelled(a.rd.input, book, a.win.buf.Length, a.init.pos, a.init.out, ops)
    requires var q := EndOf(a.rd.input, book, a.win.buf.Length, a.init.pos, a.init.out, ops).0;
      SymbolAt(a.rd.input, q, book.lits, 256) && q + 15 <= 8 * |a.rd.input|
    ensures var made := EndOf(a.rd.input, book, a.win.buf.Length, a.init.pos, a.init.out, ops).1;
      a.win.produced <= made && a.mode != BADCODE && (a.mode == END ==> a.win.out == made)
    ensures a.rd.p + a.rd.n == |a.rd.input| ==> !a.Starving()
  {
    hide Spelled, EndOf, Steps, ModeOk, SymbolAt, Reads;
    var window := a.win.buf.Length;
    BlockDecodes(a.cx, book, a.rd.input, window, a.init.pos, a.init.out, ops);
    EndsWith(a, |ops| + 1);
    if a.rd.p + a.rd.n == |a.rd.input| {
      NotStarving(a, |ops| + 1);
    }
  }

  /** Any state on the way of a run that ends. */
  lemma EndsWith(a: Inflater, m: nat)
    requires a.Valid() && Steps(a.cx, a.rd.input, a.win.buf.Length, a.init, m).status == Ended
    ensures var made := Steps(a.cx, a.rd.input, a.win.buf.Length, a.init, m).out;
      a.win.produced <= made && a.mode != BADCODE && (a.mode == END ==> a.win.out == made)
  {
    hide Steps;
    WrittenSoFar(a.cx, a.rd.input, a.win.buf.Length, a.init, a.count, m, a.mode, a.len, a.rd.Pos(), a.from, a.total, a.win.produced);
    a.ByMode();
    if a.run.status != Going {
      if a.count <= m {
        EndsOnce(a.cx, a.rd.input, a.win.buf.Length, a.init, a.count, m);
      } else {
        EndsOnce(a.cx, a.rd.input, a.win.buf.Length, a.init, m, a.count);
      }
    }
  }
}
