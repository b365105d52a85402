/** A block whose end the fast loop finds with output pending that there is no room for (zlib.c, inflate_codes). */
module InflateExample {

  import opened Arith
  import opened BitStrings
  import opened HuffmanCode
  import opened HuftBuild
  import opened BitBuffer
  import opened Lz77
  import opened Adler32
  import opened InflateSpec
  import opened InflateModes
  import opened InflateTrees
  import opened InflateCodes
  import opened InflateTokens
  import opened ReturnCodes
  import opened Window

  /** With the fixed codes, the literal 0 and the end of the block, and more bytes after them. */
  const INPUT: seq<Byte> := [12, 0, 0, 0, 0, 0, 0, 0, 0, 0, 0, 0, 0, 0, 0, 0, 0, 0, 0, 0]

  lemma Twelve()
    ensures ToBits(12, 8) == Zeros(2) + [true, true] + Zeros(4) && ToBits(0, 8) == Zeros(8)
  {
    assert ToBits(0, 4) == Zeros(4);
    assert ToBits(1, 5) == [true] + ToBits(0, 4);
    assert ToBits(3, 6) == [true] + ToBits(1, 5);
    assert ToBits(6, 7) == [false] + ToBits(3, 6);
    assert ToBits(12, 8) == [false] + ToBits(6, 7);
    assert ToBits(0, 8) == Zeros(4) + ToBits(0, 4);
  }

  lemma FortyEight()
    ensures BE(Zeros(2) + [true, true] + Zeros(4)) == 48
  {
    ZerosValue(2);
    ZerosValue(4);
    BEConcat(Zeros(2), [true, true]);
    BEConcat(Zeros(2) + [true, true], Zeros(4));
    assert [true, true][..1] == [true] && BE([true]) == 1;
    assert Pow2(2) == 4 && Pow2(4) == 16;
  }

  lemma InputSpells()
    ensures BE(InputBits(INPUT, 0, 8)) == 48 && BE(InputBits(INPUT, 8, 7)) == 0
  {
    hide ToBits, BE, Pow2;
    Twelve();
    FortyEight();
    ZerosValue(7);
    assert INPUT[0] == 12 && INPUT[1] == 0;
    assert InputBits(INPUT, 0, 8) == ToBits(12, 8);
    assert InputBits(INPUT, 8, 7) == Zeros(7);
  }

  /** The input spells the literal 0 and the end of the block, and means one byte. */
  lemma Spells()
    ensures var book, ops := Book(FIXED_LITS, FIXED_DISTS), [Lit(0)];
      && BookOk(book) && Spelled(INPUT, book, 600, 0, [], ops) && EndOf(INPUT, book, 600, 0, [], ops) == (8, [0])
      && SymbolAt(INPUT, 8, FIXED_LITS, 256)
  {
    hide BE, InputBits, CountsIn, CountOf, FirstCode, KraftSum, Pow2, CPLENS, CPLEXT, CPDIST, CPDEXT;
    FixedKraft();
    InputSpells();
    FixedFirstCodes();
    FixedCounts(7);
    NoneYet();
    var book, ops := Book(FIXED_LITS, FIXED_DISTS), [Lit(0)];
    assert FIXED_LITS[0] == 8 && FIXED_LITS[256] == 7;
    assert ops[..|ops| - 1] == [] && ops[|ops| - 1] == Lit(0);
    assert Spelled(INPUT, book, 600, 0, [], []) && EndOf(INPUT, book, 600, 0, [], []) == (0, []);
    assert OpAt(INPUT, book, 0, Lit(0)) && OpEnd(book, 0, Lit(0)) == 8;
    assert Apply([], 600, Lit(0)) == [0];
    assert EndOf(INPUT, book, 600, 0, [], ops) == (OpEnd(book, 0, Lit(0)), Apply([], 600, Lit(0)));
  }

  lemma NoneYet()
    ensures CountOf(FIXED_LITS, 0, 8) == 0
  {
  }

  /** So the run over it ends after two tokens, at bit 15. */
  lemma RunEnds(cx: Codes)
    requires BookOk(Book(FIXED_LITS, FIXED_DISTS)) && Reads(cx, Book(FIXED_LITS, FIXED_DISTS))
    ensures Steps(cx, INPUT, 600, Run(0, [], Going), 2) == Run(15, [0], Ended)
    ensures Proper(cx, INPUT, 600, Run(0, [], Going))
  {
    hide Steps, Spelled, EndOf, Reads, SymbolAt, BookOk, Proper;
    Spells();
    BlockDecodes(cx, Book(FIXED_LITS, FIXED_DISTS), INPUT, 600, 0, [], [Lit(0)]);
    assert |INPUT| == 20 && |[Lit(0)]| == 1 && FIXED_LITS[256] == 7;
  }

  lemma FixedReads(cx: Codes)
    requires DecodesCanonical(cx.lt, cx.lbits, FIXED_LITS, 257, CPLENS, CPLEXT)
    requires DecodesCanonical(cx.dt, cx.dbits, FIXED_DISTS, 0, CPDIST, CPDEXT)
    ensures BookOk(Book(FIXED_LITS, FIXED_DISTS)) && Reads(cx, Book(FIXED_LITS, FIXED_DISTS))
  {
    hide DecodesCanonical, KraftSum, NoneUsed, Pow2;
    TablesMatch();
    FixedKraft();
  }

  /** The run leaves 18 bytes of input and 599 places in the window. */
  lemma EndIsNear(a: Inflater)
    requires a.rd.input == INPUT && a.win.buf.Length == 600 && a.init == Run(0, [], Going)
    requires Steps(a.cx, INPUT, 600, Run(0, [], Going), 2) == Run(15, [0], Ended)
    requires a.rd.p + a.rd.n == 20 && a.win.Avail() == 600 && a.win.produced == []
    ensures a.EndsWithin(2)
  {
    hide Steps;
  }

  lemma OneByte(a: Inflater)
    requires a.Valid() && a.rd.input == INPUT && a.win.buf.Length == 600 && a.init == Run(0, [], Going)
    requires Steps(a.cx, INPUT, 600, Run(0, [], Going), 2) == Run(15, [0], Ended) && a.run.status == Ended
    ensures a.run.out == a.win.produced == [0] && (a.mode == WASH || a.mode == END)
  {
    hide Steps, Proper, ValidCodes, Holds, RingWindow.Valid;
    a.ByMode();
    if a.count <= 2 {
      EndsOnce(a.cx, INPUT, 600, a.init, a.count, 2);
    } else {
      EndsOnce(a.cx, INPUT, 600, a.init, 2, a.count);
    }
  }

  /**
   * One call with all the input and no room for output: it returns Z_STREAM_END although the byte of the block has not
   * been delivered.
   */
  method EndsWithOutputPending() returns (r: Code, ghost fast: bool, a: Inflater)
    ensures a.Valid() && a.rd.input == INPUT && r == Z_STREAM_END && fast && a.mode == WASH
    ensures a.win.out == [] && a.win.produced == a.run.out == [0]
  {
    hide Steps, Proper, ValidCodes, Holds, RingWindow.Valid, ModeOk, DecodesCanonical;
    var cx := Fixed();
    FixedReads(cx);
    RunEnds(cx);
    var rd := new BitReader(INPUT, 20);
    var win := new RingWindow(600, 0);
    a := new Inflater(cx, rd, win);
    EndIsNear(a);
    r, fast := a.Codes(Z_OK);
    OneByte(a);
  }
}
