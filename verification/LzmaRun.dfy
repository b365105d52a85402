/** Where decoding an LZMA stream comes to, as a matter of the stream and the room for output alone (lzmadec.c). */
module LzmaRun {

  import opened Lz77
  import opened LzmaCoder
  import opened LzmaGrammar
  import opened LzmaSymbol
  import opened LzmaState

  datatype FinishMode = LZMA_FINISH_ANY | LZMA_FINISH_END

  /** The code word that the stream begins with, after a byte that must be 0. */
  function FirstCode(b: seq<Byte>): Word
    requires |b| >= 5
  {
    var b1: int, b2: int, b3: int := b[1], b[2], b[3];
    b1 * 0x100_0000 + b2 * 0x1_0000 + b3 * 0x100 + b[4]
  }

  /** LzmaDec_InitRc and LzmaDec_InitStateReal. */
  ghost function Start(p: Props, s: seq<Byte>): (z: Lz)
    requires PropsOk(p) && |s| >= 5
    ensures LzOk(p, z)
  {
    hide NumProbs;
    Lz(Rc(0xFFFF_FFFF, FirstCode(s), 5), seq(NumProbs(p), i => 1024), 0, Reps(1, 1, 1, 1), [], Going)
  }

  /** The run of the stream after n symbols. */
  ghost function RunAt(p: Props, s: seq<Byte>, n: nat): (z: Lz)
    requires PropsOk(p) && |s| >= 5
    ensures LzOk(p, z)
  {
    Steps(p, s, Start(p, s), n)
  }

  /**
   * After k symbols the next one is read: there is room for output, or all that can still come is the end mark. When
   * asked to finish the decoder looks for one, unless the code says that the stream may end without.
   */
  ghost predicate Wants(p: Props, s: seq<Byte>, size: int, mode: FinishMode, k: nat)
    requires PropsOk(p) && |s| >= 5
  {
    var z := RunAt(p, s, k);
    z.status == Going && (|z.out| < size || (mode == LZMA_FINISH_END && |z.out| == size && z.rc.code != 0))
  }

  /** The symbol after k others is read and in order: it makes sense, and without room it is the end mark. */
  ghost predicate Took(p: Props, s: seq<Byte>, size: int, mode: FinishMode, k: nat)
    requires PropsOk(p) && |s| >= 5
  {
    var y := RunAt(p, s, k + 1);
    Wants(p, s, size, mode, k) && (y.status == Ended || (y.status == Going && |RunAt(p, s, k).out| < size))
  }

  /** The symbols from the m-th to the n-th are read and in order. */
  ghost predicate AllTook(p: Props, s: seq<Byte>, size: int, mode: FinishMode, m: nat, n: nat)
    requires PropsOk(p) && |s| >= 5
  {
    m <= n && forall k :: m <= k < n ==> Took(p, s, size, mode, k)
  }

  /**
   * After n symbols, with f bytes of input, there is nothing to be done: the stream has ended with a code of 0, or the
   * next symbol needs more input, or there is no room and no need for one.
   */
  ghost predicate RestsAt(p: Props, s: seq<Byte>, size: int, mode: FinishMode, f: nat, n: nat)
    requires PropsOk(p) && |s| >= 5
  {
    var z := RunAt(p, s, n);
    && z.rc.pos <= f <= |s|
    && match z.status
       case Ended => z.rc.code == 0
       case Going =>
         if Wants(p, s, size, mode, n) then Read(p, s[..f], z).Short? else mode == LZMA_FINISH_ANY || |z.out| == size
       case _ => false
  }

  /**
   * After n symbols, with f bytes of input, something is wrong: the code after the end mark, or the next symbol, which
   * is complete, or that the stream goes on where it was to be finished.
   */
  ghost predicate WrongAt(p: Props, s: seq<Byte>, size: int, mode: FinishMode, f: nat, n: nat)
    requires PropsOk(p) && |s| >= 5
  {
    var z := RunAt(p, s, n);
    && z.rc.pos <= f <= |s|
    && match z.status
       case Ended => z.rc.code != 0
       case Going =>
         if Wants(p, s, size, mode, n) then Read(p, s[..f], z).Finished? && !Took(p, s, size, mode, n)
         else mode == LZMA_FINISH_END && |z.out| > size
       case _ => false
  }

  /** Decoding f bytes into room for size comes to rest after n symbols. */
  ghost predicate Reached(p: Props, s: seq<Byte>, size: int, mode: FinishMode, f: nat, n: nat)
    requires PropsOk(p) && |s| >= 5
  {
    s[0] == 0 && AllTook(p, s, size, mode, 0, n) && RestsAt(p, s, size, mode, f, n)
  }

  /** Decoding f bytes into room for size meets a fault after n symbols: the first one that there is. */
  ghost predicate AtFault(p: Props, s: seq<Byte>, size: int, mode: FinishMode, f: nat, n: nat)
    requires PropsOk(p) && |s| >= 5
  {
    if s[0] != 0 then 5 <= f <= |s| && n == 0
    else AllTook(p, s, size, mode, 0, n) && WrongAt(p, s, size, mode, f, n)
  }

  lemma {:induction false} PositionGrows(p: Props, s: seq<Byte>, n: nat, m: nat)
    requires PropsOk(p) && |s| >= 5 && n <= m
    ensures RunAt(p, s, n).rc.pos <= RunAt(p, s, m).rc.pos
    decreases m
  {
    hide Run, ContextOf, NumProbs, Start, Apply;
    if n < m {
      PositionGrows(p, s, n, m - 1);
      assert RunAt(p, s, m) == Next(p, s, RunAt(p, s, m - 1));
    }
  }

  /** A symbol that was read is complete in the bytes that were taken. */
  lemma TookIsComplete(p: Props, s: seq<Byte>, size: int, mode: FinishMode, f: nat, n: nat, k: nat)
    requires PropsOk(p) && |s| >= 5 && AllTook(p, s, size, mode, 0, n) && k < n && RunAt(p, s, n).rc.pos <= f <= |s|
    ensures Took(p, s, size, mode, k) && Read(p, s[..f], RunAt(p, s, k)).Finished?
  {
    hide Run, ContextOf, NumProbs, Start, Apply;
    var z := RunAt(p, s, k);
    assert Took(p, s, size, mode, k) && RunAt(p, s, k + 1) == Next(p, s, z);
    PositionGrows(p, s, k + 1, n);
    LessInput(ContextOf(p, z), Reading(IsMatch, z.rc, z.probs), s[..f], s, true);
  }

  /**
   * What decoding comes to is determined by the bytes there are and by the room for output: whether it fails, and
   * after how many symbols.
   */
  lemma OneVerdict(p: Props, s: seq<Byte>, size: int, mode: FinishMode, f: nat, n: nat, m: nat)
    requires PropsOk(p) && |s| >= 5
    requires Reached(p, s, size, mode, f, n) || AtFault(p, s, size, mode, f, n)
    requires Reached(p, s, size, mode, f, m) || AtFault(p, s, size, mode, f, m)
    ensures n == m && (Reached(p, s, size, mode, f, n) <==> !AtFault(p, s, size, mode, f, m))
  {
    hide RunAt, Read;
    if s[0] == 0 {
      if n < m {
        TookIsComplete(p, s, size, mode, f, m, n);
      } else if m < n {
        TookIsComplete(p, s, size, mode, f, n, m);
      }
    }
  }

  /** When it has not stopped for want of input, more input makes no difference. */
  lemma RestsWithMore(p: Props, s: seq<Byte>, size: int, mode: FinishMode, f: nat, f': nat, n: nat)
    requires PropsOk(p) && |s| >= 5 && RestsAt(p, s, size, mode, f, n) && f <= f' <= |s|
    requires !Wants(p, s, size, mode, n)
    ensures RestsAt(p, s, size, mode, f', n)
  {
    hide RunAt, Read;
  }

  /** A fault is still there when there is more input. */
  lemma WrongWithMore(p: Props, s: seq<Byte>, size: int, mode: FinishMode, f: nat, f': nat, n: nat)
    requires PropsOk(p) && |s| >= 5 && WrongAt(p, s, size, mode, f, n) && f <= f' <= |s|
    ensures WrongAt(p, s, size, mode, f', n)
  {
    hide RunAt, Run, ContextOf, NumProbs;
    var z := RunAt(p, s, n);
    if Read(p, s[..f], z).Finished? {
      MoreInput(ContextOf(p, z), Reading(IsMatch, z.rc, z.probs), s[..f], s[..f'], true);
    }
  }

  lemma {:induction false} OutputGrows(p: Props, s: seq<Byte>, n: nat, m: nat)
    requires PropsOk(p) && |s| >= 5 && n <= m
    ensures |RunAt(p, s, n).out| <= |RunAt(p, s, m).out|
    decreases m
  {
    hide Run, ContextOf, NumProbs, Start, Apply;
    if n < m {
      OutputGrows(p, s, n, m - 1);
      assert RunAt(p, s, m) == Next(p, s, RunAt(p, s, m - 1));
    }
  }

  /** A symbol that was not complete in the first f bytes ends after them. */
  lemma EndsBeyond(p: Props, s: seq<Byte>, f: nat, f': nat, n: nat, m: nat)
    requires PropsOk(p) && |s| >= 5 && f <= f' <= |s| && n < m && RunAt(p, s, n).status == Going
    requires Read(p, s[..f], RunAt(p, s, n)).Short? && Read(p, s[..f'], RunAt(p, s, n)).Finished?
    ensures RunAt(p, s, m).rc.pos > f
  {
    hide Run, ContextOf, NumProbs, Start, Apply;
    var z := RunAt(p, s, n);
    var a := Reading(IsMatch, z.rc, z.probs);
    MoreInput(ContextOf(p, z), a, s[..f'], s, true);
    assert RunAt(p, s, n + 1) == Next(p, s, z);
    PositionGrows(p, s, n + 1, m);
    if RunAt(p, s, n + 1).rc.pos <= f {
      LessInput(ContextOf(p, z), a, s[..f], s, true);
    }
  }
}
