/** The run of symbols of an LZMA stream and the bytes they expand to (lzmadec.c). */
module LzmaState {

  import opened Arith
  import opened Lz77
  import opened LzmaCoder
  import opened LzmaGrammar
  import opened LzmaSymbol

  /** The last four distances, counting from 1, latest first. */
  datatype Reps = Reps(r0: nat, r1: nat, r2: nat, r3: nat)

  function Rep(r: Reps, k: nat): nat
    requires k < 4
  {
    if k == 0 then r.r0 else if k == 1 then r.r1 else if k == 2 then r.r2 else r.r3
  }

  /** Moves one of the last distances to the front. */
  function Rotated(r: Reps, k: nat): Reps
    requires k < 4
  {
    if k == 0 then r
    else if k == 1 then Reps(r.r1, r.r0, r.r2, r.r3)
    else if k == 2 then Reps(r.r2, r.r0, r.r1, r.r3)
    else Reps(r.r3, r.r0, r.r1, r.r2)
  }

  datatype Status = Going | Ended | Bad | OutOfInput

  /** Between two symbols: the coder, the probabilities, and all the bytes that the symbols so far stand for. */
  datatype Lz = Lz(rc: Rc, probs: Probs, state: nat, reps: Reps, out: seq<Byte>, status: Status)

  function NumProbs(p: Props): nat {
    1846 + 768 * Pow2(p.lc + p.lp)
  }

  /** A distance that leads to a byte of the output, within the dictionary. */
  predicate DistanceOk(p: Props, out: seq<Byte>, d: nat) {
    1 <= d <= p.dicSize && (if out == [] then d == 1 else d <= |out|)
  }

  ghost predicate LzOk(p: Props, z: Lz) {
    && PropsOk(p) && |z.probs| == NumProbs(p) && z.state < 12 && z.rc.range >= 0x100_0000
    && (z.state >= 7 ==> z.out != [])
    && (forall k :: 0 <= k < 4 ==> DistanceOk(p, z.out, Rep(z.reps, k)))
  }

  /** The number of the set of literal probabilities, by the position and the byte before. */
  function LiteralSet(p: Props, at: nat, before: Byte): nat
    requires p.lc <= 8
  {
    hide Pow2;
    Cell(at % Pow2(p.lp), Pow2(p.lc), before / Pow2(8 - p.lc))
  }

  /** Row hi, column lo, in rows of a. */
  function Cell(hi: nat, a: nat, lo: nat): nat {
    Nonneg(hi, a);
    hi * a + lo
  }

  lemma LiteralSetBound(p: Props, at: nat, before: Byte)
    requires PropsOk(p)
    ensures LiteralSet(p, at, before) < Pow2(p.lc + p.lp)
  {
    hide Pow2, Cell;
    HighBits(p.lc, before);
    Pow2Add(p.lc, p.lp);
    Grid(at % Pow2(p.lp), before / Pow2(8 - p.lc), Pow2(p.lc), Pow2(p.lp));
  }

  lemma HighBits(lc: nat, x: Byte)
    requires lc <= 8
    ensures x / Pow2(8 - lc) < Pow2(lc)
  {
    var b := Pow2(8 - lc);
    SomePowers();
    Pow2Add(lc, 8 - lc);
    hide Pow2;
    Decompose(x, b);
    MulCancelLt(x / b, Pow2(lc), b);
  }

  lemma Grid(hi: nat, lo: nat, a: nat, b: int)
    requires hi < b && lo < a
    ensures Cell(hi, a, lo) < a * b
  {
    MulLe(hi + 1, b, a);
    MulDist(hi, 1, a);
  }

  lemma PosStateBound(n: nat, pb: nat)
    requires pb <= 4
    ensures n % Pow2(pb) < 16
  {
    SomePowers();
    Pow2Up(pb, 4);
  }

  /** What a symbol is read with. */
  ghost function ContextOf(p: Props, z: Lz): (cx: Context)
    requires LzOk(p, z)
    ensures ContextOk(cx, |z.probs|)
  {
    hide Pow2, LiteralSet, NumProbs;
    var posState := |z.out| % Pow2(p.pb);
    PosStateBound(|z.out|, p.pb);
    if z.out == [] then
      Context(z.state, posState, 1846, 0)
    else
      LiteralSetBound(p, |z.out|, z.out[|z.out| - 1]);
      RepsOk(p, z);
      var n := LiteralSet(p, |z.out|, z.out[|z.out| - 1]);
      Context(z.state, posState, 1846 + 768 * n, z.out[|z.out| - z.reps.r0])
  }

  lemma ContextIs(p: Props, z: Lz)
    requires LzOk(p, z)
    ensures var cx := ContextOf(p, z);
      && cx.state == z.state && cx.posState == |z.out| % Pow2(p.pb)
      && (z.out != [] ==> DistanceOk(p, z.out, z.reps.r0) && cx.matchByte == z.out[|z.out| - z.reps.r0])
      && (z.out == [] ==> cx.litBase == 1846)
      && (z.out != [] ==> cx.litBase == 1846 + 768 * LiteralSet(p, |z.out|, z.out[|z.out| - 1]))
  {
    hide Pow2, LiteralSet;
    RepsOk(p, z);
  }

  /** The next state of the twelve that tell what the last symbols were. */
  function AfterLiteral(state: nat): nat {
    if state < 4 then 0 else if state < 10 then state - 3 else state - 6
  }

  /** What a symbol does. z is the state that it was read in, rc and probs are what reading it left. */
  ghost function Apply(p: Props, z: Lz, symbol: Symbol, rc: Rc, probs: Probs): (r: Lz)
    requires LzOk(p, z) && SymbolOk(symbol) && rc.range >= 0x100_0000 && |probs| == |z.probs|
    ensures LzOk(p, r) && z.out <= r.out && r.rc == rc
  {
    hide NumProbs;
    var y := z.(rc := rc, probs := probs);
    match symbol
    case Literal(b) => y.(state := AfterLiteral(z.state), out := z.out + [b])
    case ShortRep =>
      if z.out == [] then y.(status := Bad)
      else
        RepsOk(p, z);
        y.(state := if z.state < 7 then 9 else 11, out := z.out + [z.out[|z.out| - z.reps.r0]])
    case Repeat(k, len) =>
      if z.out == [] then y.(status := Bad)
      else
        RepsOk(p, z);
        var reps := Rotated(z.reps, k);
        y.(state := if z.state < 7 then 8 else 11, reps := reps, out := Copied(z.out, reps.r0, len + 2))
    case Match(len, dist) =>
      if dist >= |z.out| || dist >= p.dicSize then y.(status := Bad)
      else
        RepsOk(p, z);
        var reps := Reps(dist + 1, z.reps.r0, z.reps.r1, z.reps.r2);
        y.(state := if z.state < 7 then 7 else 10, reps := reps, out := Copied(z.out, dist + 1, len + 2))
    case EndMark(_) => y.(status := Ended)
  }

  lemma RepsOk(p: Props, z: Lz)
    requires LzOk(p, z)
    ensures DistanceOk(p, z.out, z.reps.r0) && DistanceOk(p, z.out, z.reps.r1)
    ensures DistanceOk(p, z.out, z.reps.r2) && DistanceOk(p, z.out, z.reps.r3)
  {
    hide NumProbs;
    assert Rep(z.reps, 0) == z.reps.r0 && Rep(z.reps, 1) == z.reps.r1;
    assert Rep(z.reps, 2) == z.reps.r2 && Rep(z.reps, 3) == z.reps.r3;
  }

  /** Reading the next symbol of the stream s. */
  ghost function Read(p: Props, s: seq<Byte>, z: Lz): Outcome
    requires LzOk(p, z)
  {
    Run(ContextOf(p, z), Reading(IsMatch, z.rc, z.probs), s, true)
  }

  ghost function Next(p: Props, s: seq<Byte>, z: Lz): (r: Lz)
    requires LzOk(p, z)
    ensures LzOk(p, r) && z.out <= r.out
  {
    hide Run, ContextOf, Apply;
    if z.status != Going then z
    else match Read(p, s, z)
      case Short => z.(status := OutOfInput)
      case Finished(symbol, rc, probs) => Apply(p, z, symbol, rc, probs)
  }

  /** n symbols. */
  ghost function Steps(p: Props, s: seq<Byte>, z: Lz, n: nat): (r: Lz)
    requires LzOk(p, z)
    ensures LzOk(p, r)
  {
    if n == 0 then z else Next(p, s, Steps(p, s, z, n - 1))
  }
}
