/** The adaptive range coder of LZMA: its steps on 32-bit words, and how fast it uses up input (lzmadec.c). */
module LzmaCoder {

  import opened Arith
  import opened Lz77

  /** A probability of a 0 bit, in units of 1/2048. The adaptation never leaves this range. */
  type Prob = p: nat | 31 <= p <= 2017 witness 1024

  /** UPDATE_0. */
  function Update0(p: Prob): Prob {
    p + (2048 - p) / 32
  }

  /** UPDATE_1. */
  function Update1(p: Prob): Prob {
    p - p / 32
  }

  /** Range and code of the coder, and the position in the stream of the next byte. */
  datatype Rc = Rc(range: Word, code: Word, pos: nat)

  /** NORMALIZE has to read a byte that is not there. */
  predicate Starved(s: seq<Byte>, rc: Rc) {
    rc.range < 0x100_0000 && rc.pos >= |s|
  }

  /** NORMALIZE. */
  function Norm(s: seq<Byte>, rc: Rc): (r: Rc)
    requires !Starved(s, rc)
    ensures rc.range >= 0x1_0000 ==> r.range >= 0x100_0000
    ensures rc.pos <= r.pos <= rc.pos + 1 && (rc.pos <= |s| ==> r.pos <= |s|)
  {
    if rc.range < 0x100_0000 then Rc(rc.range * 256, (rc.code * 256) % 0x1_0000_0000 + s[rc.pos], rc.pos + 1) else rc
  }

  /** IF_BIT_0 with the range and code part of UPDATE_0 and UPDATE_1, after normalisation. */
  function Decide(rc: Rc, p: Prob): (r: (bool, Rc))
    requires rc.range >= 0x100_0000
    ensures r.1.pos == rc.pos && r.1.range * 133 >= rc.range * 2
  {
    var bound := (rc.range / 2048) * p;
    BoundInRange(rc.range, p);
    if rc.code < bound then (false, Rc(bound, rc.code, rc.pos)) else (true, Rc(rc.range - bound, rc.code - bound, rc.pos))
  }

  /** The split of the range leaves more than 1/66.5 of it on either side. */
  lemma BoundInRange(range: Word, p: Prob)
    requires range >= 0x100_0000
    ensures var bound := (range / 2048) * p; 0 < bound < range && bound * 133 >= range * 2 && (range - bound) * 133 >= range * 2
  {
    var q := range / 2048;
    MulLe(31, p, q);
    MulLe(p, 2017, q);
    Decompose(range, 2048);
    SplitBounds(range, q, q * p);
  }

  lemma SplitBounds(range: Word, q: int, bound: int)
    requires range >= 0x100_0000 && q * 2048 <= range < q * 2048 + 2048 && q * 31 <= bound <= q * 2017
    ensures 0 < bound < range && bound * 133 >= range * 2 && (range - bound) * 133 >= range * 2
  {
  }

  /** (a - b) of 32-bit words. */
  function Minus(a: Word, b: Word): Word {
    if a >= b then a - b else a - b + 0x1_0000_0000
  }

  /**
   * A bit without a probability, after normalisation: the range is halved and the code compared with it, by the
   * sign of their difference.
   */
  function Direct(rc: Rc): (r: (bool, Rc))
    requires rc.range >= 0x100_0000
    ensures r.1.pos == rc.pos && r.1.range * 201 >= rc.range * 100
  {
    var range := rc.range / 2;
    var d := Minus(rc.code, range);
    if d >= 0x8000_0000 then (false, Rc(range, rc.code, rc.pos)) else (true, Rc(range, d, rc.pos))
  }

  /**
   * The code is meant to stay below the range, and bits with a probability keep it there. A direct bit does not: the
   * code can come to equal an odd range that was halved.
   */
  lemma DecideKeepsCodeBelow(rc: Rc, p: Prob)
    requires rc.range >= 0x100_0000 && rc.code < rc.range
    ensures Decide(rc, p).1.code < Decide(rc, p).1.range
  {
    BoundInRange(rc.range, p);
  }

  /** After a direct bit the code is below the range if and only if it was not the last one below an odd range. */
  lemma DirectKeepsCodeBelow(rc: Rc)
    requires rc.range >= 0x100_0000 && rc.code < rc.range
    ensures Direct(rc).1.code < Direct(rc).1.range <==> !(rc.range % 2 == 1 && rc.code == rc.range - 1)
  {
  }

  lemma DirectBelowExample()
    ensures var rc := Rc(0x100_0001, 0x100_0000, 0); rc.code < rc.range && Direct(rc).1.code == Direct(rc).1.range
  {
  }

  /**
   * The least range that is left after n bytes were read, when a more bits with a probability and b more direct bits
   * are still to be paid for out of a symbol's allowance.
   */
  ghost function Floor(n: nat, a: nat, b: nat): real
    decreases n, a, b
  {
    if n > 0 then 256.0 * Floor(n - 1, a, b)
    else if a > 0 then 66.5 * Floor(0, a - 1, b)
    else if b > 0 then 2.01 * Floor(0, 0, b - 1)
    else LEAST
  }

  /** 2^-136. */
  ghost const LEAST: real := 1.0 / 87112285931760246646623899502532662132736.0

  lemma FloorPositive(n: nat, a: nat, b: nat)
    ensures Floor(n, a, b) > 0.0
  {
  }

  lemma {:induction false} FloorOfBit(n: nat, a: nat, b: nat)
    ensures Floor(n, a + 1, b) == 66.5 * Floor(n, a, b)
  {
    if n > 0 {
      FloorOfBit(n - 1, a, b);
    }
  }

  lemma {:induction false} FloorOfDirect(n: nat, a: nat, b: nat)
    ensures Floor(n, a, b + 1) == 2.01 * Floor(n, a, b)
    decreases n, a
  {
    if n > 0 {
      FloorOfDirect(n - 1, a, b);
    } else if a > 0 {
      FloorOfDirect(0, a - 1, b);
    }
  }

  lemma {:induction false} FloorNeedsLess(n: nat, a: nat, b: nat)
    ensures Floor(n, a, b) >= Floor(n, 0, 0)
    decreases n, a, b
  {
    if n > 0 {
      FloorNeedsLess(n - 1, a, b);
    } else if a > 0 {
      FloorNeedsLess(0, a - 1, b);
    } else if b > 0 {
      FloorNeedsLess(0, 0, b - 1);
    }
  }

  lemma FourBits(a: nat, b: nat)
    ensures Floor(0, a + 4, b) == 19556295.0625 * Floor(0, a, b)
  {
    assert Floor(0, a + 2, b) == 4422.25 * Floor(0, a, b);
    assert Floor(0, a + 4, b) == 4422.25 * Floor(0, a + 2, b);
  }

  lemma FourDirect(b: nat)
    ensures Floor(0, 0, b + 4) == 16.32240801 * Floor(0, 0, b)
  {
    assert Floor(0, 0, b + 2) == 4.0401 * Floor(0, 0, b);
    assert Floor(0, 0, b + 4) == 4.0401 * Floor(0, 0, b + 2);
  }

  lemma FourBytes(n: nat)
    ensures Floor(n + 4, 0, 0) == 4294967296.0 * Floor(n, 0, 0)
  {
    assert Floor(n + 2, 0, 0) == 65536.0 * Floor(n, 0, 0);
    assert Floor(n + 4, 0, 0) == 65536.0 * Floor(n + 2, 0, 0);
  }

  lemma TwoOfEach()
    ensures Floor(0, 2, 26) == 4422.25 * Floor(0, 0, 26) && Floor(0, 0, 2) == 4.0401 * LEAST
  {
    assert Floor(0, 1, 26) == 66.5 * Floor(0, 0, 26) && Floor(0, 0, 1) == 2.01 * LEAST;
  }

  lemma OneByte()
    ensures Floor(1, 0, 0) == 256.0 * LEAST
  {
    assert Floor(0, 0, 0) == LEAST;
  }

  /** A symbol's allowance is 22 bits with a probability and 26 direct bits: together less than a factor of 2^160. */
  lemma AllowanceFits()
    ensures Floor(0, 22, 26) <= 16777216.0
  {
    hide Floor;
    TwoOfEach();
    FourDirect(2);
    FourDirect(6);
    FourDirect(10);
    FourDirect(14);
    FourDirect(18);
    FourDirect(22);
    FourBits(2, 26);
    FourBits(6, 26);
    FourBits(10, 26);
    FourBits(14, 26);
    FourBits(18, 26);
  }

  /** Reading 21 bytes within one allowance would need a range of 2^32. */
  lemma TwentyOneIsTooMany()
    ensures Floor(21, 0, 0) == 4294967296.0
  {
    hide Floor;
    OneByte();
    FourBytes(1);
    FourBytes(5);
    FourBytes(9);
    FourBytes(13);
    FourBytes(17);
  }
}
