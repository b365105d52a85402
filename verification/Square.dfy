/** Squaring of digit arrays by Menezes' Algorithm 14.16 with a carry kept outside the array (apiRSA.c, mpSquare). */
module Square {

  import opened Arith
  import opened Digits
  import opened SinglePrecision
  import opened MultiPrecision

  /** p + a on a double digit; k counts the overflow out of the top. */
  method AddToDouble(p0: Digit, p1: Digit, k: Digit, a: Digit) returns (q0: Digit, q1: Digit, k': Digit)
    requires k < 4
    ensures q0 + 0x1_0000_0000 * q1 + 0x1_0000_0000_0000_0000 * k'
         == p0 + 0x1_0000_0000 * p1 + 0x1_0000_0000_0000_0000 * k + a
    ensures k' <= k + 1
  {
    q0, q1, k' := Add32(p0, a), p1, k;
    if q0 < a {
      q1 := Add32(q1, 1);
      if q1 == 0 {
        k' := k' + 1;
      }
    }
  }

  /** p + a * BASE on a double digit. */
  method AddToHigh(p1: Digit, k: Digit, a: Digit) returns (q1: Digit, k': Digit)
    requires k < 4
    ensures q1 + 0x1_0000_0000 * k' == p1 + 0x1_0000_0000 * k + a
    ensures k' <= k + 1
  {
    q1 := Add32(p1, a);
    k' := if q1 < a then k + 1 else k;
  }

  /** Step 2.1: the diagonal product, plus w and a carry one digit up. */
  method DiagonalStep(x: Digit, w: Digit, carry: Digit) returns (v: Digit, u0: Digit, u1: Digit)
    requires carry <= 1
    ensures v + 0x1_0000_0000 * (u0 + 0x1_0000_0000 * u1) == x * x + w + 0x1_0000_0000 * carry
    ensures u0 + 0x1_0000_0000 * u1 <= 0x1_0000_0000
  {
    DigitProduct(x, x);
    var p0, p1 := SpMultiply(x, x);
    v := Add32(p0, w);
    if v < w {
      p1 := p1 + 1;
    }
    var k: Digit := 0;
    if carry != 0 {
      p1, k := AddToHigh(p1, k, carry);
    }
    u0, u1 := p1, k;
  }

  /** 2 * p for a double digit p, with the bit shifted out. */
  method DoubleShifted(p0: Digit, p1: Digit) returns (q0: Digit, q1: Digit, k: Digit)
    ensures q0 + 0x1_0000_0000 * q1 + 0x1_0000_0000_0000_0000 * k == 2 * (p0 + 0x1_0000_0000 * p1)
    ensures k <= 1
  {
    var cbit := if p0 >= 0x8000_0000 then 1 else 0;
    k := if p1 >= 0x8000_0000 then 1 else 0;
    q0 := Add32(p0, p0);
    q1 := Add32(p1, p1) + cbit;
  }

  /** Step 2.2: w + 2 * x * y + c with c on two digits, and a carry one digit up. */
  method CrossStep(x: Digit, y: Digit, c0: Digit, c1: Digit, w: Digit, carry: Digit)
    returns (v: Digit, u0: Digit, u1: Digit)
    requires carry <= 1
    requires c0 + 0x1_0000_0000 * c1 <= 0x1_FFFF_FFFE
    ensures v + 0x1_0000_0000 * (u0 + 0x1_0000_0000 * u1)
         == 2 * (x * y) + (c0 + 0x1_0000_0000 * c1) + w + 0x1_0000_0000 * carry
    ensures u0 + 0x1_0000_0000 * u1 <= 0x1_FFFF_FFFE + carry
  {
    DigitProduct(x, y);
    var p0, p1 := SpMultiply(x, y);
    var k;
    p0, p1, k := DoubleShifted(p0, p1);
    p0, p1, k := AddToDouble(p0, p1, k, c0);
    p1, k := AddToHigh(p1, k, c1);
    p0, p1, k := AddToDouble(p0, p1, k, w);
    if carry != 0 {
      p1, k := AddToHigh(p1, k, carry);
    }
    v, u0, u1 := p0, p1, k;
  }

  /**
   * One outer round: adds x_i * (x_i + 2 * (the digits above x_i)) to w from position 2i. A carry of the
   * previous round stands one digit above cpos and is absorbed; what this round leaves above its last
   * digit fits in u0 and a bit u1.
   */
  method SquareRow(w: array<Digit>, x: array<Digit>, i: nat, t: nat, cpos: int, carry: Digit)
    returns (u0: Digit, u1: Digit, left: Digit)
    requires i < t <= x.Length && i + t <= w.Length && w != x
    requires carry <= 1 && (i == 0 ==> carry == 0) && (i > 0 ==> cpos == i + t - 1)
    modifies w
    ensures Val(w[..][2 * i..i + t]) + (u0 + 0x1_0000_0000 * u1) * P(t - i)
         == Val(old(w[..])[2 * i..i + t]) + x[i] * (x[i] + 0x2_0000_0000 * Val(x[..][i + 1..t])) + carry * P(t - i)
    ensures u1 <= 1 && left == 0
    ensures forall l :: 0 <= l < w.Length && !(2 * i <= l < i + t) ==> w[l] == old(w[l])
  {
    hide P, Val, RowValue, RowGoal;
    ghost var w0 := w[..];
    left := carry;
    var here: Digit := 0;
    if 2 * i == cpos && left != 0 {
      here, left := left, 0;
    }
    var v;
    v, u0, u1 := DiagonalStep(x[i], w[2 * i], here);
    w[2 * i] := v;
    RowStart(w0, w[..], x[..], i, t, here, left, u0 + 0x1_0000_0000 * u1);
    for j := i + 1 to t
      invariant forall l :: 0 <= l < w.Length && !(2 * i <= l < i + j) ==> w[l] == w0[l]
      invariant left == 0 || (left == carry && j < t)
      invariant u0 + 0x1_0000_0000 * u1 <= if j < t then 0x1_FFFF_FFFE else 0x1_FFFF_FFFF
      invariant RowValue(w[..], i, j, t, u0 + 0x1_0000_0000 * u1, left) == RowGoal(w0, x[..], i, j, t, carry)
    {
      ghost var w1, c, left0 := w[..], u0 + 0x1_0000_0000 * u1, left;
      here := 0;
      if i + j == cpos && left != 0 {
        here, left := left, 0;
      }
      v, u0, u1 := CrossStep(x[j], x[i], u0, u1, w[i + j], here);
      w[i + j] := v;
      RowNext(w0, w1, w[..], x[..], i, j, t, carry, c, left0, here, left, u0 + 0x1_0000_0000 * u1);
    }
    RowEnd(w0, w[..], x[..], i, t, carry, u0 + 0x1_0000_0000 * u1);
  }

  /** What a row holds when the digits up to j are done: stored digits, running carry c, pending carry left. */
  ghost function RowValue(w: seq<Digit>, i: nat, j: nat, t: nat, c: int, left: int): int
    requires i < j <= t && i + j <= |w|
  {
    Val(w[2 * i..i + j]) + c * P(j - i) + left * P(t - i)
  }

  /** What a row should hold then. */
  ghost function RowGoal(w0: seq<Digit>, x: seq<Digit>, i: nat, j: nat, t: nat, carry: int): int
    requires i < j <= t && i + j <= |w0| && j <= |x|
  {
    Val(w0[2 * i..i + j]) + x[i] * (x[i] + 0x2_0000_0000 * Val(x[i + 1..j])) + carry * P(t - i)
  }

  lemma RowStart(w0: seq<Digit>, w: seq<Digit>, x: seq<Digit>, i: nat, t: nat, here: int, left: int, c: int)
    requires i < t && 2 * i < |w0| == |w| && i < |x| && (here == 0 || i == t - 1)
    requires w[2 * i] + 0x1_0000_0000 * c == x[i] * x[i] + w0[2 * i] + 0x1_0000_0000 * here
    ensures RowValue(w, i, i + 1, t, c, left) == RowGoal(w0, x, i, i + 1, t, here + left)
  {
    hide P, Val;
    Empty();
    SliceSnoc(w0, 2 * i, 0);
    SliceSnoc(w, 2 * i, 0);
    assert w[2 * i..2 * i] == [] && w0[2 * i..2 * i] == [] && x[i + 1..i + 1] == [];
    MulDist(here, left, P(t - i));
    ZeroTimes(here, P(t - i));
  }

  lemma RowNext(w0: seq<Digit>, w1: seq<Digit>, w: seq<Digit>, x: seq<Digit>, i: nat, j: nat, t: nat,
                carry: int, c: int, left0: int, here: int, left: int, c': int)
    requires i < j < t <= |x| && i + t <= |w0| == |w1| == |w|
    requires w == w1[i + j := w[i + j]] && w1[i + j] == w0[i + j]
    requires RowValue(w1, i, j, t, c, left0) == RowGoal(w0, x, i, j, t, carry)
    requires w[i + j] + 0x1_0000_0000 * c' == 2 * (x[j] * x[i]) + c + w0[i + j] + 0x1_0000_0000 * here
    requires left0 == here + left && (here == 0 || j == t - 1)
    ensures RowValue(w, i, j + 1, t, c', left) == RowGoal(w0, x, i, j + 1, t, carry)
  {
    hide P, Val;
    assert w[2 * i..i + j] == w1[2 * i..i + j];
    SliceSnoc(w0, 2 * i, j - i);
    SliceSnoc(w, 2 * i, j - i);
    SliceSnoc(x, i + 1, j - i - 1);
    CrossRow(Val(w[2 * i..i + j]), c, P(j - i), P(j - i - 1), left0, P(t - i), Val(w0[2 * i..i + j]), x[i],
             Val(x[i + 1..j]), carry, x[j], w0[i + j], here, w[i + j], c', left);
  }

  lemma RowEnd(w0: seq<Digit>, w: seq<Digit>, x: seq<Digit>, i: nat, t: nat, carry: int, c: int)
    requires i < t <= |x| && i + t <= |w0| == |w|
    requires RowValue(w, i, t, t, c, 0) == RowGoal(w0, x, i, t, t, carry)
    ensures Val(w[2 * i..i + t]) + c * P(t - i)
         == Val(w0[2 * i..i + t]) + x[i] * (x[i] + 0x2_0000_0000 * Val(x[i + 1..t])) + carry * P(t - i)
  {
    hide P, Val;
    ZeroTimes(0, P(t - i));
  }

  lemma CrossRow(before: int, c: int, pj: int, pj': int, left0: int, pt: int, low: int, x: int,
                 vx: int, carry: int, y: int, w: int, here: int, v: int, c': int, left: int)
    requires before + c * pj + left0 * pt == low + x * (x + 0x2_0000_0000 * vx) + carry * pt
    requires pj == 0x1_0000_0000 * pj'
    requires v + 0x1_0000_0000 * c' == 2 * (y * x) + c + w + 0x1_0000_0000 * here
    requires left0 == here + left && (here == 0 || pt == 0x1_0000_0000 * pj)
    ensures before + v * pj + c' * (0x1_0000_0000 * pj) + left * pt
         == low + w * pj + x * (x + 0x2_0000_0000 * (vx + y * pj')) + carry * pt
  {
    CrossScaled(v, c', y * x, c, w, here, pj);
    CrossProduct(x, vx, y, pj');
    MulDist(here, left, pt);
    if here == 0 {
      ZeroTimes(here, pt);
      ZeroTimes(here, pj);
    } else {
      MulAssoc(here, 0x1_0000_0000, pj);
    }
  }

  lemma CrossScaled(v: int, c': int, yx: int, c: int, w: int, here: int, p: int)
    requires v + 0x1_0000_0000 * c' == 2 * yx + c + w + 0x1_0000_0000 * here
    ensures v * p + c' * (0x1_0000_0000 * p) == 2 * (yx * p) + c * p + w * p + 0x1_0000_0000 * (here * p)
  {
    assert (v + 0x1_0000_0000 * c') * p == (2 * yx + c + w + 0x1_0000_0000 * here) * p;
  }

  lemma CrossProduct(x: int, vx: int, y: int, p: int)
    ensures x * (x + 0x2_0000_0000 * (vx + y * p))
         == x * (x + 0x2_0000_0000 * vx) + 2 * ((y * x) * (0x1_0000_0000 * p))
  {
    MulDist(x + 0x2_0000_0000 * vx, 0x2_0000_0000 * (y * p), x);
    assert x * (y * p) == (y * x) * p;
  }

  /** w = x * x. The carry outside the array never exceeds 1 and is 0 at the end. */
  method MpSquare(w: array<Digit>, x: array<Digit>, ndigits: nat)
    requires 2 * ndigits <= w.Length && ndigits <= x.Length && w != x
    modifies w
    ensures Num(w, 0, 2 * ndigits) == Num(x, 0, ndigits) * Num(x, 0, ndigits)
    ensures forall l :: 2 * ndigits <= l < w.Length ==> w[l] == old(w[l])
  {
    hide P, Val, SquareValue;
    var t := ndigits;
    for i := 0 to 2 * t
      invariant forall l :: 0 <= l < i ==> w[l] == 0
      invariant forall l :: 2 * t <= l < w.Length ==> w[l] == old(w[l])
    {
      w[i] := 0;
    }
    var carry: Digit := 0;
    var cpos: int := 2 * t - 1;
    ghost var xs := x[0..t];
    SquareStart(w[..], xs);
    for i := 0 to t
      invariant forall l :: i + t <= l < 2 * t ==> w[l] == 0
      invariant forall l :: 2 * t <= l < w.Length ==> w[l] == old(w[l])
      invariant carry <= 1 && (i == 0 ==> carry == 0) && (i > 0 ==> cpos == i + t - 1)
      invariant SquareValue(w[..], xs, i, carry) == Val(xs) * Val(xs)
    {
      ghost var w0, c0 := w[..], carry;
      var u0, u1;
      u0, u1, carry := SquareRow(w, x, i, t, cpos, carry);
      ghost var row := w[..];
      w[i + t] := u0;
      carry := u1;
      cpos := i + t;
      assert x[..][i + 1..t] == xs[i + 1..t];
      SquareRowAdded(w0, row, w[..], xs, i, t, u0, u1, c0);
    }
    SquareEnd(w[..], xs, carry);
    assert w[..][0..2 * t] == w[0..2 * t];
  }

  /** The number in w with the carry outside it, plus the square of the digits that are still to be done. */
  ghost function SquareValue(w: seq<Digit>, x: seq<Digit>, i: nat, carry: int): int
    requires i <= |x| && 2 * |x| <= |w|
  {
    Val(w[0..2 * |x|]) + carry * P(i + |x|) + Val(x[i..]) * Val(x[i..]) * P(2 * i)
  }

  lemma SquareStart(w: seq<Digit>, x: seq<Digit>)
    requires 2 * |x| <= |w| && forall l :: 0 <= l < 2 * |x| ==> w[l] == 0
    ensures SquareValue(w, x, 0, 0) == Val(x) * Val(x)
  {
    hide Val;
    ValZeros(w[0..2 * |x|]);
    assert x[0..] == x;
  }

  lemma SquareEnd(w: seq<Digit>, x: seq<Digit>, carry: Digit)
    requires 2 * |x| <= |w|
    requires SquareValue(w, x, |x|, carry) == Val(x) * Val(x)
    ensures carry == 0 && Val(w[0..2 * |x|]) == Val(x) * Val(x)
  {
    hide P, Val;
    Empty();
    assert x[|x|..] == [];
    ValBound(x);
    PAdd(|x|, |x|);
    EndTerm(Val(x[|x|..]), P(2 * |x|));
    NoFinalCarry(Val(x), Val(w[0..2 * |x|]), P(|x|), P(|x| + |x|), carry);
  }

  lemma EndTerm(v: int, p: int)
    ensures v == 0 ==> v * v * p == 0
  {
  }

  /** What one outer round of Algorithm 14.16 does to the number: the digits below x_i have been squared in. */
  lemma SquareRowAdded(w0: seq<Digit>, row: seq<Digit>, w: seq<Digit>, x: seq<Digit>, i: nat, t: nat,
                       u0: Digit, u1: Digit, carry: Digit)
    requires i < t == |x| && 2 * t <= |w0| == |row| == |w|
    requires w == row[i + t := u0]
    requires forall l :: 0 <= l < |w0| && !(2 * i <= l < i + t) ==> row[l] == w0[l]
    requires w0[i + t] == 0
    requires Val(row[2 * i..i + t]) + (u0 + 0x1_0000_0000 * u1) * P(t - i)
          == Val(w0[2 * i..i + t]) + x[i] * (x[i] + 0x2_0000_0000 * Val(x[i + 1..t])) + carry * P(t - i)
    ensures SquareValue(w, x, i + 1, u1) == SquareValue(w0, x, i, carry)
  {
    hide P, Val;
    ThreeParts(w0, 2 * i, i + t, 2 * t);
    ThreeParts(w, 2 * i, i + t, 2 * t);
    assert w[..2 * i] == w0[..2 * i];
    assert w[2 * i..i + t] == row[2 * i..i + t];
    assert w[i + t + 1..2 * t] == w0[i + t + 1..2 * t];
    SliceCons(w0, i + t, 2 * t);
    SliceCons(w, i + t, 2 * t);
    ValCons(x[i..]);
    assert x[i..][1..] == x[i + 1..] == x[i + 1..t];
    PStep(i + 1 + t);
    PStep(2 * i + 2);
    PStep(2 * i + 1);
    PAdd(2 * i, t - i);
    SquareArith(Val(w0[2 * i..i + t]), Val(row[2 * i..i + t]), P(2 * i), P(t - i), P(i + t),
                Val(w0[i + t + 1..2 * t]), u0, u1, x[i], Val(x[i + 1..]), Val(x[i..]), carry);
  }

  lemma ThreeParts(s: seq<Digit>, a: nat, b: nat, n: nat)
    requires a <= b <= n <= |s|
    ensures Val(s[0..n]) == Val(s[..a]) + P(a) * Val(s[a..b]) + P(b) * Val(s[b..n])
  {
    hide P, Val;
    SliceSplit(s, b, n);
    SliceSplit(s, a, b);
    assert s[0..b] == s[..b];
  }

  lemma SquareArith(v0: int, v1: int, p: int, pt: int, pp: int, high: int,
                    u0: int, u1: int, d: int, rest: int, all: int, carry: int)
    requires v1 + (u0 + 0x1_0000_0000 * u1) * pt == v0 + d * (d + 0x2_0000_0000 * rest) + carry * pt
    requires pp == p * pt && all == d + 0x1_0000_0000 * rest
    ensures p * v1 + pp * (u0 + 0x1_0000_0000 * high) + u1 * (0x1_0000_0000 * pp)
            + rest * rest * (0x1_0000_0000 * (0x1_0000_0000 * p))
         == p * v0 + pp * (0x1_0000_0000 * high) + carry * pp + all * all * p
  {
    var r := d * (d + 0x2_0000_0000 * rest);
    assert p * (v1 + (u0 + 0x1_0000_0000 * u1) * pt) == p * (v0 + r + carry * pt);
    ScaledRow(p, v1, u0, u1, pt);
    ScaledSum(p, v0, r, carry, pt);
    SquareOfSum(d, rest);
    ScaledSquare(r, rest, all, p);
    MulDist(u0, 0x1_0000_0000 * high, pp);
  }

  lemma ScaledRow(p: int, v1: int, u0: int, u1: int, pt: int)
    ensures p * (v1 + (u0 + 0x1_0000_0000 * u1) * pt)
         == p * v1 + (p * pt) * u0 + u1 * (0x1_0000_0000 * (p * pt))
  {
    MulDist(v1, (u0 + 0x1_0000_0000 * u1) * pt, p);
    assert p * ((u0 + 0x1_0000_0000 * u1) * pt) == (p * pt) * (u0 + 0x1_0000_0000 * u1);
  }

  lemma ScaledSum(p: int, v0: int, r: int, carry: int, pt: int)
    ensures p * (v0 + r + carry * pt) == p * v0 + p * r + carry * (p * pt)
  {
    MulDist(v0 + r, carry * pt, p);
    MulDist(v0, r, p);
    MulAssoc(p, carry, pt);
  }

  lemma SquareOfSum(d: int, rest: int)
    ensures (d + 0x1_0000_0000 * rest) * (d + 0x1_0000_0000 * rest)
         == d * (d + 0x2_0000_0000 * rest) + 0x1_0000_0000_0000_0000 * (rest * rest)
  {
  }

  lemma ScaledSquare(r: int, rest: int, all: int, p: int)
    requires all * all == r + 0x1_0000_0000_0000_0000 * (rest * rest)
    ensures all * all * p == p * r + rest * rest * (0x1_0000_0000 * (0x1_0000_0000 * p))
  {
    MulDist(r, 0x1_0000_0000_0000_0000 * (rest * rest), p);
  }

  /** A square of t digits needs no more than 2t digits, so nothing is left outside the array. */
  lemma NoFinalCarry(x: nat, w: nat, p: nat, pp: nat, carry: Digit)
    requires x < p && pp == p * p && w + carry * pp == x * x
    ensures carry == 0 && w == x * x
  {
    MulLe(x, p, x);
    MulLe(x + 1, p, p);
    Pred(x + 1, p);
    if carry >= 1 {
      MulLe(1, carry, pp);
      assert false;
    }
    ZeroTimes(carry, pp);
  }
}
