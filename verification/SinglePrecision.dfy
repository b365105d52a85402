/** Multiplication and division of single digits by half-digits (apiRSA.c, spMultiply, _spMultSub, spDivide). */
module SinglePrecision {

  import opened Arith
  import opened Digits

  /** The low half of a digit. */
  function LoHalf(x: Digit): (r: Digit)
    ensures r < 0x1_0000
  {
    x % 0x1_0000
  }

  /** The high half of a digit. */
  function HiHalf(x: Digit): (r: Digit)
    ensures r < 0x1_0000
  {
    x / 0x1_0000
  }

  /** A half-digit moved to the high half; anything above is shifted out. */
  function ToHigh(x: Digit): (r: Digit)
    ensures r % 0x1_0000 == 0
    ensures x < 0x1_0000 ==> r == x * 0x1_0000
  {
    (x % 0x1_0000) * 0x1_0000
  }

  lemma HalfProduct(a: nat, b: nat)
    requires a < 0x1_0000 && b < 0x1_0000
    ensures 0 <= a * b <= 0xFFFE_0001   // 0xFFFF squared
  {
    MulLe(0, a, b);
    MulLe(a, 0xFFFF, b);
  }

  /** The four partial products of two split digits. */
  lemma SplitProduct(x0: nat, x1: nat, y0: nat, y1: nat)
    ensures (x0 + 0x1_0000 * x1) * (y0 + 0x1_0000 * y1)
         == x0 * y0 + 0x1_0000 * (x0 * y1 + x1 * y0) + 0x1_0000_0000 * (x1 * y1)
  {
    var b := 0x1_0000 * y1;
    MulDist(x0, 0x1_0000 * x1, y0 + b);
    MulDist(y0, b, x0);
    MulDist(y0, b, 0x1_0000 * x1);
    MulAssoc(x0, 0x1_0000, y1);
    assert (0x1_0000 * x1) * y0 == 0x1_0000 * (x1 * y0);
    assert (0x1_0000 * x1) * b == 0x1_0000_0000 * (x1 * y1);
  }


  /** Adds the four partial products of a double-digit product; both carries are kept. */
  method AddPartials(low: Digit, mid1: Digit, mid2: Digit, high: Digit) returns (p0: Digit, p1: Digit)
    requires low <= 0xFFFE_0001 && mid1 <= 0xFFFE_0001 && mid2 <= 0xFFFE_0001 && high <= 0xFFFE_0001
    ensures p0 + 0x1_0000_0000 * p1 == low + 0x1_0000 * (mid1 + mid2) + 0x1_0000_0000 * high
  {
    p0 := low;
    var t, u := mid1, mid2;
    t := Add32(t, u);
    var carry: Digit := if t < u then 1 else 0;
    carry := ToHigh(carry) + HiHalf(t);
    t := ToHigh(t);
    p0 := Add32(p0, t);
    if p0 < t {
      carry := carry + 1;
    }
    p1 := high;
    p1 := Add32(p1, carry);
  }

  /** The double-digit product of two digits: nothing wraps out of p1. */
  method SpMultiply(x: Digit, y: Digit) returns (p0: Digit, p1: Digit)
    ensures p0 + 0x1_0000_0000 * p1 == x * y
  {
    var x0, x1 := LoHalf(x), HiHalf(x);
    var y0, y1 := LoHalf(y), HiHalf(y);
    HalfProduct(x0, y0);
    HalfProduct(x0, y1);
    HalfProduct(x1, y0);
    HalfProduct(x1, y1);
    SplitProduct(x0, x1, y0, y1);
    p0, p1 := AddPartials(x0 * y0, x0 * y1, x1 * y0, x1 * y1);
  }

  /**
   * Subtracts qhat times the half-digits (v1 v0) from the double digit (u1 u0), modulo BASE squared. The
   * addition inside can wrap, and the C code drops that carry: lost is 1 exactly when it does, and then
   * the result is too large by BASE. Callers must not rely on w1 when the true difference is small.
   */
  method SpMultSub(u0: Digit, u1: Digit, qhat: Digit, v1: Digit, v0: Digit)
    returns (w0: Digit, w1: Digit, ghost lost: int, ghost wraps: int)
    requires qhat <= 0x1_0000 && v0 < 0x1_0000 && v1 < 0x1_0000
    ensures lost == if qhat * v0 + (qhat * v1) % 0x1_0000 * 0x1_0000 < 0x1_0000_0000 then 0 else 1
    ensures w0 + 0x1_0000_0000 * w1 == u0 + 0x1_0000_0000 * u1 - qhat * (0x1_0000 * v1 + v0)
                                       + 0x1_0000_0000 * lost + 0x1_0000_0000_0000_0000 * wraps
  {
    MulLe(qhat, 0x1_0000, v0);
    MulLe(qhat, 0x1_0000, v1);
    TwoHalves(qhat, v1, v0);
    w0, w1, lost, wraps := SubtractProducts(u0, u1, qhat * v0, qhat * v1);
  }

  /** The linear part of SpMultSub, on the two partial products. */
  method SubtractProducts(u0: Digit, u1: Digit, p0: Digit, p1: Digit)
    returns (w0: Digit, w1: Digit, ghost lost: int, ghost wraps: int)
    ensures lost == if p0 + (p1 % 0x1_0000) * 0x1_0000 < 0x1_0000_0000 then 0 else 1
    ensures w0 + 0x1_0000_0000 * w1 == u0 + 0x1_0000_0000 * u1 - 0x1_0000 * p1 - p0 + 0x1_0000_0000 * lost + 0x1_0000_0000_0000_0000 * wraps
  {
    var t: Digit := Add32(p0, ToHigh(LoHalf(p1)));
    lost := if p0 + ToHigh(LoHalf(p1)) < 0x1_0000_0000 then 0 else 1;
    wraps := 0;
    w0 := Sub32(u0, t);
    w1 := u1;
    if w0 > 0xFFFF_FFFF - t {
      wraps := if w1 == 0 then 1 else 0;
      w1 := Sub32(w1, 1);
    }
    wraps := wraps + if w1 < HiHalf(p1) then 1 else 0;
    w1 := Sub32(w1, HiHalf(p1));
  }

  lemma TwoHalves(q: int, v1: int, v0: int)
    ensures q * (0x1_0000 * v1 + v0) == 0x1_0000 * (q * v1) + q * v0
  {
  }

  /** When the true difference is a single digit, w0 is that digit and the high half of w1 stays clear. */
  lemma ExactSubtraction(u: nat, prod: nat, w0: Digit, w1: Digit, lost: int, wraps: int)
    requires 0 <= u - prod < 0x1_0000_0000
    requires 0 <= lost <= 1
    requires w0 + 0x1_0000_0000 * w1 == u - prod + 0x1_0000_0000 * lost + 0x1_0000_0000_0000_0000 * wraps
    ensures w0 == u - prod && w1 == lost
  {
  }

  /**
   * The test on the second half-digit: decides whether qhat times the whole divisor exceeds the dividend
   * (t u), where rhat is what the estimate leaves of t.
   */
  method EstimateTooBig(qhat: Digit, rhat: Digit, u: Digit, v0: Digit, ghost t: nat, ghost v1: nat)
    returns (big: bool)
    requires qhat <= 0x1_0001 && rhat < 0x1_0000 && v0 < 0x1_0000 && u < 0x1_0000
    requires t == qhat * v1 + rhat
    ensures big <==> qhat * (0x1_0000 * v1 + v0) > t * 0x1_0000 + u
  {
    MulLe(qhat, 0x1_0001, v0);
    TwoHalves(qhat, v1, v0);
    var prod: Digit := qhat * v0;   // cannot wrap
    big := prod > ToHigh(rhat) + u;
  }

  /** Dividing by the top half-digit alone overestimates by at most two. */
  lemma EstimateRange(t: nat, u: nat, v1: nat, v0: nat, qhat: nat)
    requires 0x8000 <= v1 < 0x1_0000 && v0 < 0x1_0000 && u < 0x1_0000
    requires t < 0x1_0000 * v1 + v0
    requires qhat * v1 <= t < qhat * v1 + v1
    ensures qhat <= 0x1_0001
    ensures (qhat + 1) * (0x1_0000 * v1 + v0) > t * 0x1_0000 + u
    ensures qhat >= 2 ==> (qhat - 2) * (0x1_0000 * v1 + v0) <= t * 0x1_0000 + u
    ensures 0x1_0000 * (0x1_0000 * v1 + v0) > t * 0x1_0000 + u
  {
    if qhat > 0x1_0001 {
      MulLe(0x1_0002, qhat, v1);
    }
    TwoHalves(qhat + 1, v1, v0);
    assert (qhat + 1) * v1 == qhat * v1 + v1;
    assert (qhat + 1) * v0 >= 0;
    if qhat >= 2 {
      TwoHalves(qhat - 2, v1, v0);
      assert (qhat - 2) * v1 == qhat * v1 - 2 * v1;
      MulLe(qhat - 2, 0xFFFF, v0);
    }
  }

  /** The two corrections of the half-digit quotient estimate make it exact. */
  method CorrectedEstimate(t: Digit, u: Digit, ghost v: Digit, v1: Digit, v0: Digit) returns (qhat: Digit)
    requires v == 0x1_0000 * v1 + v0 && 0x8000 <= v1 < 0x1_0000 && v0 < 0x1_0000
    requires t < v && u < 0x1_0000
    ensures qhat < 0x1_0000
    ensures qhat * v <= t * 0x1_0000 + u < qhat * v + v
  {
    DivBounds(t, v1);
    qhat := t / v1;
    EstimateRange(t, u, v1, v0, qhat);
    var rhat: Digit := t - qhat * v1;
    Pred(qhat + 1, v);
    Pred(qhat, v);
    Pred(qhat, v1);
    Pred(qhat - 1, v);
    var big := EstimateTooBig(qhat, rhat, u, v0, t, v1);
    if qhat == 0x1_0000 || big {
      qhat := qhat - 1;
      rhat := rhat + v1;
      if rhat < 0x1_0000 {
        big := EstimateTooBig(qhat, rhat, u, v0, t, v1);
        if big {
          qhat := qhat - 1;
        }
      } else {
        RoomLeft(qhat, v1, v0, rhat);
      }
    }
    MulCancelLt(qhat, 0x1_0000, v);
  }

  /** Once the estimated remainder needs a second half-digit, no further correction is due. */
  lemma RoomLeft(qhat: nat, v1: nat, v0: nat, rhat: nat)
    requires qhat <= 0x1_0000 && v0 < 0x1_0000 && rhat >= 0x1_0000
    ensures qhat * (0x1_0000 * v1 + v0) <= (qhat * v1 + rhat) * 0x1_0000
  {
    TwoHalves(qhat, v1, v0);
    MulLe(qhat, 0x1_0000, v0);
  }

  /**
   * Rounds 2 and 3 of spDivide, which are the same code: divides the one-and-a-half digits (t u) by
   * v = (v1 v0). The estimate is exact after the two corrections, so the add-back branch is never taken.
   */
  method DivideRound(t: Digit, u: Digit, v: Digit, v1: Digit, v0: Digit) returns (qhat: Digit, r: Digit)
    requires v == 0x1_0000 * v1 + v0 && 0x8000 <= v1 < 0x1_0000 && v0 < 0x1_0000
    requires t < v && u < 0x1_0000
    ensures t * 0x1_0000 + u == qhat * v + r
    ensures r < v && qhat < 0x1_0000
  {
    qhat := CorrectedEstimate(t, u, v, v1, v0);
    ghost var prod := qhat * v;
    assert prod == qhat * (0x1_0000 * v1 + v0);
    r := SubtractExact(t, u, qhat, v1, v0, prod);
  }

  /** Multiplies and subtracts in a round where the estimate is exact: the high half of uu[1] stays clear. */
  method SubtractExact(t: Digit, u: Digit, qhat: Digit, v1: Digit, v0: Digit, ghost prod: nat) returns (r: Digit)
    requires qhat <= 0x1_0000 && v0 < 0x1_0000 && v1 < 0x1_0000 && u < 0x1_0000
    requires prod == qhat * (0x1_0000 * v1 + v0)
    requires 0 <= t * 0x1_0000 + u - prod < 0x1_0000_0000
    ensures r == t * 0x1_0000 + u - prod
  {
    var u1, u0 := HiHalf(t), ToHigh(LoHalf(t)) + u;
    var w1;
    ghost var lost, wraps;
    r, w1, lost, wraps := SpMultSub(u0, u1, qhat, v1, v0);
    ExactSubtraction(t * 0x1_0000 + u, prod, r, w1, lost, wraps);
    if HiHalf(w1) != 0 {
      assert false;   // the add-back branch
    }
  }

  /**
   * Divides the double digit (u1 u0) by v. When v is not normalised, q and r are 0 and the result is
   * MAX_DIGIT; otherwise the result is the high digit of the quotient, 0 or 1.
   */
  method SpDivide(u0: Digit, u1: Digit, v: Digit) returns (q: Digit, r: Digit, q2: Digit)
    ensures v < 0x8000_0000 ==> q == 0 && r == 0 && q2 == 0xFFFF_FFFF
    ensures v >= 0x8000_0000 ==>
      && r < v && q2 == (if u1 >= v then 1 else 0)
      && u0 + 0x1_0000_0000 * u1 == (q + 0x1_0000_0000 * q2) * v + r
  {
    if v < 0x8000_0000 {
      return 0, 0, 0xFFFF_FFFF;
    }
    var v0, v1 := LoHalf(v), HiHalf(v);

    // Round 1: the top digit of the quotient is 0 or 1.
    var qhat := if HiHalf(u1) < v1 then 0 else 1;
    if qhat > 0 {
      var rhat := HiHalf(u1) - v1;
      var t := ToHigh(rhat) + LoHalf(u1);
      if v0 > t {
        qhat := qhat - 1;
      }
    }
    var uu0 := u1;
    if qhat > 0 {
      var w1;
      ghost var lost, wraps;
      uu0, w1, lost, wraps := SpMultSub(u1, 0, qhat, v1, v0);
      ExactSubtraction(u1, v, uu0, w1, lost, wraps);
      if HiHalf(w1) != 0 {
        assert false;   // the add-back branch
      }
    }
    q2 := qhat;

    // Rounds 2 and 3: the two halves of the low digit of the quotient.
    var q1, q0;
    q1, uu0 := DivideRound(uu0, HiHalf(u0), v, v1, v0);
    q := ToHigh(q1);
    q0, r := DivideRound(uu0, LoHalf(u0), v, v1, v0);
    q := q + LoHalf(q0);
    QuotientDigits(q2, q1, q0, v);
  }

  lemma QuotientDigits(q2: nat, q1: nat, q0: nat, v: nat)
    ensures (q0 + 0x1_0000 * q1 + 0x1_0000_0000 * q2) * v
         == q0 * v + 0x1_0000 * (q1 * v) + 0x1_0000_0000 * (q2 * v)
  {
  }
}
