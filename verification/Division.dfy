/** Long division of digit arrays by Knuth's Algorithm D, in place and with a hidden top digit (apiRSA.c). */
module Division {

  import opened Arith
  import opened Digits
  import opened SinglePrecision
  import opened MultiPrecision

  /** One digit of _mpMultSub: subtracts q * v and the borrow k, leaving a borrow that still fits a digit. */
  method SubtractDigit(w: Digit, q: Digit, v: Digit, k: Digit) returns (w': Digit, k': Digit)
    ensures w' - 0x1_0000_0000 * k' == w - k - q * v
  {
    DigitProduct(q, v);
    var t0, t1 := SpMultiply(q, v);
    w' := Sub32(w, k);
    k' := if w' > 0xFFFF_FFFF - k then 1 else 0;
    w' := Sub32(w', t0);
    if w' > 0xFFFF_FFFF - t0 {
      k' := k' + 1;
    }
    k' := k' + t1;
  }

  /**
   * Subtracts q * v from the n digits of w at offset wo and from wn, the digit above them that is not
   * stored in w. The result is the new wn; borrow is what was taken from it.
   */
  method MpMultSub(wn: Digit, w: array<Digit>, wo: nat, v: array<Digit>, q: Digit, n: nat)
    returns (r: Digit, ghost borrow: Digit)
    requires wo + n <= w.Length && n <= v.Length && w != v
    modifies w
    ensures Num(w, wo, n) == old(Num(w, wo, n)) - q * Num(v, 0, n) + borrow * P(n)
    ensures r == Sub32(wn, borrow)
    ensures forall i :: 0 <= i < w.Length && !(wo <= i < wo + n) ==> w[i] == old(w[i])
  {
    hide P, Val;
    Empty();
    if q == 0 {
      return wn, 0;
    }
    var k: Digit := 0;
    ghost var w0 := w[..];
    assert q * Val(v[0..0]) == 0;
    for i := 0 to n
      invariant forall l :: 0 <= l < w.Length && !(wo <= l < wo + i) ==> w[l] == w0[l]
      invariant Val(w[wo..wo + i]) == Val(w0[wo..wo + i]) - q * Val(v[0..i]) + k * P(i)
    {
      ghost var before, k0 := w[wo..wo + i], k;
      var x;
      x, k := SubtractDigit(w[wo + i], q, v[i], k);
      w[wo + i] := x;
      assert w[..][wo..wo + i] == before && w[..][wo..wo + i + 1] == w[wo..wo + i + 1];
      SliceSnoc(w[..], wo, i);
      SliceSnoc(w0, wo, i);
      SliceSnoc(v[..], 0, i);
      assert v[..][0..i] == v[0..i] && v[..][0..i + 1] == v[0..i + 1];
      MultSubStep(Val(before), Val(w0[wo..wo + i]), q, Val(v[0..i]), k0, P(i), w0[wo + i], v[i], x, k);
    }
    return Sub32(wn, k), k;
  }

  lemma MultSubStep(vw: int, v0: int, q: int, vv: int, k: int, p: int, w: int, d: int, x: int, k': int)
    requires vw == v0 - q * vv + k * p
    requires x - 0x1_0000_0000 * k' == w - k - q * d
    ensures vw + x * p == v0 + w * p - q * (vv + d * p) + k' * (0x1_0000_0000 * p)
  {
    assert (x - 0x1_0000_0000 * k') * p == (w - k - q * d) * p;
    MulDist(x, 0x1_0000_0000 * k', p);
    MulDist(w - k, q * d, p);
    MulDist(w, k, p);
    MulDist(vv, d * p, q);
    assert (q * d) * p == q * (d * p);
    assert (0x1_0000_0000 * k') * p == k' * (0x1_0000_0000 * p);
  }

  /** Compares two double digits: qhat * vn2 with (rhat ujn2). */
  method QhatTooBig(qhat: Digit, rhat: Digit, vn2: Digit, ujn2: Digit) returns (big: bool)
    ensures big <==> qhat * vn2 > 0x1_0000_0000 * rhat + ujn2
  {
    var t0, t1 := SpMultiply(qhat, vn2);
    if t1 < rhat {
      return false;
    } else if t1 > rhat {
      return true;
    } else if t0 > ujn2 {
      return true;
    }
    return false;
  }

  /** A number of two digits. */
  ghost function Two(hi: nat, lo: nat): nat {
    0x1_0000_0000 * hi + lo
  }

  lemma TwoIs(hi: nat, lo: nat)
    ensures Two(hi, lo) == 0x1_0000_0000 * hi + lo
  {
  }

  lemma TwoDigits(q: nat, v1: nat, v2: nat)
    ensures q * Two(v1, v2) == 0x1_0000_0000 * (q * v1) + q * v2
  {
  }

  /**
   * Step D3: estimates a quotient digit from the top three digits (t1 a b) of the dividend and the top two
   * digits (v1 v2) of the divisor. After the corrections the estimate is exactly the quotient of those
   * three digits by those two, cut off at the largest digit.
   */
  method EstimateDigit(t1: Digit, a: Digit, b: Digit, v1: Digit, v2: Digit) returns (qhat: Digit)
    requires v1 >= 0x8000_0000 && t1 <= v1
    ensures qhat * Two(v1, v2) <= Two(Two(t1, a), b)
    ensures qhat == 0xFFFF_FFFF || (qhat + 1) * Two(v1, v2) > Two(Two(t1, a), b)
  {
    hide Two;
    var qhatOK := false;
    var rhat, overflow;
    ghost var top := Two(t1, a);
    qhat, rhat, overflow := SpDivide(a, t1, v1);
    if overflow != 0 {
      qhat := 0xFFFF_FFFF;
      rhat := Add32(a, v1);
      if rhat < v1 {
        qhatOK := true;
      }
    }
    ghost var left := top - qhat * v1;   // what rhat stands for before wrapping
    assert top == 0x1_0000_0000 * t1 + a by { TwoIs(t1, a); }
    assert left == if qhatOK then rhat + 0x1_0000_0000 else rhat by { MaxDigitTimes(v1); }
    EstimateCase(top, b, v1, v2, qhat, left);
    EstimateCeiling(top, b, v1, v2, qhat, left);
    Pred(qhat, v1);
    Pred(qhat - 1, v1);
    if qhat != 0 && !qhatOK {
      var big := QhatTooBig(qhat, rhat, v2, b);
      if big {
        qhat := qhat - 1;
        rhat := Add32(rhat, v1);
        EstimateCase(top, b, v1, v2, qhat, left + v1);
        if !(rhat < v1) {
          big := QhatTooBig(qhat, rhat, v2, b);
          if big {
            qhat := qhat - 1;
            EstimateCase(top, b, v1, v2, qhat, left + 2 * v1);
          }
        }
      }
    }
  }

  lemma MaxDigitTimes(v: nat)
    ensures 0xFFFF_FFFF * v == 0x1_0000_0000 * v - v
  {
  }

  /** The test on the second digit decides whether the estimate fits under three digits. */
  lemma EstimateCase(top: nat, b: Digit, v1: Digit, v2: Digit, qhat: Digit, left: nat)
    requires top == qhat * v1 + left
    ensures qhat * v2 <= 0x1_0000_0000 * left + b <==>
            qhat * Two(v1, v2) <= Two(top, b)
    ensures left >= 0x1_0000_0000 ==> qhat * v2 <= 0x1_0000_0000 * left + b
  {
    TwoDigits(qhat, v1, v2);
    DigitProduct(qhat, v2);
  }

  /** An estimate by the top digit alone is never too small. */
  lemma EstimateCeiling(top: nat, b: Digit, v1: Digit, v2: Digit, qhat: Digit, left: nat)
    requires top == qhat * v1 + left
    ensures left < v1 ==> (qhat + 1) * Two(v1, v2) > Two(top, b)
  {
    TwoDigits(qhat + 1, v1, v2);
    Pred(qhat + 1, v1);
    Nonneg(qhat + 1, v2);
  }

  /**
   * Knuth's Theorem B for this estimate: the quotient of the leading digits is the true quotient digit or one
   * more. Here w = lead * p + wl is the whole window and v = v2 * p + vl the whole divisor.
   */
  lemma QhatWithinOne(w: int, lead: nat, wl: nat, v: nat, v2: nat, vl: nat, p: nat, qhat: Digit)
    requires w == lead * p + wl && wl < p
    requires v == v2 * p + vl && vl < p && v2 >= 0x1_0000_0000
    requires w < 0x1_0000_0000 * v
    requires qhat * v2 <= lead
    requires qhat == 0xFFFF_FFFF || (qhat + 1) * v2 > lead
    ensures qhat * v - v <= w < qhat * v + v
  {
    // not more than one too big
    Regroup(v2, p, vl, qhat);
    assert qhat * v == v2 * (qhat * p) + vl * qhat;
    assert v2 * (qhat * p) == (qhat * v2) * p;
    MulLe(qhat * v2, lead, p);
    MulLe(qhat, v2, p);
    MulLe(vl, p, qhat);
    assert p * qhat == qhat * p;
    // not too small
    if qhat != 0xFFFF_FFFF {
      MulLe(lead + 1, (qhat + 1) * v2, p);
      Pred(lead + 1, p);
      Regroup(v2, p, vl, qhat + 1);
      Nonneg(vl, qhat + 1);
      assert v2 * ((qhat + 1) * p) == ((qhat + 1) * v2) * p;
      assert v * (qhat + 1) == (qhat + 1) * v;
      Pred(qhat + 1, v);
    }
  }

  /** The two leading digits of an n-digit number. */
  lemma LeadingTwo(s: seq<Digit>)
    requires |s| >= 2
    ensures var n := |s|; var low := Val(s[..n - 2]);
      && low < P(n - 2)
      && Val(s) == Two(s[n - 1], s[n - 2]) * P(n - 2) + low
  {
    var n := |s|;
    ValSnoc(s, n - 2);
    ValSnoc(s, n - 1);
    assert s[..n] == s;
    ValBound(s[..n - 2]);
    var p := P(n - 2);
    assert P(n - 1) == 0x1_0000_0000 * p;
    LeadSum32(s[n - 1], s[n - 2], p);
  }

  lemma LeadSum32(hi: nat, lo: nat, p: nat)
    ensures hi * (0x1_0000_0000 * p) + lo * p == (0x1_0000_0000 * hi + lo) * p
  {
  }

  /** A window below BASE times the divisor cannot have a larger top digit than the divisor. */
  lemma HiddenDigitBound(t1: Digit, low: nat, v1: Digit, vlow: nat, p: nat)
    requires t1 * (0x1_0000_0000 * p) + low < 0x1_0000_0000 * (v1 * p + vlow) && vlow < p
    ensures t1 <= v1
  {
    MulDist(v1 * p, vlow, 0x1_0000_0000);
    assert t1 * (0x1_0000_0000 * p) == 0x1_0000_0000 * (t1 * p);
    Pred(v1 + 1, p);
    MulCancelLt(t1, v1 + 1, p);
  }

  /**
   * Steps D3 to D6 for one quotient digit: divides the n + 1 digits (t1, uu[j + n - 1], ..., uu[j]) by v, leaving
   * the remainder in the n stored digits. The hidden top digit of the remainder is 0 and is not stored.
   */
  method DivideStep(uu: array<Digit>, j: nat, v: array<Digit>, n: nat, t1: Digit) returns (qj: Digit)
    requires n >= 2 && j + n <= uu.Length && n <= v.Length && uu != v
    requires v[n - 1] >= 0x8000_0000
    requires t1 * P(n) + Num(uu, j, n) < 0x1_0000_0000 * Num(v, 0, n)
    modifies uu
    ensures old(t1 * P(n) + Num(uu, j, n)) == qj * Num(v, 0, n) + Num(uu, j, n)
    ensures Num(uu, j, n) < Num(v, 0, n)
    ensures forall i :: 0 <= i < uu.Length && !(j <= i < j + n) ==> uu[i] == old(uu[i])
  {
    hide P, Val;
    ghost var window, divisor := t1 * P(n) + Num(uu, j, n), Num(v, 0, n);
    WindowLead(t1, uu[j..j + n], v[0..n]);
    var qhat := EstimateDigit(t1, uu[j + n - 1], uu[j + n - 2], v[n - 1], v[n - 2]);
    EstimateOnWindow(t1, uu[j..j + n], v[0..n], qhat);
    qj := SubtractWindow(uu, j, v, n, t1, qhat);
  }

  /** Steps D4 to D6: multiply and subtract, then add back once if the estimate was one too big. */
  method SubtractWindow(uu: array<Digit>, j: nat, v: array<Digit>, n: nat, t1: Digit, qhat: Digit) returns (qj: Digit)
    requires j + n <= uu.Length && n <= v.Length && uu != v
    requires var w, d := t1 * P(n) + Num(uu, j, n), Num(v, 0, n); qhat * d - d <= w < qhat * d + d
    modifies uu
    ensures old(t1 * P(n) + Num(uu, j, n)) == qj * Num(v, 0, n) + Num(uu, j, n)
    ensures Num(uu, j, n) < Num(v, 0, n)
    ensures forall i :: 0 <= i < uu.Length && !(j <= i < j + n) ==> uu[i] == old(uu[i])
  {
    hide P, Val;
    ghost var window, divisor := t1 * P(n) + Num(uu, j, n), Num(v, 0, n);
    ghost var prod := qhat * divisor;
    ZeroTimes(qhat, divisor);
    Nonneg(t1, P(n));
    ValBound(v[0..n]);
    var overflow;
    ghost var borrow;
    overflow, borrow := MpMultSub(t1, uu, j, v, qhat, n);
    ValBound(uu[j..j + n]);
    BorrowDecides(window, prod, divisor, P(n), t1, borrow, Num(uu, j, n));
    qj := qhat;
    if overflow != 0 {
      ghost var left := Num(uu, j, n);
      qj := qj - 1;
      Pred(qhat, divisor);
      var carry := MpAdd(uu, j, uu, j, v, n);
      ValBound(uu[j..j + n]);
      assert left + divisor == window - prod + divisor + P(n);
      CarryIsOne(window - prod + divisor, P(n), carry, Num(uu, j, n));
    }
  }

  lemma WindowLead(t1: Digit, u: seq<Digit>, v: seq<Digit>)
    requires |u| == |v| >= 2
    requires t1 * P(|u|) + Val(u) < 0x1_0000_0000 * Val(v)
    ensures t1 <= v[|v| - 1]
  {
    var n := |v|;
    assert v[..n - 1] + [v[n - 1]] == v;
    ValBound(v[..n - 1]);
    HiddenDigitBound(t1, Val(u), v[n - 1], Val(v[..n - 1]), P(n - 1));
  }

  /** The estimate from the leading digits, read as a statement about the whole window. */
  lemma EstimateOnWindow(t1: Digit, u: seq<Digit>, v: seq<Digit>, qhat: Digit)
    requires |u| == |v| >= 2 && v[|v| - 1] >= 0x8000_0000
    requires var n := |v|; var v2, lead := Two(v[n - 1], v[n - 2]), Two(Two(t1, u[n - 1]), u[n - 2]);
      qhat * v2 <= lead && (qhat == 0xFFFF_FFFF || (qhat + 1) * v2 > lead)
    requires t1 * P(|u|) + Val(u) < 0x1_0000_0000 * Val(v)
    ensures qhat * Val(v) - Val(v) <= t1 * P(|u|) + Val(u) < qhat * Val(v) + Val(v)
  {
    hide P, Val, Two;
    TwoIs(v[|v| - 1], v[|v| - 2]);
    var n := |v|;
    LeadingTwo(u);
    LeadingTwo(v);
    TopPowers(n);
    LeadSum(t1, u[n - 1], u[n - 2], P(n - 2));
    QhatWithinOne(t1 * P(n) + Val(u), Two(Two(t1, u[n - 1]), u[n - 2]), Val(u[..n - 2]),
                  Val(v), Two(v[n - 1], v[n - 2]), Val(v[..n - 2]), P(n - 2), qhat);
  }

  lemma TopPowers(n: nat)
    requires n >= 2
    ensures P(n) == 0x1_0000_0000_0000_0000 * P(n - 2)
  {
    assert P(n) == 0x1_0000_0000 * P(n - 1);
  }

  lemma LeadSum(t1: nat, a: nat, b: nat, p: nat)
    ensures t1 * (0x1_0000_0000_0000_0000 * p) + Two(a, b) * p == Two(Two(t1, a), b) * p
  {
    assert Two(Two(t1, a), b) == 0x1_0000_0000_0000_0000 * t1 + Two(a, b);
    LeadSplit(t1, Two(a, b), p);
  }

  lemma LeadSplit(t1: nat, two: nat, p: nat)
    ensures t1 * (0x1_0000_0000_0000_0000 * p) + two * p == (0x1_0000_0000_0000_0000 * t1 + two) * p
  {
  }

  /** The returned top digit is 0 exactly when the product could be taken from the window. */
  lemma BorrowDecides(window: int, prod: int, v: int, p: int, t1: Digit, borrow: Digit, left: int)
    requires prod - v <= window < prod + v && v < p && 0 <= left < p
    requires left == window - t1 * p - prod + borrow * p
    ensures window >= prod ==> borrow == t1 && left == window - prod
    ensures window < prod ==> borrow == t1 + 1 && left == window - prod + p
    ensures Sub32(t1, borrow) == 0 <==> window >= prod
  {
    var d := borrow - t1;
    MulDist(borrow, t1, p);
    assert left == window - prod + d * p;
    if d >= 2 { MulLe(2, d, p); }
    if d <= -1 { MulLe(d, -1, p); }
  }

  lemma CarryIsOne(rest: int, p: int, carry: Digit, left: int)
    requires 0 <= rest < p && 0 <= left < p && carry <= 1
    requires left + carry * p == rest + p
    ensures left == rest
  {
  }

  /** The remainder on n digits at position j of s, whose top digit is held in t. */
  ghost function Rest(s: seq<Digit>, j: nat, n: nat, t: Digit): int
    requires n >= 1 && j + n - 1 <= |s|
  {
    t * P(n - 1) + Val(s[j..j + n - 1])
  }

  /** One round of the loop on j: a quotient digit is stored and its remainder's top digit handed to the next round. */
  method DivideRound(q: array<Digit>, uu: array<Digit>, v: array<Digit>, j: nat, n: nat, t1: Digit) returns (t0: Digit)
    requires n >= 2 && j < q.Length && j + n <= uu.Length && n <= v.Length
    requires q != uu && q != v && uu != v
    requires v[n - 1] >= 0x8000_0000
    requires Rest(uu[..], j + 1, n, t1) < Num(v, 0, n)
    modifies q, uu
    ensures q[..] == old(q[..])[j := q[j]]
    ensures forall i :: 0 <= i < uu.Length && !(j <= i < j + n) ==> uu[i] == old(uu[i])
    ensures t0 == uu[j + n - 1]
    ensures 0x1_0000_0000 * Rest(old(uu[..]), j + 1, n, t1) + old(uu[j])
         == q[j] * Num(v, 0, n) + Rest(uu[..], j, n, t0)
    ensures Rest(uu[..], j, n, t0) < Num(v, 0, n)
  {
    hide P, Val;
    NextWindow(uu[..], j, n, t1);
    assert uu[..][j..j + n] == uu[j..j + n];
    var qj := DivideStep(uu, j, v, n, t1);
    q[j] := qj;
    t0 := uu[j + n - 1];
    SliceSnoc(uu[..], j, n - 1);
    assert uu[..][j..j + n] == uu[j..j + n];
  }

  /** Steps D2 to D7: all quotient digits of the m + n digits of uu with overflow above them. */
  method DivideLoop(q: array<Digit>, uu: array<Digit>, v: array<Digit>, overflow: Digit, n: nat, m: nat)
    requires n >= 2 && m < q.Length && m + n <= uu.Length && n <= v.Length
    requires q != uu && q != v && uu != v
    requires v[n - 1] >= 0x8000_0000 && overflow < 0x8000_0000
    modifies q, uu
    ensures old(Num(uu, 0, m + n) + overflow * P(m + n)) == Num(q, 0, m + 1) * Num(v, 0, n) + Num(uu, 0, n)
    ensures Num(uu, 0, n) < Num(v, 0, n)
    ensures forall i :: m < i < q.Length ==> q[i] == old(q[i])
    ensures forall i :: m + n <= i < uu.Length ==> uu[i] == old(uu[i])
  {
    hide P, Val;
    Empty();
    ghost var u0 := uu[..];
    ghost var total, divisor := Num(uu, 0, m + n) + overflow * P(m + n), Num(v, 0, n);
    var t0: Digit := overflow;
    var j: nat := m + 1;
    StartOfDivision(u0, v[0..n], overflow, n, m);
    assert q[..][m + 1..m + 1] == [];
    assert (Val(q[..][m + 1..m + 1]) * P(m + 1)) * divisor == 0;
    while j > 0
      invariant j <= m + 1
      invariant forall i :: m < i < q.Length ==> q[i] == old(q[i])
      invariant forall i :: 0 <= i < uu.Length && (i < j || m + n <= i) ==> uu[i] == u0[i]
      invariant j <= m ==> t0 == uu[j + n - 1]
      invariant Rest(uu[..], j, n, t0) < divisor
      invariant total == (Val(q[..][j..m + 1]) * P(j)) * divisor + Val(u0[..j]) + P(j) * Rest(uu[..], j, n, t0)
    {
      j := j - 1;
      ghost var q0, rest := q[..], Rest(uu[..], j + 1, n, t0);
      t0 := DivideRound(q, uu, v, j, n, t0);
      SliceCons(q[..], j, m + 1);
      assert q[..][j + 1..m + 1] == q0[j + 1..m + 1];
      ValSnoc(u0, j);
      DivideLoopStep(total, Val(q0[j + 1..m + 1]), P(j + 1), divisor, Val(u0[..j + 1]), rest,
                     Val(q[..][j..m + 1]), P(j), Val(u0[..j]), u0[j], q[j], Rest(uu[..], j, n, t0));
    }
    FullRemainder(uu[..], n);
    assert (Val(q[..][0..m + 1]) * P(0)) * divisor == Val(q[..][0..m + 1]) * divisor;
    assert uu[..][0..n] == uu[0..n] && q[..][0..m + 1] == q[0..m + 1];
  }

  lemma FullRemainder(s: seq<Digit>, n: nat)
    requires 1 <= n <= |s|
    ensures Rest(s, 0, n, s[n - 1]) == Val(s[0..n])
  {
    SliceSnoc(s, 0, n - 1);
  }

  /** Moving the window down by one digit. */
  lemma NextWindow(s: seq<Digit>, j: nat, n: nat, t: Digit)
    requires 1 <= n && j + n <= |s|
    ensures t * P(n) + Val(s[j..j + n]) == 0x1_0000_0000 * Rest(s, j + 1, n, t) + s[j]
  {
    hide P, Val;
    SliceCons(s, j, j + n);
    PStep(n);
    assert Rest(s, j + 1, n, t) == t * P(n - 1) + Val(s[j + 1..j + n]);
    NextWindowArith(t, P(n), P(n - 1), Val(s[j + 1..j + n]), s[j]);
  }

  lemma NextWindowArith(t: int, p': int, p: int, v: int, d: int)
    requires p' == 0x1_0000_0000 * p
    ensures t * p' + (d + 0x1_0000_0000 * v) == 0x1_0000_0000 * (t * p + v) + d
  {
    MulAssoc(t, 0x1_0000_0000, p);
  }

  lemma StartOfDivision(u: seq<Digit>, v: seq<Digit>, overflow: Digit, n: nat, m: nat)
    requires n >= 2 && |v| == n && m + n <= |u|
    requires v[n - 1] >= 0x8000_0000 && overflow < 0x8000_0000
    ensures Rest(u, m + 1, n, overflow) < Val(v)
    ensures Val(u[0..m + n]) + overflow * P(m + n) == Val(u[..m + 1]) + P(m + 1) * Rest(u, m + 1, n, overflow)
  {
    SliceSplit(u, m + 1, m + n);
    PAdd(m + 1, n - 1);
    MulDist(overflow * P(n - 1), Val(u[m + 1..m + n]), P(m + 1));
    MulAssoc(overflow, P(m + 1), P(n - 1));
    ValBound(u[m + 1..m + n]);
    MulLe(overflow + 1, v[n - 1], P(n - 1));
    Pred(overflow + 1, P(n - 1));
  }

  lemma DivideLoopStep(total: int, vq: int, p': int, v: int, low': int, rest: int,
                       vq': int, p: int, low: int, d: int, qj: int, left: int)
    requires total == (vq * p') * v + low' + p' * rest
    requires p' == 0x1_0000_0000 * p && low' == low + d * p && vq' == qj + 0x1_0000_0000 * vq
    requires 0x1_0000_0000 * rest + d == qj * v + left
    ensures total == (vq' * p) * v + low + p * left
  {
    ShortDivStep(v, vq, p, rest, d, qj, left, low);
  }

  /**
   * q = u / v and r = u mod v for any digit lengths. Returns -1 when v is zero, with q and r cleared, and 0
   * otherwise. v is shifted in place to normalise it, and is back as it was at the end.
   */
  method MpDivide(q: array<Digit>, r: array<Digit>, u: array<Digit>, udigits: nat, v: array<Digit>, vdigits: nat)
    returns (ret: int)
    requires 0 < udigits <= u.Length && udigits <= q.Length && udigits <= r.Length && vdigits <= v.Length
    requires q != r && q != u && q != v && r != u && r != v && u != v
    modifies q, r, v
    ensures v[..] == old(v[..])
    ensures forall i :: udigits <= i < q.Length ==> q[i] == old(q[i])
    ensures forall i :: udigits <= i < r.Length ==> r[i] == old(r[i])
    ensures ret == if Num(v, 0, vdigits) == 0 then -1 else 0
    ensures ret == -1 ==> Num(q, 0, udigits) == Num(r, 0, udigits) == 0
    ensures ret == 0 ==> Num(u, 0, udigits) == Num(q, 0, udigits) * Num(v, 0, vdigits) + Num(r, 0, udigits)
    ensures ret == 0 ==> Num(r, 0, udigits) < Num(v, 0, vdigits)
  {
    hide P, Val;
    MpSetZero(q, udigits);
    MpSetZero(r, udigits);
    ValZeros(q[0..udigits]);
    ValZeros(r[0..udigits]);
    ZeroTimes(0, Num(v, 0, vdigits));
    var n := MpSizeof(v, vdigits);
    var m: int := MpSizeof(u, udigits);
    assert v[0..vdigits] == v[..vdigits] && v[0..n] == v[..n];
    m := m - n;
    if n == 0 {
      Empty();
      return -1;
    }
    NonzeroTop(v[0..n]);
    if n == 1 {
      OneDigit(v[0..1]);
      r[0] := MpShortDiv(q, u, v[0], udigits);
      OnlyLowDigit(r[0..udigits]);
      return 0;
    }
    assert u[0..udigits] == u[..udigits] && u[0..m + n] == u[..m + n];
    if m < 0 {
      ShorterIsLess(u[0..m + n], v[0..n]);
      MpSetEqual(r, u, udigits);
      assert r[0..udigits] == r[..udigits];
      return 0;
    }
    if m == 0 {
      var cmp := MpCompare(u, v, n);
      if cmp < 0 {
        MpSetEqual(r, u, udigits);
        assert r[0..udigits] == r[..udigits];
        return 0;
      } else if cmp == 0 {
        MpSetDigit(q, 1, udigits);
        OnlyLowDigit(q[0..udigits]);
        return 0;
      }
    }
    DivideNormalised(q, r, u, v, n, m, udigits);
    return 0;
  }

  /** The main case of mpDivide: v has n >= 2 significant digits and u has n + m of them. */
  method DivideNormalised(q: array<Digit>, r: array<Digit>, u: array<Digit>, v: array<Digit>,
                          n: nat, m: nat, udigits: nat)
    requires n >= 2 && n <= v.Length && n + m <= udigits
    requires udigits <= u.Length && udigits <= q.Length && udigits <= r.Length
    requires q != r && q != u && q != v && r != u && r != v && u != v
    requires v[n - 1] != 0 && Num(u, 0, udigits) == Num(u, 0, n + m)
    requires forall i :: 0 <= i < udigits ==> q[i] == 0 && r[i] == 0
    modifies q, r, v
    ensures v[..] == old(v[..])
    ensures forall i :: udigits <= i < q.Length ==> q[i] == old(q[i])
    ensures forall i :: udigits <= i < r.Length ==> r[i] == old(r[i])
    ensures Num(u, 0, udigits) == Num(q, 0, udigits) * Num(v, 0, n) + Num(r, 0, udigits)
    ensures Num(r, 0, udigits) < Num(v, 0, n)
  {
    hide P, Val, Pow2;
    ghost var v0, divisor: int, dividend: int := v[..], Num(v, 0, n), Num(u, 0, n + m);
    var shift := Normalisation(v[n - 1]);
    ghost var p: int := Pow2(shift);
    var overflow := MpShiftLeft(v, v, shift, n);
    ghost var w := v[0..n];
    NormalisedDivisor(v0[0..n], w, shift, overflow);
    overflow := MpShiftLeft(r, u, shift, n + m);
    Pow2Small(shift);
    ghost var r1 := r[..];
    DivideLoop(q, r, v, overflow, n, m);
    assert v[0..n] == w;
    ghost var quotient: int, rest: int := Num(q, 0, m + 1), Num(r, 0, n);
    assert dividend * p == quotient * (divisor * p) + rest;
    assert rest < divisor * p;
    ghost var rem, vrem;
    rem, vrem := ShiftBack(r, v, shift, n, m);
    UnscaledRemainder(dividend, p, quotient, divisor, rest, Num(r, 0, n), rem);
    RestoredDivisor(v0, v[..], n, p, vrem);
    ValTrim(r[0..udigits], n);
    ValTrim(q[0..udigits], m + 1);
    assert r[0..udigits][..n] == r[0..n] && q[0..udigits][..m + 1] == q[0..m + 1];
  }

  /** The end of mpDivide: clears the digits above the remainder and unnormalises it and the divisor. */
  method ShiftBack(r: array<Digit>, v: array<Digit>, shift: nat, n: nat, m: nat) returns (ghost rem: nat, ghost vrem: nat)
    requires n <= v.Length && n + m <= r.Length && r != v && shift < 32
    modifies r, v
    ensures old(Num(r, 0, n)) == Num(r, 0, n) * Pow2(shift) + rem && rem < Pow2(shift)
    ensures old(Num(v, 0, n)) == Num(v, 0, n) * Pow2(shift) + vrem && vrem < Pow2(shift)
    ensures forall i :: n <= i < n + m ==> r[i] == 0
    ensures forall i :: n + m <= i < r.Length ==> r[i] == old(r[i])
    ensures forall i :: n <= i < v.Length ==> v[i] == old(v[i])
  {
    hide P, Val, Pow2;
    ghost var rest := r[0..n];
    for j := n to m + n
      invariant forall i :: n <= i < j ==> r[i] == 0
      invariant forall i :: m + n <= i < r.Length ==> r[i] == old(r[i])
      invariant r[0..n] == rest
      modifies r
    {
      r[j] := 0;
    }
    var carry;
    carry, rem := MpShiftRight(r, r, shift, n);
    carry, vrem := MpShiftRight(v, v, shift, n);
  }

  lemma RestoredDivisor(v0: seq<Digit>, v: seq<Digit>, n: nat, p: nat, rem: nat)
    requires n <= |v0| == |v| && v0[n..] == v[n..]
    requires rem < p && Val(v0[0..n]) * p == Val(v[0..n]) * p + rem
    ensures v == v0
  {
    Unscaled(Val(v[0..n]), p, rem, Val(v0[0..n]));
    ValInjective(v0[0..n], v[0..n]);
    assert v == v[0..n] + v[n..] && v0 == v0[0..n] + v0[n..];
  }

  lemma NonzeroTop(s: seq<Digit>)
    requires s != [] && s[|s| - 1] != 0
    ensures Val(s) >= P(|s| - 1)
  {
    MulLe(1, s[|s| - 1], P(|s| - 1));
  }

  lemma OneDigit(s: seq<Digit>)
    requires |s| == 1
    ensures Val(s) == s[0]
  {
    ValCons(s);
  }

  lemma OnlyLowDigit(s: seq<Digit>)
    requires s != [] && forall i :: 1 <= i < |s| ==> s[i] == 0
    ensures Val(s) == s[0]
  {
    ValCons(s);
    ValZeros(s[1..]);
  }

  lemma ShorterIsLess(s: seq<Digit>, t: seq<Digit>)
    requires |s| < |t| && t[|t| - 1] != 0
    ensures Val(s) < Val(t)
  {
    hide P, Val;
    NonzeroTop(t);
    ValBound(s);
    PAdd(|s|, |t| - 1 - |s|);
    MulLe(1, P(|t| - 1 - |s|), P(|s|));
  }

  lemma Pow2Small(s: nat)
    requires s < 32
    ensures Pow2(s) <= 0x8000_0000
  {
    hide Pow2;
    Pow2Add(s, 31 - s);
    Pow2Word();
    MulLe(1, Pow2(31 - s), Pow2(s));
  }

  /** Shifting by the normalisation of the top digit loses nothing and sets the top bit. */
  lemma NormalisedDivisor(v: seq<Digit>, w: seq<Digit>, shift: nat, overflow: Digit)
    requires |v| == |w| >= 1 && shift < 32
    requires Val(w) + overflow * P(|v|) == Val(v) * Pow2(shift)
    requires 0x8000_0000 <= v[|v| - 1] * Pow2(shift) < 0x1_0000_0000
    ensures overflow == 0 && w[|w| - 1] >= 0x8000_0000
    ensures Val(w) == Val(v) * Pow2(shift)
  {
    hide P, Val, Pow2;
    var c := Pow2(32 - shift);
    assert Pow2(shift) * c == 0x1_0000_0000 by {
      Pow2Add(shift, 32 - shift);
      Pow2Word();
    }
    var vlow := TopSplit(v);
    var wlow := TopSplit(w);
    NormalisedTop(v[|v| - 1], vlow, P(|v| - 1), P(|v|), Pow2(shift), c, w[|v| - 1], wlow, overflow, Val(v), Val(w));
  }

  lemma TopSplit(s: seq<Digit>) returns (low: nat)
    requires s != []
    ensures low < P(|s| - 1) && Val(s) == low + s[|s| - 1] * P(|s| - 1)
    ensures P(|s|) == 0x1_0000_0000 * P(|s| - 1)
  {
    low := Val(s[..|s| - 1]);
    ValBound(s[..|s| - 1]);
  }

  lemma NormalisedTop(top: nat, low: nat, pw: nat, pw': nat, p: nat, c: nat,
                      wtop: Digit, wlow: nat, overflow: Digit, v: int, w: int)
    requires low < pw && wlow < pw && p >= 1 && p * c == 0x1_0000_0000 && pw' == 0x1_0000_0000 * pw
    requires 0x8000_0000 <= top * p < 0x1_0000_0000
    requires v == low + top * pw && w == wlow + wtop * pw
    requires w + overflow * pw' == v * p
    ensures overflow == 0 && wtop >= 0x8000_0000 && w == v * p
  {
    var tp := top * p;
    TopTimes(top, pw, low, p);
    MulLe(0x8000_0000, tp, pw);
    Nonneg(low, p);
    // (top + 1) * p cannot pass a digit, because p divides the base
    assert c * p == p * c;
    MulCancelLt(top, c, p);
    MulLe(top + 1, c, p);
    Pred(top + 1, p);
    MulLe(tp + p, 0x1_0000_0000, pw);
    MulDist(tp, p, pw);
    MulLe(low + 1, pw, p);
    Pred(low + 1, p);
    assert pw * p == p * pw;
    Nonneg(wtop, pw);
    if overflow >= 1 {
      MulLe(1, overflow, pw');
      assert false;
    }
    ZeroTimes(overflow, pw');
    Pred(wtop + 1, pw);
    MulCancelLt(0x8000_0000, wtop + 1, pw);
  }

  lemma TopTimes(top: int, pw: int, low: int, p: int)
    ensures (low + top * pw) * p == (top * p) * pw + low * p
  {
  }

  /** Undoing a shift that lost nothing gives the number back, and with it its digits. */
  lemma Unscaled(w: nat, p: nat, rem: nat, v: nat)
    requires w * p + rem == v * p && rem < p
    ensures w == v
  {
    if w < v {
      MulLe(w + 1, v, p);
      Pred(w + 1, p);
    } else if w > v {
      MulLe(v + 1, w, p);
      Pred(v + 1, p);
    }
  }

  /** The remainder of the scaled division is the scaled remainder. */
  lemma UnscaledRemainder(u: nat, p: nat, q: nat, v: nat, shifted: nat, r: nat, rem: nat)
    requires p >= 1 && u * p == q * (v * p) + shifted && shifted < v * p
    requires shifted == r * p + rem && rem < p
    ensures u == q * v + r && r < v
  {
    Unnormalise(u, p, q, v, shifted);
    DivUnique(shifted, p, r, rem);
  }
}
