/** Left-to-right modular exponentiation over digit arrays (apiRSA.c, mpModExp and its helpers). */
module ModExp {

  import opened Arith
  import opened Digits
  import opened MultiPrecision
  import opened Division
  import opened Square

  /** b to the power e. */
  ghost function Power(b: nat, e: nat): nat {
    if e == 0 then 1 else b * Power(b, e - 1)
  }

  /** What mpModExp computes: an exponent of 1 returns x as it is, and a modulus of 0 clears the result. */
  ghost function Result(x: nat, e: nat, m: nat): nat {
    if e == 1 then x else if m == 0 then 0 else Power(x, e) % m
  }

  /** mpModExp meets its documented purpose exactly when x is already reduced or the exponent is not 1. */
  lemma ResultIsModularPower(x: nat, e: nat, m: nat)
    requires e >= 1 && m >= 1
    ensures Result(x, e, m) == Power(x, e) % m <==> x < m || e != 1
  {
    assert Power(x, 1) == x * Power(x, 0) == x;
    if x < m {
      DivUnique(x, m, 0, x);
    }
  }

  /** Multiplying residues. */
  lemma ModMul(a: nat, b: nat, m: nat)
    requires m > 0
    ensures ((a % m) * b) % m == (a * b) % m
  {
    var q, r := a / m, a % m;
    Decompose(a, m);
    var q', r' := (r * b) / m, (r * b) % m;
    Decompose(r * b, m);
    ModMulArith(a, b, m, q, r, q', r');
    DivUnique(a * b, m, q * b + q', r');
  }

  lemma ModMulArith(a: int, b: int, m: int, q: int, r: int, q': int, r': int)
    requires a == q * m + r && r * b == q' * m + r'
    ensures a * b == (q * b + q') * m + r'
  {
    MulDist(q * m, r, b);
    MulDist(q * b, q', m);
    assert (q * m) * b == (q * b) * m;
  }

  lemma {:induction false} PowerAdd(b: nat, e: nat, f: nat)
    ensures Power(b, e + f) == Power(b, e) * Power(b, f)
  {
    if e > 0 {
      PowerAdd(b, e - 1, f);
      MulAssoc(b, Power(b, e - 1), Power(b, f));
    }
  }

  /** One round of the binary method: squaring doubles the exponent. */
  lemma SquareResult(x: nat, p: nat, m: nat)
    requires p >= 1 && m > 0
    ensures (Result(x, p, m) * Result(x, p, m)) % m == Result(x, 2 * p, m)
  {
    var y, w := Result(x, p, m), Power(x, p);
    PowerAdd(x, p, p);
    if p == 1 {
      assert w == x * Power(x, 0) == x;
    } else {
      ModMul(w, w % m, m);
      ModMul(w, w, m);
      assert w * (w % m) == (w % m) * w;
    }
  }

  /** One round of the binary method: multiplying by x adds one to the exponent. */
  lemma MultiplyResult(x: nat, p: nat, m: nat)
    requires p >= 2 && m > 0
    ensures (Result(x, p, m) * x) % m == Result(x, p + 1, m)
  {
    ModMul(Power(x, p), x, m);
    assert Power(x, p) * x == x * Power(x, p);
  }

  /**
   * The exponent bits above the current one, as a number: the digits from n up, and what is left of digit
   * n - 1 above bit s.
   */
  ghost function Prefix(e: seq<Digit>, n: nat, s: nat): nat
    requires n <= |e| && s < 32
  {
    if n == 0 then
      Val(e)
    else
      Nonneg(Val(e[n..]), Pow2(31 - s));
      Decompose(e[n - 1], Pow2(s + 1));
      Val(e[n..]) * Pow2(31 - s) + e[n - 1] / Pow2(s + 1)
  }

  /** Moving on by one bit doubles the prefix and adds the bit. */
  lemma NextBit(e: seq<Digit>, n: nat, s: nat)
    requires 1 <= n <= |e| && s < 32
    ensures var bit := (e[n - 1] / Pow2(s)) % 2;
      2 * Prefix(e, n, s) + bit == if s > 0 then Prefix(e, n, s - 1) else Prefix(e, n - 1, 31)
  {
    hide P, Val, Pow2;
    var d := e[n - 1];
    HalfDigit(d, s);
    if s > 0 {
      Pow2Step(31 - s);
      assert Val(e[n..]) * (2 * Pow2(31 - s)) == 2 * (Val(e[n..]) * Pow2(31 - s));
    } else {
      SliceCons(e, n - 1, |e|);
      assert e[n - 1..|e|] == e[n - 1..] && e[n..|e|] == e[n..];
      Pow2Word();
      Pow2Step(0);
      if n > 1 {
        assert e[n - 2] / 0x1_0000_0000 == 0;
      } else {
        assert e[n - 1..] == e;
      }
    }
  }

  lemma Pow2Step(s: nat)
    ensures Pow2(s + 1) == 2 * Pow2(s)
    ensures Pow2(0) == 1
  {
  }

  lemma HalfDigit(d: nat, s: nat)
    ensures d / Pow2(s) == 2 * (d / Pow2(s + 1)) + (d / Pow2(s)) % 2
  {
    var p := Pow2(s);
    var q, r := d / p, d % p;
    Decompose(d, p);
    HalfDigitArith(d, p, q, r, q / 2, q % 2);
    DivUnique(d, 2 * p, q / 2, (q % 2) * p + r);
  }

  lemma HalfDigitArith(d: int, p: int, q: int, r: int, h: int, l: int)
    requires d == q * p + r && q == 2 * h + l && 0 <= l <= 1 && 0 <= r < p
    ensures d == h * (2 * p) + (l * p + r) && 0 <= l * p + r < 2 * p
  {
  }

  /**
   * r = u mod v, with temporaries tqq and trr. The result keeps vdigits digits, which is all of it; a zero v
   * gives zero.
   */
  method ModuloTemp(r: array<Digit>, u: array<Digit>, udigits: nat, v: array<Digit>, vdigits: nat,
                    tqq: array<Digit>, trr: array<Digit>)
    requires 0 < udigits <= u.Length && udigits <= tqq.Length && udigits <= trr.Length
    requires vdigits <= udigits && vdigits <= v.Length && vdigits <= r.Length
    requires tqq != trr && tqq != u && tqq != v && trr != u && trr != v && u != v
    requires r != tqq && r != trr && r != v
    modifies r, v, tqq, trr
    ensures v[..] == old(v[..])
    ensures var d := Num(v, 0, vdigits);
      Num(r, 0, vdigits) == if d == 0 then 0 else old(Num(u, 0, udigits)) % d
  {
    hide P, Val;
    ghost var dividend, divisor := Num(u, 0, udigits), Num(v, 0, vdigits);
    var ret := MpDivide(tqq, trr, u, udigits, v, vdigits);
    assert divisor == Num(v, 0, vdigits);
    MpSetEqual(r, trr, vdigits);
    ValBound(v[0..vdigits]);
    assert trr[0..udigits][..vdigits] == trr[..vdigits] == r[0..vdigits];
    SmallHasFewDigits(trr[0..udigits], vdigits);
    if ret == 0 {
      DivUnique(dividend, divisor, Num(tqq, 0, udigits), Num(trr, 0, udigits));
    }
  }

  /** A number below BASE^n loses nothing when only n digits of it are kept. */
  lemma SmallHasFewDigits(s: seq<Digit>, n: nat)
    requires n <= |s|
    ensures Val(s) < P(n) ==> Val(s[..n]) == Val(s)
  {
    hide P, Val;
    ValSplit(s, n);
    if Val(s[n..]) >= 1 {
      MulLe(1, Val(s[n..]), P(n));
      assert P(n) * Val(s[n..]) == Val(s[n..]) * P(n);
    }
    ZeroTimes(Val(s[n..]), P(n));
  }

  /** The static temporaries of mpModExp. */
  class Exponentiator {
    const t1: array<Digit>
    const t2: array<Digit>
    const t3: array<Digit>
    const tm: array<Digit>
    const y: array<Digit>

    predicate Valid() {
      && t1.Length == t2.Length == t3.Length == 512 && tm.Length == y.Length == 256
      && t1 != t2 && t1 != t3 && t1 != tm && t1 != y && t2 != t3 && t2 != tm && t2 != y
      && t3 != tm && t3 != y && tm != y
    }

    function Temps(): set<object> {
      {t1, t2, t3, tm, y}
    }

    constructor ()
      ensures Valid() && fresh(Temps())
    {
      t1 := new Digit[512];
      t2 := new Digit[512];
      t3 := new Digit[512];
      tm := new Digit[256];
      y := new Digit[256];
    }

    /** y = y * y mod tm. */
    method ModSquareTemp(ndigits: nat)
      requires Valid() && 0 < ndigits <= 256
      modifies t1, t2, t3, tm, y
      ensures tm[..] == old(tm[..])
      ensures var d, v := Num(tm, 0, ndigits), old(Num(y, 0, ndigits));
        Num(y, 0, ndigits) == if d == 0 then 0 else (v * v) % d
    {
      MpSquare(t1, y, ndigits);
      ModuloTemp(y, t1, ndigits * 2, tm, ndigits, t2, t3);
    }

    /** y = y * x mod tm. */
    method ModMultTemp(x: array<Digit>, ndigits: nat)
      requires Valid() && 0 < ndigits <= 256 && ndigits <= x.Length && x !in Temps()
      modifies t1, t2, t3, tm, y
      ensures tm[..] == old(tm[..])
      ensures var d, v := Num(tm, 0, ndigits), old(Num(y, 0, ndigits));
        Num(y, 0, ndigits) == if d == 0 then 0 else (v * Num(x, 0, ndigits)) % d
    {
      MpMultiply(t1, y, x, ndigits);
      ModuloTemp(y, t1, ndigits * 2, tm, ndigits, t2, t3);
    }

    /** The macro mpNEXTBITMASK on the pair (mask, n); s is the bit that mask selects. */
    method NextBitMask(mask: Digit, n: nat, ghost s: nat) returns (mask': Digit, n': nat, ghost s': nat)
      requires s < 32 && mask == Pow2(s) && n >= 1
      ensures s' < 32 && mask' == Pow2(s')
      ensures if s > 0 then n' == n && s' == s - 1 else n' == n - 1 && s' == 31
    {
      Pow2Word();
      if mask == 1 && n != 0 {
        assert s == 0;
        return 0x8000_0000, n - 1, 31;
      }
      return mask / 2, n, s - 1;
    }

    /** One bit of the exponent: square, and multiply when the bit is set. p is the exponent done so far. */
    method Round(x: array<Digit>, bit: bool, ndigits: nat, ghost p: nat)
      requires Valid() && 0 < ndigits <= 256 && ndigits <= x.Length && x !in Temps() && p >= 1
      requires Num(y, 0, ndigits) == Result(Num(x, 0, ndigits), p, Num(tm, 0, ndigits))
      modifies t1, t2, t3, tm, y
      ensures tm[..] == old(tm[..])
      ensures Num(y, 0, ndigits)
           == Result(Num(x, 0, ndigits), if bit then 2 * p + 1 else 2 * p, Num(tm, 0, ndigits))
    {
      hide P, Val, Result;
      RoundResult(Num(x, 0, ndigits), p, Num(tm, 0, ndigits));
      ModSquareTemp(ndigits);
      if bit {
        ModMultTemp(x, ndigits);
      }
    }

    /** yout = x^e mod m for e > 0, by squaring and multiplying from the second most significant bit of e down. */
    method MpModExp(yout: array<Digit>, x: array<Digit>, e: array<Digit>, m: array<Digit>, ndigits: nat)
      returns (ret: int)
      requires Valid() && ndigits <= 256
      requires ndigits <= yout.Length && ndigits <= x.Length && ndigits <= e.Length && ndigits <= m.Length
      requires yout !in Temps() && x !in Temps() && e !in Temps() && m !in Temps()
      requires ndigits > 0 ==> Num(e, 0, ndigits) > 0
      modifies yout, t1, t2, t3, tm, y
      ensures ret == if ndigits == 0 then -1 else 0
      ensures ndigits > 0 ==>
        Num(yout, 0, ndigits) == old(Result(Num(x, 0, ndigits), Num(e, 0, ndigits), Num(m, 0, ndigits)))
      ensures forall i :: ndigits <= i < yout.Length ==> yout[i] == old(yout[i])
    {
      hide P, Val, Pow2, Result, Prefix;
      if ndigits == 0 {
        return -1;
      }
      var nn := ndigits * 2;
      MpSetZero(t1, nn);
      MpSetZero(t2, nn);
      MpSetZero(t3, nn);
      MpSetZero(tm, ndigits);
      MpSetZero(y, ndigits);
      MpSetEqual(tm, m, ndigits);
      ghost var xv, ev, mv := Num(x, 0, ndigits), Num(e, 0, ndigits), Num(m, 0, ndigits);
      assert tm[0..ndigits] == tm[..ndigits] && m[0..ndigits] == m[..ndigits];

      var n: nat := MpSizeof(e, ndigits);
      assert e[0..ndigits] == e[..ndigits];
      ghost var es := e[..n];
      EmptyIsZero(es);
      var mask;
      ghost var s;
      mask, s := TopBit(e[n - 1]);
      FirstPrefix(es, s);
      NextBit(es, n, s);
      mask, n, s := NextBitMask(mask, n, s);

      MpSetEqual(y, x, ndigits);
      assert y[0..ndigits] == y[..ndigits] && x[0..ndigits] == x[..ndigits];
      FirstResult(xv, mv);

      while n != 0
        invariant n <= |es| && s < 32 && mask == Pow2(s)
        invariant n == 0 ==> s == 31
        invariant Prefix(es, n, s) >= 1
        invariant Num(y, 0, ndigits) == Result(xv, Prefix(es, n, s), mv)
        invariant Num(tm, 0, ndigits) == mv
        decreases 32 * n + s
        modifies t1, t2, t3, tm, y
      {
        assert e[n - 1] == es[n - 1];
        NextBit(es, n, s);
        Round(x, TestBit(e[n - 1], mask), ndigits, Prefix(es, n, s));
        mask, n, s := NextBitMask(mask, n, s);
      }
      WholePrefix(es);
      MpSetEqual(yout, y, ndigits);
      assert yout[0..ndigits] == yout[..ndigits] && y[0..ndigits] == y[..ndigits];
      return 0;
    }
  }

  lemma EmptyIsZero(s: seq<Digit>)
    ensures s == [] ==> Val(s) == 0
  {
  }

  lemma FirstResult(x: nat, m: nat)
    ensures Result(x, 1, m) == x
  {
  }

  lemma WholePrefix(e: seq<Digit>)
    ensures Prefix(e, 0, 31) == Val(e)
  {
  }

  /** Nothing of the exponent lies above its top bit, so the walk starts with a prefix of 1. */
  lemma FirstPrefix(e: seq<Digit>, s: nat)
    requires e != [] && s < 32 && Pow2(s) <= e[|e| - 1] < 2 * Pow2(s)
    ensures Prefix(e, |e|, s) == 0 && (e[|e| - 1] / Pow2(s)) % 2 == 1
  {
    var d := e[|e| - 1];
    DivUnique(d, Pow2(s + 1), 0, d);
    DivUnique(d, Pow2(s), 1, d - Pow2(s));
    ZeroTimes(Val(e[|e|..]), Pow2(31 - s));
  }

  /** What squaring, and then multiplying, make of the result so far. */
  lemma RoundResult(x: nat, p: nat, m: nat)
    requires p >= 1
    ensures var y := Result(x, p, m); Result(x, 2 * p, m) == if m == 0 then 0 else (y * y) % m
    ensures Result(x, 2 * p + 1, m) == if m == 0 then 0 else (Result(x, 2 * p, m) * x) % m
  {
    if m > 0 {
      SquareResult(x, p, m);
      MultiplyResult(x, 2 * p, m);
    }
  }

  /** Scans for the top bit of a nonzero digit. */
  method TopBit(d: Digit) returns (mask: Digit, ghost s: nat)
    requires d != 0
    ensures s < 32 && mask == Pow2(s) && mask <= d < 2 * mask
  {
    mask, s := 0x8000_0000, 31;
    Pow2Word();
    while mask > 0
      invariant s < 32 && mask == Pow2(s) && d < 2 * mask
      decreases mask
    {
      BitSet(d, mask);
      if TestBit(d, mask) {
        return;
      }
      mask := mask / 2;
      s := s - 1;
    }
  }

  lemma BitSet(v: nat, mask: nat)
    requires mask >= 1 && v < 2 * mask
    ensures (v / mask) % 2 != 0 <==> v >= mask
  {
    if v >= mask {
      DivUnique(v, mask, 1, v - mask);
    } else {
      DivUnique(v, mask, 0, v);
    }
  }
}
