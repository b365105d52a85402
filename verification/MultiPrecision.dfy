/** Shifts, addition, multiplication and short division on digit arrays (apiRSA.c). */
module MultiPrecision {

  import opened Arith
  import opened Digits
  import opened SinglePrecision

  /** The number held in n digits of a from position lo. */
  ghost function Num(a: array<Digit>, lo: nat, n: nat): nat
    requires lo + n <= a.Length
    reads a
  {
    Val(a[lo..lo + n])
  }

  /** Appending the digit at position i to a slice. */
  lemma SliceSnoc(s: seq<Digit>, lo: nat, i: nat)
    requires lo + i < |s|
    ensures Val(s[lo..lo + i + 1]) == Val(s[lo..lo + i]) + s[lo + i] * P(i)
    ensures P(i + 1) == 0x1_0000_0000 * P(i)
  {
    ValSnoc(s[lo..], i);
    assert s[lo..][..i + 1] == s[lo..lo + i + 1];
    assert s[lo..][..i] == s[lo..lo + i];
  }

  /** Putting the digit at position i in front of a slice. */
  lemma SliceCons(s: seq<Digit>, i: nat, hi: nat)
    requires i < hi <= |s|
    ensures Val(s[i..hi]) == s[i] + 0x1_0000_0000 * Val(s[i + 1..hi])
  {
    ValCons(s[i..hi]);
    assert s[i..hi][1..] == s[i + 1..hi];
  }

  method MpSizeof(a: array<Digit>, ndigits: nat) returns (size: nat)
    requires ndigits <= a.Length
    ensures size <= ndigits && (size > 0 ==> a[size - 1] != 0)
    ensures forall i :: size <= i < ndigits ==> a[i] == 0
    ensures Val(a[..ndigits]) == Val(a[..size])
  {
    size := ndigits;
    while size > 0 && a[size - 1] == 0
      invariant size <= ndigits
      invariant forall i :: size <= i < ndigits ==> a[i] == 0
    {
      size := size - 1;
    }
    ValTrim(a[..ndigits], size);
    assert a[..ndigits][..size] == a[..size];
  }

  method MpSetEqual(a: array<Digit>, b: array<Digit>, ndigits: nat)
    requires ndigits <= a.Length && ndigits <= b.Length
    modifies a
    ensures a[..ndigits] == old(b[..ndigits])
    ensures forall i :: ndigits <= i < a.Length ==> a[i] == old(a[i])
  {
    for i := 0 to ndigits
      invariant forall k :: 0 <= k < i ==> a[k] == old(b[k])
      invariant forall k :: i <= k < a.Length ==> a[k] == old(a[k])
      invariant forall k :: i <= k < b.Length ==> b[k] == old(b[k])
    {
      a[i] := b[i];
    }
  }

  method MpSetZero(a: array<Digit>, ndigits: nat)
    requires ndigits <= a.Length
    modifies a
    ensures forall i :: 0 <= i < ndigits ==> a[i] == 0
    ensures forall i :: ndigits <= i < a.Length ==> a[i] == old(a[i])
  {
    var n: nat := ndigits;
    while n > 0
      invariant n <= ndigits
      invariant forall k :: n <= k < ndigits ==> a[k] == 0
      invariant forall k :: ndigits <= k < a.Length ==> a[k] == old(a[k])
    {
      n := n - 1;
      a[n] := 0;
    }
  }

  method MpSetDigit(a: array<Digit>, d: Digit, ndigits: nat)
    requires 0 < ndigits <= a.Length
    modifies a
    ensures a[0] == d && forall i :: 0 < i < ndigits ==> a[i] == 0
    ensures forall i :: ndigits <= i < a.Length ==> a[i] == old(a[i])
  {
    for i := 1 to ndigits
      invariant forall k :: 1 <= k < i ==> a[k] == 0
      invariant forall k :: ndigits <= k < a.Length ==> a[k] == old(a[k])
    {
      a[i] := 0;
    }
    a[0] := d;
  }

  /** Compares from the most significant digit down: the sign of a - b. */
  method MpCompare(a: array<Digit>, b: array<Digit>, ndigits: nat) returns (cmp: int)
    requires ndigits <= a.Length && ndigits <= b.Length
    ensures cmp == var x, y := Val(a[..ndigits]), Val(b[..ndigits]); if x > y then 1 else if x < y then -1 else 0
  {
    var n: nat := ndigits;
    while n > 0
      invariant n <= ndigits
      invariant forall k :: n <= k < ndigits ==> a[k] == b[k]
    {
      n := n - 1;
      if a[n] != b[n] {
        TopDigitDecides(a[..ndigits], b[..ndigits], n);
        return if a[n] > b[n] then 1 else -1;
      }
    }
    assert a[..ndigits] == b[..ndigits];
    return 0;
  }

  lemma TopDigitDecides(s: seq<Digit>, t: seq<Digit>, n: nat)
    requires n < |s| == |t| && s[n] != t[n]
    requires forall k :: n < k < |s| ==> s[k] == t[k]
    ensures Val(s) < Val(t) <==> s[n] < t[n]
    ensures Val(s) != Val(t)
  {
    hide P, Val;
    ValSplit(s, n + 1);
    ValSplit(t, n + 1);
    assert s[n + 1..] == t[n + 1..];
    ValSnoc(s, n);
    ValSnoc(t, n);
    ValBound(s[..n]);
    ValBound(t[..n]);
    if s[n] < t[n] {
      MulLe(s[n] + 1, t[n], P(n));
      MulDist(s[n], 1, P(n));
    } else {
      MulLe(t[n] + 1, s[n], P(n));
      MulDist(t[n], 1, P(n));
    }
  }

  /** x << s on one digit: bits shifted past the top are lost. */
  function Shl(x: Digit, s: nat): Digit {
    (x * Pow2(s)) % 0x1_0000_0000
  }

  /** x >> s on one digit. */
  function Shr(x: Digit, s: nat): (r: Digit)
  {
    Shrinks(x, Pow2(s));
    x / Pow2(s)
  }

  lemma Shrinks(x: nat, p: nat)
    requires p >= 1
    ensures 0 <= x / p <= x
  {
    DivBounds(x, p);
    if x / p > x {
      MulLe(x + 1, x / p, p);
      MulLe(1, p, x + 1);
    }
  }

  /** The bits that a left shift pushes out are those of Shr by the complement; the rest leaves room for a carry. */
  lemma ShiftSplit(x: Digit, s: nat)
    requires s <= 32
    ensures x * Pow2(s) == 0x1_0000_0000 * Shr(x, 32 - s) + Shl(x, s)
    ensures Shr(x, 32 - s) < Pow2(s)
    ensures Shl(x, s) <= 0x1_0000_0000 - Pow2(s)
  {
    Pow2Add(s, 32 - s);
    Pow2Word();
    ShiftArith(x, Pow2(s), Pow2(32 - s));
  }

  lemma ShiftArith(x: nat, a: nat, b: nat)
    requires a >= 1 && b >= 1 && a * b == 0x1_0000_0000 && x < 0x1_0000_0000
    ensures x * a == 0x1_0000_0000 * (x / b) + (x * a) % 0x1_0000_0000
    ensures x / b < a
    ensures (x * a) % 0x1_0000_0000 <= 0x1_0000_0000 - a
  {
    var hi, lo := x / b, x % b;
    Decompose(x, b);
    Regroup(hi, b, lo, a);
    MulLe(lo, b - 1, a);
    Pred(b, a);
    Nonneg(lo, a);
    DivUnique(x * a, 0x1_0000_0000, hi, lo * a);
    MulCancelLt(hi, a, b);
  }

  /** a = b << shift for a shift below one digit; the bits pushed out of the top digit are returned. */
  method MpShiftLeft(a: array<Digit>, b: array<Digit>, shift: nat, ndigits: nat) returns (carry: Digit)
    requires ndigits <= a.Length && ndigits <= b.Length && shift < 32
    modifies a
    ensures Num(a, 0, ndigits) + carry * P(ndigits) == old(Num(b, 0, ndigits)) * Pow2(shift)
    ensures carry < Pow2(shift)
    ensures forall i :: ndigits <= i < a.Length ==> a[i] == old(a[i])
  {
    hide P, Val;
    Empty();
    carry := 0;
    ghost var b0 := b[..];
    ghost var p := Pow2(shift);
    for i := 0 to ndigits
      invariant forall k :: i <= k < b.Length ==> b[k] == b0[k]
      invariant forall k :: ndigits <= k < a.Length ==> a[k] == old(a[k])
      invariant Val(a[..i]) + carry * P(i) == Val(b0[..i]) * p
      invariant carry < p
    {
      ShiftSplit(b[i], shift);
      ghost var before := a[..i];
      ghost var k := carry;
      var nextcarry: Digit := Shr(b[i], 32 - shift);
      a[i] := Shl(b[i], shift) + carry;
      carry := nextcarry;
      assert a[..i] == before;
      ValSnoc(a[..], i);
      ValSnoc(b0, i);
      assert a[..][..i + 1] == a[..i + 1] && a[..][..i] == a[..i];
      ShiftLeftStep(Val(before), k, P(i), Val(b0[..i]), p, b0[i], carry, a[i]);
    }
    assert a[0..ndigits] == a[..ndigits];
    assert b0[0..ndigits] == b0[..ndigits];
  }

  lemma ShiftLeftStep(va: nat, k: nat, pw: nat, vb: nat, p: nat, d: nat, next: nat, digit: nat)
    requires va + k * pw == vb * p
    requires d * p + k == 0x1_0000_0000 * next + digit
    ensures va + digit * pw + next * (0x1_0000_0000 * pw) == (vb + d * pw) * p
  {
    assert (d * p + k) * pw == (0x1_0000_0000 * next + digit) * pw;
    MulDist(d * p, k, pw);
    MulDist(0x1_0000_0000 * next, digit, pw);
    MulDist(vb, d * pw, p);
    assert (d * pw) * p == (d * p) * pw;
    assert (0x1_0000_0000 * next) * pw == next * (0x1_0000_0000 * pw);
  }

  /** a = b >> shift for a shift below one digit; the bits pushed out are returned at the top of a digit. */
  method MpShiftRight(a: array<Digit>, b: array<Digit>, shift: nat, ndigits: nat)
    returns (carry: Digit, ghost rem: nat)
    requires ndigits <= a.Length && ndigits <= b.Length && shift < 32
    modifies a
    ensures old(Num(b, 0, ndigits)) == Num(a, 0, ndigits) * Pow2(shift) + rem
    ensures rem < Pow2(shift) && carry == rem * Pow2(32 - shift)
    ensures forall i :: ndigits <= i < a.Length ==> a[i] == old(a[i])
  {
    hide P, Val;
    Empty();
    carry := 0;
    rem := 0;
    ghost var b0 := b[..];
    ghost var p := Pow2(shift);
    var i: nat := ndigits;
    assert b0[ndigits..ndigits] == [] && a[ndigits..ndigits] == [];
    while i > 0
      invariant i <= ndigits
      invariant forall k :: 0 <= k < i ==> b[k] == b0[k]
      invariant forall k :: ndigits <= k < a.Length ==> a[k] == old(a[k])
      invariant Val(b0[i..ndigits]) == Val(a[i..ndigits]) * p + rem
      invariant rem < p && carry == rem * Pow2(32 - shift)
    {
      i := i - 1;
      ghost var before := a[i + 1..ndigits];
      ghost var r0 := rem;
      rem := b[i] % p;
      ShiftRightDigit(b[i], shift, r0);
      var nextcarry: Digit := Shl(b[i], 32 - shift);
      a[i] := Shr(b[i], shift) + carry;
      carry := nextcarry;
      assert a[i + 1..ndigits] == before;
      SliceCons(a[..], i, ndigits);
      SliceCons(b0, i, ndigits);
      assert a[..][i..ndigits] == a[i..ndigits] && a[..][i + 1..ndigits] == before;
      ShiftRightStep(Val(before), Val(b0[i + 1..ndigits]), b0[i], p, r0, a[i], rem);
    }
    assert a[0..ndigits] == a[i..ndigits];
    assert b0[0..ndigits] == b0[i..ndigits];
  }

  /** One digit shifted right: what stays makes room for the carry from above, what leaves is the remainder. */
  lemma ShiftRightDigit(d: Digit, s: nat, above: nat)
    requires s < 32 && above < Pow2(s)
    ensures Shl(d, 32 - s) == (d % Pow2(s)) * Pow2(32 - s)
    ensures 0 <= d % Pow2(s) < Pow2(s)
    ensures Shr(d, s) + above * Pow2(32 - s) < 0x1_0000_0000
    ensures d + 0x1_0000_0000 * above == (Shr(d, s) + above * Pow2(32 - s)) * Pow2(s) + d % Pow2(s)
  {
    Pow2Add(s, 32 - s);
    Pow2Word();
    ShiftRightArith(d, Pow2(s), Pow2(32 - s), above);
  }

  lemma ShiftRightArith(d: nat, p: nat, c: nat, above: nat)
    requires p >= 1 && c >= 1 && p * c == 0x1_0000_0000 && d < 0x1_0000_0000 && above < p
    ensures (d * c) % 0x1_0000_0000 == (d % p) * c
    ensures 0 <= d % p < p
    ensures d / p + above * c < 0x1_0000_0000
    ensures d + 0x1_0000_0000 * above == (d / p + above * c) * p + d % p
  {
    var hi, lo := d / p, d % p;
    Decompose(d, p);
    Regroup(hi, p, lo, c);
    MulLe(lo, p - 1, c);
    Pred(p, c);
    Nonneg(lo, c);
    assert c * p == p * c;
    DivUnique(d * c, 0x1_0000_0000, hi, lo * c);
    MulLe(above, p - 1, c);
    MulCancelLt(hi, c, p);
    Redistribute(above, c, hi, p);
  }

  lemma Redistribute(above: int, c: int, hi: int, p: int)
    ensures (hi + above * c) * p == hi * p + above * (p * c)
  {
  }

  lemma ShiftRightStep(va: nat, vb: nat, d: nat, p: nat, above: nat, digit: nat, rem: nat)
    requires vb == va * p + above
    requires d + 0x1_0000_0000 * above == digit * p + rem
    ensures d + 0x1_0000_0000 * vb == (digit + 0x1_0000_0000 * va) * p + rem
  {
    MulDist(digit, 0x1_0000_0000 * va, p);
    assert (0x1_0000_0000 * va) * p == 0x1_0000_0000 * (va * p);
  }

  /** How far v must be shifted to set its top bit: scans a mask down from the top bit. */
  method Normalisation(v: Digit) returns (shift: nat)
    requires v != 0
    ensures shift < 32
    ensures 0x8000_0000 <= v * Pow2(shift) < 0x1_0000_0000
  {
    var bitmask := 0x8000_0000;
    shift := 0;
    Pow2Word();
    while shift < 32
      invariant shift <= 31 && bitmask == Pow2(31 - shift)
      invariant v < 2 * bitmask
    {
      Pow2Add(shift, 31 - shift);
      MaskBit(v, bitmask, Pow2(shift));
      if TestBit(v, bitmask) {
        break;
      }
      bitmask := bitmask / 2;
      shift := shift + 1;
    }
  }

  /** When no bit above the mask is set, the masked bit says whether v reaches the mask. */
  lemma MaskBit(v: nat, mask: nat, p: nat)
    requires mask >= 1 && v < 2 * mask && p * mask == 0x8000_0000
    ensures (v / mask) % 2 == 0 ==> v < mask
    ensures (v / mask) % 2 != 0 ==> 0x8000_0000 <= v * p < 0x1_0000_0000
  {
    if v >= mask {
      DivUnique(v, mask, 1, v - mask);
      MulLe(mask, v, p);
      assert p >= 1;
      MulLe(v, 2 * mask - 1, p);
      Pred(2 * mask, p);
      MulAssoc(2, mask, p);
      assert mask * p == p * mask;
    } else {
      DivUnique(v, mask, 0, v);
    }
  }

  /** q = u div v and the result is u mod v, for a single digit v; makes no assumption about v's top bit. */
  method MpShortDiv(q: array<Digit>, u: array<Digit>, v: Digit, ndigits: nat) returns (r: Digit)
    requires ndigits <= q.Length && ndigits <= u.Length
    modifies q
    ensures ndigits == 0 || v == 0 ==> r == 0 && q[..] == old(q[..])
    ensures ndigits > 0 && v > 0 ==> old(Num(u, 0, ndigits)) == Num(q, 0, ndigits) * v + r && r < v
    ensures forall i :: ndigits <= i < q.Length ==> q[i] == old(q[i])
  {
    if ndigits == 0 || v == 0 {
      return 0;
    }
    ghost var total := Num(u, 0, ndigits);
    var shift := Normalisation(v);
    var w: Digit := v * Pow2(shift);
    var overflow := MpShiftLeft(q, u, shift, ndigits);
    assert overflow < w by {
      MulLe(1, v, Pow2(shift));
    }
    r := DivideDigits(q, overflow, w, ndigits);
    Unnormalise(total, Pow2(shift), Num(q, 0, ndigits), v, r);
    r := Shr(r, shift);
  }

  lemma Unnormalise(u: nat, p: nat, q: nat, v: nat, r: nat)
    requires p >= 1 && u * p == q * (v * p) + r && r < v * p
    ensures u == q * v + r / p && 0 <= r / p < v
  {
    MulAssoc(q, v, p);
    MulDist(u, q * v, p);
    var d := u - q * v;
    assert d * p == r;
    MulCancelLt(d, v, p);
    if d < 0 {
      MulLe(d, -1, p);
    }
    DivUnique(r, p, d, 0);
  }

  /** Knuth, section 4.3.1, exercise 16: divides the digits of q, with overflow above them, by a normalised v. */
  method DivideDigits(q: array<Digit>, overflow: Digit, v: Digit, ndigits: nat) returns (r: Digit)
    requires ndigits <= q.Length && v >= 0x8000_0000 && overflow < v
    modifies q
    ensures old(Num(q, 0, ndigits)) + overflow * P(ndigits) == Num(q, 0, ndigits) * v + r && r < v
    ensures forall i :: ndigits <= i < q.Length ==> q[i] == old(q[i])
  {
    hide P, Val;
    Empty();
    r := overflow;
    var j: nat := ndigits;
    ghost var q0 := q[..];
    ghost var total := Val(q0[0..ndigits]) + overflow * P(ndigits);
    assert q0[0..ndigits] == q0[..ndigits];
    assert q[ndigits..ndigits] == [];
    while j > 0
      invariant j <= ndigits && r < v
      invariant forall k :: 0 <= k < j ==> q[k] == q0[k]
      invariant forall k :: ndigits <= k < q.Length ==> q[k] == q0[k]
      invariant total == (Val(q[j..ndigits]) * P(j)) * v + r * P(j) + Val(q0[..j])
    {
      j := j - 1;
      ghost var before := q[j + 1..ndigits];
      ghost var r0 := r;
      var qj, q2;
      qj, r, q2 := SpDivide(q[j], r, v);
      q[j] := qj;
      assert q[..][j + 1..ndigits] == before && q[..][j..ndigits] == q[j..ndigits];
      SliceCons(q[..], j, ndigits);
      ValSnoc(q0, j);
      ShortDivStep(v, Val(before), P(j), r0, q0[j], qj, r, Val(q0[..j]));
    }
    assert q[0..ndigits] == q[j..ndigits];
  }

  lemma ShortDivStep(v: int, vq: int, p: int, r: int, d: int, qd: int, r': int, low: int)
    requires d + 0x1_0000_0000 * r == qd * v + r'
    ensures (vq * (0x1_0000_0000 * p)) * v + r * (0x1_0000_0000 * p) + (low + d * p)
         == ((qd + 0x1_0000_0000 * vq) * p) * v + r' * p + low
  {
    assert (d + 0x1_0000_0000 * r) * p == (qd * v + r') * p;
    MulDist(d, 0x1_0000_0000 * r, p);
    MulDist(qd * v, r', p);
    MulDist(qd, 0x1_0000_0000 * vq, p);
    MulDist(qd * p, (0x1_0000_0000 * vq) * p, v);
    assert (vq * (0x1_0000_0000 * p)) * v == ((0x1_0000_0000 * vq) * p) * v;
    assert (qd * v) * p == (qd * p) * v;
    assert (0x1_0000_0000 * r) * p == r * (0x1_0000_0000 * p);
  }

  /**
   * w = u + v on n digits starting at offsets wo and uo, returning the carry. The source passes pointers
   * into arrays, so u may be the same place as w.
   */
  method MpAdd(w: array<Digit>, wo: nat, u: array<Digit>, uo: nat, v: array<Digit>, ndigits: nat)
    returns (k: Digit)
    requires wo + ndigits <= w.Length && uo + ndigits <= u.Length && ndigits <= v.Length
    requires w != v && (w == u ==> wo == uo)
    modifies w
    ensures Num(w, wo, ndigits) + k * P(ndigits) == old(Num(u, uo, ndigits)) + Num(v, 0, ndigits)
    ensures k <= 1
    ensures forall i :: 0 <= i < w.Length && !(wo <= i < wo + ndigits) ==> w[i] == old(w[i])
  {
    hide P, Val;
    Empty();
    k := 0;
    ghost var u0 := u[..];
    assert u0[uo..uo] == [] && w[wo..wo] == [] && v[0..0] == [];
    for j := 0 to ndigits
      invariant forall i :: uo + j <= i < u.Length ==> u[i] == u0[i]
      invariant forall i :: 0 <= i < w.Length && !(wo <= i < wo + j) ==> w[i] == old(w[i])
      invariant k <= 1
      invariant Val(w[wo..wo + j]) + k * P(j) == Val(u0[uo..uo + j]) + Val(v[0..j])
    {
      ghost var before, k0 := w[wo..wo + j], k;
      var x;
      x, k := AddDigit(u[uo + j], v[j], k);
      w[wo + j] := x;
      assert w[..][wo..wo + j] == before && w[..][wo..wo + j + 1] == w[wo..wo + j + 1];
      SliceSnoc(w[..], wo, j);
      SliceSnoc(u0, uo, j);
      SliceSnoc(v[..], 0, j);
      assert v[..][0..j] == v[0..j] && v[..][0..j + 1] == v[0..j + 1];
      AddStep(Val(before), k0, P(j), Val(u0[uo..uo + j]), Val(v[0..j]), u0[uo + j], v[j], x, k);
    }
  }

  /** Step A2 of Knuth's Algorithm A: one digit with carry in and out. */
  method AddDigit(u: Digit, v: Digit, k: Digit) returns (w: Digit, k': Digit)
    requires k <= 1
    ensures u + v + k == w + 0x1_0000_0000 * k' && k' <= 1
  {
    w := Add32(u, k);
    k' := if w < k then 1 else 0;
    w := Add32(w, v);
    if w < v {
      k' := k' + 1;
    }
  }

  lemma AddStep(vw: nat, k: nat, p: nat, vu: nat, vv: nat, d: nat, e: nat, x: nat, k': nat)
    requires vw + k * p == vu + vv
    requires d + e + k == x + 0x1_0000_0000 * k'
    ensures vw + x * p + k' * (0x1_0000_0000 * p) == vu + d * p + (vv + e * p)
  {
    assert (d + e + k) * p == (x + 0x1_0000_0000 * k') * p;
    MulDist(d + e, k, p);
    MulDist(d, e, p);
    MulDist(x, 0x1_0000_0000 * k', p);
    assert (0x1_0000_0000 * k') * p == k' * (0x1_0000_0000 * p);
  }

  /** w = u * v by Knuth's Algorithm M; w has twice as many digits. */
  method MpMultiply(w: array<Digit>, u: array<Digit>, v: array<Digit>, ndigits: nat)
    requires 2 * ndigits <= w.Length && ndigits <= u.Length && ndigits <= v.Length
    requires w != u && w != v
    modifies w
    ensures Num(w, 0, 2 * ndigits) == Num(u, 0, ndigits) * Num(v, 0, ndigits)
    ensures w[2 * ndigits..] == old(w[2 * ndigits..])
  {
    hide P, Val;
    Empty();
    var m := ndigits;
    for i := 0 to 2 * m
      invariant forall k :: 0 <= k < i ==> w[k] == 0
      invariant forall k :: 2 * m <= k < w.Length ==> w[k] == old(w[k])
    {
      w[i] := 0;
    }
    ValZeros(w[..][0..m]);
    assert v[..][0..0] == [];
    for j := 0 to m
      invariant forall k :: j + m <= k < 2 * m ==> w[k] == 0
      invariant forall k :: 2 * m <= k < w.Length ==> w[k] == old(w[k])
      invariant Val(w[..][0..j + m]) == Val(u[..][0..m]) * Val(v[..][0..j])
    {
      ghost var w0 := w[..];
      MultiplyByDigit(w, u, v[j], j, m);
      RowAdded(w0, w[..], u[..], v[..], j, m);
    }
  }

  /** Steps M2 to M5: adds u times digit y to w at position j, setting digit j + m. */
  method MultiplyByDigit(w: array<Digit>, u: array<Digit>, y: Digit, j: nat, m: nat)
    requires j + m < w.Length && m <= u.Length && w != u && w[j + m] == 0
    modifies w
    ensures w[..j] == old(w[..j]) && w[j + m + 1..] == old(w[j + m + 1..])
    ensures Val(w[j..j + m]) + w[j + m] * P(m) == Val(old(w[j..j + m])) + Val(u[0..m]) * y
  {
    if y == 0 {
      w[j + m] := 0;
    } else {
      var k := MultiplyRow(w, u, y, j, m);
      ghost var row := w[j..j + m];
      w[j + m] := k;
      assert w[j..j + m] == row;
    }
  }

  /** The inner loop of Algorithm M: adds digit y times u to w from position j and returns the carry. */
  method MultiplyRow(w: array<Digit>, u: array<Digit>, y: Digit, j: nat, m: nat) returns (k: Digit)
    requires j + m <= w.Length && m <= u.Length && w != u
    modifies w
    ensures Num(w, j, m) + k * P(m) == old(Num(w, j, m)) + Num(u, 0, m) * y
    ensures forall i :: 0 <= i < w.Length && !(j <= i < j + m) ==> w[i] == old(w[i])
  {
    hide P, Val;
    Empty();
    k := 0;
    ghost var w0 := w[..];
    for i := 0 to m
      invariant forall l :: 0 <= l < w.Length && !(j <= l < j + i) ==> w[l] == w0[l]
      invariant Val(w[j..j + i]) + k * P(i) == Val(w0[j..j + i]) + Val(u[0..i]) * y
    {
      ghost var before, k0 := w[j..j + i], k;
      var x: Digit;
      x, k := MultiplyAddDigit(u[i], y, w[j + i], k);
      w[j + i] := x;
      assert w[..][j..j + i] == before && w[..][j..j + i + 1] == w[j..j + i + 1];
      SliceSnoc(w[..], j, i);
      SliceSnoc(w0, j, i);
      SliceSnoc(u[..], 0, i);
      assert u[..][0..i] == u[0..i] && u[..][0..i + 1] == u[0..i + 1];
      RowStep(Val(before), k0, P(i), Val(w0[j..j + i]), Val(u[0..i]), y, u[i], w0[j + i], x, k);
    }
  }

  /** t = u * v + w + k always fits in two digits. */
  method MultiplyAddDigit(u: Digit, v: Digit, w: Digit, k: Digit) returns (t0: Digit, t1: Digit)
    ensures t0 + 0x1_0000_0000 * t1 == u * v + w + k
  {
    DigitProduct(u, v);
    t0, t1 := SpMultiply(u, v);
    t0 := Add32(t0, k);
    if t0 < k {
      t1 := t1 + 1;
    }
    t0 := Add32(t0, w);
    if t0 < w {
      t1 := t1 + 1;
    }
  }

  lemma DigitProduct(a: Digit, b: Digit)
    ensures 0 <= a * b <= 0xFFFF_FFFE_0000_0001
  {
    MulLe(a, 0xFFFF_FFFF, b);
    Nonneg(a, b);
  }

  lemma RowStep(vw: nat, k: nat, p: nat, v0: nat, vu: nat, y: nat, d: nat, w: nat, x: nat, k': nat)
    requires vw + k * p == v0 + vu * y
    requires x + 0x1_0000_0000 * k' == d * y + w + k
    ensures vw + x * p + k' * (0x1_0000_0000 * p) == v0 + w * p + (vu + d * p) * y
  {
    assert (x + 0x1_0000_0000 * k') * p == (d * y + w + k) * p;
    MulDist(x, 0x1_0000_0000 * k', p);
    MulDist(d * y + w, k, p);
    MulDist(d * y, w, p);
    MulDist(vu, d * p, y);
    assert (d * y) * p == (d * p) * y;
    assert (0x1_0000_0000 * k') * p == k' * (0x1_0000_0000 * p);
  }

  /** What one row of Algorithm M adds to the product so far. */
  lemma RowAdded(w0: seq<Digit>, w: seq<Digit>, u: seq<Digit>, v: seq<Digit>, j: nat, m: nat)
    requires j < m <= |u| && m <= |v| && 2 * m <= |w0| == |w|
    requires w0[..j] == w[..j]
    requires Val(w[j..j + m]) + w[j + m] * P(m) == Val(w0[j..j + m]) + Val(u[0..m]) * v[j]
    requires Val(w0[0..j + m]) == Val(u[0..m]) * Val(v[0..j])
    ensures Val(w[0..j + m + 1]) == Val(u[0..m]) * Val(v[0..j + 1])
  {
    hide P, Val;
    SliceSplit(w0, j, j + m);
    SliceSplit(w, j, j + m + 1);
    SliceSnoc(w, j, m);
    SliceSnoc(v, 0, j);
    RowArith(P(j), Val(w0[j..j + m]), Val(u[0..m]), v[j], Val(v[0..j]));
  }

  lemma SliceSplit(s: seq<Digit>, j: nat, n: nat)
    requires j <= n <= |s|
    ensures Val(s[0..n]) == Val(s[..j]) + P(j) * Val(s[j..n])
  {
    ValSplit(s[0..n], j);
    assert s[0..n][..j] == s[..j] && s[0..n][j..] == s[j..n];
  }

  lemma RowArith(p: nat, w0: nat, u: nat, y: nat, v: nat)
    ensures p * (w0 + u * y) == p * w0 + u * (v + y * p) - u * v
  {
    MulDist(w0, u * y, p);
    MulDist(v, y * p, u);
    assert p * (u * y) == u * (y * p);
  }
}
