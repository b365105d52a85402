/** The set of 15-bit strings that start with a given string, as an interval of numbers. */
module HuffmanIntervals {

  import opened Arith
  import opened BitStrings

  /** The first 15-bit string that starts with t, as a number. */
  ghost function SubStart(t: Bits): nat
    requires |t| <= 15
  {
    Nonneg(BE(t), Pow2(15 - |t|));
    BE(t) * Pow2(15 - |t|)
  }

  /** One more than the last. */
  ghost function SubEnd(t: Bits): nat
    requires |t| <= 15
  {
    SubStart(t) + Pow2(15 - |t|)
  }

  /** Being a multiple of 2^(15-k), which positions of k-bit strings are. */
  ghost predicate Aligned(p: nat, k: nat)
    requires k <= 15
  {
    exists m: nat :: Multiple(p, m, k)
  }

  ghost predicate Multiple(p: nat, m: nat, k: nat)
    requires k <= 15
  {
    p == m * Pow2(15 - k)
  }

  lemma StartAligned(t: Bits)
    requires |t| <= 15
    ensures Aligned(SubStart(t), |t|) && Aligned(SubEnd(t), |t|)
  {
    assert Multiple(SubStart(t), BE(t), |t|);
    Pred(BE(t) + 1, Pow2(15 - |t|));
    assert Multiple(SubEnd(t), BE(t) + 1, |t|);
  }

  lemma AlignedFiner(p: nat, j: nat, k: nat)
    requires j <= k <= 15 && Aligned(p, j)
    ensures Aligned(p, k)
  {
    hide Pow2;
    var m: nat :| Multiple(p, m, j);
    Pow2Add(k - j, 15 - k);
    MulAssoc(m, Pow2(k - j), Pow2(15 - k));
    Nonneg(m, Pow2(k - j));
    assert Multiple(p, m * Pow2(k - j), k);
  }

  lemma TopIsBound()
    ensures Pow2(15) == 0x8000
  {
    assert Pow2(7) == 128;
    Pow2Add(7, 8);
    assert Pow2(8) == 256;
  }

  lemma EndBound(t: Bits)
    requires |t| <= 15
    ensures SubEnd(t) <= Pow2(15)
  {
    hide Pow2;
    BEBound(t);
    MulLe(BE(t) + 1, Pow2(|t|), Pow2(15 - |t|));
    Pred(BE(t) + 1, Pow2(15 - |t|));
    Pow2Add(|t|, 15 - |t|);
  }

  /** Membership in the interval is having t as first bits. */
  lemma InInterval(t: Bits, s: Bits)
    requires |t| <= |s| == 15
    ensures SubStart(t) <= BE(s) < SubEnd(t) <==> s[..|t|] == t
  {
    hide Pow2;
    SamePrefix(s, t);
  }

  /** Going on with zeros does not move the start. */
  lemma StartZeros(t: Bits, n: nat)
    requires |t| + n <= 15
    ensures SubStart(t + Zeros(n)) == SubStart(t)
  {
    hide Pow2;
    BEConcat(t, Zeros(n));
    ZerosValue(n);
    Pow2Add(n, 15 - |t| - n);
    MulAssoc(BE(t), Pow2(n), Pow2(15 - |t| - n));
  }

  lemma StartFull(t: Bits)
    requires |t| <= 15
    ensures var s := t + Zeros(15 - |t|); |s| == 15 && BE(s) == SubStart(t)
  {
    hide Pow2;
    BEConcat(t, Zeros(15 - |t|));
    ZerosValue(15 - |t|);
  }

  /** A string that starts inside the interval of a shorter one continues it, and stays inside. */
  lemma StartInside(p: Bits, t: Bits)
    requires |p| <= |t| <= 15
    ensures SubStart(p) <= SubStart(t) < SubEnd(p) <==> t[..|p|] == p
    ensures t[..|p|] == p ==> SubEnd(t) <= SubEnd(p)
  {
    hide Pow2;
    StartFull(t);
    InInterval(p, t + Zeros(15 - |t|));
    assert (t + Zeros(15 - |t|))[..|p|] == t[..|p|];
    if t[..|p|] == p {
      assert t == p + t[|p|..];
      BEConcat(p, t[|p|..]);
      BEBound(t[|p|..]);
      Pow2Add(|t| - |p|, 15 - |t|);
      NestedEnd(BE(p), BE(t[|p|..]), Pow2(|t| - |p|), Pow2(15 - |t|), Pow2(15 - |p|));
    }
  }

  lemma NestedEnd(p: nat, r: nat, a: nat, b: nat, ab: nat)
    requires r < a && ab == a * b
    ensures (p * a + r) * b + b <= p * ab + ab
  {
    Regroup(p, a, r, b);
    MulLe(r + 1, a, b);
    Pred(r + 1, b);
  }

  /** An aligned start leaves only zeros behind the aligned part. */
  lemma AlignedTail(t: Bits, w: nat)
    requires w <= |t| <= 15 && Aligned(SubStart(t), w)
    ensures t == t[..w] + Zeros(|t| - w) && SubStart(t[..w]) == SubStart(t)
  {
    hide Pow2;
    var p := t[..w];
    assert t[..|p|] == p;
    StartInside(p, t);
    var m: nat :| Multiple(SubStart(t), m, w);
    var q := Pow2(15 - w);
    DivUnique(SubStart(t), q, BE(p), SubStart(t) - SubStart(p));
    DivUnique(SubStart(t), q, m, 0);
    assert SubStart(p) == SubStart(t);
    StartFull(t);
    StartFull(p);
    var s, z := t + Zeros(15 - |t|), p + Zeros(15 - w);
    BEInjective(s, z);
    assert t == s[..|t|];
  }
}
