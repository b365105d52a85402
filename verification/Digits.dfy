/** Little-endian naturals in 32-bit digits: the mathematics that the routines of apiRSA.c are proved against. */
module Digits {

  import opened Arith


  /** A C unsigned int of 32 bits. */
  type Digit = x: int | 0 <= x < 0x1_0000_0000

  /** Unsigned addition: wraps around at 32 bits. */
  function Add32(a: Digit, b: Digit): Digit {
    if a + b < 0x1_0000_0000 then a + b else a + b - 0x1_0000_0000
  }

  /** Unsigned subtraction: wraps around at 32 bits. */
  function Sub32(a: Digit, b: Digit): Digit {
    if a >= b then a - b else a - b + 0x1_0000_0000
  }

  /** BASE to the power n. */
  ghost function P(n: nat): (r: nat)
    ensures r >= 1
  {
    if n == 0 then 1 else 0x1_0000_0000 * P(n - 1)
  }

  /** The number that the digits stand for, least significant digit first. */
  ghost function Val(s: seq<Digit>): nat
  {
    if s == [] then 0 else Val(s[..|s| - 1]) + s[|s| - 1] * P(|s| - 1)
  }

  lemma ValSnoc(s: seq<Digit>, i: nat)
    requires i < |s|
    ensures Val(s[..i + 1]) == Val(s[..i]) + s[i] * P(i)
    ensures P(i + 1) == 0x1_0000_0000 * P(i)
  {
    assert s[..i + 1][..i] == s[..i];
  }

  lemma Empty()
    ensures P(0) == 1 && Val([]) == 0
  {
  }

  lemma PStep(n: nat)
    requires n > 0
    ensures P(n) == 0x1_0000_0000 * P(n - 1)
  {
  }

  lemma {:induction false} PAdd(a: nat, b: nat)
    ensures P(a + b) == P(a) * P(b)
  {
    if a > 0 {
      PAdd(a - 1, b);
      assert P(a + b) == 0x1_0000_0000 * P(a - 1 + b);
      assert 0x1_0000_0000 * (P(a - 1) * P(b)) == (0x1_0000_0000 * P(a - 1)) * P(b);
    }
  }

  /** Cutting a number at digit k. */
  lemma {:induction false} ValSplit(s: seq<Digit>, k: nat)
    requires k <= |s|
    ensures Val(s) == Val(s[..k]) + P(k) * Val(s[k..])
  {
    if k == |s| {
      assert s[..k] == s;
      assert s[k..] == [];
    } else {
      var t := s[..|s| - 1];
      ValSplit(t, k);
      assert t[..k] == s[..k];
      assert s[k..][..|s| - 1 - k] == t[k..];
      PAdd(k, |s| - 1 - k);
      var p, q, d, v := P(k), P(|s| - 1 - k), s[|s| - 1], Val(t[k..]);
      MulDist(v, d * q, p);
      MulAssoc(p, d, q);
    }
  }

  lemma {:induction false} ValBound(s: seq<Digit>)
    ensures Val(s) < P(|s|)
  {
    if s != [] {
      var n := |s| - 1;
      ValBound(s[..n]);
      MulLe(s[n], 0xFFFF_FFFF, P(n));
    }
  }

  lemma {:induction false} ValZeros(s: seq<Digit>)
    requires forall i :: 0 <= i < |s| ==> s[i] == 0
    ensures Val(s) == 0
  {
    if s != [] {
      ValZeros(s[..|s| - 1]);
    }
  }

  /** Digits above position n that are zero do not count. */
  lemma ValTrim(s: seq<Digit>, n: nat)
    requires n <= |s|
    requires forall i :: n <= i < |s| ==> s[i] == 0
    ensures Val(s) == Val(s[..n])
  {
    ValSplit(s, n);
    ValZeros(s[n..]);
  }

  lemma ValCons(s: seq<Digit>)
    requires s != []
    ensures Val(s) == s[0] + 0x1_0000_0000 * Val(s[1..])
  {
    ValSplit(s, 1);
    assert P(1) == 0x1_0000_0000 * P(0);
    assert s[..1][..0] == [];
    assert Val(s[..1]) == Val(s[..1][..0]) + s[0] * P(0);
  }

  /** The representation is unique: equal numbers of equal length have equal digits. */
  lemma {:induction false} ValInjective(s: seq<Digit>, t: seq<Digit>)
    requires |s| == |t| && Val(s) == Val(t)
    ensures s == t
  {
    if s != [] {
      ValCons(s);
      ValCons(t);
      ValInjective(s[1..], t[1..]);
      assert s == [s[0]] + s[1..];
      assert t == [t[0]] + t[1..];
    }
  }
}
