/** Strings of bits and the two numbers they spell, lowest bit first or highest bit first. */
module BitStrings {

  import opened Arith

  type Bits = seq<bool>

  function Bit(b: bool): nat {
    if b then 1 else 0
  }

  /** The number whose lowest bit is t[0]: how a bit buffer holds a string of bits. */
  function LE(t: Bits): nat {
    if t == [] then 0 else Bit(t[0]) + 2 * LE(t[1..])
  }

  /** The number whose highest bit is t[0]: how a Huffman code is numbered. */
  ghost function BE(t: Bits): nat {
    if t == [] then 0 else 2 * BE(t[..|t| - 1]) + Bit(t[|t| - 1])
  }

  function Zeros(n: nat): (t: Bits)
    ensures |t| == n && forall i :: 0 <= i < n ==> !t[i]
  {
    seq(n, i => false)
  }

  lemma {:induction false} LEBound(t: Bits)
    ensures LE(t) < Pow2(|t|)
  {
    if t != [] {
      LEBound(t[1..]);
    }
  }

  lemma {:induction false} BEBound(t: Bits)
    ensures BE(t) < Pow2(|t|)
  {
    if t != [] {
      BEBound(t[..|t| - 1]);
    }
  }

  lemma {:induction false} LEConcat(s: Bits, t: Bits)
    ensures LE(s + t) == LE(s) + Pow2(|s|) * LE(t)
  {
    if s == [] {
      assert s + t == t;
    } else {
      assert (s + t)[1..] == s[1..] + t;
      LEConcat(s[1..], t);
      MulAssoc(2, Pow2(|s| - 1), LE(t));
    }
  }

  lemma {:induction false} BEConcat(s: Bits, t: Bits)
    ensures BE(s + t) == BE(s) * Pow2(|t|) + BE(t)
  {
    if t == [] {
      assert s + t == s;
    } else {
      var t' := t[..|t| - 1];
      assert (s + t)[..|s + t| - 1] == s + t';
      BEConcat(s, t');
      MulAssoc(2, BE(s), Pow2(|t'|));
    }
  }

  lemma {:induction false} LEInjective(s: Bits, t: Bits)
    requires |s| == |t| && LE(s) == LE(t)
    ensures s == t
  {
    if s != [] {
      LEInjective(s[1..], t[1..]);
      assert s == [s[0]] + s[1..] && t == [t[0]] + t[1..];
    }
  }

  lemma {:induction false} BEInjective(s: Bits, t: Bits)
    requires |s| == |t| && BE(s) == BE(t)
    ensures s == t
  {
    if s != [] {
      var n := |s| - 1;
      BEInjective(s[..n], t[..n]);
      assert s == s[..n] + [s[n]] && t == t[..n] + [t[n]];
    }
  }

  lemma {:induction false} ZerosValue(n: nat)
    ensures LE(Zeros(n)) == 0 && BE(Zeros(n)) == 0
  {
    if n > 0 {
      ZerosValue(n - 1);
      assert Zeros(n)[1..] == Zeros(n - 1) == Zeros(n)[..n - 1];
    }
  }

  /** The n-bit string, lowest bit first, of a number. */
  function ToBits(v: nat, n: nat): (t: Bits)
    ensures |t| == n
  {
    if n == 0 then [] else [v % 2 == 1] + ToBits(v / 2, n - 1)
  }

  lemma {:induction false} LEToBits(v: nat, n: nat)
    requires v < Pow2(n)
    ensures LE(ToBits(v, n)) == v
  {
    if n > 0 {
      LEToBits(v / 2, n - 1);
    }
  }

  /** Cutting the low w bits off a number and shifting them out. */
  lemma LECut(t: Bits, w: nat)
    requires w <= |t|
    ensures LE(t) % Pow2(w) == LE(t[..w]) && LE(t) / Pow2(w) == LE(t[w..])
  {
    hide Pow2, LE;
    assert t == t[..w] + t[w..];
    LEConcat(t[..w], t[w..]);
    LEBound(t[..w]);
    DivUnique(LE(t), Pow2(w), LE(t[w..]), LE(t[..w])) by {
      assert Pow2(w) * LE(t[w..]) == LE(t[w..]) * Pow2(w);
    }
  }

  /** Reading one bit with a mask. */
  lemma LEBit(t: Bits, i: nat)
    requires i < |t|
    ensures (LE(t) / Pow2(i)) % 2 == Bit(t[i])
  {
    hide Pow2, LE;
    var q := LE(t) / Pow2(i);
    LECut(t, i);
    assert q == LE(t[i..]);
    LEParity(t[i..]);
  }

  lemma LEParity(t: Bits)
    requires t != []
    ensures LE(t) % 2 == Bit(t[0])
  {
  }

  /** Setting one bit. */
  lemma {:induction false} LEFlip(t: Bits, i: nat)
    requires i < |t| && !t[i]
    ensures LE(t[i := true]) == LE(t) + Pow2(i)
  {
    if i == 0 {
      assert t[0 := true][1..] == t[1..];
    } else {
      LEFlip(t[1..], i - 1);
      assert t[i := true][1..] == t[1..][i - 1 := true];
    }
  }

  /** Strings with the same first k bits are those whose numbers, highest bit first, lie in one aligned interval. */
  lemma SamePrefix(s: Bits, c: Bits)
    requires |c| <= |s|
    ensures var q := Pow2(|s| - |c|); s[..|c|] == c <==> BE(c) * q <= BE(s) < BE(c) * q + q
  {
    var k := |c|;
    assert s == s[..k] + s[k..];
    BEConcat(s[..k], s[k..]);
    BEBound(s[k..]);
    var q := Pow2(|s| - k);
    if BE(c) * q <= BE(s) < BE(c) * q + q {
      DivUnique(BE(s), q, BE(s[..k]), BE(s[k..]));
      DivUnique(BE(s), q, BE(c), BE(s) - BE(c) * q);
      BEInjective(s[..k], c);
    }
  }
}
