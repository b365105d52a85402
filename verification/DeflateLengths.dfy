/** The lengths and distances of section 3.2.5 of RFC 1951, by formula. */
module DeflateLengths {

  import opened Arith

  /** Extra bits and least length of symbol 257 + l. The last one stands for the length 258 alone. */
  function LengthExtra(l: nat): nat {
    if l < 8 || l == 28 then 0 else l / 4 - 1
  }

  function LengthBase(l: nat): nat {
    if l == 28 then 258 else if l < 8 then l + 3 else (4 + l % 4) * Pow2(l / 4 - 1) + 3
  }

  /** Extra bits and least distance of symbol d: the two highest bits of the distance less 1, and how many follow. */
  function DistanceExtra(d: nat): nat {
    if d < 4 then 0 else d / 2 - 1
  }

  function DistanceBase(d: nat): (r: nat)
    ensures r >= 1
  {
    if d < 2 then d + 1 else (2 + d % 2) * Pow2(d / 2 - 1) + 1
  }

  /** Each symbol begins where the one before ends: lengths from 3 on, distances from 1 on. */
  lemma LengthsAdjoin(l: nat)
    requires l < 27
    ensures LengthBase(0) == 3 && LengthBase(l + 1) == LengthBase(l) + Pow2(LengthExtra(l))
  {
    assert Pow2(0) == 1;
    if l >= 7 {
      var p := Pow2(l / 4 - 1);
      if l % 4 < 3 {
        assert (l + 1) / 4 == l / 4 && (l + 1) % 4 == l % 4 + 1;
        MulDist(4 + l % 4, 1, p);
      } else {
        assert (l + 1) / 4 == l / 4 + 1 && (l + 1) % 4 == 0;
      }
    }
  }

  lemma DistancesAdjoin(d: nat)
    ensures DistanceBase(0) == 1 && DistanceBase(d + 1) == DistanceBase(d) + Pow2(DistanceExtra(d))
  {
    assert Pow2(0) == 1;
    if d >= 2 {
      var p := Pow2(d / 2 - 1);
      if d % 2 == 0 {
        assert (d + 1) / 2 == d / 2 && (d + 1) % 2 == 1;
      } else {
        assert (d + 1) / 2 == d / 2 + 1 && (d + 1) % 2 == 0;
      }
    }
  }

  lemma {:induction false} DistancesInOrder(d: nat, d': nat)
    requires d < d'
    ensures DistanceBase(d) + Pow2(DistanceExtra(d)) <= DistanceBase(d')
    decreases d'
  {
    hide DistanceBase, DistanceExtra, Pow2;
    DistancesAdjoin(d' - 1);
    if d < d' - 1 {
      DistancesInOrder(d, d' - 1);
    }
  }

  lemma {:induction false} LengthsInOrder(l: nat, l': nat)
    requires l < l' <= 27
    ensures LengthBase(l) + Pow2(LengthExtra(l)) <= LengthBase(l')
    decreases l'
  {
    hide LengthBase, LengthExtra, Pow2;
    LengthsAdjoin(l' - 1);
    if l < l' - 1 {
      LengthsInOrder(l, l' - 1);
    }
  }

  ghost predicate DistanceSpelling(x: nat, d: nat, dx: nat) {
    d < 30 && dx < Pow2(DistanceExtra(d)) && DistanceBase(d) + dx == x
  }

  ghost predicate LengthSpelling(x: nat, l: nat, lx: nat) {
    l < 28 && lx < Pow2(LengthExtra(l)) && LengthBase(l) + lx == x
  }

  /** Every distance from 1 to 32768 is spelled by exactly one symbol and one number in its extra bits. */
  lemma DistanceSpelledOnce(x: nat)
    requires 1 <= x <= 32768
    ensures exists d, dx :: DistanceSpelling(x, d, dx)
    ensures forall d, dx, d', dx' :: DistanceSpelling(x, d, dx) && DistanceSpelling(x, d', dx') ==> d == d' && dx == dx'
  {
    assert DistanceBase(30) == 32769 by {
      assert Pow2(4) == 16 && Pow2(6) == 64;
      Pow2Add(4, 4);
      Pow2Add(8, 6);
    }
    hide DistanceBase, DistanceExtra, Pow2;
    var d := SymbolOfDistance(x, 30);
    assert DistanceSpelling(x, d, x - DistanceBase(d));
    forall d, dx, d', dx' | DistanceSpelling(x, d, dx) && DistanceSpelling(x, d', dx')
      ensures d == d' && dx == dx'
    {
      if d < d' {
        DistancesInOrder(d, d');
      } else if d' < d {
        DistancesInOrder(d', d);
      }
    }
  }

  lemma {:induction false} SymbolOfDistance(x: nat, n: nat) returns (d: nat)
    requires 1 <= x < DistanceBase(n)
    ensures d < n && DistanceBase(d) <= x < DistanceBase(d) + Pow2(DistanceExtra(d))
    decreases n
  {
    DistancesAdjoin(0);
    hide DistanceBase, DistanceExtra, Pow2;
    DistancesAdjoin(n - 1);
    if x < DistanceBase(n - 1) {
      d := SymbolOfDistance(x, n - 1);
    } else {
      d := n - 1;
    }
  }

  /** Every length from 3 to 257, and with symbol 284 also 258, is spelled by exactly one of the symbols 257 to 284. */
  lemma LengthSpelledOnce(x: nat)
    requires 3 <= x <= 258
    ensures exists l, lx :: LengthSpelling(x, l, lx)
    ensures forall l, lx, l', lx' :: LengthSpelling(x, l, lx) && LengthSpelling(x, l', lx') ==> l == l' && lx == lx'
  {
    assert LengthBase(27) == 227 && Pow2(LengthExtra(27)) == 32 by {
      assert Pow2(5) == 32;
    }
    hide LengthBase, LengthExtra, Pow2;
    var l := 27;
    if x < 227 {
      l := SymbolOfLength(x, 27);
    }
    assert LengthSpelling(x, l, x - LengthBase(l));
    forall l, lx, l', lx' | LengthSpelling(x, l, lx) && LengthSpelling(x, l', lx')
      ensures l == l' && lx == lx'
    {
      if l < l' {
        LengthsInOrder(l, l');
      } else if l' < l {
        LengthsInOrder(l', l);
      }
    }
  }

  lemma {:induction false} SymbolOfLength(x: nat, n: nat) returns (l: nat)
    requires n <= 27 && 3 <= x < LengthBase(n)
    ensures l < n && LengthBase(l) <= x < LengthBase(l) + Pow2(LengthExtra(l))
    decreases n
  {
    LengthsAdjoin(0);
    hide LengthBase, LengthExtra, Pow2;
    LengthsAdjoin(n - 1);
    if x < LengthBase(n - 1) {
      l := SymbolOfLength(x, n - 1);
    } else {
      l := n - 1;
    }
  }
}
