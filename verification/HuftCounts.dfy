/** The first half of huft_build: counting code lengths, checking them, and sorting the symbols (zlib.c). */
module HuftCounts {

  import opened Arith
  import opened BitStrings
  import opened HuffmanCode

  // ----- counting lengths and checking that they make a code

  method CountLengths(b: seq<nat>) returns (c: Counts)
    requires b != [] && forall t :: 0 <= t < |b| ==> b[t] <= 15
    ensures CountsOf(c, b, |b|)
  {
    c := Counts16();
    for i := 0 to |b|
      invariant CountsOf(c, b, i)
    {
      c := c[b[i] := c[b[i]] + 1];
    }
  }

  /** The shortest and the longest length in use. */
  method Extremes(c: Counts) returns (lo: nat, hi: nat)
    requires exists k :: 1 <= k <= 15 && c[k] != 0
    ensures 1 <= lo <= hi <= 15 && c[lo] != 0 && c[hi] != 0
    ensures forall k :: 1 <= k < lo ==> c[k] == 0
    ensures forall k :: hi < k <= 15 ==> c[k] == 0
  {
    lo := 1;
    while lo <= 15 && c[lo] == 0
      invariant 1 <= lo <= 16 && forall k :: 1 <= k < lo ==> c[k] == 0
    {
      lo := lo + 1;
    }
    hi := 15;
    while hi > 0 && c[hi] == 0
      invariant lo <= hi <= 15 && forall k :: hi < k <= 15 ==> c[k] == 0
    {
      hi := hi - 1;
    }
  }

  /**
   * Adjusts the count of the longest codes to fill out the code set. y is what is left of all strings after
   * the codes so far, in units of the current length; it turns negative exactly when there are too many codes.
   */
  method FillOut(c: Counts, lo: nat, hi: nat) returns (ok: bool, y: int, c': Counts)
    requires 1 <= lo <= hi <= 15
    requires forall k :: 1 <= k < lo ==> c[k] == 0
    requires forall k :: hi < k <= 15 ==> c[k] == 0
    ensures ok <==> Taken(c, 15) <= Pow2(15)
    ensures ok ==> y >= 0 && (y == 0 <==> Taken(c, 15) == Pow2(15))
    ensures ok ==> c' == c[hi := c[hi] + y] && Taken(c', 15) == Pow2(15)
  {
    hide Pow2, Taken;
    var j := lo;
    y := Pow2(j);
    c' := c;
    TakenBelow(c, lo - 1);
    Pow2Add(lo, 15 - lo);
    while j < hi
      invariant lo <= j <= hi && y * Pow2(15 - j) == Pow2(15) - Taken(c, j - 1)
    {
      y := y - c[j];
      TakeLength(c, j, y);
      if y < 0 {
        TakenMonotone(c, j, 15);
        return false, y, c;
      }
      j := j + 1;
      y := y * 2;
    }
    y := y - c[j];
    TakeLength(c, j, y);
    TakenAbove(c, hi, 15);
    if y < 0 {
      return false, y, c;
    }
    c' := c[hi := c[hi] + y];
    TakenAbove(c', hi, 15);
    TakenSame(c, c', hi - 1);
    TakenStep(c, hi);
    TakenStep(c', hi);
    MulDist(c[hi], y, Pow2(15 - hi));
    return true, y, c';
  }

  lemma TakenStep(c: Counts, j: nat)
    requires 1 <= j <= 15
    ensures Taken(c, j) == Taken(c, j - 1) + c[j] * Pow2(15 - j)
    ensures j < 15 ==> Pow2(15 - j) == 2 * Pow2(15 - (j + 1))
  {
  }

  /** Taking away the codes of length j, and what that leaves in units of the next length. */
  lemma TakeLength(c: Counts, j: nat, y: int)
    requires 1 <= j <= 15 && (y + c[j]) * Pow2(15 - j) == Pow2(15) - Taken(c, j - 1)
    ensures y * Pow2(15 - j) == Pow2(15) - Taken(c, j)
    ensures j < 15 ==> (y * 2) * Pow2(15 - (j + 1)) == Pow2(15) - Taken(c, j)
    ensures y < 0 <==> Taken(c, j) > Pow2(15)
    ensures y == 0 <==> Taken(c, j) == Pow2(15)
  {
    hide Pow2, Taken;
    TakenStep(c, j);
    MulDist(y, c[j], Pow2(15 - j));
    SignOfProduct(y, Pow2(15 - j));
    if j < 15 {
      MulAssoc(y, 2, Pow2(15 - (j + 1)));
    }
  }

  lemma SignOfProduct(y: int, p: nat)
    requires p >= 1
    ensures y < 0 <==> y * p < 0
    ensures y == 0 <==> y * p == 0
  {
    if y < 0 { MulLe(y, -1, p); }
    if y > 0 { MulLe(1, y, p); }
  }

  lemma {:induction false} TakenBelow(c: Counts, j: nat)
    requires j <= 15 && forall k :: 1 <= k <= j ==> c[k] == 0
    ensures Taken(c, j) == 0
  {
    if j > 0 {
      TakenBelow(c, j - 1);
    }
  }

  lemma {:induction false} TakenAbove(c: Counts, hi: nat, j: nat)
    requires hi <= j <= 15 && forall k :: hi < k <= 15 ==> c[k] == 0
    ensures Taken(c, j) == Taken(c, hi)
  {
    if j > hi {
      TakenAbove(c, hi, j - 1);
    }
  }

  // ----- the table of values in order of bit lengths

  /** v lists the used symbols by length, and in their own order within a length. */
  ghost predicate OrderedBy(v: seq<nat>, b: seq<nat>, c: Counts, n: nat)
    requires n <= |b| && forall t :: 0 <= t < |b| ==> b[t] <= 15
  {
    forall t :: 0 <= t < n && b[t] != 0 ==>
      var m := Before(c, b[t]) + CountOf(b, t, b[t]);
      m < |v| && v[m] == t
  }

  lemma {:induction false} CountMonotone(b: seq<nat>, s: nat, t: nat, k: nat)
    requires s <= t <= |b|
    ensures CountOf(b, s, k) <= CountOf(b, t, k)
    ensures s < t && b[s] == k ==> CountOf(b, s, k) < CountOf(b, t, k)
  {
    if s < t {
      CountMonotone(b, s, t - 1, k);
      if s == t - 1 {
        assert CountOf(b, t, k) == CountOf(b, s, k) + if b[s] == k then 1 else 0;
      }
    }
  }

  lemma {:induction false} BeforeMonotone(c: Counts, j: nat, k: nat)
    requires 1 <= j < k <= 16
    ensures Before(c, j) + c[j] <= Before(c, k)
  {
    if j < k - 1 {
      BeforeMonotone(c, j, k - 1);
    }
  }

  /** There are no more used symbols than symbols. */
  lemma {:induction false} BeforeBound(c: Counts, b: seq<nat>, n: nat)
    requires n <= |b| && (forall t :: 0 <= t < |b| ==> b[t] <= 15)
    requires CountsOf(c, b, n)
    ensures Before(c, 16) <= n
    decreases n
  {
    if n == 0 {
      BeforeZero(c, 16);
    } else {
      var k := b[n - 1];
      var c' := c[k := c[k] - 1];
      assert CountOf(b, n, k) == CountOf(b, n - 1, k) + 1;
      forall j | 0 <= j <= 15
        ensures c'[j] == CountOf(b, n - 1, j)
      {
        assert CountOf(b, n, j) == CountOf(b, n - 1, j) + if k == j then 1 else 0;
      }
      BeforeBound(c', b, n - 1);
      BeforeOneLess(c, c', k, 16);
    }
  }

  lemma {:induction false} BeforeZero(c: Counts, k: nat)
    requires k <= 16 && forall j :: 1 <= j < k ==> c[j] == 0
    ensures Before(c, k) == 0
  {
    if k > 1 {
      BeforeZero(c, k - 1);
    }
  }

  lemma {:induction false} BeforeOneLess(c: Counts, c': Counts, k: nat, n: nat)
    requires k <= 15 && n <= 16 && c[k] > 0 && c' == c[k := c[k] - 1]
    ensures Before(c, n) == Before(c', n) + if 1 <= k < n then 1 else 0
  {
    if n > 1 {
      BeforeOneLess(c, c', k, n - 1);
    }
  }

  lemma {:induction false} BeforeSame(c: Counts, c': Counts, k: nat)
    requires k <= 16 && forall j :: 1 <= j < k ==> c[j] == c'[j]
    ensures Before(c, k) == Before(c', k)
  {
    if k > 1 {
      BeforeSame(c, c', k - 1);
    }
  }

  /** The offsets x of each length in the value table. */
  method Offsets(c: Counts, hi: nat) returns (x: seq<nat>)
    requires 1 <= hi <= 15
    ensures |x| == 16 && forall k :: 1 <= k <= hi ==> x[k] == Before(c, k)
  {
    x := Counts16();
    var j: nat := 0;
    var i: nat := 1;
    while i < hi
      invariant 1 <= i <= hi && |x| == 16 && j == Before(c, i)
      invariant forall k :: 1 <= k <= i ==> x[k] == Before(c, k)
    {
      j := j + c[i];
      i := i + 1;
      x := x[i := j];
    }
  }

  /** Sorts the symbols by length; x moves along with the entries already placed. */
  method SortValues(b: seq<nat>, c: Counts, x0: seq<nat>, hi: nat) returns (v: seq<nat>, x: seq<nat>)
    requires 1 <= |b| <= 288 && 1 <= hi <= 15 && (forall t :: 0 <= t < |b| ==> b[t] <= hi)
    requires CountsOf(c, b, |b|)
    requires |x0| == 16 && forall k :: 1 <= k <= hi ==> x0[k] == Before(c, k)
    ensures |v| == 288 && |x| == 16 && OrderedBy(v, b, c, |b|)
    ensures forall m :: 0 <= m < |v| ==> v[m] < |b|
  {
    hide Before;
    x := x0;
    v := seq(288, i => 0);
    for i := 0 to |b|
      invariant |v| == 288 && |x| == 16 && OrderedBy(v, b, c, i)
      invariant forall k :: 1 <= k <= hi ==> x[k] == Before(c, k) + CountOf(b, i, k)
      invariant forall m :: 0 <= m < |v| ==> v[m] < |b|
    {
      var j := b[i];
      CountNext(b, i);
      if j != 0 {
        PlaceIsNew(b, c, i);
        v := v[x[j] := i];
        x := x[j := x[j] + 1];
      }
    }
  }

  lemma CountNext(b: seq<nat>, i: nat)
    requires i < |b|
    ensures forall k: nat :: CountOf(b, i + 1, k) == CountOf(b, i, k) + if b[i] == k then 1 else 0
  {
  }

  /** The place of the next symbol of a length is inside the table and is not taken yet. */
  lemma PlaceIsNew(b: seq<nat>, c: Counts, i: nat)
    requires i < |b| && (forall t :: 0 <= t < |b| ==> b[t] <= 15) && b[i] != 0
    requires CountsOf(c, b, |b|)
    ensures Before(c, b[i]) + CountOf(b, i, b[i]) < |b|
    ensures forall t :: 0 <= t < i && b[t] != 0 ==>
      Before(c, b[t]) + CountOf(b, t, b[t]) != Before(c, b[i]) + CountOf(b, i, b[i])
  {
    hide CountOf, Before;
    var j := b[i];
    BeforeBound(c, b, |b|);
    CountMonotone(b, i, |b|, j);
    BeforeMonotone(c, j, 16);
    forall t | 0 <= t < i && b[t] != 0
      ensures Before(c, b[t]) + CountOf(b, t, b[t]) != Before(c, j) + CountOf(b, i, j)
    {
      CountMonotone(b, t, i, b[t]);
      CountMonotone(b, t, |b|, b[t]);
      if b[t] < j {
        BeforeMonotone(c, b[t], j);
      } else if b[t] > j {
        BeforeMonotone(c, j, b[t]);
      }
    }
  }
}
