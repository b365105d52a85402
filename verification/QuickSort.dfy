/** The quicksort of Bentley and McIlroy, on an array of elements and a comparison (libtomcrypt/qsort.c). */
module QuickSort {

  /** What the comparison must be: its sign orders all elements, ties allowed. */
  ghost predicate TotalPreorder<T(!new)>(cmp: (T, T) -> int) {
    && (forall x, y :: cmp(x, y) < 0 <==> cmp(y, x) > 0)
    && (forall x, y, z :: cmp(x, y) <= 0 && cmp(y, z) <= 0 ==> cmp(x, z) <= 0)
  }

  /** The elements of s from lo to hi are in order. */
  ghost predicate Sorted<T>(s: seq<T>, lo: nat, hi: nat, cmp: (T, T) -> int) {
    hi <= |s| && forall i, j :: lo <= i < j < hi ==> cmp(s[i], s[j]) <= 0
  }

  lemma Transitive<T(!new)>(cmp: (T, T) -> int, x: T, y: T, z: T)
    requires TotalPreorder(cmp) && cmp(x, y) <= 0 && cmp(y, z) <= 0
    ensures cmp(x, z) <= 0
  {
  }

  /** t is s with the elements from lo to hi in some other order. */
  ghost predicate Permuted<T>(s: seq<T>, t: seq<T>, lo: nat, hi: nat) {
    && lo <= hi <= |s| == |t| && s[..lo] == t[..lo] && s[hi..] == t[hi..]
    && multiset(s[lo..hi]) == multiset(t[lo..hi])
  }

  lemma PermutedTwice<T>(s: seq<T>, t: seq<T>, u: seq<T>, lo: nat, hi: nat)
    requires Permuted(s, t, lo, hi) && Permuted(t, u, lo, hi)
    ensures Permuted(s, u, lo, hi)
  {
  }

  /** What is put in order within a part is put in order within the whole. */
  lemma PermutedWider<T>(s: seq<T>, t: seq<T>, lo: nat, hi: nat, l: nat, h: nat)
    requires Permuted(s, t, l, h) && lo <= l && h <= hi <= |s|
    ensures Permuted(s, t, lo, hi)
  {
    assert s[..lo] == s[..l][..lo] && t[..lo] == t[..l][..lo];
    assert s[hi..] == s[h..][hi - h..] && t[hi..] == t[h..][hi - h..];
    assert s[lo..hi] == s[..l][lo..] + s[l..h] + s[h..][..hi - h];
    assert t[lo..hi] == t[..l][lo..] + t[l..h] + t[h..][..hi - h];
  }

  lemma PermutedInside<T>(s: seq<T>, t: seq<T>, u: seq<T>, lo: nat, hi: nat, l: nat, h: nat)
    requires Permuted(s, t, lo, hi) && Permuted(t, u, l, h) && lo <= l && h <= hi
    ensures Permuted(s, u, lo, hi)
  {
    PermutedWider(t, u, lo, hi, l, h);
    PermutedTwice(s, t, u, lo, hi);
  }

  /** The elements of a part stay in that part. */
  lemma Kept<T>(s: seq<T>, t: seq<T>, lo: nat, hi: nat, k: nat) returns (j: nat)
    requires Permuted(s, t, lo, hi) && lo <= k < hi
    ensures lo <= j < hi && t[k] == s[j]
  {
    assert t[k] == t[lo..hi][k - lo];
    assert t[k] in multiset(t[lo..hi]);
    assert t[k] in s[lo..hi];
    var i :| 0 <= i < hi - lo && s[lo..hi][i] == t[k];
    j := lo + i;
  }

  lemma Untouched<T>(s: seq<T>, t: seq<T>, lo: nat, hi: nat, k: nat)
    requires Permuted(s, t, lo, hi) && k < |s| && !(lo <= k < hi)
    ensures t[k] == s[k]
  {
    if k < lo {
      assert s[k] == s[..lo][k] && t[k] == t[..lo][k];
    } else {
      assert s[k] == s[hi..][k - hi] && t[k] == t[hi..][k - hi];
    }
  }

  /** s with two elements having changed places. */
  ghost function Swapped<T>(s: seq<T>, i: nat, j: nat): (t: seq<T>)
    requires i < |s| && j < |s|
    ensures |t| == |s|
  {
    s[i := s[j]][j := s[i]]
  }

  lemma SwapPermutes<T>(s: seq<T>, i: nat, j: nat, lo: nat, hi: nat)
    requires lo <= i < hi <= |s| && lo <= j < hi
    ensures Permuted(s, Swapped(s, i, j), lo, hi)
  {
    assert Swapped(s, i, j)[lo..hi] == Swapped(s[lo..hi], i - lo, j - lo);
  }

  lemma MorePermuted<T>(s: seq<T>, t: seq<T>, i: nat, j: nat, lo: nat, hi: nat)
    requires Permuted(s, t, lo, hi) && lo <= i < hi && lo <= j < hi
    ensures hi <= |t| && Permuted(s, Swapped(t, i, j), lo, hi)
  {
    SwapPermutes(t, i, j, lo, hi);
    PermutedTwice(s, t, Swapped(t, i, j), lo, hi);
  }

  /** Two elements change places. */
  method Swap<T>(a: array<T>, i: nat, j: nat)
    requires i < a.Length && j < a.Length
    modifies a
    ensures a[..] == Swapped(old(a[..]), i, j)
  {
    a[i], a[j] := a[j], a[i];
  }

  /** Where the element at k comes from when the stretches of r elements from i and from j change places. */
  function Source(k: int, i: int, j: int, r: int): int {
    if i <= k < i + r then k + (j - i) else if j <= k < j + r then k - (j - i) else k
  }

  /** The stretches of r elements of s from i and from j have changed places in t. */
  ghost predicate Exchanged<T>(s: seq<T>, t: seq<T>, i: nat, j: nat, r: nat)
    requires i + r <= j && j + r <= |s|
  {
    |t| == |s| && forall k :: 0 <= k < |s| ==> t[k] == s[Source(k, i, j, r)]
  }

  /** One more pair of elements of two stretches. */
  lemma NextPair<T>(s: seq<T>, t: seq<T>, i: nat, j: nat, n: nat)
    requires i + n < j && j + n < |s| && Exchanged(s, t, i, j, n)
    ensures Exchanged(s, Swapped(t, i + n, j + n), i, j, n + 1)
  {
    assert t[i + n] == s[Source(i + n, i, j, n)] && t[j + n] == s[Source(j + n, i, j, n)];
  }

  lemma NotYet<T>(s: seq<T>, i: nat, j: nat)
    requires i <= j <= |s|
    ensures Exchanged(s, s, i, j, 0)
  {
  }

  /** vecswap: two stretches of r elements change places. */
  method VecSwap<T>(a: array<T>, i: nat, j: nat, r: nat, ghost lo: nat, ghost hi: nat)
    requires lo <= i && i + r <= j && j + r <= hi <= a.Length
    modifies a
    ensures Exchanged(old(a[..]), a[..], i, j, r)
    ensures Permuted(old(a[..]), a[..], lo, hi)
  {
    hide *;
    ghost var s := a[..];
    Itself(s, lo, hi);
    NotYet(s, i, j);
    var n := 0;
    while n < r
      invariant n <= r && Permuted(s, a[..], lo, hi) && Exchanged(s, a[..], i, j, n)
    {
      ghost var t := a[..];
      MorePermuted(s, t, i + n, j + n, lo, hi);
      NextPair(s, t, i, j, n);
      Swap(a, i + n, j + n);
      n := n + 1;
    }
  }

  lemma Itself<T>(s: seq<T>, lo: nat, hi: nat)
    requires lo <= hi <= |s|
    ensures Permuted(s, s, lo, hi)
  {
  }

  /** x lies between p and q. */
  ghost predicate Amid<T>(x: T, p: T, q: T, cmp: (T, T) -> int) {
    (cmp(p, x) <= 0 && cmp(x, q) <= 0) || (cmp(q, x) <= 0 && cmp(x, p) <= 0)
  }

  /** m is one of three places, and its element lies between the other two. */
  ghost predicate Median<T>(s: seq<T>, m: nat, i: nat, j: nat, k: nat, cmp: (T, T) -> int) {
    && i < |s| && j < |s| && k < |s|
    && ((m == i && Amid(s[i], s[j], s[k], cmp)) || (m == j && Amid(s[j], s[i], s[k], cmp))
        || (m == k && Amid(s[k], s[i], s[j], cmp)))
  }

  /** The index of the median of three elements. */
  method Med3<T(!new)>(a: array<T>, i: nat, j: nat, k: nat, cmp: (T, T) -> int) returns (m: nat)
    requires i < a.Length && j < a.Length && k < a.Length && TotalPreorder(cmp)
    ensures Median(a[..], m, i, j, k, cmp) && (m == i || m == j || m == k)
  {
    m := if cmp(a[i], a[j]) < 0 then
           (if cmp(a[j], a[k]) < 0 then j else if cmp(a[i], a[k]) < 0 then k else i)
         else
           (if cmp(a[j], a[k]) > 0 then j else if cmp(a[i], a[k]) < 0 then i else k);
  }

  /** In order from lo to hi, but for the element at p, which may belong further to the front. */
  ghost predicate SortedBut<T>(s: seq<T>, lo: nat, hi: nat, p: nat, cmp: (T, T) -> int) {
    hi <= |s| && forall i, j :: lo <= i < j < hi && j != p ==> cmp(s[i], s[j]) <= 0
  }

  lemma StepDown<T(!new)>(s: seq<T>, lo: nat, hi: nat, p: nat, cmp: (T, T) -> int)
    requires TotalPreorder(cmp) && lo < p < hi && SortedBut(s, lo, hi, p, cmp) && cmp(s[p - 1], s[p]) > 0
    ensures SortedBut(Swapped(s, p, p - 1), lo, hi, p - 1, cmp)
  {
    var t := Swapped(s, p, p - 1);
    forall i, j | lo <= i < j < hi && j != p - 1
      ensures cmp(t[i], t[j]) <= 0
    {
      var i', j' := if i == p then p - 1 else if i == p - 1 then p else i, if j == p then p - 1 else j;
      assert t[i] == s[i'] && t[j] == s[j'];
      assert (i == p - 1 && j == p) || (i' < j' && j' != p);
    }
  }

  lemma InPlace<T(!new)>(s: seq<T>, lo: nat, hi: nat, p: nat, cmp: (T, T) -> int)
    requires TotalPreorder(cmp) && lo <= p < hi && SortedBut(s, lo, hi, p, cmp)
    requires p > lo ==> cmp(s[p - 1], s[p]) <= 0
    ensures Sorted(s, lo, hi, cmp)
  {
    forall i | lo <= i < p
      ensures cmp(s[i], s[p]) <= 0
    {
      if i < p - 1 {
        Transitive(cmp, s[i], s[p - 1], s[p]);
      }
    }
  }

  lemma OneMore<T>(s: seq<T>, lo: nat, pm: nat, cmp: (T, T) -> int)
    requires lo <= pm < |s| && Sorted(s, lo, pm, cmp)
    ensures SortedBut(s, lo, pm + 1, pm, cmp)
  {
  }

  /** Moves the element at pm to its place among the sorted ones before it. */
  method Insert<T(!new)>(a: array<T>, lo: nat, pm: nat, cmp: (T, T) -> int)
    requires lo <= pm < a.Length && TotalPreorder(cmp) && Sorted(a[..], lo, pm, cmp)
    modifies a
    ensures Sorted(a[..], lo, pm + 1, cmp) && Permuted(old(a[..]), a[..], lo, pm + 1)
  {
    hide TotalPreorder, Sorted, SortedBut, Permuted, Swapped;
    var pl := pm;
    ghost var s0 := a[..];
    Itself(s0, lo, pm + 1);
    OneMore(s0, lo, pm, cmp);
    while pl > lo && cmp(a[pl - 1], a[pl]) > 0
      invariant lo <= pl <= pm && Permuted(s0, a[..], lo, pm + 1)
      invariant SortedBut(a[..], lo, pm + 1, pl, cmp)
    {
      ghost var w := a[..];
      assert w[pl - 1] == a[pl - 1] && w[pl] == a[pl];
      StepDown(w, lo, pm + 1, pl, cmp);
      MorePermuted(s0, w, pl, pl - 1, lo, pm + 1);
      Swap(a, pl, pl - 1);
      pl := pl - 1;
    }
    InPlace(a[..], lo, pm + 1, pl, cmp);
  }

  /** The insertion sort, for few elements and for when partitioning moved nothing. */
  method InsertionSort<T(!new)>(a: array<T>, lo: nat, hi: nat, cmp: (T, T) -> int)
    requires lo <= hi <= a.Length && TotalPreorder(cmp)
    modifies a
    ensures Sorted(a[..], lo, hi, cmp) && Permuted(old(a[..]), a[..], lo, hi)
  {
    hide TotalPreorder, Permuted;
    ghost var s0 := a[..];
    Itself(s0, lo, hi);
    var pm := lo + 1;
    while pm < hi
      invariant lo < pm && (pm <= hi || hi == lo) && Permuted(s0, a[..], lo, hi)
      invariant Sorted(a[..], lo, if pm <= hi then pm else hi, cmp)
    {
      ghost var w := a[..];
      Insert(a, lo, pm, cmp);
      PermutedInside(s0, w, a[..], lo, hi, lo, pm + 1);
      pm := pm + 1;
    }
  }

  /**
   * Partitioning in progress: the elements equal to v lie at both ends, the smaller ones seen so far after the left
   * of them, the larger ones before the right of them, and those from pb to pc have not been looked at.
   */
  ghost predicate Partitioning<T>(s: seq<T>, lo: nat, hi: nat, pa: nat, pb: nat, pc: int, pd: int, v: T, cmp: (T, T) -> int) {
    && lo < pa <= pb <= pc + 1 <= pd + 1 <= hi <= |s| && s[lo] == v
    && (forall k :: lo <= k < pa ==> cmp(s[k], v) == 0)
    && (forall k :: pa <= k < pb ==> cmp(s[k], v) < 0)
    && (forall k :: pc < k <= pd ==> cmp(s[k], v) > 0)
    && (forall k :: pd < k < hi ==> cmp(s[k], v) == 0)
  }

  lemma PartitionStarts<T(!new)>(s: seq<T>, lo: nat, hi: nat, cmp: (T, T) -> int)
    requires TotalPreorder(cmp) && lo + 1 < hi <= |s|
    ensures Partitioning(s, lo, hi, lo + 1, lo + 1, hi - 1, hi - 1, s[lo], cmp)
  {
    assert cmp(s[lo], s[lo]) < 0 <==> cmp(s[lo], s[lo]) > 0;
  }

  /** What the steps of the two inner loops and the swap between them do. */
  lemma LeftStep<T>(s: seq<T>, lo: nat, hi: nat, pa: nat, pb: nat, pc: int, pd: int, v: T, cmp: (T, T) -> int)
    requires Partitioning(s, lo, hi, pa, pb, pc, pd, v, cmp) && pb <= pc && cmp(s[pb], v) <= 0
    ensures cmp(s[pb], v) == 0 ==> Partitioning(Swapped(s, pa, pb), lo, hi, pa + 1, pb + 1, pc, pd, v, cmp)
    ensures cmp(s[pb], v) < 0 ==> Partitioning(s, lo, hi, pa, pb + 1, pc, pd, v, cmp)
  {
  }

  lemma RightStep<T>(s: seq<T>, lo: nat, hi: nat, pa: nat, pb: nat, pc: int, pd: int, v: T, cmp: (T, T) -> int)
    requires Partitioning(s, lo, hi, pa, pb, pc, pd, v, cmp) && pb <= pc && cmp(s[pc], v) >= 0
    ensures cmp(s[pc], v) == 0 ==> Partitioning(Swapped(s, pc, pd), lo, hi, pa, pb, pc - 1, pd - 1, v, cmp)
    ensures cmp(s[pc], v) > 0 ==> Partitioning(s, lo, hi, pa, pb, pc - 1, pd, v, cmp)
  {
  }

  lemma MiddleStep<T>(s: seq<T>, lo: nat, hi: nat, pa: nat, pb: nat, pc: int, pd: int, v: T, cmp: (T, T) -> int)
    requires Partitioning(s, lo, hi, pa, pb, pc, pd, v, cmp) && pb <= pc && cmp(s[pb], v) > 0 && cmp(s[pc], v) < 0
    ensures pb < pc && Partitioning(Swapped(s, pb, pc), lo, hi, pa, pb + 1, pc - 1, pd, v, cmp)
  {
  }

  lemma PartitionFacts<T>(s: seq<T>, lo: nat, hi: nat, pa: nat, pb: nat, pc: int, pd: int, v: T, cmp: (T, T) -> int)
    requires Partitioning(s, lo, hi, pa, pb, pc, pd, v, cmp)
    ensures lo < pa <= pb <= pc + 1 <= pd + 1 <= hi <= |s| && s[lo] == v
  {
  }

  /** Moves pb to the right, past elements that are not larger than the first. */
  method ScanLeft<T(!new)>(a: array<T>, lo: nat, hi: nat, pa0: nat, pb0: nat, pc: int, pd: int, cmp: (T, T) -> int, ghost v: T)
    returns (pa: nat, pb: nat, moved: bool)
    requires hi <= a.Length && Partitioning(a[..], lo, hi, pa0, pb0, pc, pd, v, cmp)
    modifies a
    ensures Partitioning(a[..], lo, hi, pa, pb, pc, pd, v, cmp) && Permuted(old(a[..]), a[..], lo, hi)
    ensures pb0 <= pb && (pb <= pc ==> pb < a.Length && cmp(a[..][pb], v) > 0)
  {
    hide *;
    ghost var s0 := a[..];
    pa, pb, moved := pa0, pb0, false;
    PartitionFacts(s0, lo, hi, pa, pb, pc, pd, v, cmp);
    Itself(s0, lo, hi);
    while pb <= pc && cmp(a[pb], a[lo]) <= 0
      invariant Permuted(s0, a[..], lo, hi) && Partitioning(a[..], lo, hi, pa, pb, pc, pd, v, cmp)
      invariant lo < pa <= pb <= pc + 1 <= pd + 1 <= hi && pb0 <= pb && a[..][lo] == v
      decreases pc + 1 - pb
    {
      ghost var w := a[..];
      assert w[pb] == a[pb] && w[lo] == a[lo];
      LeftStep(w, lo, hi, pa, pb, pc, pd, v, cmp);
      if cmp(a[pb], a[lo]) == 0 {
        moved := true;
        MorePermuted(s0, w, pa, pb, lo, hi);
        Swap(a, pa, pb);
        pa := pa + 1;
      }
      pb := pb + 1;
      PartitionFacts(a[..], lo, hi, pa, pb, pc, pd, v, cmp);
    }
    assert pb <= pc ==> a[..][pb] == a[pb] && a[..][lo] == a[lo];
  }

  /** Moves pc to the left, past elements that are not smaller than the first. */
  method ScanRight<T(!new)>(a: array<T>, lo: nat, hi: nat, pa: nat, pb: nat, pc0: int, pd0: int, cmp: (T, T) -> int, ghost v: T)
    returns (pc: int, pd: int, moved: bool)
    requires hi <= a.Length && Partitioning(a[..], lo, hi, pa, pb, pc0, pd0, v, cmp)
    requires pb <= pc0 ==> pb < a.Length && cmp(a[..][pb], v) > 0
    modifies a
    ensures Partitioning(a[..], lo, hi, pa, pb, pc, pd, v, cmp) && Permuted(old(a[..]), a[..], lo, hi)
    ensures pc <= pc0 && (pb <= pc ==> pc < a.Length && cmp(a[..][pb], v) > 0 && cmp(a[..][pc], v) < 0)
  {
    hide *;
    ghost var s0 := a[..];
    pc, pd, moved := pc0, pd0, false;
    PartitionFacts(s0, lo, hi, pa, pb, pc, pd, v, cmp);
    Itself(s0, lo, hi);
    while pb <= pc && cmp(a[pc], a[lo]) >= 0
      invariant Permuted(s0, a[..], lo, hi) && Partitioning(a[..], lo, hi, pa, pb, pc, pd, v, cmp)
      invariant lo < pa <= pb <= pc + 1 <= pd + 1 <= hi && pc <= pc0 && a[..][lo] == v
      invariant pb <= pc ==> cmp(a[..][pb], v) > 0
      decreases pc + 1 - pb
    {
      ghost var w := a[..];
      assert w[pc] == a[pc] && w[lo] == a[lo];
      RightStep(w, lo, hi, pa, pb, pc, pd, v, cmp);
      if cmp(a[pc], a[lo]) == 0 {
        moved := true;
        MorePermuted(s0, w, pc, pd, lo, hi);
        Swap(a, pc, pd);
        Elsewhere(w, pc, pd, pb);
        pd := pd - 1;
      }
      pc := pc - 1;
      PartitionFacts(a[..], lo, hi, pa, pb, pc, pd, v, cmp);
    }
    assert pb <= pc ==> a[..][pc] == a[pc] && a[..][lo] == a[lo];
  }

  /** The partitioning loop, around the first element. */
  method Partition<T(!new)>(a: array<T>, lo: nat, hi: nat, cmp: (T, T) -> int)
    returns (pa: nat, pb: nat, pc: int, pd: int, moved: bool)
    requires TotalPreorder(cmp) && lo + 1 < hi <= a.Length
    modifies a
    ensures Permuted(old(a[..]), a[..], lo, hi)
    ensures pb == pc + 1 && Partitioning(a[..], lo, hi, pa, pb, pc, pd, old(a[lo]), cmp)
  {
    hide *;
    ghost var s0, v := a[..], a[lo];
    Itself(s0, lo, hi);
    PartitionStarts(s0, lo, hi, cmp);
    pa, pb, pc, pd, moved := lo + 1, lo + 1, hi - 1, hi - 1, false;
    PartitionFacts(s0, lo, hi, pa, pb, pc, pd, v, cmp);
    while true
      invariant Permuted(s0, a[..], lo, hi) && Partitioning(a[..], lo, hi, pa, pb, pc, pd, v, cmp)
      invariant pb <= pc + 1
      decreases pc + 1 - pb
    {
      var left, right;
      ghost var w := a[..];
      pa, pb, left := ScanLeft(a, lo, hi, pa, pb, pc, pd, cmp, v);
      PermutedTwice(s0, w, a[..], lo, hi);
      w := a[..];
      pc, pd, right := ScanRight(a, lo, hi, pa, pb, pc, pd, cmp, v);
      PermutedTwice(s0, w, a[..], lo, hi);
      moved := moved || left || right;
      w := a[..];
      PartitionFacts(w, lo, hi, pa, pb, pc, pd, v, cmp);
      if pb > pc {
        break;
      }
      MiddleStep(w, lo, hi, pa, pb, pc, pd, v, cmp);
      MorePermuted(s0, w, pb, pc, lo, hi);
      Swap(a, pb, pc);
      moved := true;
      pb := pb + 1;
      pc := pc - 1;
      PartitionFacts(a[..], lo, hi, pa, pb, pc, pd, v, cmp);
    }
  }

  lemma Elsewhere<T>(s: seq<T>, i: nat, j: nat, k: nat)
    requires i < |s| && j < |s| && k < i && k < j
    ensures Swapped(s, i, j)[k] == s[k]
  {
  }

  /** The result: l smaller elements, then those equal to v, then r larger ones. */
  ghost predicate Split<T>(s: seq<T>, lo: nat, hi: nat, l: nat, r: nat, v: T, cmp: (T, T) -> int) {
    && lo + l + r < hi <= |s|
    && (forall k :: lo <= k < lo + l ==> cmp(s[k], v) < 0)
    && (forall k :: lo + l <= k < hi - r ==> cmp(s[k], v) == 0)
    && (forall k :: hi - r <= k < hi ==> cmp(s[k], v) > 0)
  }

  /** The left half of it, with the right one still in its parts. */
  ghost predicate LeftSplit<T>(s: seq<T>, lo: nat, hi: nat, l: nat, pb: nat, pd: int, v: T, cmp: (T, T) -> int) {
    && lo + l < pb <= pd + 1 <= hi <= |s|
    && (forall k :: lo <= k < lo + l ==> cmp(s[k], v) < 0)
    && (forall k :: lo + l <= k < pb ==> cmp(s[k], v) == 0)
    && (forall k :: pb <= k <= pd ==> cmp(s[k], v) > 0)
    && (forall k :: pd < k < hi ==> cmp(s[k], v) == 0)
  }

  /** Swapping as many of the equal elements on the left with smaller ones as there are fewer of. */
  lemma LeftHalf<T>(s: seq<T>, t: seq<T>, lo: nat, hi: nat, pa: nat, pb: nat, pd: int, v: T, cmp: (T, T) -> int)
    requires Partitioning(s, lo, hi, pa, pb, pb - 1, pd, v, cmp)
    requires var r := if pa - lo < pb - pa then pa - lo else pb - pa; Exchanged(s, t, lo, pb - r, r)
    ensures LeftSplit(t, lo, hi, pb - pa, pb, pd, v, cmp)
  {
  }

  lemma RightHalf<T>(s: seq<T>, t: seq<T>, lo: nat, hi: nat, l: nat, pb: nat, pd: int, v: T, cmp: (T, T) -> int)
    requires LeftSplit(s, lo, hi, l, pb, pd, v, cmp)
    requires var r := if pd + 1 - pb < hi - pd - 1 then pd + 1 - pb else hi - pd - 1; Exchanged(s, t, pb, hi - r, r)
    ensures Split(t, lo, hi, l, pd + 1 - pb, v, cmp)
  {
  }

  /** In order up to lo, and nothing from lo to hi comes before that. */
  ghost predicate Settled<T>(s: seq<T>, lo0: nat, lo: nat, hi: nat, cmp: (T, T) -> int) {
    && lo0 <= lo <= hi <= |s| && Sorted(s, lo0, lo, cmp)
    && forall i, j :: lo0 <= i < lo <= j < hi ==> cmp(s[i], s[j]) <= 0
  }

  /** Reordering what is not settled keeps what is. */
  lemma SettledKept<T>(s: seq<T>, t: seq<T>, lo0: nat, lo: nat, hi: nat, cmp: (T, T) -> int)
    requires Settled(s, lo0, lo, hi, cmp) && Permuted(s, t, lo, hi)
    ensures Settled(t, lo0, lo, hi, cmp)
  {
    forall i | lo0 <= i < lo
      ensures t[i] == s[i]
    {
      Untouched(s, t, lo, hi, i);
    }
    forall i, j | lo0 <= i < lo <= j < hi
      ensures cmp(t[i], t[j]) <= 0
    {
      var k := Kept(s, t, lo, hi, j);
      assert cmp(s[i], s[k]) <= 0;
    }
  }

  /** When the rest is in order too, all is. */
  lemma AllSettled<T>(s: seq<T>, lo0: nat, lo: nat, hi: nat, cmp: (T, T) -> int)
    requires Settled(s, lo0, lo, hi, cmp) && Sorted(s, lo, hi, cmp)
    ensures Sorted(s, lo0, hi, cmp)
  {
  }

  /** When the smaller elements have been sorted, all but the larger ones are settled. */
  lemma LeftDone<T(!new)>(s: seq<T>, t: seq<T>, lo0: nat, lo: nat, hi: nat, l: nat, r: nat, v: T, cmp: (T, T) -> int)
    requires TotalPreorder(cmp) && Settled(s, lo0, lo, hi, cmp) && Split(s, lo, hi, l, r, v, cmp)
    requires Permuted(s, t, lo, lo + l) && Sorted(t, lo, lo + l, cmp)
    ensures Settled(t, lo0, hi - r, hi, cmp)
  {
    PermutedWider(s, t, lo, hi, lo, lo + l);
    SettledKept(s, t, lo0, lo, hi, cmp);
    SplitKept(s, t, lo, hi, l, r, v, cmp);
    SplitSettles(t, lo0, lo, hi, l, r, v, cmp);
  }

  lemma SplitKept<T>(s: seq<T>, t: seq<T>, lo: nat, hi: nat, l: nat, r: nat, v: T, cmp: (T, T) -> int)
    requires Split(s, lo, hi, l, r, v, cmp) && Permuted(s, t, lo, lo + l)
    ensures Split(t, lo, hi, l, r, v, cmp)
  {
    forall k | lo <= k < hi
      ensures k < lo + l ==> cmp(t[k], v) < 0
      ensures lo + l <= k ==> t[k] == s[k]
    {
      if k < lo + l {
        var j := Kept(s, t, lo, lo + l, k);
      } else {
        Untouched(s, t, lo, lo + l, k);
      }
    }
  }

  lemma SplitSettles<T(!new)>(t: seq<T>, lo0: nat, lo: nat, hi: nat, l: nat, r: nat, v: T, cmp: (T, T) -> int)
    requires TotalPreorder(cmp) && Settled(t, lo0, lo, hi, cmp) && Split(t, lo, hi, l, r, v, cmp) && Sorted(t, lo, lo + l, cmp)
    ensures Settled(t, lo0, hi - r, hi, cmp)
  {
    hide TotalPreorder;
    forall i, j | lo <= i < hi - r && i < j < hi && j >= lo + l
      ensures cmp(t[i], t[j]) <= 0
    {
      Reversed(cmp, t[j], v);
      Transitive(cmp, t[i], v, t[j]);
    }
    forall i, j | lo0 <= i < hi - r && i < j < hi
      ensures cmp(t[i], t[j]) <= 0
    {
      if i >= lo && j < lo + l {
        assert Sorted(t, lo, lo + l, cmp);
      }
    }
  }

  lemma Reversed<T(!new)>(cmp: (T, T) -> int, x: T, y: T)
    requires TotalPreorder(cmp) && cmp(x, y) >= 0
    ensures cmp(y, x) <= 0
  {
  }

  /** The median of the medians of three elements near the beginning, the middle and the end. */
  ghost predicate MedianOfNine<T>(s: seq<T>, m: nat, lo: nat, n: nat, cmp: (T, T) -> int)
    requires n > 40
  {
    var d, mid, last := n / 8, lo + n / 2, lo + n - 1;
    exists i, j, k ::
      && Median(s, i, lo, lo + d, lo + 2 * d, cmp) && Median(s, j, mid - d, mid, mid + d, cmp)
      && Median(s, k, last - 2 * d, last - d, last, cmp) && Median(s, m, i, j, k, cmp)
  }

  /** The element that the partitioning goes around: the middle one, or a median of three, or of nine in three. */
  method ChoosePivot<T(!new)>(a: array<T>, lo: nat, n: nat, cmp: (T, T) -> int) returns (pm: nat)
    requires n >= 7 && lo + n <= a.Length && TotalPreorder(cmp)
    ensures lo <= pm < lo + n
    ensures n == 7 ==> pm == lo + 3
    ensures 7 < n <= 40 ==> Median(a[..], pm, lo, lo + n / 2, lo + n - 1, cmp)
    ensures n > 40 ==> MedianOfNine(a[..], pm, lo, n, cmp)
  {
    hide *;
    pm := lo + n / 2;
    if n > 7 {
      var pl, pn := lo, lo + (n - 1);
      if n > 40 {
        var mid;
        pl, mid, pn := ThreeMedians(a, lo, n, cmp);
        pm := Med3(a, pl, mid, pn, cmp);
        NineFromThrees(a[..], pm, pl, mid, pn, lo, n, cmp);
      } else {
        pm := Med3(a, pl, pm, pn, cmp);
      }
    }
  }

  /** For many elements: the medians of three near the beginning, the middle and the end. */
  method ThreeMedians<T(!new)>(a: array<T>, lo: nat, n: nat, cmp: (T, T) -> int) returns (pl: nat, pm: nat, pn: nat)
    requires n > 40 && lo + n <= a.Length && TotalPreorder(cmp)
    ensures lo <= pl < lo + n && lo <= pm < lo + n && lo <= pn < lo + n
    ensures var d, mid, last := n / 8, lo + n / 2, lo + n - 1;
      && Median(a[..], pl, lo, lo + d, lo + 2 * d, cmp) && Median(a[..], pm, mid - d, mid, mid + d, cmp)
      && Median(a[..], pn, last - 2 * d, last - d, last, cmp)
  {
    hide *;
    pl, pm, pn := lo, lo + n / 2, lo + (n - 1);
    var d := n / 8;
    assert 8 * d <= n && d <= n / 2 && n / 2 + d < n;
    pl := Med3(a, pl, pl + d, pl + 2 * d, cmp);
    pm := Med3(a, pm - d, pm, pm + d, cmp);
    pn := Med3(a, pn - 2 * d, pn - d, pn, cmp);
  }

  lemma NineFromThrees<T>(s: seq<T>, m: nat, i: nat, j: nat, k: nat, lo: nat, n: nat, cmp: (T, T) -> int)
    requires n > 40
    requires var d, mid, last := n / 8, lo + n / 2, lo + n - 1;
      && Median(s, i, lo, lo + d, lo + 2 * d, cmp) && Median(s, j, mid - d, mid, mid + d, cmp)
      && Median(s, k, last - 2 * d, last - d, last, cmp) && Median(s, m, i, j, k, cmp)
    ensures MedianOfNine(s, m, lo, n, cmp)
  {
    hide Median;
  }

  /** Moves the elements equal to v from both ends to the middle, as few of them as will do. */
  method EqualToMiddle<T>(a: array<T>, lo: nat, hi: nat, pa: nat, pb: nat, pd: int, cmp: (T, T) -> int, ghost v: T)
    requires hi <= a.Length && Partitioning(a[..], lo, hi, pa, pb, pb - 1, pd, v, cmp)
    modifies a
    ensures lo < pb <= pd + 1 && pa <= pb && Permuted(old(a[..]), a[..], lo, hi)
    ensures Split(a[..], lo, hi, pb - pa, pd + 1 - pb, v, cmp)
  {
    hide *;
    ghost var s0 := a[..];
    PartitionFacts(s0, lo, hi, pa, pb, pb - 1, pd, v, cmp);
    var c := if pa - lo < pb - pa then pa - lo else pb - pa;
    VecSwap(a, lo, pb - c, c, lo, hi);
    ghost var w := a[..];
    LeftHalf(s0, w, lo, hi, pa, pb, pd, v, cmp);
    c := if pd + 1 - pb < hi - pd - 1 then pd + 1 - pb else hi - pd - 1;
    VecSwap(a, pb, hi - c, c, lo, hi);
    RightHalf(w, a[..], lo, hi, pb - pa, pb, pd, v, cmp);
    PermutedTwice(s0, w, a[..], lo, hi);
  }

  /** Partitions and moves the equal elements to the middle. sorted says that it has sorted instead. */
  method SplitOrSort<T(!new)>(a: array<T>, lo: nat, n: nat, cmp: (T, T) -> int)
    returns (sorted: bool, l: nat, r: nat, ghost v: T)
    requires n >= 7 && lo + n <= a.Length && TotalPreorder(cmp)
    modifies a
    ensures Permuted(old(a[..]), a[..], lo, lo + n)
    ensures if sorted then Sorted(a[..], lo, lo + n, cmp) else Split(a[..], lo, lo + n, l, r, v, cmp)
  {
    hide *;
    ghost var s0 := a[..];
    var hi := lo + n;
    Itself(s0, lo, hi);
    var pm := ChoosePivot(a, lo, n, cmp);
    MorePermuted(s0, s0, lo, pm, lo, hi);
    Swap(a, lo, pm);
    ghost var w := a[..];
    v := a[lo];
    var pa, pb, pc, pd, moved := Partition(a, lo, hi, cmp);
    PermutedTwice(s0, w, a[..], lo, hi);
    w := a[..];
    PartitionFacts(w, lo, hi, pa, pb, pc, pd, v, cmp);
    l, r := pb - pa, pd - pc;
    if !moved {
      InsertionSort(a, lo, hi, cmp);
      PermutedTwice(s0, w, a[..], lo, hi);
      return true, l, r, v;
    }
    EqualToMiddle(a, lo, hi, pa, pb, pd, cmp, v);
    PermutedTwice(s0, w, a[..], lo, hi);
    sorted := false;
  }

  /** qsort: recursion for the smaller elements, and another turn of the loop for the larger ones. */
  method QSort<T(!new)>(a: array<T>, lo0: nat, n0: nat, cmp: (T, T) -> int)
    requires lo0 + n0 <= a.Length && TotalPreorder(cmp)
    modifies a
    ensures Sorted(a[..], lo0, lo0 + n0, cmp) && Permuted(old(a[..]), a[..], lo0, lo0 + n0)
    decreases n0
  {
    hide *;
    ghost var s0 := a[..];
    var end := lo0 + n0;
    var lo: nat, n: nat := lo0, n0;
    Itself(s0, lo0, end);
    NothingSettled(s0, lo0, end, cmp);
    while true
      invariant lo0 <= lo && lo + n == end && n <= n0
      invariant Permuted(s0, a[..], lo0, end) && Settled(a[..], lo0, lo, end, cmp)
      decreases n
    {
      ghost var w := a[..];
      if n < 7 {
        InsertionSort(a, lo, lo + n, cmp);
        Finished(s0, w, a[..], lo0, lo, end, cmp);
        return;
      }
      var sorted, l, r;
      ghost var v;
      sorted, l, r, v := SplitOrSort(a, lo, n, cmp);
      if sorted {
        Finished(s0, w, a[..], lo0, lo, end, cmp);
        return;
      }
      InBounds(a[..], lo, end, l, r, v, cmp);
      SettledKept(w, a[..], lo0, lo, end, cmp);
      PermutedInside(s0, w, a[..], lo0, end, lo, end);
      w := a[..];
      if l > 1 {
        QSort(a, lo, l, cmp);
      } else {
        Itself(w, lo, lo + l);
        FewSorted(w, lo, lo + l, cmp);
      }
      LeftDone(w, a[..], lo0, lo, end, l, r, v, cmp);
      PermutedInside(s0, w, a[..], lo0, end, lo, lo + l);
      if r <= 1 {
        FewSorted(a[..], end - r, end, cmp);
        AllSettled(a[..], lo0, end - r, end, cmp);
        return;
      }
      lo, n := end - r, r;
    }
  }

  lemma InBounds<T>(s: seq<T>, lo: nat, hi: nat, l: nat, r: nat, v: T, cmp: (T, T) -> int)
    requires Split(s, lo, hi, l, r, v, cmp)
    ensures lo + l + r < hi <= |s|
  {
  }

  lemma FewSorted<T>(s: seq<T>, lo: nat, hi: nat, cmp: (T, T) -> int)
    requires lo <= hi <= |s| && hi <= lo + 1
    ensures Sorted(s, lo, hi, cmp)
  {
  }

  lemma NothingSettled<T>(s: seq<T>, lo0: nat, hi: nat, cmp: (T, T) -> int)
    requires lo0 <= hi <= |s|
    ensures Settled(s, lo0, lo0, hi, cmp)
  {
  }

  /** The last stretch has been sorted. */
  lemma Finished<T>(s0: seq<T>, s: seq<T>, t: seq<T>, lo0: nat, lo: nat, hi: nat, cmp: (T, T) -> int)
    requires Permuted(s0, s, lo0, hi) && Settled(s, lo0, lo, hi, cmp)
    requires Permuted(s, t, lo, hi) && Sorted(t, lo, hi, cmp)
    ensures Permuted(s0, t, lo0, hi) && Sorted(t, lo0, hi, cmp)
  {
    hide Permuted, Sorted;
    SettledKept(s, t, lo0, lo, hi, cmp);
    AllSettled(t, lo0, lo, hi, cmp);
    PermutedInside(s0, s, t, lo0, hi, lo, hi);
  }
}
