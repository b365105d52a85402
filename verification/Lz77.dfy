/** Copies of earlier output, and looking back in a ring of bytes (zlib.c and lzmadec.c). */
module Lz77 {

  type Byte = x: int | 0 <= x < 256
  type Word = x: int | 0 <= x < 0x1_0000_0000

  function Zeroes(n: nat): (z: seq<Byte>)
    ensures |z| == n && forall i :: 0 <= i < n ==> z[i] == 0
  {
    seq(n, i => 0)
  }

  /** Copying n bytes from dist back, byte by byte, so that a copy may run into itself. */
  ghost function Copied(out: seq<Byte>, dist: nat, n: nat): (r: seq<Byte>)
    requires 1 <= dist <= |out|
    ensures |r| == |out| + n && out <= r
  {
    if n == 0 then out
    else
      var r := Copied(out, dist, n - 1);
      r + [r[|r| - dist]]
  }

  /** One more byte of a copy. */
  lemma CopiedNext(out: seq<Byte>, dist: nat, n: nat)
    requires 1 <= dist <= |out|
    ensures var r := Copied(out, dist, n); dist <= |r| && Copied(out, dist, n + 1) == r + [r[|r| - dist]]
  {
  }

  lemma CopiedNone(out: seq<Byte>, dist: nat)
    requires 1 <= dist <= |out|
    ensures Copied(out, dist, 0) == out
  {
  }

  lemma {:induction false} CopiedGrows(out: seq<Byte>, dist: nat, n: nat, m: nat)
    requires 1 <= dist <= |out| && n <= m
    ensures Copied(out, dist, n) <= Copied(out, dist, m)
    decreases m
  {
    if n < m {
      CopiedGrows(out, dist, n, m - 1);
    }
  }

  /** A copy can be made in two parts. */
  lemma {:induction false} CopiedTwice(out: seq<Byte>, dist: nat, n: nat, m: nat)
    requires 1 <= dist <= |out|
    ensures Copied(Copied(out, dist, n), dist, m) == Copied(out, dist, n + m)
  {
    hide Copied;
    var r := Copied(out, dist, n);
    if m == 0 {
      CopiedNone(r, dist);
    } else {
      CopiedTwice(out, dist, n, m - 1);
      CopiedNext(r, dist, m - 1);
      CopiedNext(out, dist, n + m - 1);
    }
  }

  /** Every byte of a copy is the one dist before it, where the copy has reached by then. */
  lemma {:induction false} CopiedByte(out: seq<Byte>, dist: nat, n: nat, i: nat)
    requires 1 <= dist <= |out| <= i < |out| + n
    ensures Copied(out, dist, n)[i] == Copied(out, dist, n)[i - dist]
  {
    if i < |out| + n - 1 {
      CopiedByte(out, dist, n - 1, i);
    }
  }

  /** The first part of a copy, and what is left to copy after it. */
  lemma CopiedParts(out: seq<Byte>, dist: nat, n: nat, len: nat)
    requires 1 <= dist <= |out| && n <= len
    ensures var r, q := Copied(out, dist, len), Copied(out, dist, n);
      q == r[..|r| - (len - n)] && r == Copied(q, dist, len - n)
  {
    hide Copied;
    CopiedGrows(out, dist, n, len);
    CopiedTwice(out, dist, n, len - n);
  }

  /** Where in a ring of n bytes the byte d before position q is. */
  function Back(q: nat, d: nat, n: nat): int {
    if q < d then n - (d - q) else q - d
  }

  /** Both ends of the ring are the same place to look back from. */
  lemma BackToStart(n: nat)
    ensures forall d :: 1 <= d <= n ==> Back(0, d, n) == Back(n, d, n)
  {
  }

  /** The place to look back to moves on with the position, and wraps at the end. */
  lemma BackNext(q: nat, d: nat, n: nat)
    requires q < n && 1 <= d <= n
    ensures 0 <= Back(q, d, n) < n
    ensures Back(q + 1, d, n) == if Back(q, d, n) + 1 == n then 0 else Back(q, d, n) + 1
  {
  }
}
