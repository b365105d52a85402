/** The Adler-32 checksum with its deferred reduction (zlib.c, adler32). */
module Adler32 {

  import opened Arith
  import opened Lz77

  /** Modulo the largest prime below 65536. */
  function Reduce(x: nat): (r: nat)
    ensures r < 65521
  {
    x % 65521
  }

  /** The two sums of section 8.2 of RFC 1950, reduced modulo 65521 at every byte. */
  datatype Sums = Sums(s1: nat, s2: nat)

  ghost function Update(a: Sums, buf: seq<Byte>): (r: Sums)
    ensures buf != [] ==> r.s1 < 65521 && r.s2 < 65521
  {
    if buf == [] then a
    else
      var r := Update(a, buf[..|buf| - 1]);
      var s1 := Reduce(r.s1 + buf[|buf| - 1]);
      Sums(s1, Reduce(r.s2 + s1))
  }

  function Unpack(adler: Word): (r: Sums)
    ensures r.s1 <= 65535 && r.s2 <= 65535
  {
    Sums(adler % 65536, adler / 65536)
  }

  function Pack(a: Sums): Word
    requires a.s1 <= 65535 && a.s2 <= 65535
  {
    a.s2 * 65536 + a.s1
  }

  /** Checksumming x and then y is checksumming their concatenation. */
  lemma {:induction false} UpdateConcat(a: Sums, x: seq<Byte>, y: seq<Byte>)
    ensures Update(Update(a, x), y) == Update(a, x + y)
  {
    if y == [] {
      assert x + y == x;
    } else {
      UpdateConcat(a, x, y[..|y| - 1]);
      assert (x + y)[..|x + y| - 1] == x + y[..|y| - 1];
    }
  }

  /** The sums without any reduction. */
  ghost function Plain(a: Sums, buf: seq<Byte>): Sums {
    if buf == [] then a
    else
      var r := Plain(a, buf[..|buf| - 1]);
      var s1 := r.s1 + buf[|buf| - 1];
      Sums(s1, r.s2 + s1)
  }

  /** Reducing at the end gives the same as reducing at every byte. */
  lemma {:induction false} ReduceLate(a: Sums, buf: seq<Byte>)
    requires buf != []
    ensures Update(a, buf) == Sums(Reduce(Plain(a, buf).s1), Reduce(Plain(a, buf).s2))
  {
    hide Reduce;
    var init, x := buf[..|buf| - 1], buf[|buf| - 1];
    if |buf| > 1 {
      ReduceLate(a, init);
      ReducedStep(Plain(a, init), x);
    } else {
      assert init == [];
      ModSumRight(a.s2, a.s1 + x);
    }
  }

  lemma ReducedStep(p: Sums, x: Byte)
    ensures Reduce(Reduce(p.s1) + x) == Reduce(p.s1 + x)
    ensures Reduce(Reduce(p.s2) + Reduce(p.s1 + x)) == Reduce(p.s2 + (p.s1 + x))
  {
    hide Reduce;
    ModSum(p.s1, x);
    ModSum(p.s2, Reduce(p.s1 + x));
    ModSumRight(p.s2, p.s1 + x);
  }

  lemma ModSum(a: nat, b: nat)
    ensures Reduce(Reduce(a) + b) == Reduce(a + b)
  {
  }

  lemma ModSumRight(a: nat, b: nat)
    ensures Reduce(a + Reduce(b)) == Reduce(a + b)
  {
  }

  /** The bound that NMAX stands for: 5552 bytes cannot make either sum pass 32 bits. */
  lemma {:induction false} PlainBound(a: Sums, buf: seq<Byte>)
    requires a.s1 <= 65535 && a.s2 <= 65535
    ensures var n := |buf|; var r := Plain(a, buf);
      r.s1 <= 65535 + 255 * n && 2 * r.s2 <= 131070 + 131070 * n + 255 * (n * n + n)
  {
    if buf != [] {
      PlainBound(a, buf[..|buf| - 1]);
      var n := |buf|;
      SquareStep(n);
    }
  }

  lemma SquareStep(n: int)
    ensures (n - 1) * (n - 1) + (n - 1) + 2 * n == n * n + n
  {
  }

  lemma NoWrap(a: Sums, buf: seq<Byte>)
    requires a.s1 <= 65535 && a.s2 <= 65535 && |buf| <= 5552
    ensures Plain(a, buf).s1 < 0x1_0000_0000 && Plain(a, buf).s2 < 0x1_0000_0000
  {
    hide Plain;
    PlainBound(a, buf);
    SquareBound(|buf|);
  }

  lemma SquareBound(n: nat)
    requires n <= 5552
    ensures n * n <= 30824704
  {
    MulLe(n, 5552, n);
  }

  /** The sum of all bytes. */
  ghost function SumOf(buf: seq<Byte>): nat {
    if buf == [] then 0 else buf[0] + SumOf(buf[1..])
  }

  /** The sum of all bytes, each as often as there are bytes from it to the end. */
  ghost function Weighted(buf: seq<Byte>): nat {
    if buf == [] then 0
    else
      var x: nat := buf[0];
      Nonneg(|buf|, x);
      |buf| * x + Weighted(buf[1..])
  }

  /** One more byte at the end counts once, and every byte before once more. */
  lemma {:induction false} SumsSnoc(buf: seq<Byte>, x: Byte)
    ensures SumOf(buf + [x]) == SumOf(buf) + x
    ensures Weighted(buf + [x]) == Weighted(buf) + SumOf(buf) + x
  {
    if buf == [] {
      assert ([] + [x])[1..] == [] && ([] + [x])[0] == x;
      assert Weighted([x]) == 1 * x + Weighted([]);
    } else {
      SumsSnoc(buf[1..], x);
      assert (buf + [x])[1..] == buf[1..] + [x] && (buf + [x])[0] == buf[0];
      MulDist(|buf|, 1, buf[0]);
    }
  }

  /** The sums without reduction in closed form. */
  lemma {:induction false} PlainClosed(a: Sums, buf: seq<Byte>)
    ensures Plain(a, buf) == Sums(a.s1 + SumOf(buf), a.s2 + |buf| * a.s1 + Weighted(buf))
  {
    if buf != [] {
      var init, x := buf[..|buf| - 1], buf[|buf| - 1];
      PlainClosed(a, init);
      SumsSnoc(init, x);
      assert init + [x] == buf;
      Pred(|buf|, a.s1);
    }
  }

  /**
   * Section 8.2 of RFC 1950 in closed form: r is the checksum of n bytes that goes on from the checksum adler. A whole
   * checksum goes on from 1.
   */
  ghost predicate IsChecksum(r: Word, adler: Word, buf: seq<Byte>) {
    var a, b, n: nat := adler % 65536, adler / 65536, |buf|;
    if n == 0 then r == adler
    else r % 65536 == (a + SumOf(buf)) % 65521 && r / 65536 == (b + n * a + Weighted(buf)) % 65521
  }

  lemma ClosedForm(adler: Word, buf: seq<Byte>)
    ensures var u := Update(Unpack(adler), buf);
      u.s1 <= 65535 && u.s2 <= 65535 && IsChecksum(Pack(u), adler, buf)
  {
    hide Plain, Weighted, SumOf, Update, Pack;
    var start := Unpack(adler);
    if buf == [] {
      UpdateEmpty(start);
      Repacked(adler);
    } else {
      ReduceLate(start, buf);
      PlainClosed(start, buf);
      PackParts(Update(start, buf));
    }
  }

  lemma PackParts(a: Sums)
    requires a.s1 <= 65535 && a.s2 <= 65535
    ensures Pack(a) % 65536 == a.s1 && Pack(a) / 65536 == a.s2
  {
  }

  lemma Repacked(adler: Word)
    ensures Pack(Unpack(adler)) == adler
  {
  }

  /** One chunk: adds up without reducing; the C code unrolls this loop sixteen times. */
  method AddChunk(s1: Word, s2: Word, buf: seq<Byte>) returns (t1: Word, t2: Word)
    requires s1 <= 65535 && s2 <= 65535 && |buf| <= 5552
    ensures Sums(t1, t2) == Plain(Sums(s1, s2), buf)
    ensures t1 == s1 + SumOf(buf) && t2 == s2 + |buf| * s1 + Weighted(buf)
  {
    PlainClosed(Sums(s1, s2), buf);
    t1, t2 := s1, s2;
    for i := 0 to |buf|
      invariant Sums(t1, t2) == Plain(Sums(s1, s2), buf[..i])
    {
      assert buf[..i + 1][..i] == buf[..i];
      NoWrap(Sums(s1, s2), buf[..i + 1]);
      t1 := t1 + buf[i];
      t2 := t2 + t1;
    }
    assert buf[..|buf|] == buf;
  }

  /** The checksum of buf, going on from adler. The sums are only reduced every 5552 bytes. */
  method Adler32(adler: Word, buf: seq<Byte>) returns (r: Word)
    ensures r == Pack(Update(Unpack(adler), buf)) && IsChecksum(r, adler, buf)
  {
    hide Update, Plain, SumOf, Weighted, IsChecksum;
    ClosedForm(adler, buf);
    UpdateEmpty(Unpack(adler));
    ghost var start := Unpack(adler);
    var s1: Word, s2: Word := adler % 65536, adler / 65536;
    var done := 0;
    var len: nat := |buf|;
    assert buf[..0] == [];
    while len > 0
      invariant done + len == |buf| && s1 <= 65535 && s2 <= 65535
      invariant Sums(s1, s2) == Update(start, buf[..done])
    {
      var k := if len < 5552 then len else 5552;
      len := len - k;
      ghost var a, chunk := Sums(s1, s2), buf[done..done + k];
      s1, s2 := AddChunk(s1, s2, buf[done..done + k]);
      ReduceLate(a, chunk);
      UpdateConcat(start, buf[..done], chunk);
      assert buf[..done] + chunk == buf[..done + k];
      s1 := Reduce(s1);
      s2 := Reduce(s2);
      done := done + k;
    }
    assert buf[..done] == buf;
    return s2 * 65536 + s1;
  }

  lemma UpdateEmpty(a: Sums)
    ensures Update(a, []) == a
  {
  }

  /** Splitting a buffer does not change its checksum. */
  lemma ChecksumConcat(adler: Word, x: seq<Byte>, y: seq<Byte>)
    ensures var sx := Update(Unpack(adler), x);
      sx.s1 <= 65535 && sx.s2 <= 65535 && Update(Unpack(Pack(sx)), y) == Update(Unpack(adler), x + y)
  {
    hide Update;
    var sx := Update(Unpack(adler), x);
    UpdateConcat(Unpack(adler), x, y);
    UpdateBound(Unpack(adler), x);
    Unpacked(sx);
  }

  lemma UpdateBound(a: Sums, buf: seq<Byte>)
    requires a.s1 <= 65535 && a.s2 <= 65535
    ensures Update(a, buf).s1 <= 65535 && Update(a, buf).s2 <= 65535
  {
  }

  lemma Unpacked(a: Sums)
    requires a.s1 <= 65535 && a.s2 <= 65535
    ensures Unpack(Pack(a)) == a
  {
  }
}
