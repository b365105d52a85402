/** What sections 4 and 5 of FIPS 180-2 say of the functions and constants of SHA-224 and SHA-256. */
module ShaStandard {

  import opened Arith
  import opened Lz77
  import opened ShaStream
  import opened ShaRounds
  import opened Sha256

  /** Ch takes each bit from y where x is one, and from z where it is zero. */
  lemma ChChooses(x: bv32, y: bv32, z: bv32)
    ensures Ch(x, y, z) & x == y & x && Ch(x, y, z) & !x == z & !x
  {
  }

  /** Maj is x where x and y agree, and z where they do not. */
  lemma MajIsMajority(x: bv32, y: bv32, z: bv32)
    ensures Maj(x, y, z) & !(x ^ y) == x & !(x ^ y) && Maj(x, y, z) & (x ^ y) == z & (x ^ y)
  {
  }

  /** Bit i of a word, counted from the lowest and around the end. */
  predicate Bit(x: bv32, i: bv32) {
    (x >> (i % 32)) & 1 == 1
  }

  predicate Xor(a: bool, b: bool, c: bool) {
    (a != b) != c
  }

  function Xor3(x: bv32, y: bv32, z: bv32): bv32 {
    x ^ y ^ z
  }

  lemma XorBits(x: bv32, y: bv32, z: bv32, i: bv32)
    ensures Bit(x ^ y ^ z, i) == Xor(Bit(x, i), Bit(y, i), Bit(z, i))
  {
  }

  lemma Xor3Bits(x: bv32, y: bv32, z: bv32, i: bv32)
    ensures Bit(Xor3(x, y, z), i) == Xor(Bit(x, i), Bit(y, i), Bit(z, i))
  {
    hide Bit, Xor;
    XorBits(x, y, z, i);
  }

  lemma AreXors(x: bv32)
    ensures F1(x) == Xor3(Rotr(x, 2), Rotr(x, 13), Rotr(x, 22)) && F2(x) == Xor3(Rotr(x, 6), Rotr(x, 11), Rotr(x, 25))
    ensures F3(x) == Xor3(Rotr(x, 7), Rotr(x, 18), Shfr(x, 3)) && F4(x) == Xor3(Rotr(x, 17), Rotr(x, 19), Shfr(x, 10))
  {
    hide Rotr, Shfr;
  }

  /** The rotations and shifts that occur, bit by bit. */
  lemma Rotr2Bits(x: bv32, i: bv32)
    requires i < 32
    ensures Bit(Rotr(x, 2), i) == Bit(x, i + 2)
  {
  }

  lemma Rotr13Bits(x: bv32, i: bv32)
    requires i < 32
    ensures Bit(Rotr(x, 13), i) == Bit(x, i + 13)
  {
  }

  lemma Rotr22Bits(x: bv32, i: bv32)
    requires i < 32
    ensures Bit(Rotr(x, 22), i) == Bit(x, i + 22)
  {
  }

  lemma Rotr6Bits(x: bv32, i: bv32)
    requires i < 32
    ensures Bit(Rotr(x, 6), i) == Bit(x, i + 6)
  {
  }

  lemma Rotr11Bits(x: bv32, i: bv32)
    requires i < 32
    ensures Bit(Rotr(x, 11), i) == Bit(x, i + 11)
  {
  }

  lemma Rotr25Bits(x: bv32, i: bv32)
    requires i < 32
    ensures Bit(Rotr(x, 25), i) == Bit(x, i + 25)
  {
  }

  lemma Rotr7Bits(x: bv32, i: bv32)
    requires i < 32
    ensures Bit(Rotr(x, 7), i) == Bit(x, i + 7)
  {
  }

  lemma Rotr18Bits(x: bv32, i: bv32)
    requires i < 32
    ensures Bit(Rotr(x, 18), i) == Bit(x, i + 18)
  {
  }

  lemma Rotr17Bits(x: bv32, i: bv32)
    requires i < 32
    ensures Bit(Rotr(x, 17), i) == Bit(x, i + 17)
  {
  }

  lemma Rotr19Bits(x: bv32, i: bv32)
    requires i < 32
    ensures Bit(Rotr(x, 19), i) == Bit(x, i + 19)
  {
  }

  lemma Shfr3Bits(x: bv32, i: bv32)
    requires i < 32
    ensures Bit(Shfr(x, 3), i) == (i < 29 && Bit(x, i + 3))
  {
  }

  lemma Shfr10Bits(x: bv32, i: bv32)
    requires i < 32
    ensures Bit(Shfr(x, 10), i) == (i < 22 && Bit(x, i + 10))
  {
  }

  /** The four functions: every bit is the exclusive or of three bits of the word. */
  lemma F1Bits(x: bv32, i: bv32)
    requires i < 32
    ensures Bit(F1(x), i) == Xor(Bit(x, i + 2), Bit(x, i + 13), Bit(x, i + 22))
  {
    hide Rotr, Shfr, Bit, Xor, Xor3, F1;
    AreXors(x);
    Rotr2Bits(x, i);
    Rotr13Bits(x, i);
    Rotr22Bits(x, i);
    Xor3Bits(Rotr(x, 2), Rotr(x, 13), Rotr(x, 22), i);
  }

  lemma F2Bits(x: bv32, i: bv32)
    requires i < 32
    ensures Bit(F2(x), i) == Xor(Bit(x, i + 6), Bit(x, i + 11), Bit(x, i + 25))
  {
    hide Rotr, Shfr, Bit, Xor, Xor3, F2;
    AreXors(x);
    Rotr6Bits(x, i);
    Rotr11Bits(x, i);
    Rotr25Bits(x, i);
    Xor3Bits(Rotr(x, 6), Rotr(x, 11), Rotr(x, 25), i);
  }

  lemma F3Bits(x: bv32, i: bv32)
    requires i < 32
    ensures Bit(F3(x), i) == Xor(Bit(x, i + 7), Bit(x, i + 18), i < 29 && Bit(x, i + 3))
  {
    hide Rotr, Shfr, Bit, Xor, Xor3, F3;
    AreXors(x);
    Rotr7Bits(x, i);
    Rotr18Bits(x, i);
    Shfr3Bits(x, i);
    Xor3Bits(Rotr(x, 7), Rotr(x, 18), Shfr(x, 3), i);
  }

  lemma F4Bits(x: bv32, i: bv32)
    requires i < 32
    ensures Bit(F4(x), i) == Xor(Bit(x, i + 17), Bit(x, i + 19), i < 22 && Bit(x, i + 10))
  {
    hide Rotr, Shfr, Bit, Xor, Xor3, F4;
    AreXors(x);
    Rotr17Bits(x, i);
    Rotr19Bits(x, i);
    Shfr10Bits(x, i);
    Xor3Bits(Rotr(x, 17), Rotr(x, 19), Shfr(x, 10), i);
  }

  /** The first 64 primes. */
  const PRIMES: seq<nat> := [
    2, 3, 5, 7, 11, 13, 17, 19, 23, 29, 31, 37, 41, 43, 47, 53] + [
    59, 61, 67, 71, 73, 79, 83, 89, 97, 101, 103, 107, 109, 113, 127, 131] + [
    137, 139, 149, 151, 157, 163, 167, 173, 179, 181, 191, 193, 197, 199, 211, 223] + [
    227, 229, 233, 239, 241, 251, 257, 263, 269, 271, 277, 281, 283, 293, 307, 311]

  /** Whole part of the cube root, for numbers below 343. */
  function CubeFloor(p: nat): nat {
    if p < 8 then 1 else if p < 27 then 2 else if p < 64 then 3 else if p < 125 then 4 else if p < 216 then 5 else 6
  }

  /** With its whole part before them, k is the first 32 bits of the fractional part of the cube root of p. */
  ghost predicate CubeRootBits(p: nat, k: nat) {
    var v := CubeFloor(p) * 0x1_0000_0000 + k;
    v * v * v <= p * 0x1_0000_0000_0000_0000_0000_0000 < (v + 1) * (v + 1) * (v + 1)
  }

  lemma CubeRoots0(t: nat)
    requires 0 <= t < 8
    ensures CubeRootBits(PRIMES[t], K256[t] as nat)
  {
    assert t == 0 || t == 1 || t == 2 || t == 3 || t == 4 || t == 5 || t == 6 || t == 7;
  }

  lemma CubeRoots1(t: nat)
    requires 8 <= t < 16
    ensures CubeRootBits(PRIMES[t], K256[t] as nat)
  {
    assert t == 8 || t == 9 || t == 10 || t == 11 || t == 12 || t == 13 || t == 14 || t == 15;
  }

  lemma CubeRoots2(t: nat)
    requires 16 <= t < 24
    ensures CubeRootBits(PRIMES[t], K256[t] as nat)
  {
    assert t == 16 || t == 17 || t == 18 || t == 19 || t == 20 || t == 21 || t == 22 || t == 23;
  }

  lemma CubeRoots3(t: nat)
    requires 24 <= t < 32
    ensures CubeRootBits(PRIMES[t], K256[t] as nat)
  {
    assert t == 24 || t == 25 || t == 26 || t == 27 || t == 28 || t == 29 || t == 30 || t == 31;
  }

  lemma CubeRoots4(t: nat)
    requires 32 <= t < 40
    ensures CubeRootBits(PRIMES[t], K256[t] as nat)
  {
    assert t == 32 || t == 33 || t == 34 || t == 35 || t == 36 || t == 37 || t == 38 || t == 39;
  }

  lemma CubeRoots5(t: nat)
    requires 40 <= t < 48
    ensures CubeRootBits(PRIMES[t], K256[t] as nat)
  {
    assert t == 40 || t == 41 || t == 42 || t == 43 || t == 44 || t == 45 || t == 46 || t == 47;
  }

  lemma CubeRoots6(t: nat)
    requires 48 <= t < 56
    ensures CubeRootBits(PRIMES[t], K256[t] as nat)
  {
    assert t == 48 || t == 49 || t == 50 || t == 51 || t == 52 || t == 53 || t == 54 || t == 55;
  }

  lemma CubeRoots7(t: nat)
    requires 56 <= t < 64
    ensures CubeRootBits(PRIMES[t], K256[t] as nat)
  {
    assert t == 56 || t == 57 || t == 58 || t == 59 || t == 60 || t == 61 || t == 62 || t == 63;
  }

  /** The round constants: the first 32 bits of the fractional parts of the cube roots of the first 64 primes. */
  lemma KIsCubeRoot(t: nat)
    requires t < 64
    ensures var v := CubeFloor(PRIMES[t]) * 0x1_0000_0000 + K256[t] as nat;
      v * v * v <= PRIMES[t] * 0x1_0000_0000_0000_0000_0000_0000 < (v + 1) * (v + 1) * (v + 1)
  {
    hide PRIMES, K256, CubeFloor;
    if t < 32 {
      if t < 8 {
        CubeRoots0(t);
      } else if t < 16 {
        CubeRoots1(t);
      } else if t < 24 {
        CubeRoots2(t);
      } else {
        CubeRoots3(t);
      }
    } else {
      if t < 40 {
        CubeRoots4(t);
      } else if t < 48 {
        CubeRoots5(t);
      } else if t < 56 {
        CubeRoots6(t);
      } else {
        CubeRoots7(t);
      }
    }
  }

  /** SHA-256 starts from the first 32 bits of the fractional parts of the square roots of the first 8 primes. */
  lemma H256IsSquareRoot(i: nat)
    requires i < 8
    ensures var v := SquareFloor(PRIMES[i]) * 0x1_0000_0000 + H256[i] as nat;
      v * v <= PRIMES[i] * 0x1_0000_0000_0000_0000 < (v + 1) * (v + 1)
  {
  }

  /** Whole part of the square root, for numbers below 64. */
  function SquareFloor(p: nat): nat {
    if p < 4 then 1 else if p < 9 then 2 else if p < 16 then 3 else if p < 25 then 4 else if p < 36 then 5
    else if p < 49 then 6 else 7
  }

  /** The first 32 bits of these roots for the next 8 primes. */
  const SKIPPED: seq<nat> := [
    0xcbbb_9d5d, 0x629a_292a, 0x9159_015a, 0x152f_ecd8, 0x6733_2667, 0x8eb4_4a87, 0xdb0c_2e0d, 0x47b5_481d]

  /** SHA-224 starts from the second 32 bits of the fractional parts of the square roots of the next 8 primes. */
  lemma H224IsSquareRoot(i: nat)
    requires i < 8
    ensures SKIPPED[i] < 0x1_0000_0000
    ensures var v := (SquareFloor(PRIMES[8 + i]) * 0x1_0000_0000 + SKIPPED[i]) * 0x1_0000_0000 + H224[i] as nat;
      v * v <= PRIMES[8 + i] * 0x1_0000_0000_0000_0000_0000_0000_0000_0000 < (v + 1) * (v + 1)
  {
  }

  /** A word holds its four bytes, the first one highest. */
  lemma Pack32Bytes(b: seq<Byte>)
    requires |b| == 4
    ensures var w := Pack32(b);
      && (w >> 24) & 0xff == b[0] as bv32 && (w >> 16) & 0xff == b[1] as bv32
      && (w >> 8) & 0xff == b[2] as bv32 && w & 0xff == b[3] as bv32
  {
  }

  /** The message schedule of section 6.2.2 for a block of bytes. */
  ghost predicate IsSchedule(block: seq<Byte>, w: seq<bv32>)
    requires |block| == 64 && |w| == 64
  {
    && (forall t :: 0 <= t < 16 ==> w[t] == Pack32([block[4 * t], block[4 * t + 1], block[4 * t + 2], block[4 * t + 3]]))
    && (forall t :: 16 <= t < 64 ==> w[t] == Add(Add(Add(F4(w[t - 2]), w[t - 7]), F3(w[t - 15])), w[t - 16]))
  }

  /**
   * The rounds as two shift registers: x and y hold what the variables a and e have been, x[t + 3] and y[t + 3] after t
   * rounds, and before them what b, c, d and f, g, h were.
   */
  ghost predicate IsRun(x: seq<bv32>, y: seq<bv32>, w: seq<bv32>)
    requires |x| == |y| == 68 && |w| == 64
  {
    forall t :: 0 <= t < 64 ==>
      var t1 := Add(Add(Add(Add(y[t], F2(y[t + 3])), Ch(y[t + 3], y[t + 2], y[t + 1])), K256[t]), w[t]);
      y[t + 4] == Add(x[t], t1) && x[t + 4] == Add(t1, Add(F1(x[t + 3]), Maj(x[t + 3], x[t + 2], x[t + 1])))
  }

  function After(x: seq<bv32>, y: seq<bv32>, t: nat): Work<bv32>
    requires |x| == |y| == 68 && t <= 64
  {
    Work(x[t + 3], x[t + 2], x[t + 1], x[t], y[t + 3], y[t + 2], y[t + 1], y[t])
  }

  lemma OneRound(x: seq<bv32>, y: seq<bv32>, w: seq<bv32>, t: nat)
    requires |x| == |y| == 68 && |w| == 64 && IsRun(x, y, w) && t < 64
    ensures Round(OPS, After(x, y, t), K256[t], w[t]) == After(x, y, t + 1)
  {
    hide Add, F1, F2, Ch, Maj, K256;
  }

  lemma AddIs(x: bv32, y: bv32)
    ensures Add(x, y) == x + y
  {
  }

  lemma {:induction false} ScheduleIs(block: seq<Byte>, w: seq<bv32>, t: nat)
    requires |block| == 64 && |w| == 64 && IsSchedule(block, w) && t < 64
    ensures Schedule(OPS, BlockWords(block), t) == w[t]
  {
    hide Add, F3, F4, Pack32, K256;
    if t >= 16 {
      ScheduleIs(block, w, t - 2);
      ScheduleIs(block, w, t - 7);
      ScheduleIs(block, w, t - 15);
      ScheduleIs(block, w, t - 16);
    } else {
      assert block[4 * t..4 * t + 4] == [block[4 * t], block[4 * t + 1], block[4 * t + 2], block[4 * t + 3]];
    }
  }

  lemma {:induction false} RoundsAre(block: seq<Byte>, w: seq<bv32>, x: seq<bv32>, y: seq<bv32>, n: nat)
    requires |block| == 64 && |w| == 64 && IsSchedule(block, w) && |x| == |y| == 68 && IsRun(x, y, w) && n <= 64
    ensures |OPS.k| == 64 && Rounds(OPS, BlockWords(block), After(x, y, 0), n) == After(x, y, n)
  {
    SixtyFour();
    hide Add, BlockWords, Schedule, Round, After, IsRun, IsSchedule, K256;
    if n > 0 {
      RoundsAre(block, w, x, y, n - 1);
      ScheduleIs(block, w, n - 1);
      OneRound(x, y, w, n - 1);
    }
  }

  lemma SixtyFour()
    ensures |K256| == 64
  {
  }

  /** The compression function is that of section 6.2.2, for every hash and every block. */
  lemma CompressIs(h: Hash, block: seq<Byte>, w: seq<bv32>, x: seq<bv32>, y: seq<bv32>)
    requires |h| == 8 && |block| == 64 && |w| == 64 && IsSchedule(block, w) && |x| == |y| == 68 && IsRun(x, y, w)
    requires x[..4] == [h[3], h[2], h[1], h[0]] && y[..4] == [h[7], h[6], h[5], h[4]]
    ensures Compress(h, block) == [
      Add(h[0], x[67]), Add(h[1], x[66]), Add(h[2], x[65]), Add(h[3], x[64]),
      Add(h[4], y[67]), Add(h[5], y[66]), Add(h[6], y[65]), Add(h[7], y[64])]
  {
    hide BlockWords, Rounds, Add, IsRun, IsSchedule, F1, F2, F3, F4, Ch, Maj, K256;
    RoundsAre(block, w, x, y, 64);
    assert x[0] == x[..4][0] && x[1] == x[..4][1] && x[2] == x[..4][2] && x[3] == x[..4][3];
    assert y[0] == y[..4][0] && y[1] == y[..4][1] && y[2] == y[..4][2] && y[3] == y[..4][3];
    assert AsWork(h) == After(x, y, 0);
  }

  /** The number that bytes stand for, the first one highest. */
  function Number(b: seq<Byte>): nat {
    if b == [] then 0 else b[0] as nat * Pow2(8 * (|b| - 1)) + Number(b[1..])
  }

  lemma {:induction false} NumberSnoc(b: seq<Byte>, x: Byte)
    ensures Number(b + [x]) == 256 * Number(b) + x
  {
    assert Pow2(0) == 1;
    if b != [] {
      NumberSnoc(b[1..], x);
      assert (b + [x])[1..] == b[1..] + [x];
      var k := |b| - 1;
      assert Pow2(8) == 256;
      Pow2Add(8 * k, 8);
      assert b[0] as nat * (Pow2(8 * k) * 256) == 256 * (b[0] as nat * Pow2(8 * k));
    }
  }

  /** The length of a message and the words of a digest are written highest byte first. */
  lemma {:induction false} BigEndianNumber(v: nat, n: nat)
    requires v < Pow2(8 * n)
    ensures |BigEndian(v, n)| == n && Number(BigEndian(v, n)) == v
  {
    if n > 0 {
      assert Pow2(8) == 256;
      Pow2Add(8 * (n - 1), 8);
      BigEndianNumber(v / 256, n - 1);
      NumberSnoc(BigEndian(v / 256, n - 1), v % 256);
    } else {
      assert Pow2(0) == 1;
    }
  }

  lemma PartsOf(front: seq<Byte>, last: seq<Byte>, i: nat, j: nat)
    requires i <= j <= |front|
    ensures (front + last)[i..j] == front[i..j] && (front + last)[|front|..|front| + |last|] == last
  {
  }

  lemma {:induction false} DigestBytes(h: Hash, n: nat, i: nat)
    requires i < n <= |h|
    ensures |Bytes(h, n)| == 4 * n && Number(Bytes(h, n)[4 * i..4 * i + 4]) == h[i] as nat
  {
    hide Number, BigEndian;
    var front, last := Bytes(h, n - 1), BigEndian(h[n - 1] as nat, 4);
    assert Bytes(h, n) == front + last;
    if i < n - 1 {
      DigestBytes(h, n - 1, i);
      PartsOf(front, last, 4 * i, 4 * i + 4);
    } else {
      PartsOf(front, last, 0, 0);
      Pow2Word();
      BigEndianNumber(h[i] as nat, 4);
    }
  }

  /**
   * Section 5.1: a one bit, as few zero bits as fill up a block with what follows, and the length in bits. The length
   * of any message fits its field.
   */
  lemma PaddingIs(n: nat, size: nat, field: nat)
    requires ShapeOk(size, field) && 8 * n < Pow2(8 * field)
    ensures var q := Padding(n, size, field);
      && 1 + field <= |q| <= size + field && (n + |q|) % size == 0
      && q[0] == 0x80 && (forall i :: 1 <= i < |q| - field ==> q[i] == 0)
      && Number(q[|q| - field..]) == 8 * n
  {
    hide Pow2, Number, BigEndian, Gap;
    GapFills(n, size, field);
    BigEndianNumber(8 * n, field);
    var q := Padding(n, size, field);
    assert q[|q| - field..] == BigEndian(8 * n, field);
  }
}
