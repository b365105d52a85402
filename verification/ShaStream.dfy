/** The SHA-2 contexts: a message in pieces, cut into blocks, padded and folded with a compression function (apiSHA.c). */
module ShaStream {

  import opened Arith
  import opened Lz77
  import opened Pieces

  /** Block size and length field, in bytes: 64 and 8 for SHA-224 and SHA-256, 128 and 16 for SHA-384 and SHA-512. */
  ghost predicate ShapeOk(size: nat, field: nat) {
    (size == 64 && field == 8) || (size == 128 && field == 16)
  }

  /** The compression function folded over the blocks of m. */
  ghost function Fold<H>(compress: (H, seq<Byte>) -> H, size: nat, h: H, m: seq<Byte>): H
    requires size > 0
  {
    if |m| < size then h
    else
      var rest := |m| - size;
      compress(Fold(compress, size, h, m[..rest]), m[rest..])
  }

  lemma {:induction false} FoldConcat<H>(compress: (H, seq<Byte>) -> H, size: nat, h: H, x: seq<Byte>, y: seq<Byte>)
    requires size > 0 && |x| % size == 0 && |y| % size == 0
    ensures Fold(compress, size, h, x + y) == Fold(compress, size, Fold(compress, size, h, x), y)
    decreases |y|
  {
    if |y| < size {
      SmallMultiple(|y|, size);
      assert x + y == x;
    } else {
      var rest := |y| - size;
      LessOne(|y|, size);
      assert (x + y)[..|x + y| - size] == x + y[..rest] && (x + y)[|x + y| - size..] == y[rest..];
      FoldConcat(compress, size, h, x, y[..rest]);
    }
  }

  lemma SmallMultiple(n: nat, size: nat)
    requires size > 0 && n % size == 0 && n < size
    ensures n == 0
  {
    DivUnique(n, size, 0, n);
  }

  lemma LessOne(n: nat, size: nat)
    requires size > 0 && n >= size
    ensures (n - size) % size == n % size
  {
    Decompose(n, size);
    Pred(n / size, size);
    DivUnique(n - size, size, n / size - 1, n % size);
  }

  /** The n lowest bytes of v, highest first. */
  function BigEndian(v: nat, n: nat): (b: seq<Byte>)
    ensures |b| == n
  {
    if n == 0 then [] else BigEndian(v / 256, n - 1) + [v % 256]
  }

  /** How many zero bytes go between the 0x80 and the length: as few as fill up a block. */
  function Gap(n: nat, size: nat, field: nat): nat
    requires field + 1 < size
  {
    var r := n % size;
    if r < size - field then size - field - 1 - r else 2 * size - field - 1 - r
  }

  /** Section 5.1 of FIPS 180-2: a one bit, zero bits, and the length in bits as a number of that many bytes. */
  function Padding(n: nat, size: nat, field: nat): seq<Byte>
    requires field + 1 < size
  {
    [0x80] + Zeroes(Gap(n, size, field)) + BigEndian(8 * n, field)
  }

  /** What the code appends: only the lowest four bytes of the length are ever set. */
  function Appended(n: nat, size: nat, field: nat): seq<Byte>
    requires 4 <= field && field + 1 < size
  {
    [0x80] + Zeroes(Gap(n, size, field) + field - 4) + BigEndian(8 * n, 4)
  }

  /** The gap is the least that makes whole blocks. */
  lemma GapFills(n: nat, size: nat, field: nat)
    requires ShapeOk(size, field)
    ensures (n + 1 + Gap(n, size, field) + field) % size == 0 && Gap(n, size, field) < size
  {
  }

  lemma FourBytes(v: nat, n: nat)
    requires n >= 5
    ensures BigEndian(v, n) == BigEndian(v / 0x1_0000_0000, n - 4) + BigEndian(v, 4)
    ensures v < 0x1_0000_0000 ==> BigEndian(v, n) == Zeroes(n - 4) + BigEndian(v, 4)
  {
    var a, b, c := v / 256, v / 256 / 256, v / 256 / 256 / 256;
    assert c / 256 == v / 0x1_0000_0000;
    assert BigEndian(v, n) == BigEndian(a, n - 1) + [v % 256];
    assert BigEndian(a, n - 1) == BigEndian(b, n - 2) + [a % 256];
    assert BigEndian(b, n - 2) == BigEndian(c, n - 3) + [b % 256];
    assert BigEndian(c, n - 3) == BigEndian(c / 256, n - 4) + [c % 256];
    assert BigEndian(v, 4) == BigEndian(a, 3) + [v % 256];
    assert BigEndian(a, 3) == BigEndian(b, 2) + [a % 256];
    assert BigEndian(b, 2) == BigEndian(c, 1) + [b % 256];
    assert BigEndian(c, 1) == BigEndian(c / 256, 0) + [c % 256];
    if v < 0x1_0000_0000 {
      ZeroBytes(n - 4);
    }
  }

  lemma {:induction false} ZeroBytes(n: nat)
    ensures BigEndian(0, n) == Zeroes(n)
  {
    if n > 0 {
      ZeroBytes(n - 1);
    }
  }

  /** A number has only zero bytes exactly when it is zero. */
  lemma {:induction false} OnlyZero(v: nat, n: nat)
    requires v < Pow2(8 * n) && BigEndian(v, n) == Zeroes(n)
    ensures v == 0
  {
    if n > 0 {
      var b := BigEndian(v, n);
      assert b[n - 1] == v % 256 == 0;
      assert BigEndian(v / 256, n - 1) == b[..n - 1] == Zeroes(n - 1);
      Pow2Add(8, 8 * (n - 1));
      assert Pow2(8) == 256;
      OnlyZero(v / 256, n - 1);
    }
  }

  /**
   * For messages whose length the standard can express, what is appended is the padding of the standard exactly when
   * the length in bits fits into 32 of them.
   */
  lemma AppendedIsPadding(n: nat, size: nat, field: nat)
    requires ShapeOk(size, field) && 8 * n < Pow2(8 * field)
    ensures Appended(n, size, field) == Padding(n, size, field) <==> 8 * n < 0x1_0000_0000
  {
    hide Pow2;
    var gap := Gap(n, size, field);
    FourBytes(8 * n, field);
    var high := BigEndian(8 * n / 0x1_0000_0000, field - 4);
    if 8 * n < 0x1_0000_0000 {
      assert Zeroes(gap) + Zeroes(field - 4) == Zeroes(gap + field - 4);
    } else if Appended(n, size, field) == Padding(n, size, field) {
      var a, p := Appended(n, size, field), Padding(n, size, field);
      forall i | 0 <= i < field - 4
        ensures high[i] == 0
      {
        assert p[1 + gap + i] == high[i] && a[1 + gap + i] == 0;
      }
      assert high == Zeroes(field - 4);
      HighFits(n, field);
      OnlyZero(8 * n / 0x1_0000_0000, field - 4);
    }
  }

  lemma HighFits(n: nat, field: nat)
    requires field >= 4 && 8 * n < Pow2(8 * field)
    ensures 8 * n / 0x1_0000_0000 < Pow2(8 * (field - 4))
  {
    var p := Pow2(8 * (field - 4));
    Pow2Word();
    Pow2Add(32, 8 * (field - 4));
    Decompose(8 * n, 0x1_0000_0000);
    MulCancelLt(8 * n / 0x1_0000_0000, p, 0x1_0000_0000);
  }

  /**
   * The context: the hash so far, a buffer of two blocks with len bytes that are not hashed yet, and the count of
   * hashed bytes. msg is everything that the context has been given.
   */
  class ShaContext<H> {
    const size: nat
    const field: nat
    const compress: (H, seq<Byte>) -> H
    const h0: H
    const block: array<Byte>
    var h: H
    var len: nat
    var totLen: Word
    ghost var msg: seq<Byte>

    /** What has been hashed. */
    ghost function Hashed(): nat
      reads `len, `msg
    {
      if len <= |msg| then |msg| - len else 0
    }

    ghost predicate Valid()
      reads this, block
    {
      && ShapeOk(size, field) && block.Length == 2 * size && len < size && len <= |msg|
      && Hashed() % size == 0 && totLen == Hashed() % 0x1_0000_0000
      && block[..len] == msg[Hashed()..]
      && h == Fold(compress, size, h0, msg[..Hashed()])
    }

    /** sha256_init and the like. */
    constructor (size: nat, field: nat, compress: (H, seq<Byte>) -> H, h0: H)
      requires ShapeOk(size, field)
      ensures Valid() && msg == [] && fresh(block)
      ensures this.size == size && this.field == field && this.compress == compress && this.h0 == h0
    {
      this.size, this.field, this.compress, this.h0 := size, field, compress, h0;
      block := new Byte[2 * size];
      h, len, totLen, msg := h0, 0, 0, [];
    }

    /** Hashes the first blockNb blocks of m: the loop of sha256_transf. */
    method Transf(m: seq<Byte>, blockNb: nat)
      requires size > 0 && blockNb * size <= |m|
      modifies `h
      ensures h == Fold(compress, size, old(h), m[..blockNb * size])
    {
      hide Fold;
      ghost var start := h;
      FoldNone(compress, size, start);
      ZeroTimes(0, size);
      assert m[..0] == [];
      var i := 0;
      while i < blockNb
        invariant i <= blockNb && i * size <= |m| && h == Fold(compress, size, start, m[..i * size])
      {
        MulLe(i + 1, blockNb, size);
        MulDist(i, 1, size);
        h := compress(h, m[i * size..(i + 1) * size]);
        FoldNext(compress, size, start, m[..i * size], m[i * size..(i + 1) * size], i);
        assert m[..(i + 1) * size] == m[..i * size] + m[i * size..(i + 1) * size];
        i := i + 1;
      }
    }

    /** memcpy into the buffer. */
    method CopyIn(m: seq<Byte>, at: nat)
      requires at + |m| <= block.Length
      modifies block
      ensures block[..at + |m|] == old(block[..at]) + m
    {
      var i := 0;
      while i < |m|
        invariant i <= |m| && block[..at + i] == old(block[..at]) + m[..i]
      {
        ghost var before := block[..at + i];
        block[at + i] := m[i];
        assert block[..at + i] == before;
        i := i + 1;
      }
    }

    lemma BufferIsSmall()
      requires Valid()
      ensures len < 128 && ShapeOk(size, field)
    {
    }

    /** sha256_update: fills up the buffer, hashes it and the whole blocks that follow, and keeps what is left. */
    method Update(m: seq<Byte>)
      requires Valid() && len + |m| < 0x1_0000_0000
      modifies this, block
      ensures Valid() && msg == old(msg) + m
    {
      hide Fold;
      ghost var hashed, tail, before := msg[..Hashed()], block[..len], msg;
      assert before == hashed + tail;
      var tmpLen := size - len;
      var remLen := if |m| < tmpLen then |m| else tmpLen;
      CopyIn(m[..remLen], len);
      msg := msg + m;
      if len + |m| < size {
        assert m[..remLen] == m;
        len := len + |m|;
        SameHashed(hashed, tail, m);
        return;
      }
      var newLen := |m| - remLen;
      var blockNb := newLen / size;
      var shifted := m[remLen..];
      DivBounds(newLen, size);
      Decompose(newLen, size);
      ghost var b := tail + m[..remLen];
      ghost var whole := shifted[..blockNb * size];
      assert block[..size] == b && b[..1 * size] == b;
      Transf(block[..size], 1);
      Transf(shifted, blockNb);
      remLen := newLen % size;
      Refill(hashed, b, whole, shifted[blockNb * size..], remLen, blockNb);
      Regrouped(hashed, tail, m, |m| - newLen, blockNb * size);
    }

    /** The end of an update: what is left goes to the buffer, and the count goes up. */
    method Refill(ghost hashed: seq<Byte>, ghost b: seq<Byte>, ghost whole: seq<Byte>, left: seq<Byte>, remLen: nat, blockNb: nat)
      requires ShapeOk(size, field) && block.Length == 2 * size && remLen == |left| < size
      requires |hashed| % size == 0 && |b| == size && |whole| == blockNb * size && totLen == |hashed| % 0x1_0000_0000
      requires h == Fold(compress, size, Fold(compress, size, Fold(compress, size, h0, hashed), b), whole)
      requires msg == hashed + b + whole + left
      modifies `len, `totLen, block
      ensures Valid()
    {
      hide Fold;
      CopyIn(left, 0);
      len := remLen;
      Multiple(1, size);
      Multiple(blockNb, size);
      FoldConcat(compress, size, h0, hashed, b);
      BothMultiples(|hashed|, size, size);
      FoldConcat(compress, size, h0, hashed + b, whole);
      BothMultiples(|hashed + b|, |whole|, size);
      MulDist(blockNb, 1, size);
      CountUp(|hashed|, (blockNb + 1) * size);
      totLen := (totLen + (blockNb + 1) * size) % 0x1_0000_0000;
      assert msg[..Hashed()] == hashed + b + whole && msg[Hashed()..] == left;
      assert block[..len] == left;
    }

    /** Nothing more is hashed when the buffer is not full. */
    lemma SameHashed(hashed: seq<Byte>, tail: seq<Byte>, m: seq<Byte>)
      requires msg == hashed + tail + m && len == |tail| + |m|
      ensures Hashed() == |hashed| && msg[..Hashed()] == hashed && msg[Hashed()..] == tail + m
    {
    }

    /**
     * sha256_final: pads the buffer to one block or two and hashes that. The digest is that of the message with what
     * the code appends to it.
     */
    method Final() returns (digest: H)
      requires Valid()
      modifies this, block
      ensures digest == Fold(compress, size, h0, msg + Appended(|msg|, size, field))
      ensures msg == old(msg)
    {
      hide Fold, BigEndian, Zeroes, Appended, Gap;
      ghost var hashed, tail := msg[..Hashed()], block[..len];
      assert msg == hashed + tail;
      LowPart(|msg|, |hashed|, len, size);
      var blockNb := 1 + if size - (field + 1) < len % size then 1 else 0;
      var lenB := ((totLen + len) % 0x1_0000_0000 * 8) % 0x1_0000_0000;
      LengthField(|hashed|, len, totLen);
      var pmLen := blockNb * size;
      Padded(tail, |msg|, size, field, blockNb, lenB);
      Fill(pmLen, lenB);
      ghost var padded := tail + Appended(|msg|, size, field);
      HashPadded(hashed, padded, blockNb);
      assert hashed + padded == msg + Appended(|msg|, size, field);
      digest := h;
    }

    method HashPadded(ghost hashed: seq<Byte>, ghost padded: seq<Byte>, blockNb: nat)
      requires size > 0 && |hashed| % size == 0 && h == Fold(compress, size, h0, hashed)
      requires blockNb * size <= block.Length && block[..blockNb * size] == padded
      modifies `h
      ensures h == Fold(compress, size, h0, hashed + padded)
    {
      hide Fold;
      assert block[..blockNb * size][..blockNb * size] == padded;
      Transf(block[..blockNb * size], blockNb);
      Multiple(blockNb, size);
      FoldConcat(compress, size, h0, hashed, padded);
    }

    /** memset, the 0x80, and UNPACK32 of the length. */
    method Fill(pmLen: nat, lenB: Word)
      requires len + 5 <= pmLen <= block.Length
      modifies block
      ensures block[..pmLen] == old(block[..len]) + [0x80] + Zeroes(pmLen - len - 5) + BigEndian(lenB, 4)
    {
      ghost var tail := block[..len];
      var i := len;
      while i < pmLen
        invariant len <= i <= pmLen && block[..i] == tail + Zeroes(i - len)
      {
        block[i] := 0;
        assert block[..i + 1] == block[..i] + [0];
        i := i + 1;
      }
      block[len] := 0x80;
      var b := BigEndian(lenB, 4);
      block[pmLen - 4], block[pmLen - 3], block[pmLen - 2], block[pmLen - 1] := b[0], b[1], b[2], b[3];
    }
  }

  lemma FoldNone<H>(compress: (H, seq<Byte>) -> H, size: nat, h: H)
    requires size > 0
    ensures Fold(compress, size, h, []) == h
  {
  }

  lemma FoldNext<H>(compress: (H, seq<Byte>) -> H, size: nat, h: H, m: seq<Byte>, b: seq<Byte>, i: nat)
    requires size > 0 && |m| == i * size && |b| == size
    ensures Fold(compress, size, h, m + b) == compress(Fold(compress, size, h, m), b)
  {
    assert (m + b)[..|m + b| - size] == m && (m + b)[|m + b| - size..] == b;
  }

  lemma Multiple(n: nat, size: nat)
    requires size > 0
    ensures (n * size) % size == 0
  {
    DivUnique(n * size, size, n, 0);
  }

  lemma BothMultiples(x: nat, y: nat, size: nat)
    requires size > 0 && x % size == 0 && y % size == 0
    ensures (x + y) % size == 0
  {
    Decompose(x, size);
    Decompose(y, size);
    MulDist(x / size, y / size, size);
    DivUnique(x + y, size, x / size + y / size, 0);
  }

  lemma CountUp(n: nat, k: nat)
    ensures (n % 0x1_0000_0000 + k) % 0x1_0000_0000 == (n + k) % 0x1_0000_0000
  {
  }

  lemma LowPart(n: nat, hashed: nat, len: nat, size: nat)
    requires size > 0 && n == hashed + len && hashed % size == 0 && len < size
    ensures n % size == len && len % size == len
  {
    Decompose(hashed, size);
    DivUnique(n, size, hashed / size, len);
    DivUnique(len, size, 0, len);
  }

  /** The pieces of an update in the order of the message. */
  lemma Regrouped(hashed: seq<Byte>, tail: seq<Byte>, m: seq<Byte>, rem: nat, k: nat)
    requires rem + k <= |m|
    ensures hashed + (tail + m[..rem]) + m[rem..][..k] + m[rem..][k..] == hashed + tail + m
  {
    assert m == m[..rem] + m[rem..] && m[rem..] == m[rem..][..k] + m[rem..][k..];
  }

  /** The length that the code computes has the right lowest four bytes. */
  lemma LengthField(hashed: nat, len: nat, totLen: Word)
    requires totLen == hashed % 0x1_0000_0000
    ensures BigEndian(((totLen + len) % 0x1_0000_0000 * 8) % 0x1_0000_0000, 4) == BigEndian(8 * (hashed + len), 4)
  {
    hide BigEndian;
    EightTimes(hashed, len, totLen);
    LowWord(8 * (hashed + len));
  }

  lemma EightTimes(hashed: nat, len: nat, t: nat)
    requires t == hashed % 0x1_0000_0000
    ensures ((t + len) % 0x1_0000_0000 * 8) % 0x1_0000_0000 == (8 * (hashed + len)) % 0x1_0000_0000
  {
    CountUp(hashed, len);
    TimesEight(hashed + len);
  }

  lemma TimesEight(n: nat)
    ensures (n % 0x1_0000_0000 * 8) % 0x1_0000_0000 == (8 * n) % 0x1_0000_0000
  {
    var q, r := n / 0x1_0000_0000, n % 0x1_0000_0000;
    assert n == q * 0x1_0000_0000 + r;
    WholeWords(8 * r, 8 * q);
  }

  lemma WholeWords(r: nat, q: nat)
    ensures (q * 0x1_0000_0000 + r) % 0x1_0000_0000 == r % 0x1_0000_0000
  {
  }

  lemma LowWord(v: nat)
    ensures BigEndian(v % 0x1_0000_0000, 4) == BigEndian(v, 4)
  {
    hide BigEndian;
    FourLow(v);
    FourLow(v % 0x1_0000_0000);
    LowBytes(v, v / 0x1_0000_0000, v % 0x1_0000_0000);
  }

  lemma LowBytes(v: nat, q: nat, w: nat)
    requires v == q * 0x1_0000_0000 + w
    ensures v % 256 == w % 256 && v / 256 % 256 == w / 256 % 256
    ensures v / 0x1_0000 % 256 == w / 0x1_0000 % 256 && v / 0x100_0000 % 256 == w / 0x100_0000 % 256
  {
    assert v / 256 == q * 0x100_0000 + w / 256;
    assert v / 0x1_0000 == q * 0x1_0000 + w / 0x1_0000;
    assert v / 0x100_0000 == q * 256 + w / 0x100_0000;
  }

  lemma FourLow(v: nat)
    ensures BigEndian(v, 4) == [v / 0x100_0000 % 256, v / 0x1_0000 % 256, v / 256 % 256, v % 256]
  {
    var a, b, c := v / 256, v / 256 / 256, v / 256 / 256 / 256;
    assert BigEndian(v, 4) == BigEndian(a, 3) + [v % 256];
    assert BigEndian(a, 3) == BigEndian(b, 2) + [a % 256];
    assert BigEndian(b, 2) == BigEndian(c, 1) + [b % 256];
    assert BigEndian(c, 1) == BigEndian(c / 256, 0) + [c % 256];
  }

  /** One block if the length still fits behind the message, else two. */
  lemma Padded(tail: seq<Byte>, n: nat, size: nat, field: nat, blockNb: nat, lenB: Word)
    requires ShapeOk(size, field) && n % size == |tail| < size && BigEndian(lenB, 4) == BigEndian(8 * n, 4)
    requires blockNb == 1 + if size - (field + 1) < |tail| then 1 else 0
    ensures |tail| + 5 <= blockNb * size
    ensures tail + [0x80] + Zeroes(blockNb * size - |tail| - 5) + BigEndian(lenB, 4) == tail + Appended(n, size, field)
    ensures |tail + Appended(n, size, field)| == blockNb * size
  {
  }

  /** The digest that the standard defines. */
  ghost function Digest<H>(compress: (H, seq<Byte>) -> H, size: nat, field: nat, h0: H, m: seq<Byte>): H
    requires ShapeOk(size, field)
  {
    Fold(compress, size, h0, m + Padding(|m|, size, field))
  }

  /**
   * A message below 2^29 bytes, in any number of updates of any size, has the digest that the standard defines for
   * the whole of it.
   */
  method HashPieces<H>(size: nat, field: nat, compress: (H, seq<Byte>) -> H, h0: H, pieces: seq<seq<Byte>>)
    returns (digest: H)
    requires ShapeOk(size, field) && |Flat(pieces)| < 0x2000_0000
    ensures digest == Digest(compress, size, field, h0, Flat(pieces))
  {
    hide *;
    var ctx := new ShaContext(size, field, compress, h0);
    FlatNone(pieces);
    var i := 0;
    while i < |pieces|
      invariant i <= |pieces| && fresh(ctx) && fresh(ctx.block) && ctx.Valid() && ctx.msg == Flat(pieces[..i])
      invariant ctx.size == size && ctx.field == field && ctx.compress == compress && ctx.h0 == h0
    {
      FlatPrefix(pieces, i);
      ctx.BufferIsSmall();
      assert |pieces[i]| <= |Flat(pieces)|;
      ctx.Update(pieces[i]);
      i := i + 1;
    }
    assert pieces[..i] == pieces;
    digest := ctx.Final();
    ShortIsStandard(compress, size, field, h0, Flat(pieces));
  }

  lemma ShortIsStandard<H>(compress: (H, seq<Byte>) -> H, size: nat, field: nat, h0: H, m: seq<Byte>)
    requires ShapeOk(size, field) && |m| < 0x2000_0000
    ensures Fold(compress, size, h0, m + Appended(|m|, size, field)) == Digest(compress, size, field, h0, m)
  {
    hide Pow2, Fold, Appended, Padding;
    Pow2Word();
    Pow2Up(32, 8 * field);
    AppendedIsPadding(|m|, size, field);
  }
}
