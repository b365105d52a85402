/** The 32-bit bit buffer of inflate: filled a byte at a time, and allowed to hold bits beyond its count (zlib.c). */
module BitBuffer {

  import opened Arith
  import opened BitStrings
  import opened Adler32
  import opened InflateSpec
  import opened Lz77
  import opened ReturnCodes

  /** A 32-bit word, lowest bit first. */
  type Word32 = b: Bits | |b| == 32 witness Zeros(32)

  /** b | (uLong)x << k: bits shifted past the top would be lost. */
  function OrByte(b: Word32, k: nat, x: Byte): Word32 {
    seq(32, i requires 0 <= i < 32 => b[i] || (k <= i < k + 8 && ToBits(x, 8)[i - k]))
  }

  /** b >> j. */
  function Shift(b: Word32, j: nat): Word32
    requires j <= 32
  {
    b[j..] + Zeros(j)
  }

  /**
   * The buffer holds the k input bits before byte p. The bits above need not be clear: after bytes have been
   * returned they are bits of the input that will be read again, and or-ing those in once more changes nothing.
   */
  ghost predicate Holds(input: seq<Byte>, p: nat, k: nat, b: Word32) {
    && p <= |input| && k <= 32 && k <= 8 * p
    && (forall i :: 0 <= i < k ==> b[i] == InputBit(input, 8 * p - k + i))
    && (forall i :: k <= i < 32 && b[i] ==> 8 * p - k + i < 8 * |input| && InputBit(input, 8 * p - k + i))
  }

  lemma BitOfByte(input: seq<Byte>, p: nat, i: nat)
    requires p < |input| && i < 8
    ensures InputBit(input, 8 * p + i) == ToBits(input[p], 8)[i]
  {
    hide ToBits;
    assert (8 * p + i) / 8 == p && (8 * p + i) % 8 == i;
  }

  /** Reading a byte, when there is room for it in 32 bits. */
  lemma GrabHolds(input: seq<Byte>, p: nat, k: nat, b: Word32)
    requires Holds(input, p, k, b) && k <= 24 && p < |input|
    ensures Holds(input, p + 1, k + 8, OrByte(b, k, input[p]))
  {
    hide InputBit, ToBits;
    var b' := OrByte(b, k, input[p]);
    var start := 8 * p - k;
    assert 8 * (p + 1) - (k + 8) == start;
    forall i | 0 <= i < 32
      ensures i < k + 8 ==> b'[i] == InputBit(input, start + i)
      ensures i >= k + 8 && b'[i] ==> start + i < 8 * |input| && InputBit(input, start + i)
    {
      if k <= i < k + 8 {
        BitOfByte(input, p, i - k);
        assert start + i == 8 * p + (i - k);
      }
    }
  }

  lemma ShiftHolds(input: seq<Byte>, p: nat, k: nat, b: Word32, j: nat)
    requires Holds(input, p, k, b) && j <= k
    ensures Holds(input, p, k - j, Shift(b, j))
  {
    var b' := Shift(b, j);
    forall i | 0 <= i < 32 - j
      ensures b'[i] == b[i + j]
    {
    }
  }

  /** Returning whole bytes leaves their bits behind in the buffer. */
  lemma ReturnHolds(input: seq<Byte>, p: nat, k: nat, b: Word32, c: nat)
    requires Holds(input, p, k, b) && 8 * c <= k
    ensures c <= p && c <= 4 && Holds(input, p - c, k - 8 * c, b)
  {
    hide InputBit;
    var p', k' := p - c, k - 8 * c;
    assert 8 * p' - k' == 8 * p - k;
    forall i | 0 <= i < 32
      ensures i < k' ==> b[i] == InputBit(input, 8 * p' - k' + i)
      ensures i >= k' && b[i] ==> 8 * p' - k' + i < 8 * |input| && InputBit(input, 8 * p' - k' + i)
    {
      assert 8 * p' - k' + i == 8 * p - k + i;
    }
  }

  /** The low j bits of the buffer are the next j bits of the input. */
  lemma PeekHolds(input: seq<Byte>, p: nat, k: nat, b: Word32, j: nat)
    requires Holds(input, p, k, b) && j <= k
    ensures 8 * p - k + j <= 8 * |input| && b[..j] == InputBits(input, 8 * p - k, j)
  {
  }

  /**
   * Input pointer, bytes available there, and bit buffer: the locals p, n, b and k that the inflate loops load from
   * the stream and the block state. input is all the input there will ever be.
   */
  class BitReader {
    const input: seq<Byte>
    var p: nat
    var n: nat
    var b: Word32
    var k: nat

    ghost predicate Valid()
      reads this
    {
      p + n <= |input| && Holds(input, p, k, b)
    }

    /** The position of the next bit. */
    ghost function Pos(): nat
      requires Valid()
      reads this
    {
      8 * p - k
    }

    constructor (input: seq<Byte>, n: nat)
      requires n <= |input|
      ensures Valid() && this.input == input && Pos() == 0 && p == 0 && this.n == n
    {
      this.input := input;
      p, this.n, b, k := 0, n, Zeros(32), 0;
    }

    /** b & inflate_mask[j]. */
    function Low(j: nat): (r: nat)
      requires j <= 32
      reads `b
    {
      LE(b[..j])
    }

    lemma LowIsInput(j: nat)
      requires Valid() && j <= k
      ensures Pos() + j <= 8 * |input| && Low(j) == LE(InputBits(input, Pos(), j))
    {
      hide LE, InputBit;
      PeekHolds(input, p, k, b, j);
    }

    /** NEXTBYTE, or-ed in above the bits that are there. */
    method TakeByte()
      requires Valid() && n > 0 && k <= 24
      modifies this
      ensures Valid() && Pos() == old(Pos())
      ensures n == old(n) - 1 && p == old(p) + 1 && k == old(k) + 8
    {
      hide Holds, OrByte;
      GrabHolds(input, p, k, b);
      b := OrByte(b, k, input[p]);
      n, p, k := n - 1, p + 1, k + 8;
    }

    /** NEEDBITS: at least j bits, or leaves (ok is false) with all the available input taken. */
    method NeedBits(j: nat, r: Code) returns (r': Code, ok: bool)
      requires Valid() && j <= 15
      modifies this
      ensures Valid() && Pos() == old(Pos()) && p + n == old(p + n)
      ensures ok ==> k >= j
      ensures !ok ==> n == 0 && k < j
      ensures r' == if p > old(p) then Z_OK else r
      ensures p >= old(p)
    {
      r', ok := r, true;
      while k < j
        invariant Valid() && Pos() == old(Pos()) && p + n == old(p + n)
        invariant p >= old(p) && r' == if p > old(p) then Z_OK else r
        decreases j - k
      {
        if n == 0 {
          ok := false;
          return;
        }
        r' := Z_OK;
        TakeByte();
      }
    }

    /** GRABBITS: at least j bits, without looking whether there is input. */
    method GrabBits(j: nat)
      requires Valid() && j <= 24 && n >= 3
      modifies this
      ensures Valid() && Pos() == old(Pos()) && p + n == old(p + n)
      ensures k >= j && n >= old(n) - 3
    {
      while k < j
        invariant Valid() && Pos() == old(Pos()) && p + n == old(p + n)
        invariant n >= old(n) - 3 && (k < j ==> k + 8 * (n - (old(n) - 3)) >= 24)
        decreases j - k
      {
        TakeByte();
      }
    }

    /** DUMPBITS. */
    method DumpBits(j: nat)
      requires Valid() && j <= k
      modifies this`b, this`k
      ensures Valid() && Pos() == old(Pos()) + j && k == old(k) - j
    {
      hide InputBit;
      ShiftHolds(input, p, k, b, j);
      b, k := Shift(b, j), k - j;
    }

    /** UNGRAB: returns the whole bytes that are left in the buffer. Their bits stay behind above bit k. */
    method Ungrab()
      requires Valid()
      modifies this`n, this`p, this`k
      ensures Valid() && Pos() == old(Pos()) && p + n == old(p + n) && k < 8
      ensures n <= old(n) + 4
    {
      hide Holds;
      ReturnHolds(input, p, k, b, k / 8);
      var c := k / 8;
      n, p, k := n + c, p - c, k % 8;
    }
  }
}
