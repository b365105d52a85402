/**
 * What a deflate block of codes means: the tokens found along the bits of the input, and the bytes that a run of
 * tokens produces (sections 3.2.3 and 3.2.5 of RFC 1951, with the tables of zlib.c).
 */
module InflateSpec {

  import opened Arith
  import opened BitStrings
  import opened HuffmanTable
  import opened HuffmanInvariant
  import opened HuftBuild
  import opened Adler32
  import opened Lz77

  /** The tables of a block: literal and length codes, distance codes, and the bits that each root looks up. */
  datatype Codes = Codes(lt: Tables, lbits: nat, dt: Tables, dbits: nat)

  /** Bit i of the input: bytes are read from their lowest bit up. */
  ghost function InputBit(input: seq<Byte>, i: nat): bool
    requires i < 8 * |input|
  {
    ToBits(input[i / 8], 8)[i % 8]
  }

  /** The n bits of the input from position p on. */
  ghost function InputBits(input: seq<Byte>, p: nat, n: nat): (t: Bits)
    requires p + n <= 8 * |input|
    ensures |t| == n
  {
    seq(n, i requires 0 <= i < n => InputBit(input, p + i))
  }

  /** All the bits from position p on. */
  ghost function Rest(input: seq<Byte>, p: nat): Bits {
    if p <= 8 * |input| then InputBits(input, p, 8 * |input| - p) else []
  }

  predicate HasExtra(exop: nat) {
    (exop / 16) % 2 == 1
  }

  /** A token and the position after it. Starved means that the input ends inside the token. */
  datatype Token =
    | Literal(byte: Byte, next: nat)
    | Copy(len: nat, dist: nat, next: nat)
    | EndOfBlock(next: nat)
    | BadCode(next: nat)
    | Starved

  /** A token from the extra bits of a distance on. */
  ghost function DistExtra(input: seq<Byte>, p: nat, get: nat, dist: nat, len: nat): Token {
    if p + get > 8 * |input| then Starved
    else Copy(len, dist + LE(InputBits(input, p, get)), p + get)
  }

  /** A token from what was found in the distance table on. */
  ghost function AfterDist(input: seq<Byte>, p: nat, exop: nat, base: nat, len: nat): Token {
    if HasExtra(exop) then DistExtra(input, p, exop % 16, base, len) else BadCode(p)
  }

  /** A token from its distance code on. */
  ghost function DistCode(cx: Codes, input: seq<Byte>, p: nat, len: nat): Token {
    match Walk(cx.dt, 0, cx.dbits, 0, Rest(input, p))
    case Found(exop, base, used) => AfterDist(input, p + used, exop, base, len)
    case _ => Starved
  }

  /** A token from the extra bits of its length on. */
  ghost function LenExtra(cx: Codes, input: seq<Byte>, p: nat, get: nat, len: nat): Token {
    if p + get > 8 * |input| then Starved
    else DistCode(cx, input, p + get, len + LE(InputBits(input, p, get)))
  }

  /** A token from what was found in the literal and length table on. */
  ghost function AfterLen(cx: Codes, input: seq<Byte>, p: nat, exop: nat, base: nat): Token {
    if exop == 0 then Literal(base % 256, p)
    else if HasExtra(exop) then LenExtra(cx, input, p, exop % 16, base)
    else if exop == 96 then EndOfBlock(p)
    else BadCode(p)
  }

  /** The token that starts at position p. */
  ghost function TokenAt(cx: Codes, input: seq<Byte>, p: nat): Token {
    match Walk(cx.lt, 0, cx.lbits, 0, Rest(input, p))
    case Found(exop, base, used) => AfterLen(cx, input, p + used, exop, base)
    case _ => Starved
  }

  /** How a run of tokens stands: the position of the next token and what has been produced. */
  datatype Status = Going | Ended | Failed | OutOfInput | Improper

  datatype Run = Run(pos: nat, out: seq<Byte>, status: Status)

  /**
   * One token. A copy of deflate has a length of at least 3 and a distance within what has been produced and within
   * the window; zlib.c checks none of this.
   */
  ghost function Step(cx: Codes, input: seq<Byte>, window: nat, s: Run): Run {
    if s.status != Going then s
    else match TokenAt(cx, input, s.pos)
      case Literal(b, next) => Run(next, s.out + [b], Going)
      case Copy(len, dist, next) =>
        if 3 <= len && 1 <= dist <= |s.out| && dist <= window then Run(next, Copied(s.out, dist, len), Going)
        else s.(status := Improper)
      case EndOfBlock(next) => Run(next, s.out, Ended)
      case BadCode(next) => Run(next, s.out, Failed)
      case Starved => s.(status := OutOfInput)
  }

  /** n tokens. */
  ghost function Steps(cx: Codes, input: seq<Byte>, window: nat, s: Run, n: nat): Run {
    if n == 0 then s else Step(cx, input, window, Steps(cx, input, window, s, n - 1))
  }

  /** Tables as huft_build leaves them: every lookup of 15 bits finds an entry, and every slot is of a known kind. */
  ghost predicate Solid(tabs: Tables, l: nat, s: nat) {
    1 <= l <= 15 && Shaped(tabs, s) && NoHoles(tabs, l)
  }

  /** Length entries have at most 5 extra bits and stand for lengths of at most 258 (section 3.2.5 of RFC 1951). */
  ghost predicate LengthEntries(tabs: Tables) {
    forall t, j :: 0 <= t < |tabs| && 0 <= j < |tabs[t]| ==> LengthEntry(tabs[t][j])
  }

  ghost predicate LengthEntry(h: Huft) {
    h.Entry? && HasExtra(h.exop) ==> h.exop % 16 <= 5 && h.base + Pow2(h.exop % 16) <= 259
  }

  ghost predicate ValidCodes(cx: Codes) {
    Solid(cx.lt, cx.lbits, 257) && Solid(cx.dt, cx.dbits, 0) && LengthEntries(cx.lt)
  }
}
