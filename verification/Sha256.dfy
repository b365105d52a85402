/** SHA-224 and SHA-256: their constants and logical functions, and their digests (apiSHA.c). */
module Sha256 {

  import opened Lz77
  import opened Pieces
  import opened ShaRounds
  import opened ShaStream

  type Hash = seq<bv32>

  const H224: Hash := [
    0xc105_9ed8, 0x367c_d507, 0x3070_dd17, 0xf70e_5939, 0xffc0_0b31, 0x6858_1511, 0x64f9_8fa7, 0xbefa_4fa4]

  const H256: Hash := [
    0x6a09_e667, 0xbb67_ae85, 0x3c6e_f372, 0xa54f_f53a, 0x510e_527f, 0x9b05_688c, 0x1f83_d9ab, 0x5be0_cd19]

  const K256: seq<bv32> := [
    0x428a_2f98, 0x7137_4491, 0xb5c0_fbcf, 0xe9b5_dba5, 0x3956_c25b, 0x59f1_11f1, 0x923f_82a4, 0xab1c_5ed5,
    0xd807_aa98, 0x1283_5b01, 0x2431_85be, 0x550c_7dc3, 0x72be_5d74, 0x80de_b1fe, 0x9bdc_06a7, 0xc19b_f174] + [
    0xe49b_69c1, 0xefbe_4786, 0x0fc1_9dc6, 0x240c_a1cc, 0x2de9_2c6f, 0x4a74_84aa, 0x5cb0_a9dc, 0x76f9_88da,
    0x983e_5152, 0xa831_c66d, 0xb003_27c8, 0xbf59_7fc7, 0xc6e0_0bf3, 0xd5a7_9147, 0x06ca_6351, 0x1429_2967] + [
    0x27b7_0a85, 0x2e1b_2138, 0x4d2c_6dfc, 0x5338_0d13, 0x650a_7354, 0x766a_0abb, 0x81c2_c92e, 0x9272_2c85,
    0xa2bf_e8a1, 0xa81a_664b, 0xc24b_8b70, 0xc76c_51a3, 0xd192_e819, 0xd699_0624, 0xf40e_3585, 0x106a_a070] + [
    0x19a4_c116, 0x1e37_6c08, 0x2748_774c, 0x34b0_bcb5, 0x391c_0cb3, 0x4ed8_aa4a, 0x5b9c_ca4f, 0x682e_6ff3,
    0x748f_82ee, 0x78a5_636f, 0x84c8_7814, 0x8cc7_0208, 0x90be_fffa, 0xa450_6ceb, 0xbef9_a3f7, 0xc671_78f2]

  function Add(x: bv32, y: bv32): bv32 {
    x + y
  }

  function Shfr(x: bv32, n: bv32): bv32
    requires n <= 32
  {
    x >> n
  }

  function Rotr(x: bv32, n: bv32): bv32
    requires n <= 32
  {
    (x >> n) | (x << (32 - n))
  }

  function Ch(x: bv32, y: bv32, z: bv32): bv32 {
    (x & y) ^ (!x & z)
  }

  function Maj(x: bv32, y: bv32, z: bv32): bv32 {
    (x & y) ^ (x & z) ^ (y & z)
  }

  function F1(x: bv32): bv32 {
    Rotr(x, 2) ^ Rotr(x, 13) ^ Rotr(x, 22)
  }

  function F2(x: bv32): bv32 {
    Rotr(x, 6) ^ Rotr(x, 11) ^ Rotr(x, 25)
  }

  function F3(x: bv32): bv32 {
    Rotr(x, 7) ^ Rotr(x, 18) ^ Shfr(x, 3)
  }

  function F4(x: bv32): bv32 {
    Rotr(x, 17) ^ Rotr(x, 19) ^ Shfr(x, 10)
  }

  const OPS: Ops<bv32> := Ops(Add, F1, F2, F3, F4, Ch, Maj, K256)

  /** PACK32. */
  function Pack32(b: seq<Byte>): bv32
    requires |b| == 4
  {
    var b0, b1, b2, b3 := b[0] as bv32, b[1] as bv32, b[2] as bv32, b[3] as bv32;
    b3 | (b2 << 8) | (b1 << 16) | (b0 << 24)
  }

  function BlockWords(block: seq<Byte>): (m: seq<bv32>)
    requires |block| == 64
    ensures |m| == 16
  {
    seq(16, i requires 0 <= i < 16 => Pack32(block[4 * i..4 * i + 4]))
  }

  /** The compression function. It is only ever given hashes of 8 words and blocks of 64 bytes. */
  function Compress(h: Hash, block: seq<Byte>): Hash {
    if |h| == 8 && |block| == 64 then Compressed(OPS, h, BlockWords(block)) else h
  }

  /** sha256_transf for one block, in both its forms. */
  method TransfBlock(h: array<bv32>, block: seq<Byte>, unrolled: bool)
    requires h.Length == 8 && |block| == 64
    modifies h
    ensures h[..] == Compress(old(h[..]), block)
  {
    hide Compressed, F1, F2, F3, F4, Ch, Maj, BlockWords;
    if unrolled {
      TransfUnrolled(OPS, h, BlockWords(block));
    } else {
      TransfLoop(OPS, h, BlockWords(block));
    }
  }

  /** The first n words of a hash, highest byte first. */
  function Bytes(h: Hash, n: nat): (b: seq<Byte>)
    requires n <= |h|
    ensures |b| == 4 * n
  {
    if n == 0 then [] else Bytes(h, n - 1) + BigEndian(h[n - 1] as nat, 4)
  }

  /** SHA-256 of a message below 2^29 bytes that comes in pieces; SHA-224 with its own start and 7 words. */
  method Sha(pieces: seq<seq<Byte>>, h0: Hash, words: nat) returns (digest: seq<Byte>)
    requires |h0| == 8 && words <= 8 && |Flat(pieces)| < 0x2000_0000
    ensures |Digest(Compress, 64, 8, h0, Flat(pieces))| == 8
    ensures digest == Bytes(Digest(Compress, 64, 8, h0, Flat(pieces)), words)
  {
    hide Compress, Fold, Padding, BigEndian;
    var h := HashPieces(64, 8, Compress, h0, pieces);
    EightWords(h0, Flat(pieces) + Padding(|Flat(pieces)|, 64, 8));
    digest := [];
    var i := 0;
    while i < words
      invariant i <= words && digest == Bytes(h, i)
    {
      digest := digest + BigEndian(h[i] as nat, 4);
      i := i + 1;
    }
  }

  /** sha256. */
  method Sha256Of(pieces: seq<seq<Byte>>) returns (digest: seq<Byte>)
    requires |Flat(pieces)| < 0x2000_0000
    ensures |Digest(Compress, 64, 8, H256, Flat(pieces))| == 8
    ensures |digest| == 32 && digest == Bytes(Digest(Compress, 64, 8, H256, Flat(pieces)), 8)
  {
    hide Compress, Fold, Padding, Bytes;
    digest := Sha(pieces, H256, 8);
  }

  /** sha224. */
  method Sha224Of(pieces: seq<seq<Byte>>) returns (digest: seq<Byte>)
    requires |Flat(pieces)| < 0x2000_0000
    ensures |Digest(Compress, 64, 8, H224, Flat(pieces))| == 8
    ensures |digest| == 28 && digest == Bytes(Digest(Compress, 64, 8, H224, Flat(pieces)), 7)
  {
    hide Compress, Fold, Padding, Bytes;
    digest := Sha(pieces, H224, 7);
  }

  lemma {:induction false} EightWords(h0: Hash, m: seq<Byte>)
    requires |h0| == 8
    ensures |Fold(Compress, 64, h0, m)| == 8
    decreases |m|
  {
    hide Compressed;
    if |m| >= 64 {
      EightWords(h0, m[..|m| - 64]);
      CompressedLength(Fold(Compress, 64, h0, m[..|m| - 64]), m[|m| - 64..]);
    }
  }

  lemma CompressedLength(h: Hash, block: seq<Byte>)
    requires |h| == 8
    ensures |Compress(h, block)| == 8
  {
    hide Rounds, BlockWords;
  }
}
