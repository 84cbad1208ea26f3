/** SHA-1 of a whole message, as FIPS 180-4 defines it (sections 4.1.1, 4.2.1, 5.1.1, 5.3.1 and 6.1.2). */
module Sha1Spec {
  type Word = bv32
  type Byte = bv8

  const BLOCK: nat := 64
  const WORDS: nat := 0x1_0000_0000
  const DWORDS: nat := 0x1_0000_0000_0000_0000

  function Rotl(x: Word, n: nat): Word
    requires n <= 32
  {
    x.RotateLeft(n)
  }

  function F(t: nat, x: Word, y: Word, z: Word): Word {
    if t < 20 then (x & y) ^ (!x & z)
    else if t < 40 then x ^ y ^ z
    else if t < 60 then (x & y) ^ (x & z) ^ (y & z)
    else x ^ y ^ z
  }

  function K(t: nat): Word {
    if t < 20 then 0x5A827999 else if t < 40 then 0x6ED9EBA1 else if t < 60 then 0x8F1BBCDC else 0xCA62C1D6
  }

  /** Four bytes as a big-endian word. */
  function WordOf(b: seq<Byte>): Word
    requires |b| == 4
  {
    ((b[0] as Word) << 24) | ((b[1] as Word) << 16) | ((b[2] as Word) << 8) | (b[3] as Word)
  }

  /** The message schedule of a block. */
  function W(block: seq<Byte>, t: nat): Word
    requires |block| == BLOCK
  {
    if t < 16 then WordOf(block[4*t..4*t+4])
    else Rotl(W(block, t-3) ^ W(block, t-8) ^ W(block, t-14) ^ W(block, t-16), 1)
  }

  datatype Hash = Hash(a: Word, b: Word, c: Word, d: Word, e: Word) {
    function Words(): seq<Word> { [a, b, c, d, e] }
  }

  const IV: Hash := Hash(0x67452301, 0xEFCDAB89, 0x98BADCFE, 0x10325476, 0xC3D2E1F0)

  function Sum(a: Word, b: Word, c: Word, d: Word, e: Word): Word { a + b + c + d + e }

  function Round(h: Hash, t: nat, w: Word): Hash {
    Hash(Sum(Rotl(h.a, 5), F(t, h.b, h.c, h.d), h.e, K(t), w), h.a, Rotl(h.b, 30), h.c, h.d)
  }

  /** The working variables after `t` rounds. */
  function Rounds(h: Hash, block: seq<Byte>, t: nat): Hash
    requires |block| == BLOCK
  {
    if t == 0 then h else Round(Rounds(h, block, t - 1), t - 1, W(block, t - 1))
  }

  function Plus(a: Word, b: Word): Word { a + b }

  function Compress(h: Hash, block: seq<Byte>): Hash
    requires |block| == BLOCK
  {
    var r := Rounds(h, block, 80);
    Hash(Plus(h.a, r.a), Plus(h.b, r.b), Plus(h.c, r.c), Plus(h.d, r.d), Plus(h.e, r.e))
  }

  /** The hash value after all blocks of `m`. */
  function HashBlocks(m: seq<Byte>): Hash
    requires |m| % BLOCK == 0
  {
    if |m| == 0 then IV else Compress(HashBlocks(m[..|m|-BLOCK]), m[|m|-BLOCK..])
  }

  function Zeros(n: nat): (z: seq<Byte>)
    ensures |z| == n
  {
    seq(n, _ => 0)
  }

  /** The number of zero bytes after the 0x80 byte. */
  function ZeroCount(n: nat): nat { (119 - n % BLOCK) % BLOCK }

  function LowByte(n: nat): Byte { (n % 256) as Byte }

  /** The byte of weight 256^i. */
  function ByteAt(n: nat, i: nat): Byte
    decreases i
  {
    if i == 0 then LowByte(n) else ByteAt(n / 256, i - 1)
  }

  /** A bit count as eight big-endian bytes. */
  function BitCount(n: nat): seq<Byte> {
    [ByteAt(n, 7), ByteAt(n, 6), ByteAt(n, 5), ByteAt(n, 4), ByteAt(n, 3), ByteAt(n, 2), ByteAt(n, 1), ByteAt(n, 0)]
  }

  function Pad(m: seq<Byte>): seq<Byte> {
    m + [0x80] + Zeros(ZeroCount(|m|)) + BitCount(8 * |m|)
  }

  /** The zero padding is the shortest that leaves room for the bit count at the end of a block. */
  lemma PaddingFits(n: nat, z: nat)
    ensures (n + 1 + ZeroCount(n)) % BLOCK == 56
    ensures (n + 1 + z) % BLOCK == 56 ==> ZeroCount(n) <= z
    ensures z < BLOCK && (n + 1 + z) % BLOCK == 56 ==> z == ZeroCount(n)
  {
  }

  lemma PadIsBlocks(m: seq<Byte>)
    ensures |Pad(m)| % BLOCK == 0
  {
    hide *;
    PadLength(m);
    PaddingFits(|m|, 0);
    EightMore(|m| + 1 + ZeroCount(|m|));
  }

  lemma PadLength(m: seq<Byte>)
    ensures |Pad(m)| == |m| + 1 + ZeroCount(|m|) + 8
  {
    hide ZeroCount, ByteAt;
  }

  lemma EightMore(n: nat)
    ensures n % BLOCK == 56 ==> (n + 8) % BLOCK == 0
  {
  }

  function BytesOf(w: Word): seq<Byte> {
    [((w >> 24) & 0xFF) as Byte, ((w >> 16) & 0xFF) as Byte, ((w >> 8) & 0xFF) as Byte, (w & 0xFF) as Byte]
  }

  function Digest(h: Hash): (d: seq<Byte>)
    ensures |d| == 20
  {
    BytesOf(h.a) + BytesOf(h.b) + BytesOf(h.c) + BytesOf(h.d) + BytesOf(h.e)
  }

  function Sha1(m: seq<Byte>): (d: seq<Byte>)
    ensures |d| == 20
  {
    PadIsBlocks(m);
    Digest(HashBlocks(Pad(m)))
  }
}
