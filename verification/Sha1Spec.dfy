/** SHA-1 as in FIPS 180-4: sections 4.1.1 (functions), 4.2.1 (constants), 5.1.1 (padding), 5.3.1 and 6.1.2 (hash). */
module Sha1Spec {
  import opened Bytes

  type Word = bv32

  /** The hash value: five words. */
  datatype Hash = Hash(a: Word, b: Word, c: Word, d: Word, e: Word)

  type Block = s: seq<Byte> | |s| == 64 witness seq(64, _ => 0)

  const H0 := Hash(0x67452301, 0xEFCDAB89, 0x98BADCFE, 0x10325476, 0xC3D2E1F0)

  function Rotl1(x: Word): Word { (x << 1) | (x >> 31) }
  function Rotl5(x: Word): Word { (x << 5) | (x >> 27) }
  function Rotl30(x: Word): Word { (x << 30) | (x >> 2) }

  function Ch(x: Word, y: Word, z: Word): Word { (x & y) ^ (!x & z) }
  function Parity(x: Word, y: Word, z: Word): Word { x ^ y ^ z }
  function Maj(x: Word, y: Word, z: Word): Word { ((x & y) ^ (x & z)) ^ (y & z) }

  function F(t: nat, x: Word, y: Word, z: Word): Word {
    if t < 20 then Ch(x, y, z) else if t < 40 then Parity(x, y, z) else if t < 60 then Maj(x, y, z) else Parity(x, y, z)
  }

  function K(t: nat): Word {
    if t < 20 then 0x5A827999 else if t < 40 then 0x6ED9EBA1 else if t < 60 then 0x8F1BBCDC else 0xCA62C1D6
  }

  /** Four bytes as a word, most significant first. */
  function WordOf(p: Block, i: nat): Word
    requires i < 16
  {
    ((p[4 * i] as bv32) << 24) | ((p[4 * i + 1] as bv32) << 16) | ((p[4 * i + 2] as bv32) << 8) | (p[4 * i + 3] as bv32)
  }

  /** The message schedule. */
  function W(p: Block, t: nat): Word {
    if t < 16 then WordOf(p, t) else Mix(W(p, t - 3), W(p, t - 8), W(p, t - 14), W(p, t - 16))
  }

  function Sum(a: Word, f: Word, e: Word, k: Word, w: Word): Word { Rotl5(a) + f + e + k + w }

  function Mix(x: Word, y: Word, z: Word, v: Word): Word { Rotl1(((x ^ y) ^ z) ^ v) }

  /** One round. */
  function Round(h: Hash, t: nat, w: Word): Hash {
    Hash(Sum(h.a, F(t, h.b, h.c, h.d), h.e, K(t), w), h.a, Rotl30(h.b), h.c, h.d)
  }

  function Rounds(h: Hash, p: Block, t: nat): Hash {
    if t == 0 then h else Round(Rounds(h, p, t - 1), t - 1, W(p, t - 1))
  }

  function Add(g: Hash, h: Hash): Hash { Hash(g.a + h.a, g.b + h.b, g.c + h.c, g.d + h.d, g.e + h.e) }

  function Compress(h: Hash, p: Block): Hash { Add(h, Rounds(h, p, 80)) }

  /** The hash of the whole blocks that s starts with. */
  function Fold(h: Hash, s: seq<Byte>): Hash
    decreases |s|
  {
    if |s| < 64 then h else Fold(Compress(h, s[..64]), s[64..])
  }

  /** How many zero bytes bring a message and the byte 0x80 to 56 modulo 64. */
  function ZeroCount(n: nat): (z: nat)
    ensures (n + 1 + z) % 64 == 56 && z < 64
  {
    (119 - n % 64) % 64
  }

  lemma PadLength(n: nat)
    ensures (n + 1 + ZeroCount(n) + 8) % 64 == 0
  {
    Rest64(n + 1 + ZeroCount(n));
  }

  lemma Rest64(n: nat)
    requires n % 64 == 56
    ensures (n + 8) % 64 == 0
  {
  }

  /** The padded message: one bit, zeros, and the length in bits as 64 bits. */
  function Pad(m: seq<Byte>): (r: seq<Byte>)
    ensures |r| == |m| + 1 + ZeroCount(|m|) + 8 && |r| % 64 == 0
  {
    PadLength(|m|);
    m + [0x80] + seq(ZeroCount(|m|), _ => 0) + Put(8 * |m|, 8)
  }

  function Sha1(m: seq<Byte>): Hash { Fold(H0, Pad(m)) }

  // ---------------------------------------------------------------- laws

  /** Whole blocks in front are hashed first. */
  lemma {:induction false} FoldAppend(h: Hash, s: seq<Byte>, t: seq<Byte>)
    requires |s| % 64 == 0
    ensures Fold(h, s + t) == Fold(Fold(h, s), t)
    decreases |s|
  {
    hide Compress;
    if |s| == 0 {
      assert s + t == t;
    } else {
      assert (s + t)[..64] == s[..64] && (s + t)[64..] == s[64..] + t;
      FoldAppend(Compress(h, s[..64]), s[64..], t);
    }
  }

  lemma FoldShort(h: Hash, s: seq<Byte>)
    requires |s| < 64
    ensures Fold(h, s) == h
  {
  }

  lemma FoldBlock(h: Hash, p: Block)
    ensures Fold(h, p) == Compress(h, p)
  {
    hide Compress;
    assert p[..64] == p && p[64..] == [];
  }

  /** The functions as the program writes them. */
  function ChOr(x: Word, y: Word, z: Word): Word { (x & y) | (!x & z) }

  function MajOr(x: Word, y: Word, z: Word): Word { ((x & y) | (x & z)) | (y & z) }

  lemma OrIsXor(x: Word, y: Word, z: Word)
    ensures (x & y) | (!x & z) == (x & y) ^ (!x & z)
    ensures ((x & y) | (x & z)) | (y & z) == ((x & y) ^ (x & z)) ^ (y & z)
  {
  }

  lemma ChAsOr(x: Word, y: Word, z: Word)
    ensures ChOr(x, y, z) == Ch(x, y, z)
  {
    OrIsXor(x, y, z);
  }

  lemma MajAsOr(x: Word, y: Word, z: Word)
    ensures MajOr(x, y, z) == Maj(x, y, z)
  {
    OrIsXor(x, y, z);
  }
}
