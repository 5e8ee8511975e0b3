/** Streaming SHA-1: a context that is fed in pieces of any size. */
module Sha1 {
  import opened Bytes
  import S = Sha1Spec

  /** The message schedule of a block, as a table. */
  method Schedule(p: S.Block) returns (ws: seq<S.Word>)
    ensures |ws| == 80 && forall j :: 0 <= j < 80 ==> ws[j] == S.W(p, j)
  {
    hide S.WordOf, S.Mix;
    var w := new S.Word[80];
    for i := 0 to 16
      invariant forall j :: 0 <= j < i ==> w[j] == S.W(p, j)
    {
      w[i] := S.WordOf(p, i);
    }
    for i := 16 to 80
      invariant forall j :: 0 <= j < i ==> w[j] == S.W(p, j)
    {
      w[i] := S.Mix(w[i - 3], w[i - 8], w[i - 14], w[i - 16]);
    }
    ws := w[..];
  }

  /** The function and the constant of round i, with the functions written by "or". */
  method Choose(i: nat, b: S.Word, cc: S.Word, d: S.Word) returns (f: S.Word, k: S.Word)
    ensures f == S.F(i, b, cc, d) && k == S.K(i)
  {
    hide S.Ch, S.Maj, S.ChOr, S.MajOr, S.Parity;
    S.ChAsOr(b, cc, d);
    S.MajAsOr(b, cc, d);
    if i < 20 {
      return S.ChOr(b, cc, d), 0x5A827999;
    } else if i < 40 {
      return S.Parity(b, cc, d), 0x6ED9EBA1;
    } else if i < 60 {
      return S.MajOr(b, cc, d), 0x8F1BBCDC;
    } else {
      return S.Parity(b, cc, d), 0xCA62C1D6;
    }
  }

  /** The block function: eighty rounds on five words. */
  method CompressBlock(h: S.Hash, p: S.Block) returns (r: S.Hash)
    ensures r == S.Compress(h, p)
  {
    hide S.W, S.F, S.K, S.Sum, S.Rotl30, S.Add;
    var w := Schedule(p);
    var a, b, cc, d, e := h.a, h.b, h.c, h.d, h.e;
    for i := 0 to 80
      invariant S.Hash(a, b, cc, d, e) == S.Rounds(h, p, i)
    {
      var f, k := Choose(i, b, cc, d);
      var t := S.Sum(a, f, e, k, w[i]);
      assert S.Rounds(h, p, i + 1) == S.Round(S.Hash(a, b, cc, d, e), i, w[i]);
      e := d;
      d := cc;
      cc := S.Rotl30(b);
      b := a;
      a := t;
    }
    r := S.Add(h, S.Hash(a, b, cc, d, e));
  }

  const TWO64 := 0x1_0000_0000_0000_0000

  /** The part of a message that fills whole blocks, and the rest. */
  function Whole(m: seq<Byte>): seq<Byte> { m[..|m| - |m| % 64] }

  function Rest(m: seq<Byte>): seq<Byte> { m[|m| - |m| % 64..] }

  lemma SplitWhole(m: seq<Byte>)
    ensures m == Whole(m) + Rest(m) && |Whole(m)| % 64 == 0 && |Rest(m)| < 64
  {
    WholeSize(|m|);
  }

  lemma WholeSize(n: nat)
    ensures (n - n % 64) % 64 == 0
  {
  }

  class Context {
    var h: S.Hash
    var total: nat
    const buf: array<Byte>
    var buflen: nat
    /** Everything fed so far. */
    ghost var msg: seq<Byte>

    ghost predicate Valid()
      reads this, buf
    {
      && buf.Length == 64 && buflen < 64 && total == |msg| % TWO64
      && h == S.Fold(S.H0, msg) && buf[..buflen] == Rest(msg)
    }

    /** sha1_init */
    constructor ()
      ensures Valid() && msg == [] && fresh(buf)
    {
      h, total, buflen, msg := S.H0, 0, 0, [];
      buf := new Byte[64];
    }

    method Fill(data: seq<Byte>)
      requires buf.Length == 64 && buflen + |data| <= 64
      modifies buf
      ensures buf[..buflen + |data|] == old(buf[..buflen]) + data
    {
      for i := 0 to |data|
        invariant forall j :: 0 <= j < buflen ==> buf[j] == old(buf[j])
        invariant forall j :: 0 <= j < i ==> buf[buflen + j] == data[j]
      {
        buf[buflen + i] := data[i];
      }
    }

    /** Whole blocks straight from the data, then the rest into the empty buffer. */
    method Absorb(data: seq<Byte>, ghost done: seq<Byte>)
      requires buf.Length == 64 && buflen == 0 && |done| % 64 == 0 && h == S.Fold(S.H0, done)
      modifies this`h, this`buflen, buf
      ensures buflen < 64 && h == S.Fold(S.H0, done + data) && buf[..buflen] == Rest(done + data)
    {
      hide S.Fold, S.Compress, Rest;
      var p := data;
      ghost var w := done;
      while |p| >= 64
        modifies this`h
        invariant |w| % 64 == 0 && w + p == done + data && h == S.Fold(S.H0, w)
        decreases |p|
      {
        assert w + p == (w + p[..64]) + p[64..];
        NextBlock(w, p[..64]);
        h := CompressBlock(h, p[..64]);
        w, p := w + p[..64], p[64..];
      }
      if |p| > 0 {
        Fill(p);
        buflen := |p|;
      }
      OpenTail(w, p);
    }

    /** sha1_update: any piece of any length. */
    method Update(data: seq<Byte>)
      requires Valid()
      modifies this, buf
      ensures Valid() && msg == old(msg) + data
    {
      hide S.Fold, S.Compress, Rest;
      ghost var m := msg;
      AddTotal(|m|, |data|);
      RestSize(m);
      total := (total + |data|) % TWO64;
      msg := m + data;
      if buflen > 0 {
        var need := 64 - buflen;
        if |data| < need {
          Fill(data);
          buflen := buflen + |data|;
          StillOpen(m, data);
          return;
        }
        Fill(data[..need]);
        assert buf[..] == buf[..64];
        h := CompressBlock(h, buf[..]);
        CloseBlock(m, data[..need]);
        buflen := 0;
        Absorb(data[need..], m + data[..need]);
        assert m + data[..need] + data[need..] == m + data;
      } else {
        Absorb(data, m);
      }
    }

    /** sha1_final_hex: the digest of the padded message, whatever pieces it came in. */
    method FinalHex() returns (hex: string)
      requires Valid()
      modifies this, buf
      ensures hex == HexOf(S.Sha1(old(msg)))
    {
      hide S.Fold, S.Compress, Rest, HexOf, Put;
      ghost var m := msg;
      var bits := total * 8 % TWO64;
      Update([0x80]);
      ghost var z := 0;
      ghost var first := buflen;
      RestSize(msg);
      while buflen != 56
        invariant Valid() && msg == m + [0x80] + Zeros(z) && z + Missing(buflen) == Missing(first)
        decreases Missing(buflen)
      {
        ghost var was := buflen;
        RestSize(msg);
        Update([0]);
        RestSize(msg);
        OneOn(was, |msg| - 1);
        z := z + 1;
      }
      RestSize(msg);
      assert |msg| == |m| + 1 + z;
      ZerosAre(|m|, z);
      var pad := Put(bits, 8);
      LengthField(|m|);
      ghost var padded := msg + pad;
      CloseBlock(msg, pad);
      Fill(pad);
      assert buf[..] == buf[..64];
      h := CompressBlock(h, buf[..]);
      buflen := 0;
      assert padded == S.Pad(m);
      hex := WriteHex(h);
    }
  }

  function Zeros(z: nat): seq<Byte> { seq(z, _ => 0) }

  /** How many bytes the buffer lacks to reach 56. */
  function Missing(buflen: nat): nat { if buflen <= 56 then 56 - buflen else if buflen < 120 then 120 - buflen else 0 }

  lemma OneOn(b: nat, n: nat)
    requires b == n % 64
    ensures (n + 1) % 64 == if b == 63 then 0 else b + 1
  {
  }

  /** The loop adds exactly the zeros that the padding asks for. */
  lemma ZerosAre(n: nat, z: nat)
    requires (n + 1 + z) % 64 == 56 && z < 64
    ensures z == S.ZeroCount(n)
  {
    var y := S.ZeroCount(n);
    assert (n + 1 + y) % 64 == 56;
    assert (z - y) % 64 == 0;
  }

  /** The length field holds the low 64 bits of the length in bits. */
  lemma LengthField(n: nat)
    ensures Put(n % TWO64 * 8 % TWO64, 8) == Put(8 * n, 8)
  {
    assert Pow256(8) == TWO64 by { EightBytes(); }
    ModMul(n);
    PutMod(8 * n, 8);
  }

  lemma EightBytes()
    ensures Pow256(8) == TWO64
  {
    assert Pow256(2) == 256 * Pow256(1) && Pow256(1) == 256;
    assert Pow256(4) == 256 * Pow256(3) && Pow256(3) == 256 * Pow256(2);
    assert Pow256(6) == 256 * Pow256(5) && Pow256(5) == 256 * Pow256(4);
    assert Pow256(8) == 256 * Pow256(7) && Pow256(7) == 256 * Pow256(6);
  }

  lemma ModMul(n: nat)
    ensures n % TWO64 * 8 % TWO64 == 8 * n % TWO64
  {
    var c := n % TWO64 * 8;
    ModIs(8 * n, 8 * (n / TWO64) + c / TWO64, c % TWO64);
  }

  // ---------------------------------------------------------------- hexadecimal text

  const DIGITS := "0123456789abcdef"

  /** The i-th group of four bits of a word, most significant first. */
  function Bits(w: S.Word, i: nat): (v: S.Word)
    requires i < 8
    ensures v < 16
  {
    match i
    case 0 => w >> 28
    case 1 => (w >> 24) & 15
    case 2 => (w >> 20) & 15
    case 3 => (w >> 16) & 15
    case 4 => (w >> 12) & 15
    case 5 => (w >> 8) & 15
    case 6 => (w >> 4) & 15
    case 7 => w & 15
  }

  function Digit(v: S.Word): char
    requires v < 16
  {
    DIGITS[v as nat]
  }

  /** Byte j of a word, most significant first. */
  function ByteOf(w: S.Word, j: nat): S.Word
    requires j < 4
  {
    match j
    case 0 => w >> 24
    case 1 => (w >> 16) & 255
    case 2 => (w >> 8) & 255
    case 3 => w & 255
  }

  lemma Halves(w: S.Word, j: nat)
    requires j < 4
    ensures ByteOf(w, j) >> 4 == Bits(w, 2 * j) && ByteOf(w, j) & 15 == Bits(w, 2 * j + 1)
  {
    match j
    case 0 => assert w >> 28 == (w >> 24) >> 4;
    case 1 => assert (w >> 20) & 15 == ((w >> 16) & 255) >> 4 && (w >> 16) & 15 == ((w >> 16) & 255) & 15;
    case 2 => assert (w >> 12) & 15 == ((w >> 8) & 255) >> 4 && (w >> 8) & 15 == ((w >> 8) & 255) & 15;
    case 3 => assert (w >> 4) & 15 == (w & 255) >> 4 && w & 15 == (w & 255) & 15;
  }

  /** The two digits of byte j of a word. */
  method BytePair(w: S.Word, j: nat) returns (pair: string)
    requires j < 4
    ensures pair == [Digit(Bits(w, 2 * j)), Digit(Bits(w, 2 * j + 1))]
  {
    hide Bits, Digit, ByteOf;
    Halves(w, j);
    var b := ByteOf(w, j);
    return [Digit(b >> 4), Digit(b & 15)];
  }

  function WordAt(h: S.Hash, i: nat): S.Word
    requires i < 5
  {
    match i case 0 => h.a case 1 => h.b case 2 => h.c case 3 => h.d case 4 => h.e
  }

  function HexOf(h: S.Hash): (t: string)
    ensures |t| == 40
  {
    seq(40, i requires 0 <= i < 40 => Digit(Bits(WordAt(h, i / 8), i % 8)))
  }

  /** The digits are written byte by byte, high half first. */
  method WriteHex(h: S.Hash) returns (t: string)
    ensures t == HexOf(h)
  {
    hide Bits, WordAt, Digit;
    t := "";
    for i := 0 to 5
      invariant |t| == 8 * i && t == HexOf(h)[..8 * i]
    {
      for j := 0 to 4
        invariant |t| == 8 * i + 2 * j && t == HexOf(h)[..8 * i + 2 * j]
      {
        ghost var k := 8 * i + 2 * j;
        assert k / 8 == i && k % 8 == 2 * j && (k + 1) / 8 == i && (k + 1) % 8 == 2 * j + 1;
        var pair := BytePair(WordAt(h, i), j);
        t := t + pair;
      }
    }
    assert HexOf(h)[..40] == HexOf(h);
  }

  // ---------------------------------------------------------------- chunks

  function Joined(chunks: seq<seq<Byte>>): seq<Byte> {
    if chunks == [] then [] else Joined(chunks[..|chunks| - 1]) + chunks[|chunks| - 1]
  }

  /** Any chunking of a message gives the digest of the message. */
  method DigestChunks(chunks: seq<seq<Byte>>) returns (hex: string)
    ensures hex == HexOf(S.Sha1(Joined(chunks)))
  {
    hide S.Fold, HexOf, S.Sha1;
    var c := new Context();
    for i := 0 to |chunks|
      invariant c.Valid() && c.msg == Joined(chunks[..i]) && fresh(c) && fresh(c.buf)
    {
      assert chunks[..i + 1][..i] == chunks[..i];
      c.Update(chunks[i]);
    }
    assert chunks[..|chunks|] == chunks;
    hex := c.FinalHex();
  }

  /** sha1_hex: the digest in one go. */
  method HexDigest(data: seq<Byte>) returns (hex: string)
    ensures hex == HexOf(S.Sha1(data))
  {
    hide S.Fold, HexOf, S.Sha1;
    var c := new Context();
    c.Update(data);
    assert c.msg == data;
    hex := c.FinalHex();
  }

  lemma RestSize(m: seq<Byte>)
    ensures |Rest(m)| == |m| % 64
  {
  }

  lemma ModIs(v: nat, a: nat, r: nat)
    requires v == TWO64 * a + r && r < TWO64
    ensures v % TWO64 == r
  {
  }

  lemma AddTotal(a: nat, b: nat)
    ensures (a % TWO64 + b) % TWO64 == (a + b) % TWO64
  {
    var c := a % TWO64 + b;
    ModIs(a + b, a / TWO64 + c / TWO64, c % TWO64);
  }

  /** A piece that does not fill the block leaves it open. */
  lemma StillOpen(m: seq<Byte>, d: seq<Byte>)
    requires |Rest(m)| + |d| < 64
    ensures Rest(m + d) == Rest(m) + d && S.Fold(S.H0, m + d) == S.Fold(S.H0, m)
  {
    hide S.Fold, Whole, Rest;
    var w, r := Whole(m), Rest(m);
    SplitWhole(m);
    OpenTail(w, r);
    OpenTail(w, r + d);
    assert m + d == w + (r + d);
  }

  /** A message of whole blocks and a short rest. */
  lemma OpenTail(w: seq<Byte>, r: seq<Byte>)
    requires |w| % 64 == 0 && |r| < 64
    ensures Rest(w + r) == r && S.Fold(S.H0, w + r) == S.Fold(S.H0, w)
  {
    hide S.Fold, Rest;
    RestOf(w, r);
    S.FoldAppend(S.H0, w, r);
    S.FoldShort(S.Fold(S.H0, w), r);
  }

  lemma RestOf(w: seq<Byte>, r: seq<Byte>)
    requires |w| % 64 == 0 && |r| < 64
    ensures Rest(w + r) == r
  {
    TailSize(|w|, |r|);
    assert (w + r)[|w|..] == r;
  }

  lemma TailSize(w: nat, r: nat)
    requires w % 64 == 0 && r < 64
    ensures (w + r) % 64 == r
  {
  }

  /** The bytes that fill up the last block. */
  lemma CloseBlock(m: seq<Byte>, d: seq<Byte>)
    requires |Rest(m)| + |d| == 64
    ensures |m + d| % 64 == 0 && S.Fold(S.H0, m + d) == S.Compress(S.Fold(S.H0, m), Rest(m) + d)
  {
    hide S.Compress, S.Fold, Whole, Rest;
    var w, r := Whole(m), Rest(m);
    SplitWhole(m);
    OpenTail(w, r);
    assert m + d == w + (r + d);
    NextBlock(w, r + d);
  }

  /** A block after whole blocks. */
  lemma NextBlock(w: seq<Byte>, b: S.Block)
    requires |w| % 64 == 0
    ensures |w + b| % 64 == 0 && S.Fold(S.H0, w + b) == S.Compress(S.Fold(S.H0, w), b)
  {
    hide S.Compress, S.Fold;
    S.FoldAppend(S.H0, w, b);
    S.FoldBlock(S.Fold(S.H0, w), b);
  }
}
