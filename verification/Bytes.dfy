/** Bytes, their bits, and big-endian numbers. */
module Bytes {
  import opened Basics

  type Byte = n: nat | n < 256

  // ---------------------------------------------------------------- bits

  /** Bit k of a number. */
  predicate Bit(b: nat, k: nat) {
    if k == 0 then b % 2 == 1 else Bit(b / 2, k - 1)
  }

  /** b with bit k switched on or off. */
  function WithBit(b: nat, k: nat, on: bool): nat {
    if k == 0 then b / 2 * 2 + (if on then 1 else 0) else WithBit(b / 2, k - 1, on) * 2 + b % 2
  }

  lemma {:induction false} BitWithBit(b: nat, k: nat, on: bool, j: nat)
    ensures Bit(WithBit(b, k, on), j) == if j == k then on else Bit(b, j)
  {
    var now := WithBit(b, k, on);
    if k == 0 {
      assert now / 2 == b / 2;
    } else {
      assert now / 2 == WithBit(b / 2, k - 1, on) && now % 2 == b % 2;
      if j > 0 { BitWithBit(b / 2, k - 1, on, j - 1); }
    }
  }

  lemma {:induction false} WithBitBound(b: nat, k: nat, on: bool, n: nat)
    requires k < n && b < Pow2(n)
    ensures WithBit(b, k, on) < Pow2(n)
  {
    assert Pow2(n) == 2 * Pow2(n - 1) && b / 2 < Pow2(n - 1);
    if k > 0 { WithBitBound(b / 2, k - 1, on, n - 1); }
  }

  /** Numbers below 2^n with the same first n bits are equal. */
  lemma {:induction false} BitsDetermine(a: nat, b: nat, n: nat)
    requires a < Pow2(n) && b < Pow2(n) && forall k :: 0 <= k < n ==> Bit(a, k) == Bit(b, k)
    ensures a == b
  {
    if n > 0 {
      assert Bit(a, 0) == Bit(b, 0);
      forall k | 0 <= k < n - 1 ensures Bit(a / 2, k) == Bit(b / 2, k) { assert Bit(a, k + 1) == Bit(b, k + 1); }
      BitsDetermine(a / 2, b / 2, n - 1);
    }
  }

  // ---------------------------------------------------------------- big-endian numbers

  function Pow256(n: nat): (r: nat)
    ensures r >= 1
  {
    if n == 0 then 1 else 256 * Pow256(n - 1)
  }

  /** The n low bytes of v, most significant first. */
  function Put(v: nat, n: nat): (r: seq<Byte>)
    ensures |r| == n
  {
    if n == 0 then [] else Put(v / 256, n - 1) + [v % 256]
  }

  function Get(s: seq<Byte>): nat {
    if s == [] then 0 else Get(s[..|s| - 1]) * 256 + s[|s| - 1]
  }

  lemma {:induction false} GetBound(s: seq<Byte>)
    ensures Get(s) < Pow256(|s|)
  {
    if s != [] { GetBound(s[..|s| - 1]); }
  }

  /** What is written is read back, up to the width of the field. */
  lemma {:induction false} GetPut(v: nat, n: nat)
    ensures Get(Put(v, n)) == v % Pow256(n)
  {
    if n > 0 {
      GetPut(v / 256, n - 1);
      assert Put(v, n)[..n - 1] == Put(v / 256, n - 1);
      ModSplit(v, Pow256(n - 1));
    }
  }

  lemma ModSplit(v: nat, m: nat)
    requires m > 0
    ensures v % (256 * m) == (v / 256) % m * 256 + v % 256
  {
    var q, r := v / 256, v % 256;
    var a, c := q / m, q % m;
    assert v == 256 * (a * m + c) + r == (256 * m) * a + (256 * c + r);
    assert 256 * c + r < 256 * m;
    ModUnique(v, 256 * m, a, 256 * c + r);
  }

  lemma ModUnique(v: nat, m: nat, a: nat, r: nat)
    requires m > 0 && v == m * a + r && r < m
    ensures v % m == r
  {
    var b, s := v / m, v % m;
    assert m * (a - b) == s - r;
    MulGap(m, a - b);
  }

  lemma MulGap(m: nat, k: int)
    ensures k >= 1 ==> m * k >= m
    ensures k <= -1 ==> m * k + m <= 0
    ensures k == 0 ==> m * k == 0
  {
  }

  /** The accumulator loop of the readers. */
  method ReadBE(s: seq<Byte>) returns (v: nat)
    ensures v == Get(s) && v < Pow256(|s|)
  {
    v := 0;
    for i := 0 to |s|
      invariant v == Get(s[..i])
    {
      assert s[..i + 1][..i] == s[..i];
      v := v * 256 + s[i];
    }
    assert s[..|s|] == s;
    GetBound(s);
  }

  /** Only the low n bytes of a number are written. */
  lemma {:induction false} PutMod(v: nat, n: nat)
    ensures Put(v % Pow256(n), n) == Put(v, n)
  {
    if n > 0 {
      var m := Pow256(n - 1);
      ModSplit(v, m);
      var w := v % Pow256(n);
      assert w == (v / 256) % m * 256 + v % 256;
      assert w / 256 == (v / 256) % m && w % 256 == v % 256;
      PutMod(v / 256, n - 1);
    }
  }
}
