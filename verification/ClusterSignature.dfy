/** The signature that the cached verdict is compared by: no change of the flags of one node goes unnoticed. */
module ClusterSignature {
  import opened Basics
  import opened Bytes
  import opened ClusterNode

  const WIDTH: nat := 0x1_0000_0000_0000_0000
  const PRIME: nat := 1099511628211
  const INVERSE: nat := 14886173955864302971

  /** The number of the bit of a flag. */
  function BitOf(f: Flag): nat {
    match f
    case Myself => 0
    case Master => 1
    case Handshake => 2
    case NoAddr => 3
    case Disconnected => 4
    case Slave => 5
    case Pfail => 6
    case Fail => 7
  }

  /** The flag of bit k, as a number. */
  function Unit(flags: set<Flag>, k: nat): (u: nat)
    ensures u <= 1
  {
    if exists f :: f in flags && BitOf(f) == k then 1 else 0
  }

  function FlagsFrom(flags: set<Flag>, k: nat): (w: nat)
    requires k <= 8
    ensures w < Pow2(8 - k)
    decreases 8 - k
  {
    if k == 8 then 0 else Unit(flags, k) + 2 * FlagsFrom(flags, k + 1)
  }

  function FlagWord(flags: set<Flag>): U64 {
    assert Pow2(8) == 256;
    FlagsFrom(flags, 0)
  }

  /** Exclusive or, bit by bit. */
  function Xor(a: nat, b: nat): nat
    decreases a + b
  {
    if a == 0 && b == 0 then 0 else 2 * Xor(a / 2, b / 2) + (a + b) % 2
  }

  /** Multiplication by the FNV prime, in 64 bits. */
  function Times(x: nat): U64 { x * PRIME % WIDTH }

  function Mix(sig: U64, w: U64): U64 { Times(Xor(sig, w)) }

  function MixNode(sig: U64, n: Node): U64 { Mix(Mix(sig, FlagWord(n.flags)), n.epoch) }

  function SigFrom(ns: seq<Node>, i: nat, sig: U64): U64
    requires i <= |ns|
    decreases |ns| - i
  {
    if i == |ns| then sig else SigFrom(ns, i + 1, MixNode(sig, ns[i]))
  }

  /** cluster_state_signature */
  function Signature(ns: seq<Node>, dirty: bool): U64 {
    Mix(SigFrom(ns, 0, 1469598103934665603), if dirty then 1 else 0)
  }

  // ---------------------------------------------------------------- the mixing step loses nothing

  lemma XorHalves(a: nat, b: nat)
    ensures Xor(a, b) / 2 == Xor(a / 2, b / 2) && Xor(a, b) % 2 == (a + b) % 2
  {
  }

  lemma Parity(a: nat, b: nat, w: nat)
    ensures (a + b) % 2 == 1 <==> a % 2 != b % 2
    ensures (a + w) % 2 == (b + w) % 2 ==> a % 2 == b % 2
    ensures (w + a) % 2 == (w + b) % 2 ==> a % 2 == b % 2
  {
  }

  lemma Halves(a: nat, b: nat)
    requires a / 2 == b / 2 && a % 2 == b % 2
    ensures a == b
  {
  }

  /** Xor is exclusive or on every bit. */
  lemma {:induction false} XorBits(a: nat, b: nat, k: nat)
    ensures Bit(Xor(a, b), k) <==> Bit(a, k) != Bit(b, k)
    decreases k
  {
    hide Xor;
    XorHalves(a, b);
    Parity(a, b, 0);
    if k > 0 { XorBits(a / 2, b / 2, k - 1); }
  }

  lemma {:induction false} XorBound(a: nat, b: nat, n: nat)
    requires a < Pow2(n) && b < Pow2(n)
    ensures Xor(a, b) < Pow2(n)
    decreases n
  {
    XorHalves(a, b);
    if n > 0 { XorBound(a / 2, b / 2, n - 1); }
  }

  lemma {:induction false} XorInjective(a: nat, b: nat, w: nat)
    ensures Xor(a, w) == Xor(b, w) ==> a == b
    ensures Xor(w, a) == Xor(w, b) ==> a == b
    decreases a + b + w
  {
    hide Xor;
    if a + b + w > 0 {
      XorInjective(a / 2, b / 2, w / 2);
      XorHalves(a, w);
      XorHalves(b, w);
      XorHalves(w, a);
      XorHalves(w, b);
      Parity(a, b, w);
      if a / 2 == b / 2 && a % 2 == b % 2 { Halves(a, b); }
    }
  }

  /** The prime has an inverse in 64 bits. */
  lemma TimesBack(x: U64)
    ensures Times(x) * INVERSE % WIDTH == x
  {
    var q, t := x * PRIME / WIDTH, Times(x);
    assert x * PRIME == WIDTH * q + t;
    var a := 887285111055 * x - INVERSE * q;
    assert t * INVERSE == WIDTH * a + x;
    ModUnique(t * INVERSE, WIDTH, a, x);
  }

  lemma Pow2Of64()
    ensures Pow2(64) == WIDTH
  {
    assert Pow2(4) == 16;
    hide Pow2;
    assert Pow2(8) == 0x100 by { Pow2Sum(4, 4); }
    assert Pow2(16) == 0x1_0000 by { Pow2Sum(8, 8); }
    assert Pow2(32) == 0x1_0000_0000 by { Pow2Sum(16, 16); }
    assert Pow2(64) == WIDTH by { Pow2Sum(32, 32); }
  }

  lemma {:induction false} Pow2Sum(m: nat, n: nat)
    ensures Pow2(m + n) == Pow2(m) * Pow2(n)
  {
    if m > 0 { Pow2Sum(m - 1, n); }
  }

  /** The mixing step is injective in each argument. */
  lemma MixInjective(a: U64, b: U64, w: U64)
    ensures Mix(a, w) == Mix(b, w) ==> a == b
    ensures Mix(w, a) == Mix(w, b) ==> a == b
  {
    Pow2Of64();
    hide Times, Xor, Pow2;
    XorBound(a, w, 64);
    XorBound(b, w, 64);
    XorBound(w, a, 64);
    XorBound(w, b, 64);
    TimesBack(Xor(a, w));
    TimesBack(Xor(b, w));
    TimesBack(Xor(w, a));
    TimesBack(Xor(w, b));
    XorInjective(a, b, w);
  }

  lemma LowBit(x: nat, y: nat, p: nat, q: nat)
    requires x <= 1 && y <= 1 && x + 2 * p == y + 2 * q
    ensures x == y && p == q
  {
  }

  lemma {:induction false} FlagsRead(a: set<Flag>, b: set<Flag>, k: nat, i: nat)
    requires k <= i < 8 && FlagsFrom(a, k) == FlagsFrom(b, k)
    ensures Unit(a, i) == Unit(b, i)
    decreases i - k
  {
    hide Unit, Pow2;
    LowBit(Unit(a, k), Unit(b, k), FlagsFrom(a, k + 1), FlagsFrom(b, k + 1));
    if k < i { FlagsRead(a, b, k + 1, i); }
  }

  lemma UnitMeans(flags: set<Flag>, f: Flag)
    ensures BitOf(f) < 8 && (Unit(flags, BitOf(f)) == 1 <==> f in flags)
  {
  }

  lemma FlagWordInjective(a: set<Flag>, b: set<Flag>)
    ensures FlagWord(a) == FlagWord(b) ==> a == b
  {
    hide FlagsFrom, Unit, BitOf;
    if FlagWord(a) == FlagWord(b) {
      forall f ensures f in a <==> f in b {
        UnitMeans(a, f);
        UnitMeans(b, f);
        FlagsRead(a, b, 0, BitOf(f));
      }
    }
  }

  // ---------------------------------------------------------------- one change is noticed

  /** From different starts the same nodes lead to different signatures. */
  lemma {:induction false} SigKeepsApart(ns: seq<Node>, now: seq<Node>, i: nat, a: U64, b: U64)
    requires i <= |ns| == |now| && a != b && forall k :: i <= k < |ns| ==> now[k] == ns[k]
    ensures SigFrom(ns, i, a) != SigFrom(now, i, b)
    decreases |ns| - i
  {
    hide Mix, FlagWord;
    if i < |ns| {
      var w := FlagWord(ns[i].flags);
      MixInjective(a, b, w);
      MixInjective(Mix(a, w), Mix(b, w), ns[i].epoch);
      SigKeepsApart(ns, now, i + 1, MixNode(a, ns[i]), MixNode(b, now[i]));
    }
  }

  lemma NodeMixesApart(sig: U64, n: Node, m: Node)
    requires m.flags != n.flags && m.epoch == n.epoch
    ensures MixNode(sig, n) != MixNode(sig, m)
  {
    hide Mix, FlagWord;
    var v, w := FlagWord(n.flags), FlagWord(m.flags);
    FlagWordInjective(n.flags, m.flags);
    MixInjective(v, w, sig);
    MixInjective(Mix(sig, v), Mix(sig, w), n.epoch);
  }

  lemma {:induction false} SigSees(ns: seq<Node>, i: nat, m: Node, k: nat, sig: U64)
    requires k <= i < |ns| && m.flags != ns[i].flags && m.epoch == ns[i].epoch
    ensures SigFrom(ns, k, sig) != SigFrom(ns[i := m], k, sig)
    decreases i - k
  {
    hide MixNode;
    if k < i {
      SigSees(ns, i, m, k + 1, MixNode(sig, ns[k]));
    } else {
      NodeMixesApart(sig, ns[i], m);
      SigKeepsApart(ns, ns[i := m], i + 1, MixNode(sig, ns[i]), MixNode(sig, m));
    }
  }

  /** A change of the flags of one node always changes the signature. */
  lemma SignatureSees(ns: seq<Node>, i: nat, m: Node, dirty: bool)
    requires i < |ns| && m.flags != ns[i].flags && m.epoch == ns[i].epoch
    ensures Signature(ns, dirty) != Signature(ns[i := m], dirty)
  {
    hide Mix, SigFrom;
    SigSees(ns, i, m, 0, 1469598103934665603);
    var a, b := SigFrom(ns, 0, 1469598103934665603), SigFrom(ns[i := m], 0, 1469598103934665603);
    MixInjective(a, b, if dirty then 1 else 0);
  }
}
