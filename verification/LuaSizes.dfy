/** Choosing the size of a table's array part: counting integer keys by powers of two. */
module LuaSizes {
  import opened Basics

  const MAXBITS := 26

  function CeilLog2(k: nat): nat {
    if k <= 1 then 0 else 1 + CeilLog2((k + 1) / 2)
  }

  /** CeilLog2(k) is the least exponent whose power of two reaches k. */
  lemma {:induction false} CeilLog2Least(k: nat, i: nat)
    ensures k <= Pow2(i) <==> CeilLog2(k) <= i
    decreases i
  {
    if k >= 2 && i > 0 {
      CeilLog2Least((k + 1) / 2, i - 1);
    }
  }

  lemma {:induction false} Pow2Mono(i: nat, j: nat)
    requires i <= j
    ensures Pow2(i) <= Pow2(j)
    decreases j
  {
    if i < j { Pow2Mono(i, j - 1); }
  }

  // ---------------------------------------------------------------- counts

  /** How many of the counted keys lie between 2^(j-1) and 2^j. */
  ghost function CountAt(s: set<nat>, j: nat): nat {
    |set x | x in s && CeilLog2(x) == j|
  }

  ghost function Below(s: set<nat>, i: nat): set<nat> {
    set x | x in s && CeilLog2(x) < i
  }

  /** How many of the counted keys are at most n. */
  ghost function Upto(s: set<nat>, n: nat): set<nat> {
    set x | x in s && x <= n
  }

  lemma CountAdd(s: set<nat>, x: nat, j: nat)
    requires x !in s
    ensures CountAt(s + {x}, j) == CountAt(s, j) + if CeilLog2(x) == j then 1 else 0
  {
    var now := set y | y in s + {x} && CeilLog2(y) == j;
    var was := set y | y in s && CeilLog2(y) == j;
    assert now == was + if CeilLog2(x) == j then {x} else {};
  }

  lemma BelowStep(s: set<nat>, i: nat)
    ensures |Below(s, i + 1)| == |Below(s, i)| + CountAt(s, i)
  {
    var at := set x | x in s && CeilLog2(x) == i;
    assert Below(s, i + 1) == Below(s, i) + at && Below(s, i) !! at;
  }

  lemma BelowIsUpto(s: set<nat>, i: nat)
    ensures Below(s, i + 1) == Upto(s, Pow2(i))
  {
    forall x | x in s ensures x in Below(s, i + 1) <==> x in Upto(s, Pow2(i)) { CeilLog2Least(x, i); }
  }

  lemma {:induction false} UptoBound(s: set<nat>, n: nat)
    requires 0 !in s
    ensures |Upto(s, n)| <= n
  {
    if n == 0 {
      assert Upto(s, 0) == {};
    } else {
      UptoBound(s, n - 1);
      assert Upto(s, n) == Upto(s, n - 1) + if n in s then {n} else {};
    }
  }

  lemma UptoSubset(s: set<nat>, n: nat)
    ensures |Upto(s, n)| <= |s|
  {
    SubsetSize(Upto(s, n), s);
  }

  /** More than half of the first n places would be used. */
  ghost predicate Dense(s: set<nat>, n: nat) { 2 * |Upto(s, n)| > n }

  /** The size of the array part: the largest power of two of which more than half the places would be
      used, and the number of keys that go there. */
  method ComputeSizes(nums: seq<nat>, narray: nat, ghost s: set<nat>) returns (na: nat, size: nat)
    requires |nums| == MAXBITS + 1 && 0 !in s && |s| == narray
    requires forall j :: 0 <= j <= MAXBITS ==> nums[j] == CountAt(s, j)
    requires forall x :: x in s ==> x <= Pow2(MAXBITS)
    ensures na == |Upto(s, size)| && (size == 0 || exists i :: 0 <= i <= MAXBITS && size == Pow2(i))
    ensures size > 0 ==> Dense(s, size)
    ensures forall i :: 0 <= i <= MAXBITS && Dense(s, Pow2(i)) ==> Pow2(i) <= size
  {
    hide CeilLog2, Upto, Below, CountAt, Dense, Pow2;
    assert Pow2(0) == 1 by { DenseAt(s, 0); }
    var i: nat, twotoi: nat, a: nat := 0, 1, 0;
    na, size := 0, 0;
    assert Upto(s, 0) == {} && Below(s, 0) == {} by { Empties(s); }
    while twotoi / 2 < narray
      invariant twotoi == Pow2(i) && i <= MAXBITS + 1 && a == |Below(s, i)|
      invariant na == |Upto(s, size)| && (size == 0 || exists k :: 0 <= k <= MAXBITS && size == Pow2(k))
      invariant size > 0 ==> Dense(s, size)
      invariant forall k :: 0 <= k < i && Dense(s, Pow2(k)) ==> Pow2(k) <= size
      invariant size < twotoi
      decreases MAXBITS + 1 - i
    {
      RangeLeft(s, i);
      BelowStep(s, i);
      BelowIsUpto(s, i);
      DenseAt(s, i);
      if nums[i] > 0 {
        a := a + nums[i];
        if a > twotoi / 2 {
          size := twotoi;
          na := a;
        }
      } else { NotDense(s, i); }
      if a == narray {
        forall k | i < k <= MAXBITS ensures !Dense(s, Pow2(k)) { Exhausted(s, i, k); }
        return;
      }
      i, twotoi := i + 1, twotoi * 2;
    }
    forall k | i <= k <= MAXBITS ensures !Dense(s, Pow2(k)) {
      HalfPow(i);
      TooLarge(s, i, k);
    }
  }

  lemma DenseAt(s: set<nat>, i: nat)
    ensures Pow2(0) == 1 && Pow2(i + 1) == 2 * Pow2(i)
    ensures |Upto(s, Pow2(i))| > Pow2(i) / 2 <==> Dense(s, Pow2(i))
  {
  }

  lemma HalfPow(i: nat)
    ensures i > 0 ==> Pow2(i) == 2 * (Pow2(i) / 2)
  {
  }

  lemma Empties(s: set<nat>)
    requires 0 !in s
    ensures Upto(s, 0) == {} && Below(s, 0) == {}
  {
  }

  lemma RangeLeft(s: set<nat>, i: nat)
    requires 0 !in s && Pow2(i) / 2 < |s| && i <= MAXBITS + 1 && forall x :: x in s ==> x <= Pow2(MAXBITS)
    ensures i <= MAXBITS
  {
    UptoBound(s, Pow2(MAXBITS));
    assert Upto(s, Pow2(MAXBITS)) == s;
    assert Pow2(MAXBITS + 1) == 2 * Pow2(MAXBITS);
  }

  /** A power of two that adds no key cannot be more than half used. */
  lemma NotDense(s: set<nat>, i: nat)
    requires 0 !in s && CountAt(s, i) == 0
    ensures !Dense(s, Pow2(i))
  {
    BelowStep(s, i);
    BelowIsUpto(s, i);
    if i == 0 {
      Empties(s);
    } else {
      BelowIsUpto(s, i - 1);
      UptoBound(s, Pow2(i - 1));
    }
  }

  /** With at most 2^i / 2 keys in all, no power from i on is more than half used. */
  lemma TooLarge(s: set<nat>, i: nat, k: nat)
    requires i <= k && 2 * |s| <= Pow2(i)
    ensures !Dense(s, Pow2(k))
  {
    UptoSubset(s, Pow2(k));
    Pow2Mono(i, k);
  }

  /** With all keys at most 2^i, no later power is more than half used. */
  lemma Exhausted(s: set<nat>, i: nat, k: nat)
    requires 0 !in s && |Below(s, i + 1)| == |s| && i < k
    ensures !Dense(s, Pow2(k))
  {
    BelowIsUpto(s, i);
    UptoBound(s, Pow2(i));
    assert Pow2(i + 1) == 2 * Pow2(i);
    TooLarge(s, i + 1, k);
  }
}
