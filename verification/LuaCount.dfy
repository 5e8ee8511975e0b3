/** Counting the keys of a Lua table before it is resized. */
module LuaCount {
  import opened Basics
  import opened LuaNodes
  import opened LuaSizes
  import opened LuaEntries

  /** The integers of a set of keys that could index an array part. */
  ghost function IntsOf(keys: set<Key>): set<nat> {
    set x: nat | 1 <= x <= Pow2(MAXBITS) && Int(x) in keys
  }

  /** The first i slots of the array part that hold a value, as keys. */
  ghost function ArrKeys<V>(arr: seq<Value<V>>, i: nat): set<Key> {
    set x: nat | 1 <= x <= i && x <= |arr| && arr[x - 1] != Nil :: Int(x)
  }

  /** The keys with a value from node i on. */
  ghost function NodeKeys<V>(ns: seq<Node<V>>, i: nat): set<Key> {
    set j | i <= j < |ns| && ns[j].val != Nil :: ns[j].key
  }

  ghost predicate Counts(nums: seq<nat>, keys: set<Key>) {
    |nums| == MAXBITS + 1 && forall j :: 0 <= j <= MAXBITS ==> nums[j] == CountAt(IntsOf(keys), j)
  }

  predicate ArrayIndex(key: Key) { key.Int? && 1 <= key.i <= Pow2(MAXBITS) }

  lemma IntsAdd(keys: set<Key>, key: Key)
    ensures IntsOf(keys + {key}) == if ArrayIndex(key) then IntsOf(keys) + {key.i} else IntsOf(keys)
  {
  }

  method CountInt(key: Key, nums: seq<nat>, ghost keys: set<Key>) returns (now: seq<nat>, c: nat)
    requires Counts(nums, keys) && key !in keys
    ensures Counts(now, keys + {key}) && |IntsOf(keys + {key})| == |IntsOf(keys)| + c
  {
    IntsAdd(keys, key);
    if ArrayIndex(key) {
      CeilLog2Least(key.i, MAXBITS);
      var l := CeilLog2(key.i);
      forall j | 0 <= j <= MAXBITS
        ensures CountAt(IntsOf(keys + {key}), j) == CountAt(IntsOf(keys), j) + if l == j then 1 else 0
      {
        CountAdd(IntsOf(keys), key.i, j);
      }
      return nums[l := nums[l] + 1], 1;
    }
    return nums, 0;
  }

  lemma ArrKeysStep<V>(arr: seq<Value<V>>, i: nat)
    requires i < |arr|
    ensures ArrKeys(arr, i + 1) == if arr[i] != Nil then ArrKeys(arr, i) + {Int(i + 1)} else ArrKeys(arr, i)
    ensures Int(i + 1) !in ArrKeys(arr, i)
  {
  }

  lemma NotCounted<V>(arr: seq<Value<V>>, i: nat)
    ensures i + 1 !in IntsOf(ArrKeys(arr, i))
  {
  }

  /** The next slot of the array, of slice lg, changes the counts of that slice only. */
  lemma SliceStep<V>(arr: seq<Value<V>>, i: nat, lg: nat)
    requires i < |arr| <= Pow2(MAXBITS) && i + 1 <= Pow2(lg) && (lg > 0 ==> i + 1 > Pow2(lg - 1))
    ensures var c := if arr[i] != Nil then 1 else 0;
            && (forall j :: CountAt(IntsOf(ArrKeys(arr, i + 1)), j) ==
                  CountAt(IntsOf(ArrKeys(arr, i)), j) + if j == lg then c else 0)
            && |IntsOf(ArrKeys(arr, i + 1))| == |IntsOf(ArrKeys(arr, i))| + c
  {
    hide CountAt, ArrKeys, CeilLog2, IntsOf, Pow2;
    ArrKeysStep(arr, i);
    CeilLog2Least(i + 1, lg);
    if lg > 0 { CeilLog2Least(i + 1, lg - 1); }
    var s, x := IntsOf(ArrKeys(arr, i)), i + 1;
    if arr[i] != Nil {
      NotCounted(arr, i);
      IntsAdd(ArrKeys(arr, i), Int(x));
      forall j ensures CountAt(s + {x}, j) == CountAt(s, j) + if j == lg then 1 else 0 { CountAdd(s, x, j); }
    }
  }

  lemma NoKeys(j: nat)
    ensures IntsOf({}) == {} && CountAt({}, j) == 0
  {
  }

  /** numusearray: counts the slots in use, slice by slice. */
  method NumUseArray<V>(arr: seq<Value<V>>) returns (nums: seq<nat>, ause: nat)
    requires |arr| <= Pow2(MAXBITS)
    ensures Counts(nums, ArrKeys(arr, |arr|)) && ause == |IntsOf(ArrKeys(arr, |arr|))|
  {
    hide CountAt, IntsOf, Pow2;
    nums, ause := seq(MAXBITS + 1, _ => 0), 0;
    var i, lg, ttlg := 1, 0, 1;
    assert ArrKeys(arr, 0) == {};
    forall j: nat ensures CountAt({}, j) == 0 { NoKeys(j); }
    NoKeys(0);
    assert IntsOf(ArrKeys(arr, 0)) == {};
    PowStep(0);
    assert |IntsOf(ArrKeys(arr, 0))| == 0;
    while lg <= MAXBITS
      invariant lg <= MAXBITS + 1 && ttlg == Pow2(lg) && 1 <= i <= |arr| + 1
      invariant (lg == 0 && i == 1) || (lg > 0 && (i == Pow2(lg - 1) + 1 || (i == |arr| + 1 && |arr| <= Pow2(lg - 1))))
      invariant Counts(nums, ArrKeys(arr, i - 1)) && ause == |IntsOf(ArrKeys(arr, i - 1))|
      invariant forall j :: lg <= j <= MAXBITS ==> nums[j] == 0
    {
      var lc, lim := 0, ttlg;
      if lim > |arr| {
        lim := |arr|;
        if i > lim { break; }
      }
      PowStep(lg);
      if lg > 0 { PowStep(lg - 1); }
      while i <= lim
        invariant i <= lim + 1 && (lg > 0 ==> i > Pow2(lg - 1)) && i >= 1
        invariant forall j :: 0 <= j <= MAXBITS ==>
          CountAt(IntsOf(ArrKeys(arr, i - 1)), j) == nums[j] + if j == lg then lc else 0
        invariant |IntsOf(ArrKeys(arr, i - 1))| == ause + lc
      {
        SliceStep(arr, i - 1, lg);
        if arr[i - 1] != Nil { lc := lc + 1; }
        i := i + 1;
      }
      nums := nums[lg := nums[lg] + lc];
      ause := ause + lc;
      lg, ttlg := lg + 1, ttlg * 2;
    }
    if lg == MAXBITS + 1 { assert i == |arr| + 1; }
  }

  lemma PowStep(n: nat)
    ensures Pow2(0) == 1 && Pow2(n + 1) == 2 * Pow2(n)
  {
  }

  lemma NodeKeysStep<V>(ns: seq<Node<V>>, i: nat, keys: set<Key>)
    requires UniqueKeys(ns) && FreeApart(ns) && i < |ns| && NodeKeys(ns, 0) !! keys
    ensures ns[i].val == Nil ==> NodeKeys(ns, i) == NodeKeys(ns, i + 1)
    ensures ns[i].val != Nil ==>
      && keys + NodeKeys(ns, i) == keys + NodeKeys(ns, i + 1) + {ns[i].key}
      && |NodeKeys(ns, i)| == |NodeKeys(ns, i + 1)| + 1 && ns[i].key !in keys + NodeKeys(ns, i + 1)
  {
    if ns[i].val != Nil {
      assert ns[i].key in NodeKeys(ns, 0);
      assert NodeKeys(ns, i) == NodeKeys(ns, i + 1) + {ns[i].key};
      assert ns[i].key !in NodeKeys(ns, i + 1);
    }
  }

  lemma NodeKeysEnd<V>(ns: seq<Node<V>>, keys: set<Key>)
    ensures NodeKeys(ns, |ns|) == {} && keys + NodeKeys(ns, |ns|) == keys
  {
  }

  /** numusehash: counts the nodes in use, adding to the counts of the array part. */
  method NumUseHash<V>(ns: seq<Node<V>>, nums0: seq<nat>, ghost keys: set<Key>)
    returns (nums: seq<nat>, ause: nat, total: nat)
    requires UniqueKeys(ns) && FreeApart(ns) && Counts(nums0, keys) && NodeKeys(ns, 0) !! keys
    ensures Counts(nums, keys + NodeKeys(ns, 0)) && total == |NodeKeys(ns, 0)|
    ensures |IntsOf(keys + NodeKeys(ns, 0))| == |IntsOf(keys)| + ause
  {
    hide Counts, IntsOf, UniqueKeys, FreeApart, NodeKeys;
    nums, ause, total := nums0, 0, 0;
    var i := |ns|;
    NodeKeysEnd(ns, keys);
    while i > 0
      invariant 0 <= i <= |ns| && Counts(nums, keys + NodeKeys(ns, i)) && total == |NodeKeys(ns, i)|
      invariant |IntsOf(keys + NodeKeys(ns, i))| == |IntsOf(keys)| + ause
    {
      i := i - 1;
      NodeKeysStep(ns, i, keys);
      if ns[i].val != Nil {
        var c;
        nums, c := CountInt(ns[i].key, nums, keys + NodeKeys(ns, i + 1));
        ause, total := ause + c, total + 1;
      }
    }
  }

  // ---------------------------------------------------------------- the keys with a value

  ghost function LiveKeys<V>(arr: seq<Value<V>>, ns: seq<Node<V>>): set<Key> {
    ArrKeys(arr, |arr|) + NodeKeys(ns, 0)
  }

  lemma LiveIff<V>(arr: seq<Value<V>>, ns: seq<Node<V>>, k: Key)
    requires Split(arr, ns) && UniqueKeys(ns) && FreeApart(ns)
    ensures k in LiveKeys(arr, ns) <==> Look(arr, ns, k) != Nil
  {
    if InArr(|arr|, k) {
      assert k in ArrKeys(arr, |arr|) <==> arr[k.i - 1] != Nil;
      assert k !in NodeKeys(ns, 0);
    } else {
      assert k !in ArrKeys(arr, |arr|);
      if k in NodeKeys(ns, 0) {
        var j :| 0 <= j < |ns| && ns[j].val != Nil && ns[j].key == k;
        InNodesAt(ns, j);
      }
    }
  }

  lemma LiveDisjoint<V>(arr: seq<Value<V>>, ns: seq<Node<V>>)
    requires Split(arr, ns)
    ensures NodeKeys(ns, 0) !! ArrKeys(arr, |arr|)
  {
  }

  lemma {:induction false} IntImage(s: set<nat>)
    ensures |set x | x in s :: Int(x)| == |s|
  {
    if s != {} {
      var y :| y in s;
      IntImage(s - {y});
      assert (set x | x in s :: Int(x)) == (set x | x in s - {y} :: Int(x)) + {Int(y)};
    }
  }

  /** The keys that do not go to an array part of a given size. */
  ghost function Rest(keys: set<Key>, size: nat): set<Key> {
    set k | k in keys && !InArr(size, k)
  }

  lemma RestSize(keys: set<Key>, size: nat)
    requires size <= Pow2(MAXBITS)
    ensures |Rest(keys, size)| == |keys| - |Upto(IntsOf(keys), size)|
  {
    var u := Upto(IntsOf(keys), size);
    var image := set x | x in u :: Int(x);
    IntImage(u);
    assert keys == Rest(keys, size) + image by {
      forall k | k in keys && InArr(size, k) ensures k in image { assert k.i in u; }
    }
    assert Rest(keys, size) !! image;
  }

  lemma ArrKeysSize<V>(arr: seq<Value<V>>)
    requires |arr| <= Pow2(MAXBITS)
    ensures |ArrKeys(arr, |arr|)| == |IntsOf(ArrKeys(arr, |arr|))|
  {
    var s := IntsOf(ArrKeys(arr, |arr|));
    IntImage(s);
    assert (set x | x in s :: Int(x)) == ArrKeys(arr, |arr|) by {
      forall k | k in ArrKeys(arr, |arr|) ensures k in (set x | x in s :: Int(x)) { assert k.i in s; }
    }
  }
}
