/** Lua tables: lookup, the entry of new keys, and the resizing that entering a key may need. */
module LuaTable {
  import opened Basics
  import opened LuaNodes
  import opened LuaInsert
  import opened LuaSizes
  import opened LuaEntries
  import opened LuaCount

  /** Entering a key keeps the table well formed, given the new value of lastfree. */
  lemma EnteredOk<V>(mp: MainPos, arr: seq<Value<V>>, ns: seq<Node<V>>, now: seq<Node<V>>, tail: Tails, key: Key,
                     at: nat, lastfree: int)
    requires NodesOk(mp, now, tail) && Entered(ns, now, key, at) && Split(arr, ns) && !InArr(|arr|, key)
    requires |arr| <= Pow2(MAXBITS)
    requires lastfree <= |ns| && forall i :: 0 <= i < |ns| && lastfree <= i ==> now[i].key != NilKey
    ensures TableOk(mp, arr, now, false, lastfree, tail)
    ensures forall k :: Look(arr, now, k) == Look(arr, ns, k)
  {
    hide NodesOk, InNodes;
    forall i | 0 <= i < |now| ensures !InArr(|arr|, now[i].key) {
      if now[i].key != NilKey { assert now[i].key in KeySet(now); }
    }
  }

  lemma ChainStart<V>(mp: MainPos, ns: seq<Node<V>>, tail: Tails, i: nat)
    requires NodesOk(mp, ns, tail) && i < |ns| && ns[i].key != NilKey
    ensures |tail| == |ns| && mp(ns[i].key, |ns|) < |ns| && i in tail[mp(ns[i].key, |ns|)]
  {
  }

  lemma ChainStep<V>(mp: MainPos, ns: seq<Node<V>>, tail: Tails, i: nat, cur: nat)
    requires NodesOk(mp, ns, tail) && cur < |ns| && |tail| == |ns| && i in tail[cur] && i != cur
    ensures 0 <= ns[cur].next < |ns| && i in tail[ns[cur].next]
  {
    TailHead(ns, tail, cur);
  }

  lemma NextBounds<V>(mp: MainPos, ns: seq<Node<V>>, tail: Tails, cur: nat)
    requires NodesOk(mp, ns, tail) && cur < |ns|
    ensures |tail| == |ns| && -1 <= ns[cur].next < |ns|
    ensures ns[cur].next != -1 ==> |tail[ns[cur].next]| < |tail[cur]|
  {
    TailHead(ns, tail, cur);
  }

  /** An empty node vector is well formed. */
  lemma EmptyOk<V>(mp: MainPos, n: nat, ns: seq<Node<V>>, tail: Tails)
    requires IsMainPos(mp) && n > 0 && |ns| == n && |tail| == n
    requires forall i :: 0 <= i < n ==> ns[i] == Node(NilKey, Nil, -1) && tail[i] == [i]
    ensures NodesOk(mp, ns, tail) && KeySet(ns) == {} && forall k :: InNodes(ns, k) == Nil
  {
  }

  ghost predicate Fits<V>(ns: seq<Node<V>>, dummy: bool, keys: set<Key>) {
    KeySet(ns) <= keys && (if dummy then keys == {} else |keys| <= |ns|)
  }

  lemma FitsLeavesRoom<V>(ns: seq<Node<V>>, dummy: bool, keys: set<Key>, key: Key)
    requires Fits(ns, dummy, keys) && key in keys && !HasKey(ns, key)
    ensures !dummy && |KeySet(ns)| < |ns|
  {
    assert key !in KeySet(ns);
    SubsetSize(KeySet(ns), keys - {key});
  }

  class Table<V> {
    const mp: MainPos
    var arr: seq<Value<V>>
    var node: seq<Node<V>>
    var dummy: bool
    var lastfree: int
    ghost var tail: Tails

    ghost predicate Valid()
      reads this
    {
      TableOk(mp, arr, node, dummy, lastfree, tail)
    }

    /** The value of a key. */
    ghost function At(key: Key): Value<V>
      reads this
    {
      Look(arr, node, key)
    }

    ghost predicate Points(loc: Loc, key: Key)
      reads this
    {
      match loc
      case None => key == NilKey || (!InArr(|arr|, key) && !HasKey(node, key))
      case InArray(a) => InArr(|arr|, key) && a == key.i - 1
      case InHash(h) => key != NilKey && !InArr(|arr|, key) && h < |node| && node[h].key == key
    }

    /** luaH_new */
    constructor (mp: MainPos, narray: nat, nhash: nat)
      requires IsMainPos(mp) && narray <= Pow2(MAXBITS)
      ensures Valid() && this.mp == mp && forall k :: At(k) == Nil
    {
      this.mp := mp;
      arr := seq(narray, _ => Nil);
      node, dummy, lastfree, tail := [], true, 0, [];
      new;
      SetNodeVector(nhash);
    }

    /** setnodevector */
    method SetNodeVector(size: nat)
      requires IsMainPos(mp) && |arr| <= Pow2(MAXBITS)
      modifies this`node, this`dummy, this`lastfree, this`tail
      ensures Valid() && dummy == (size == 0) && KeySet(node) == {} && size <= |node|
      ensures forall k :: InNodes(node, k) == Nil
    {
      hide NodesOk, InNodes, KeySet, CeilLog2, Pow2;
      var n := if size == 0 then 1 else Pow2(CeilLog2(size));
      CeilLog2Least(size, CeilLog2(size));
      node := seq(n, _ => Node(NilKey, Nil, -1));
      tail := seq(n, i => [i]);
      dummy := size == 0;
      lastfree := if dummy then 0 else n;
      EmptyOk(mp, n, node, tail);
    }

    /** The walk over the chain of a key's main position. */
    method FindNode(key: Key) returns (i: int)
      requires Valid() && key != NilKey
      ensures -1 <= i < |node|
      ensures if i == -1 then !HasKey(node, key) else node[i].key == key
    {
      hide NodesOk, FreeOk, Split, Pow2;
      assert IsMainPos(mp) && |node| > 0 && |tail| == |node| by { NodesSize(mp, node, tail); }
      i := mp(key, |node|);
      if HasKey(node, key) { ChainStart(mp, node, tail, Index(node, key)); }
      while i != -1 && node[i].key != key
        invariant -1 <= i < |node|
        invariant HasKey(node, key) ==> i != -1 && Index(node, key) in tail[i]
        decreases if i == -1 then 0 else 1 + |tail[i]|
      {
        NextBounds(mp, node, tail, i);
        if HasKey(node, key) { ChainStep(mp, node, tail, Index(node, key), i); }
        i := node[i].next;
      }
    }

    /** luaH_get, as the place of the value. */
    method Locate(key: Key) returns (loc: Loc)
      requires Valid()
      ensures Points(loc, key)
    {
      hide NodesOk, FreeOk, Split, Pow2, HasKey;
      if key == NilKey { return None; }
      if InArr(|arr|, key) { return InArray(key.i - 1); }
      var i := FindNode(key);
      if i == -1 { return None; }
      return InHash(i);
    }

    method Get(key: Key) returns (v: Value<V>)
      requires Valid()
      ensures v == At(key)
    {
      var loc := Locate(key);
      hide NodesOk, FreeOk, Split, Pow2;
      match loc
      case None => v := Nil;
      case InArray(a) => v := arr[a];
      case InHash(h) =>
        NodesUnique(mp, node, tail);
        InNodesAt(node, h);
        v := node[h].val;
    }

    /** Storing through the place that a set returned. */
    method Write(loc: Loc, v: Value<V>, ghost key: Key)
      requires Valid() && Points(loc, key) && loc != None
      modifies this`arr, this`node
      ensures Valid() && |arr| == old(|arr|) && |node| == old(|node|) && KeySet(node) == old(KeySet(node))
      ensures forall k :: At(k) == if k == key then v else old(At(k))
    {
      hide NodesOk, Pow2, InNodes;
      match loc
      case InArray(a) => arr := arr[a := v];
      case InHash(h) =>
        NodesSize(mp, node, tail);
        SetValueOk(mp, node, tail, h, v);
        node := Stored(node, h, v);
        assert forall i :: 0 <= i < |node| ==> node[i].key == old(node)[i].key;
    }

    /** getfreepos */
    method FreePos() returns (f: int)
      requires FreeOk(node, dummy, lastfree)
      modifies this`lastfree
      ensures -1 <= f < |node|
      ensures f == -1 ==>
        FreeOk(node, dummy, lastfree) && (dummy || forall i :: 0 <= i < |node| ==> node[i].key != NilKey)
      ensures f >= 0 ==> !dummy && node[f].key == NilKey && lastfree == f
      ensures f >= 0 ==> forall i :: f < i < |node| ==> node[i].key != NilKey
    {
      while lastfree > 0
        invariant FreeOk(node, dummy, lastfree)
        decreases lastfree
      {
        lastfree := lastfree - 1;
        if node[lastfree].key == NilKey { return lastfree; }
      }
      lastfree := lastfree - 1;
      return -1;
    }

    /** The node before p in the chain that starts at m. */
    method FindPrev(m: nat, p: nat) returns (prev: nat)
      requires NodesOk(mp, node, tail) && m < |node| && p < |node| && m != p && |tail| == |node| && p in tail[m]
      ensures prev < |node| && prev != p && node[prev].next == p
    {
      hide NodesOk;
      prev := m;
      ChainStep(mp, node, tail, p, prev);
      while node[prev].next != p
        invariant prev < |node| && prev != p && p in tail[prev] && 0 <= node[prev].next < |node|
        decreases |tail[prev]|
      {
        ChainStep(mp, node, tail, p, prev);
        NextBounds(mp, node, tail, prev);
        prev := node[prev].next;
        ChainStep(mp, node, tail, p, prev);
      }
    }

    /** newkey: the key gets a place without a value. A rehash happens only when no node is free. */
    method NewKey(key: Key, ghost roomy: bool) returns (loc: Loc)
      requires Valid() && key != NilKey && !InArr(|arr|, key) && !HasKey(node, key)
      requires roomy ==> !dummy && |KeySet(node)| < |node|
      modifies this
      ensures Valid() && loc != None && Points(loc, key) && forall k :: At(k) == old(At(k))
      ensures roomy ==> arr == old(arr) && |node| == old(|node|) && !dummy && KeySet(node) <= old(KeySet(node)) + {key}
      decreases if roomy then 0 else 6
    {
      hide NodesOk, Pow2, InNodes, KeySet;
      NodesSize(mp, node, tail);
      var p := mp(key, |node|);
      if !node[p].val.Nil? || dummy {
        var f := FreePos();
        if f == -1 {
          assert !roomy by { if !dummy { NodesUnique(mp, node, tail); FullKeySet(node); } }
          Rehash(key);
          loc := Set(key, true);
          return;
        }
        loc := Chain(key, p, f);
      } else {
        loc := Place(key, p);
      }
    }

    /** The main position is free of a value: the key goes there. */
    method Place(key: Key, p: nat) returns (loc: Loc)
      requires Valid() && !dummy && key != NilKey && !InArr(|arr|, key) && !HasKey(node, key)
      requires |node| > 0 && p == mp(key, |node|) < |node| && node[p].val == Nil
      modifies this`node
      ensures Valid() && loc != None && Points(loc, key)
      ensures (forall k :: At(k) == old(At(k))) && |node| == old(|node|) && KeySet(node) <= old(KeySet(node)) + {key}
    {
      hide NodesOk, Pow2, InNodes;
      NodesSize(mp, node, tail);
      PlaceOk(mp, node, tail, p, key);
      NodesUnique(mp, node, tail);
      node := node[p := node[p].(key := key)];
      NodesUnique(mp, node, tail);
      PlaceEntered(old(node), p, key);
      EnteredOk(mp, arr, old(node), node, tail, key, p, lastfree);
      return InHash(p);
    }

    /** A collision: the key takes the free node f, or the colliding node moves there. */
    method Chain(key: Key, p: nat, f: nat) returns (loc: Loc)
      requires NodesOk(mp, node, tail) && Split(arr, node) && |arr| <= Pow2(MAXBITS) && !dummy && key != NilKey
      requires !InArr(|arr|, key) && !HasKey(node, key)
      requires |node| > 0 && p == mp(key, |node|) < |node| && node[p].val != Nil
      requires f < |node| && node[f].key == NilKey && lastfree == f
      requires forall i :: f < i < |node| ==> node[i].key != NilKey
      modifies this`node, this`tail
      ensures Valid() && loc != None && Points(loc, key)
      ensures (forall k :: At(k) == old(At(k))) && |node| == old(|node|) && KeySet(node) <= old(KeySet(node)) + {key}
    {
      hide NodesOk, Pow2, InNodes;
      NodesSize(mp, node, tail);
      NodesUnique(mp, node, tail);
      FreeNodes(mp, node, tail, p, f);
      var other := mp(node[p].key, |node|);
      if other != p {
        ChainStart(mp, node, tail, p);
        var prev := FindPrev(other, p);
        MovedOk(mp, node, tail, p, f, prev, key);
        node, tail := Moved(node, p, f, prev, key), MovedTail(tail, p, f);
        NodesUnique(mp, node, tail);
        MovedEntered(old(node), p, f, prev, key);
        EnteredOk(mp, arr, old(node), node, tail, key, p, lastfree);
        return InHash(p);
      } else {
        BehindOk(mp, node, tail, p, f, key);
        node, tail := Behind(node, p, f, key), BehindTail(tail, p, f);
        NodesUnique(mp, node, tail);
        BehindEntered(old(node), p, f, key);
        EnteredOk(mp, arr, old(node), node, tail, key, f, lastfree);
        return InHash(f);
      }
    }

    /** luaH_set: the place of a key, entering it when it is not there. */
    method Set(key: Key, ghost roomy: bool) returns (loc: Loc)
      requires Valid() && key != NilKey
      requires roomy ==> InArr(|arr|, key) || HasKey(node, key) || (!dummy && |KeySet(node)| < |node|)
      modifies this
      ensures Valid() && loc != None && Points(loc, key) && forall k :: At(k) == old(At(k))
      ensures roomy ==> arr == old(arr) && |node| == old(|node|) && dummy == old(dummy)
      ensures roomy ==>
        KeySet(node) <= old(KeySet(node)) + {key} && (InArr(|arr|, key) ==> KeySet(node) == old(KeySet(node)))
      decreases if roomy then 1 else 7
    {
      hide NodesOk, Pow2, InNodes, KeySet, HasKey, FreeOk, Split;
      loc := Locate(key);
      if loc == None { loc := NewKey(key, roomy); }
    }

    method Reinsert(key: Key, v: Value<V>, ghost keys: set<Key>)
      requires Valid() && key != NilKey && Fits(node, dummy, keys) && (InArr(|arr|, key) || key in keys)
      modifies this
      ensures Valid() && |arr| == old(|arr|) && |node| == old(|node|) && dummy == old(dummy) && Fits(node, dummy, keys)
      ensures forall k :: At(k) == if k == key then v else old(At(k))
      decreases 2
    {
      hide NodesOk, Pow2, InNodes, KeySet, HasKey, FreeOk, Split;
      if !InArr(|arr|, key) && !HasKey(node, key) { FitsLeavesRoom(node, dummy, keys, key); }
      var loc := Set(key, true);
      Write(loc, v, key);
    }

    /** The slots of an array part that vanish are entered again. */
    method ReinsertArray(was: seq<Value<V>>, ghost keys: set<Key>)
      requires Valid() && Fits(node, dummy, keys) && |arr| < |was|
      requires forall k :: At(k) == Upper(was, |arr|, k)
      requires forall i :: |arr| <= i < |was| && was[i] != Nil ==> Int(i + 1) in keys
      modifies this
      ensures Valid() && |arr| == old(|arr|) && |node| == old(|node|) && dummy == old(dummy) && Fits(node, dummy, keys)
      ensures forall k :: At(k) == Upper(was, |was|, k)
      decreases 3
    {
      hide TableOk, InNodes, Fits;
      for i := |arr| to |was|
        invariant Valid() && |arr| == old(|arr|) && |node| == old(|node|) && dummy == old(dummy)
        invariant Fits(node, dummy, keys)
        invariant forall k :: At(k) == Upper(was, i, k)
      {
        if !was[i].Nil? { Reinsert(Int(i + 1), was[i], keys); }
      }
    }

    /** The nodes of the old hash part are entered again, last node first. */
    method ReinsertNodes(was: seq<Node<V>>, ghost wasArr: seq<Value<V>>, ghost keys: set<Key>)
      requires Valid() && Fits(node, dummy, keys) && UniqueKeys(was) && FreeApart(was) && Split(wasArr, was)
      requires forall k :: At(k) == Upper(wasArr, |wasArr|, k)
      requires forall i :: 0 <= i < |was| && was[i].val != Nil ==> InArr(|arr|, was[i].key) || was[i].key in keys
      modifies this
      ensures Valid() && |arr| == old(|arr|) && |node| == old(|node|) && dummy == old(dummy) && Fits(node, dummy, keys)
      ensures forall k :: At(k) == Look(wasArr, was, k)
      decreases 3
    {
      hide TableOk, Look, Later, Fits, Split, UniqueKeys;
      var i := |was|;
      LaterNone(wasArr, was);
      while i > 0
        invariant 0 <= i <= |was|
        invariant Valid() && |arr| == old(|arr|) && |node| == old(|node|) && dummy == old(dummy)
        invariant Fits(node, dummy, keys)
        invariant forall k :: At(k) == Later(wasArr, was, i, k)
      {
        i := i - 1;
        LaterStep(wasArr, was, i);
        if !was[i].val.Nil? { Reinsert(was[i].key, was[i].val, keys); }
      }
      LaterAll(wasArr, was);
    }

    /** resize: the table keeps its contents whatever sizes its parts get. */
    method Resize(nasize: nat, nhsize: nat, ghost keys: set<Key>)
      requires Valid() && nasize <= Pow2(MAXBITS) && |keys| <= nhsize
      requires forall k :: At(k) != Nil && !InArr(nasize, k) ==> k in keys
      modifies this
      ensures Valid() && |arr| == nasize && dummy == (nhsize == 0) && nhsize <= |node| && KeySet(node) <= keys
      ensures forall k :: At(k) == old(At(k))
      decreases 4
    {
      hide NodesOk, Pow2, InNodes, KeySet, HasKey, FreeOk, Split, UniqueKeys, FreeApart;
      NodesSize(mp, node, tail);
      var oldArr, oldNode := arr, node;
      OldKeys(mp, arr, node, tail, nasize, keys);
      if nasize > |arr| { arr := arr + seq(nasize - |arr|, _ => Nil); }
      SetNodeVector(nhsize);
      if nasize < |oldArr| {
        TrimOk(mp, arr, node, dummy, lastfree, tail, nasize);
        arr := arr[..nasize];
        ReinsertArray(oldArr, keys);
      }
      ReinsertNodes(oldNode, oldArr, keys);
    }

    /** luaH_resizearray, which its callers use to grow the array part. */
    method ResizeArray(nasize: nat)
      requires Valid() && |arr| <= nasize <= Pow2(MAXBITS)
      modifies this
      ensures Valid() && |arr| == nasize && forall k :: At(k) == old(At(k))
    {
      hide NodesOk, Pow2, InNodes, Split, UniqueKeys, FreeApart;
      var nsize := if dummy then 0 else |node|;
      KeySetSize(node);
      if dummy { DummyKeys(node); }
      forall k | At(k) != Nil && !InArr(nasize, k) ensures k in KeySet(node) { InNodesKey(node, k); }
      Resize(nasize, nsize, KeySet(node));
    }

    /** rehash: counts the keys, with ek, and resizes so that ek has room. */
    method Rehash(ek: Key)
      requires Valid() && ek != NilKey && !InArr(|arr|, ek) && !HasKey(node, ek)
      modifies this
      ensures Valid() && forall k :: At(k) == old(At(k))
      ensures InArr(|arr|, ek) || (!dummy && |KeySet(node)| < |node|)
      decreases 5
    {
      hide NodesOk, Pow2, InNodes, FreeOk, Split, UniqueKeys, FreeApart;
      hide HasKey, Counts, IntsOf, KeySet, Upto, LiveKeys, Dense;
      ghost var live := LiveKeys(arr, node);
      LiveParts(mp, arr, node, tail, ek);
      var nums, nasize := NumUseArray(arr);
      var nums1, ause, total := NumUseHash(node, nums, ArrKeys(arr, |arr|));
      total, nasize := total + nasize, nasize + ause;
      var nums2, c := CountInt(ek, nums1, live);
      nasize, total := nasize + c, total + 1;
      IntsBounds(live + {ek});
      CountsAll(nums2, live + {ek});
      var na, size := ComputeSizes(nums2, nasize, IntsOf(live + {ek}));
      SizeBound(size);
      RestSize(live + {ek}, size);
      ghost var keys := Rest(live + {ek}, size) - {ek};
      assert |keys| == total - na - if InArr(size, ek) then 0 else 1;
      Resize(size, total - na, keys);
      SubsetSize(KeySet(node), keys);
    }

    /** A table store t[key] = v. */
    method Put(key: Key, v: Value<V>) returns (ok: bool)
      requires Valid()
      modifies this
      ensures Valid() && ok == (key != NilKey)
      ensures forall k :: At(k) == if ok && k == key then v else old(At(k))
    {
      hide NodesOk, Pow2, InNodes, FreeOk, Split, HasKey, KeySet;
      if key == NilKey { return false; }
      var loc := Set(key, false);
      Write(loc, v, key);
      return true;
    }

    /** A border: the key n is present (or n is 0) and n + 1 is not. */
    ghost predicate Border(n: nat)
      reads this
    {
      (n == 0 || At(Int(n)) != Nil) && At(Int(n + 1)) == Nil
    }

    /** The integer keys from i on that have a value. */
    ghost function From(i: nat): set<Key>
      reads this
    {
      set k | k in LiveKeys(arr, node) && k.Int? && k.i >= i
    }

    lemma FromShrinks(i: nat)
      requires Valid() && At(Int(i)) != Nil
      ensures From(i + 1) < From(i)
    {
      hide Chained, Homed, Injective, Pow2, LiveKeys;
      LiveIff(arr, node, Int(i));
      assert Int(i) in From(i) && Int(i) !in From(i + 1);
    }

    /** unbound_search: doubling, then halving; linear when the doubling passes the largest int. */
    method UnboundSearch(start: nat) returns (n: nat)
      requires Valid() && (start == 0 || At(Int(start)) != Nil)
      ensures Border(n)
    {
      hide TableOk, Look, From;
      var i, j := start, start + 1;
      var v := Get(Int(j));
      while !v.Nil?
        invariant 0 <= i < j && v == At(Int(j)) && (i == 0 || At(Int(i)) != Nil)
        decreases if v.Nil? then 0 else 1, MAX_INT - j
      {
        i := j;
        j := j * 2;
        if j > MAX_INT {
          n := LinearSearch();
          return;
        }
        v := Get(Int(j));
      }
      while j - i > 1
        invariant 0 <= i < j && At(Int(j)) == Nil && (i == 0 || At(Int(i)) != Nil)
      {
        var m := (i + j) / 2;
        v := Get(Int(m));
        if v.Nil? { j := m; } else { i := m; }
      }
      n := i;
    }

    method LinearSearch() returns (n: nat)
      requires Valid()
      ensures Border(n)
    {
      hide TableOk, Look, From;
      var i := 1;
      var v := Get(Int(i));
      while !v.Nil?
        invariant i >= 1 && v == At(Int(i)) && (i == 1 || At(Int(i - 1)) != Nil)
        decreases From(i)
      {
        FromShrinks(i);
        i := i + 1;
        v := Get(Int(i));
      }
      n := i - 1;
    }

    /** luaH_getn: the length operator finds a border. */
    method GetN() returns (n: nat)
      requires Valid()
      ensures Border(n)
    {
      hide NodesOk, Pow2, Split, InNodes;
      var j := |arr|;
      if j > 0 && arr[j - 1].Nil? {
        var i := 0;
        while j - i > 1
          invariant 0 <= i < j <= |arr| && arr[j - 1] == Nil && (i == 0 || arr[i - 1] != Nil)
        {
          var m := (i + j) / 2;
          if arr[m - 1].Nil? { j := m; } else { i := m; }
        }
        return i;
      } else if dummy {
        DummyNone(node, Int(j + 1));
        return j;
      } else {
        n := UnboundSearch(j);
      }
    }
  }

  const MAX_INT := 2147483645

  lemma DummyNone<V>(ns: seq<Node<V>>, k: Key)
    requires |ns| == 1 && ns[0].key == NilKey
    ensures InNodes(ns, k) == Nil
  {
  }

  // ---------------------------------------------------------------- resizing

  /** The contents of the first i slots of an array part. */
  ghost function Upper<V>(arr: seq<Value<V>>, i: nat, k: Key): Value<V> {
    if InArr(|arr|, k) && k.i <= i then arr[k.i - 1] else Nil
  }

  /** The contents of an array part and of the nodes from i on. */
  ghost function Later<V>(arr: seq<Value<V>>, ns: seq<Node<V>>, i: nat, k: Key): Value<V> {
    if InArr(|arr|, k) then arr[k.i - 1]
    else if exists j :: i <= j < |ns| && ns[j].key == k then InNodes(ns, k)
    else Nil
  }

  lemma LaterNone<V>(arr: seq<Value<V>>, ns: seq<Node<V>>)
    ensures forall k :: Later(arr, ns, |ns|, k) == Upper(arr, |arr|, k)
  {
  }

  lemma LaterAll<V>(arr: seq<Value<V>>, ns: seq<Node<V>>)
    ensures forall k :: Later(arr, ns, 0, k) == Look(arr, ns, k)
  {
  }

  lemma LaterStep<V>(arr: seq<Value<V>>, ns: seq<Node<V>>, i: nat)
    requires UniqueKeys(ns) && FreeApart(ns) && Split(arr, ns) && i < |ns|
    ensures ns[i].val != Nil ==> ns[i].key != NilKey
    ensures forall k ::
      Later(arr, ns, i, k) == if ns[i].val != Nil && k == ns[i].key then ns[i].val else Later(arr, ns, i + 1, k)
  {
    hide InNodes;
    if ns[i].key != NilKey { InNodesAt(ns, i); }
    forall k
      ensures Later(arr, ns, i, k) == if ns[i].val != Nil && k == ns[i].key then ns[i].val else Later(arr, ns, i + 1, k)
    {
      if k == NilKey { NilHasNone(ns); }
    }
  }

  lemma NilHasNone<V>(ns: seq<Node<V>>)
    ensures InNodes(ns, NilKey) == Nil
  {
  }

  lemma InNodesKey<V>(ns: seq<Node<V>>, k: Key)
    requires InNodes(ns, k) != Nil
    ensures k in KeySet(ns)
  {
  }

  lemma OldKeys<V>(mp: MainPos, arr: seq<Value<V>>, ns: seq<Node<V>>, tail: Tails, nasize: nat, keys: set<Key>)
    requires NodesOk(mp, ns, tail) && Split(arr, ns)
    requires forall k :: Look(arr, ns, k) != Nil && !InArr(nasize, k) ==> k in keys
    ensures UniqueKeys(ns) && FreeApart(ns)
    ensures forall i :: nasize <= i < |arr| && arr[i] != Nil ==> Int(i + 1) in keys
    ensures forall i :: 0 <= i < |ns| && ns[i].val != Nil ==> InArr(nasize, ns[i].key) || ns[i].key in keys
  {
    hide Chained, Homed, Injective;
    forall i | nasize <= i < |arr| && arr[i] != Nil ensures Int(i + 1) in keys {
      assert Look(arr, ns, Int(i + 1)) == arr[i];
    }
    forall i | 0 <= i < |ns| && ns[i].val != Nil ensures InArr(nasize, ns[i].key) || ns[i].key in keys {
      InNodesAt(ns, i);
    }
  }

  lemma TrimOk<V>(mp: MainPos, arr: seq<Value<V>>, ns: seq<Node<V>>, dummy: bool, lastfree: int, tail: Tails, n: nat)
    requires TableOk(mp, arr, ns, dummy, lastfree, tail) && n <= |arr|
    ensures TableOk(mp, arr[..n], ns, dummy, lastfree, tail)
  {
  }

  lemma {:induction false} KeySetSize<V>(ns: seq<Node<V>>)
    ensures |KeySet(ns)| <= |ns|
  {
    if ns == [] {
      assert KeySet(ns) == {};
    } else {
      var init, last := ns[..|ns| - 1], ns[|ns| - 1];
      KeySetSize(init);
      forall k | k in KeySet(ns) ensures k in KeySet(init) + {last.key} {
        var i :| 0 <= i < |ns| && ns[i].key == k;
        if i < |init| { assert init[i].key == k; }
      }
      SubsetSize(KeySet(ns), KeySet(init) + {last.key});
    }
  }

  lemma DummyKeys<V>(ns: seq<Node<V>>)
    requires |ns| == 1 && ns[0].key == NilKey
    ensures KeySet(ns) == {}
  {
  }

  lemma LiveParts<V>(mp: MainPos, arr: seq<Value<V>>, ns: seq<Node<V>>, tail: Tails, ek: Key)
    requires NodesOk(mp, ns, tail) && Split(arr, ns) && |arr| <= Pow2(MAXBITS) && ek != NilKey && !InArr(|arr|, ek)
    requires !HasKey(ns, ek)
    ensures UniqueKeys(ns) && FreeApart(ns) && NodeKeys(ns, 0) !! ArrKeys(arr, |arr|)
    ensures LiveKeys(arr, ns) == ArrKeys(arr, |arr|) + NodeKeys(ns, 0) && ek !in LiveKeys(arr, ns)
    ensures |LiveKeys(arr, ns)| == |IntsOf(ArrKeys(arr, |arr|))| + |NodeKeys(ns, 0)|
    ensures forall k :: Look(arr, ns, k) != Nil ==> k in LiveKeys(arr, ns)
  {
    hide Chained, Homed, Injective, UniqueKeys, FreeApart, Split, IntsOf, ArrKeys, NodeKeys;
    LiveDisjoint(arr, ns);
    ArrKeysSize(arr);
    LiveIff(arr, ns, ek);
    forall k | Look(arr, ns, k) != Nil ensures k in LiveKeys(arr, ns) { LiveIff(arr, ns, k); }
  }

  lemma IntsBounds(keys: set<Key>)
    ensures 0 !in IntsOf(keys) && forall x :: x in IntsOf(keys) ==> x <= Pow2(MAXBITS)
  {
  }

  lemma CountsAll(nums: seq<nat>, keys: set<Key>)
    requires Counts(nums, keys)
    ensures |nums| == MAXBITS + 1 && forall j :: 0 <= j <= MAXBITS ==> nums[j] == CountAt(IntsOf(keys), j)
  {
  }

  lemma SizeBound(size: nat)
    requires size == 0 || exists i :: 0 <= i <= MAXBITS && size == Pow2(i)
    ensures size <= Pow2(MAXBITS)
  {
    if size != 0 {
      var i :| 0 <= i <= MAXBITS && size == Pow2(i);
      Pow2Mono(i, MAXBITS);
    }
  }

  lemma NodesSize<V>(mp: MainPos, ns: seq<Node<V>>, tail: Tails)
    requires NodesOk(mp, ns, tail)
    ensures IsMainPos(mp) && |ns| > 0 && |tail| == |ns|
  {
  }

  lemma NodesUnique<V>(mp: MainPos, ns: seq<Node<V>>, tail: Tails)
    requires NodesOk(mp, ns, tail)
    ensures UniqueKeys(ns)
  {
  }

  lemma FreeNodes<V>(mp: MainPos, ns: seq<Node<V>>, tail: Tails, p: nat, f: nat)
    requires NodesOk(mp, ns, tail) && p < |ns| && f < |ns| && ns[p].val != Nil && ns[f].key == NilKey
    ensures ns[p].key != NilKey && ns[f].val == Nil && ns[f].next == -1 && p != f
  {
  }
}
