/** A Lua table on values: an array part for the keys 1..n, a hash part for the rest. */
module LuaEntries {
  import opened Basics
  import opened LuaNodes
  import opened LuaInsert
  import opened LuaSizes

  /** Where a key's value is kept: the place that lookups return. */
  datatype Loc = None | InArray(a: nat) | InHash(h: nat)

  predicate InArr(n: nat, key: Key) { key.Int? && 1 <= key.i <= n }

  /** The value of a key. */
  ghost function Look<V>(arr: seq<Value<V>>, ns: seq<Node<V>>, key: Key): Value<V> {
    if InArr(|arr|, key) then arr[key.i - 1] else InNodes(ns, key)
  }

  ghost predicate FreeOk<V>(ns: seq<Node<V>>, dummy: bool, lastfree: int) {
    if dummy then |ns| == 1 && ns[0].key == NilKey && lastfree <= 0
    else lastfree <= |ns| && forall i :: 0 <= i < |ns| && lastfree <= i ==> ns[i].key != NilKey
  }

  /** No key of the array part is in the hash part. */
  ghost predicate Split<V>(arr: seq<Value<V>>, ns: seq<Node<V>>) {
    forall i :: 0 <= i < |ns| ==> !InArr(|arr|, ns[i].key)
  }

  ghost predicate TableOk<V>(mp: MainPos, arr: seq<Value<V>>, ns: seq<Node<V>>, dummy: bool, lastfree: int,
                             tail: Tails) {
    NodesOk(mp, ns, tail) && FreeOk(ns, dummy, lastfree) && Split(arr, ns) && |arr| <= Pow2(MAXBITS)
  }

  // ---------------------------------------------------------------- values

  function Stored<V>(ns: seq<Node<V>>, i: nat, v: Value<V>): seq<Node<V>>
    requires i < |ns|
  {
    ns[i := ns[i].(val := v)]
  }

  lemma SetValueAt<V>(ns: seq<Node<V>>, i: nat, v: Value<V>, k: Key)
    requires UniqueKeys(ns) && i < |ns| && ns[i].key != NilKey
    ensures InNodes(Stored(ns, i, v), k) == if k == ns[i].key then v else InNodes(ns, k)
  {
    var now := Stored(ns, i, v);
    assert forall j :: 0 <= j < |ns| ==> now[j].key == ns[j].key;
    if k != NilKey && HasKey(ns, k) {
      var j := Index(ns, k);
      InNodesAt(ns, j);
      InNodesAt(now, j);
    }
  }

  lemma SetValueLinks<V>(ns: seq<Node<V>>, i: nat, v: Value<V>)
    requires i < |ns| && ns[i].key != NilKey && Injective(ns) && FreeApart(ns) && UniqueKeys(ns)
    ensures var now := Stored(ns, i, v); Injective(now) && FreeApart(now) && UniqueKeys(now)
  {
  }

  lemma SetValueHomed<V>(mp: MainPos, ns: seq<Node<V>>, tail: Tails, i: nat, v: Value<V>)
    requires IsMainPos(mp) && |tail| == |ns| && i < |ns| && Homed(mp, ns, tail)
    ensures Homed(mp, Stored(ns, i, v), tail)
  {
    var now := Stored(ns, i, v);
    assert forall j :: 0 <= j < |ns| ==> now[j].key == ns[j].key;
  }

  lemma SetValueChained<V>(ns: seq<Node<V>>, tail: Tails, i: nat, v: Value<V>)
    requires Chained(ns, tail) && i < |ns|
    ensures Chained(Stored(ns, i, v), tail)
  {
    var now := Stored(ns, i, v);
    assert forall j :: 0 <= j < |ns| ==> now[j].next == ns[j].next;
  }

  /** Storing a value at a key's node changes the value of that key only. */
  lemma SetValueOk<V>(mp: MainPos, ns: seq<Node<V>>, tail: Tails, i: nat, v: Value<V>)
    requires |tail| == |ns| && NodesOk(mp, ns, tail) && i < |ns| && ns[i].key != NilKey
    ensures NodesOk(mp, Stored(ns, i, v), tail)
    ensures forall k :: InNodes(Stored(ns, i, v), k) == if k == ns[i].key then v else InNodes(ns, k)
  {
    hide Chained, Homed, Injective, FreeApart, UniqueKeys, InNodes;
    SetValueLinks(ns, i, v);
    SetValueHomed(mp, ns, tail, i, v);
    SetValueChained(ns, tail, i, v);
    forall k ensures InNodes(Stored(ns, i, v), k) == if k == ns[i].key then v else InNodes(ns, k) {
      SetValueAt(ns, i, v, k);
    }
  }

  // ---------------------------------------------------------------- entering a key

  ghost predicate Holds<V>(ns: seq<Node<V>>, n: Node<V>) {
    exists j :: 0 <= j < |ns| && ns[j].key == n.key && ns[j].val == n.val
  }

  /** Every pair of a key and a value of ns is in now. */
  ghost predicate Carried<V>(ns: seq<Node<V>>, now: seq<Node<V>>) {
    forall i :: 0 <= i < |ns| && ns[i].val != Nil ==> Holds(now, ns[i])
  }

  lemma HoldsAt<V>(ns: seq<Node<V>>, j: nat, n: Node<V>)
    requires j < |ns| && ns[j].key == n.key && ns[j].val == n.val
    ensures Holds(ns, n)
  {
  }

  lemma CarriedAt<V>(ns: seq<Node<V>>, now: seq<Node<V>>, k: Key)
    requires UniqueKeys(now) && Carried(ns, now) && InNodes(ns, k) != Nil
    ensures InNodes(now, k) == InNodes(ns, k)
  {
    var i := Index(ns, k);
    assert Holds(now, ns[i]);
    var j :| 0 <= j < |now| && now[j].key == ns[i].key && now[j].val == ns[i].val;
    InNodesAt(now, j);
  }

  lemma SameValues<V>(ns: seq<Node<V>>, now: seq<Node<V>>)
    requires UniqueKeys(ns) && UniqueKeys(now) && Carried(ns, now) && Carried(now, ns)
    ensures forall k :: InNodes(now, k) == InNodes(ns, k)
  {
    hide UniqueKeys, Carried, InNodes;
    forall k ensures InNodes(now, k) == InNodes(ns, k) {
      if InNodes(ns, k) != Nil { CarriedAt(ns, now, k); }
      else if InNodes(now, k) != Nil { CarriedAt(now, ns, k); }
    }
  }

  /** What entering key at node p does: values, other keys and the free nodes above lastfree stay. */
  ghost predicate Entered<V>(ns: seq<Node<V>>, now: seq<Node<V>>, key: Key, at: nat) {
    && |now| == |ns| && at < |ns| && now[at].key == key && now[at].val == Nil
    && (forall i :: 0 <= i < |ns| && ns[i].key != NilKey ==> now[i].key != NilKey)
    && (forall k :: k in KeySet(now) ==> k == key || k in KeySet(ns))
    && (forall k :: InNodes(now, k) == InNodes(ns, k))
  }

  lemma PlaceEntered<V>(ns: seq<Node<V>>, p: nat, key: Key)
    requires key != NilKey && p < |ns| && ns[p].val == Nil
    requires UniqueKeys(ns) && UniqueKeys(ns[p := ns[p].(key := key)])
    ensures Entered(ns, ns[p := ns[p].(key := key)], key, p)
  {
    hide InNodes, UniqueKeys, Holds;
    var now := ns[p := ns[p].(key := key)];
    forall i | 0 <= i < |ns| && i != p ensures Holds(now, ns[i]) && Holds(ns, now[i]) {
      HoldsAt(now, i, ns[i]);
      HoldsAt(ns, i, now[i]);
    }
    SameValues(ns, now);
  }

  lemma BehindEntered<V>(ns: seq<Node<V>>, p: nat, f: nat, key: Key)
    requires key != NilKey && p < |ns| && f < |ns| && p != f && ns[f].key == NilKey && ns[f].val == Nil
    requires UniqueKeys(ns) && UniqueKeys(Behind(ns, p, f, key))
    ensures Entered(ns, Behind(ns, p, f, key), key, f)
  {
    hide InNodes, UniqueKeys, Holds;
    var now := Behind(ns, p, f, key);
    forall i | 0 <= i < |ns| && i != f ensures Holds(now, ns[i]) && Holds(ns, now[i]) {
      HoldsAt(now, i, ns[i]);
      HoldsAt(ns, i, now[i]);
    }
    SameValues(ns, now);
  }

  lemma MovedEntered<V>(ns: seq<Node<V>>, p: nat, f: nat, prev: nat, key: Key)
    requires key != NilKey && p < |ns| && f < |ns| && prev < |ns| && p != f && ns[f].key == NilKey && ns[f].val == Nil
    requires ns[p].key != NilKey
    requires prev != p && prev != f
    requires UniqueKeys(ns) && UniqueKeys(Moved(ns, p, f, prev, key))
    ensures Entered(ns, Moved(ns, p, f, prev, key), key, p)
  {
    hide InNodes, UniqueKeys, Holds;
    var now := Moved(ns, p, f, prev, key);
    forall i | 0 <= i < |ns| && i != f ensures Holds(now, ns[i]) { HoldsAt(now, if i == p then f else i, ns[i]); }
    forall i | 0 <= i < |ns| && i != p ensures Holds(ns, now[i]) { HoldsAt(ns, if i == f then p else i, now[i]); }
    SameValues(ns, now);
  }
}
