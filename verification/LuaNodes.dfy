/** The hash part of a Lua table, as a vector of nodes: a chained scatter table with Brent's variation.
    Collisions are chained through the vector; a node's chain from it to its end is tail[i]. */
module LuaNodes {

  datatype Key = NilKey | Int(i: int) | Other(id: nat)

  datatype Value<V> = Nil | Val(v: V)

  /** next is the index of the next node of the chain, or -1. */
  datatype Node<V> = Node(key: Key, val: Value<V>, next: int)

  /** The main position of a key in a vector of a given size: any function into the vector. */
  type MainPos = (Key, nat) -> nat

  ghost predicate IsMainPos(mp: MainPos) {
    forall k: Key, n: nat :: n > 0 ==> mp(k, n) < n
  }

  type Tails = seq<seq<nat>>

  /** tail[i] lists the nodes of the chain from node i on; being finite lists, they rule out cycles. */
  ghost predicate Chained<V>(ns: seq<Node<V>>, tail: Tails) {
    && |tail| == |ns|
    && (forall i :: 0 <= i < |ns| ==> -1 <= ns[i].next < |ns|)
    && (forall i :: 0 <= i < |ns| ==> tail[i] == [i] + if ns[i].next == -1 then [] else tail[ns[i].next])
  }

  /** No two nodes have the same successor. */
  ghost predicate Injective<V>(ns: seq<Node<V>>) {
    forall i, j :: 0 <= i < j < |ns| && ns[i].next != -1 ==> ns[i].next != ns[j].next
  }

  /** Free nodes hold nothing and are in no chain. */
  ghost predicate FreeApart<V>(ns: seq<Node<V>>) {
    forall i :: 0 <= i < |ns| ==>
      && (ns[i].key == NilKey ==> ns[i].next == -1 && ns[i].val == Nil)
      && (0 <= ns[i].next < |ns| ==> ns[ns[i].next].key != NilKey)
  }

  ghost predicate UniqueKeys<V>(ns: seq<Node<V>>) {
    forall i, j :: 0 <= i < j < |ns| && ns[i].key != NilKey ==> ns[i].key != ns[j].key
  }

  /** Every key is in the chain of its main position, and the node there is in its own main position. */
  ghost predicate Homed<V>(mp: MainPos, ns: seq<Node<V>>, tail: Tails)
    requires |tail| == |ns| && IsMainPos(mp)
  {
    forall i :: 0 <= i < |ns| && ns[i].key != NilKey ==>
      var m := mp(ns[i].key, |ns|);
      m < |ns| && i in tail[m] && ns[m].key != NilKey && mp(ns[m].key, |ns|) == m
  }

  ghost predicate NodesOk<V>(mp: MainPos, ns: seq<Node<V>>, tail: Tails) {
    && IsMainPos(mp) && |ns| > 0 && Chained(ns, tail)
    && Injective(ns) && FreeApart(ns) && UniqueKeys(ns) && Homed(mp, ns, tail)
  }

  // ---------------------------------------------------------------- chains

  lemma {:induction false} TailShorter<V>(ns: seq<Node<V>>, tail: Tails, x: nat, y: nat)
    requires Chained(ns, tail) && x < |ns| && y < |ns| && x in tail[y]
    ensures |tail[x]| <= |tail[y]| && (x != y ==> |tail[x]| < |tail[y]|)
    decreases |tail[y]|
  {
    if x != y {
      assert ns[y].next != -1 && x in tail[ns[y].next];
      TailShorter(ns, tail, x, ns[y].next);
    }
  }

  lemma TailHead<V>(ns: seq<Node<V>>, tail: Tails, p: nat)
    requires Chained(ns, tail) && p < |ns|
    ensures tail[p] != [] && tail[p][0] == p && p in tail[p]
    ensures tail[p][1..] == if ns[p].next == -1 then [] else tail[ns[p].next]
  {
    var rest := if ns[p].next == -1 then [] else tail[ns[p].next];
    assert tail[p] == [p] + rest;
    assert ([p] + rest)[1..] == rest;
  }

  /** No node comes again after itself. */
  lemma NoCycle<V>(ns: seq<Node<V>>, tail: Tails, p: nat)
    requires Chained(ns, tail) && p < |ns| && ns[p].next != -1
    ensures p !in tail[ns[p].next]
  {
    if p in tail[ns[p].next] { TailShorter(ns, tail, p, ns[p].next); }
  }

  lemma {:induction false} TailBounds<V>(ns: seq<Node<V>>, tail: Tails, x: nat)
    requires Chained(ns, tail) && x < |ns|
    ensures forall y :: y in tail[x] ==> y < |ns|
    decreases |tail[x]|
  {
    if ns[x].next != -1 { TailBounds(ns, tail, ns[x].next); }
  }

  /** A node that no node points to is in no other chain. */
  lemma {:induction false} Apart<V>(ns: seq<Node<V>>, tail: Tails, f: nat, x: nat)
    requires Chained(ns, tail) && x < |ns| && f < |ns| && f != x && forall i :: 0 <= i < |ns| ==> ns[i].next != f
    ensures f !in tail[x]
    decreases |tail[x]|
  {
    if ns[x].next != -1 { Apart(ns, tail, f, ns[x].next); }
  }

  // ---------------------------------------------------------------- contents

  ghost predicate HasKey<V>(ns: seq<Node<V>>, key: Key) {
    exists i :: 0 <= i < |ns| && ns[i].key == key
  }

  ghost function Index<V>(ns: seq<Node<V>>, key: Key): (i: nat)
    requires HasKey(ns, key)
    ensures i < |ns| && ns[i].key == key
  {
    var i :| 0 <= i < |ns| && ns[i].key == key; i
  }

  /** The value of a key in the hash part. */
  ghost function InNodes<V>(ns: seq<Node<V>>, key: Key): Value<V> {
    if key != NilKey && HasKey(ns, key) then ns[Index(ns, key)].val else Nil
  }

  lemma InNodesAt<V>(ns: seq<Node<V>>, i: nat)
    requires UniqueKeys(ns) && i < |ns| && ns[i].key != NilKey
    ensures HasKey(ns, ns[i].key) && InNodes(ns, ns[i].key) == ns[i].val
  {
    var j := Index(ns, ns[i].key);
  }

  ghost function KeySet<V>(ns: seq<Node<V>>): set<Key> {
    set i | 0 <= i < |ns| && ns[i].key != NilKey :: ns[i].key
  }

  /** A vector with fewer keys than nodes has a free node. */
  lemma {:induction false} FullKeySet<V>(ns: seq<Node<V>>)
    requires UniqueKeys(ns) && forall i :: 0 <= i < |ns| ==> ns[i].key != NilKey
    ensures |KeySet(ns)| == |ns|
  {
    if ns == [] {
      assert KeySet(ns) == {};
    } else {
      var init, last := ns[..|ns| - 1], ns[|ns| - 1];
      FullKeySet(init);
      assert KeySet(ns) == KeySet(init) + {last.key} by {
        forall k | k in KeySet(ns) ensures k in KeySet(init) + {last.key} {
          var i :| 0 <= i < |ns| && ns[i].key == k;
          if i < |init| { assert init[i].key == k; }
        }
        forall k | k in KeySet(init) + {last.key} ensures k in KeySet(ns) {
          if k != last.key { var i :| 0 <= i < |init| && init[i].key == k; assert ns[i].key == k; }
          else { assert ns[|ns| - 1].key == k; }
        }
      }
      assert last.key !in KeySet(init);
    }
  }
}
