/** The three ways a new key enters the node vector, on values: into its main position, into a free node
    chained behind it, or into its main position after the node found there has moved to a free node. */
module LuaInsert {
  import opened LuaNodes

  // ---------------------------------------------------------------- lists of nodes

  function Splice(s: seq<nat>, p: nat, f: nat): seq<nat> {
    if s == [] then [] else if s[0] == p then [p, f] + s[1..] else [s[0]] + Splice(s[1..], p, f)
  }

  lemma {:induction false} SpliceMembers(s: seq<nat>, p: nat, f: nat)
    ensures forall x :: x in s ==> x in Splice(s, p, f)
    ensures p in s ==> f in Splice(s, p, f)
    ensures p !in s ==> Splice(s, p, f) == s
  {
    if s != [] {
      var rest := s[1..];
      assert s == [s[0]] + rest;
      if s[0] != p { SpliceMembers(rest, p, f); } else { assert Splice(s, p, f) == [p, f] + rest; }
    }
  }

  function Subst(s: seq<nat>, p: nat, f: nat): seq<nat> {
    if s == [] then [] else [if s[0] == p then f else s[0]] + Subst(s[1..], p, f)
  }

  lemma {:induction false} SubstMembers(s: seq<nat>, p: nat, f: nat)
    ensures forall x :: x in s && x != p ==> x in Subst(s, p, f)
    ensures p in s ==> f in Subst(s, p, f)
    ensures p !in s ==> Subst(s, p, f) == s
  {
    if s != [] { SubstMembers(s[1..], p, f); }
  }

  // ---------------------------------------------------------------- into the main position

  /** The main position of key holds no value: key replaces whatever key is left there. */
  lemma PlaceOk<V>(mp: MainPos, ns: seq<Node<V>>, tail: Tails, p: nat, key: Key)
    requires |tail| == |ns| && NodesOk(mp, ns, tail) && key != NilKey && !HasKey(ns, key) && p == mp(key, |ns|) < |ns|
    requires ns[p].val == Nil
    ensures NodesOk(mp, ns[p := ns[p].(key := key)], tail)
  {
    hide Chained, Homed, Injective, FreeApart, UniqueKeys;
    PlaceChained(ns, tail, p, key);
    PlaceLinks(ns, p, key);
    PlaceHomed(mp, ns, tail, p, key);
  }

  lemma PlaceChained<V>(ns: seq<Node<V>>, tail: Tails, p: nat, key: Key)
    requires Chained(ns, tail) && p < |ns|
    ensures Chained(ns[p := ns[p].(key := key)], tail)
  {
  }

  lemma PlaceLinks<V>(ns: seq<Node<V>>, p: nat, key: Key)
    requires Injective(ns) && FreeApart(ns) && UniqueKeys(ns) && p < |ns| && key != NilKey && !HasKey(ns, key)
    ensures var now := ns[p := ns[p].(key := key)]; Injective(now) && FreeApart(now) && UniqueKeys(now)
  {
  }

  lemma PlaceHomed<V>(mp: MainPos, ns: seq<Node<V>>, tail: Tails, p: nat, key: Key)
    requires IsMainPos(mp) && |tail| == |ns| && Chained(ns, tail) && Homed(mp, ns, tail) && key != NilKey
    requires p == mp(key, |ns|) < |ns|
    ensures Homed(mp, ns[p := ns[p].(key := key)], tail)
  {
    hide Chained;
    TailHead(ns, tail, p);
    var now := ns[p := ns[p].(key := key)];
    forall i | 0 <= i < |now| && now[i].key != NilKey
      ensures mp(now[i].key, |now|) < |now| && i in tail[mp(now[i].key, |now|)]
      ensures now[mp(now[i].key, |now|)].key != NilKey
      ensures mp(now[mp(now[i].key, |now|)].key, |now|) == mp(now[i].key, |now|)
    {
      if i != p { assert now[i] == ns[i]; }
    }
  }

  // ---------------------------------------------------------------- behind the main position

  function Behind<V>(ns: seq<Node<V>>, p: nat, f: nat, key: Key): seq<Node<V>>
    requires p < |ns| && f < |ns|
  {
    ns[f := Node(key, Nil, ns[p].next)][p := ns[p].(next := f)]
  }

  function BehindTail(tail: Tails, p: nat, f: nat): Tails
    requires p < |tail|
  {
    seq(|tail|, x requires 0 <= x < |tail| =>
      if x == f then [f] + (if tail[p] == [] then [] else tail[p][1..]) else Splice(tail[x], p, f))
  }

  lemma SpliceCons(x: nat, rest: seq<nat>, p: nat, f: nat)
    ensures x != p ==> Splice([x] + rest, p, f) == [x] + Splice(rest, p, f)
    ensures Splice([p] + rest, p, f) == [p, f] + rest
  {
    assert ([x] + rest)[1..] == rest && ([p] + rest)[1..] == rest;
  }

  lemma BehindAt<V>(ns: seq<Node<V>>, tail: Tails, p: nat, f: nat, x: nat)
    requires Chained(ns, tail) && p < |ns| && f < |ns| && p != f && x < |ns| && ns[x].next != f
    ensures var rest := if ns[x].next == -1 then [] else tail[ns[x].next];
            && (x != p ==> Splice(tail[x], p, f) == [x] + Splice(rest, p, f))
            && (x == p ==> Splice(tail[p], p, f) == [p, f] + rest && Splice(rest, p, f) == rest)
            && Splice([], p, f) == []
  {
    var rest := if ns[x].next == -1 then [] else tail[ns[x].next];
    assert tail[x] == [x] + rest;
    SpliceCons(x, rest, p, f);
    if x == p && ns[p].next != -1 {
      NoCycle(ns, tail, p);
      SpliceMembers(rest, p, f);
    }
  }

  lemma BehindTailAt(tail: Tails, p: nat, f: nat, x: nat)
    requires p < |tail| && x < |tail| && tail[p] != []
    ensures |BehindTail(tail, p, f)| == |tail|
    ensures BehindTail(tail, p, f)[x] == if x == f then [f] + tail[p][1..] else Splice(tail[x], p, f)
  {
  }

  lemma BehindNode<V>(ns: seq<Node<V>>, p: nat, f: nat, key: Key, x: nat)
    requires p < |ns| && f < |ns| && p != f && x < |ns|
    ensures |Behind(ns, p, f, key)| == |ns|
    ensures Behind(ns, p, f, key)[x].next == if x == f then ns[p].next else if x == p then f else ns[x].next
  {
  }

  lemma NextInside<V>(ns: seq<Node<V>>, tail: Tails, x: nat)
    requires Chained(ns, tail) && x < |ns|
    ensures |tail| == |ns| && -1 <= ns[x].next < |ns|
  {
  }

  lemma BehindNext<V>(ns: seq<Node<V>>, tail: Tails, p: nat, f: nat, key: Key, x: nat)
    requires Chained(ns, tail) && |tail| == |ns| && p < |ns| && f < |ns| && p != f && x < |ns| && ns[x].next != f
    requires ns[p].next != f
    ensures var now, tl := Behind(ns, p, f, key), BehindTail(tail, p, f);
            && |now| == |tl| == |ns| && -1 <= now[x].next < |ns|
            && tl[x] == [x] + if now[x].next == -1 then [] else tl[now[x].next]
  {
    hide Splice, Chained, Behind, BehindTail;
    TailHead(ns, tail, p);
    BehindAt(ns, tail, p, f, p);
    BehindAt(ns, tail, p, f, x);
    BehindNode(ns, p, f, key, x);
    BehindTailAt(tail, p, f, x);
    NextInside(ns, tail, x);
    NextInside(ns, tail, p);
    var n := Behind(ns, p, f, key)[x].next;
    if n != -1 { BehindTailAt(tail, p, f, n); }
  }

  /** Node x and its chain fit together. */
  ghost predicate Linked<V>(ns: seq<Node<V>>, tail: Tails, x: nat)
    requires |tail| == |ns| && x < |ns|
  {
    -1 <= ns[x].next < |ns| && tail[x] == [x] + if ns[x].next == -1 then [] else tail[ns[x].next]
  }

  lemma ChainedIntro<V>(ns: seq<Node<V>>, tail: Tails)
    requires |tail| == |ns| && forall x: nat :: x < |ns| ==> Linked(ns, tail, x)
    ensures Chained(ns, tail)
  {
    forall i | 0 <= i < |ns|
      ensures -1 <= ns[i].next < |ns| && tail[i] == [i] + if ns[i].next == -1 then [] else tail[ns[i].next]
    {
      assert Linked(ns, tail, i);
    }
  }

  lemma BehindChained<V>(ns: seq<Node<V>>, tail: Tails, p: nat, f: nat, key: Key)
    requires Chained(ns, tail) && |tail| == |ns| && p < |ns| && f < |ns| && p != f && ns[f].next == -1
    requires forall i :: 0 <= i < |ns| ==> ns[i].next != f
    ensures Chained(Behind(ns, p, f, key), BehindTail(tail, p, f))
  {
    hide Chained, Behind, BehindTail, Splice;
    var now, tl := Behind(ns, p, f, key), BehindTail(tail, p, f);
    BehindNext(ns, tail, p, f, key, p);
    forall x: nat | x < |now| ensures Linked(now, tl, x) { BehindNext(ns, tail, p, f, key, x); }
    ChainedIntro(now, tl);
  }

  lemma BehindHome<V>(mp: MainPos, ns: seq<Node<V>>, tail: Tails, p: nat, f: nat, key: Key, i: nat)
    requires |tail| == |ns| && NodesOk(mp, ns, tail) && key != NilKey && p == mp(key, |ns|) < |ns| && f < |ns| && f != p
    requires i < |ns|
    requires ns[f].key == NilKey && ns[p].key != NilKey && mp(ns[p].key, |ns|) == p
    requires Behind(ns, p, f, key)[i].key != NilKey
    ensures var now, tl := Behind(ns, p, f, key), BehindTail(tail, p, f);
            var m := mp(now[i].key, |now|);
            m < |now| && i in tl[m] && now[m].key != NilKey && mp(now[m].key, |now|) == m
  {
    hide Splice, Injective, UniqueKeys;
    var now := Behind(ns, p, f, key);
    var m := mp(now[i].key, |now|);
    TailHead(ns, tail, p);
    assert m != f;
    SpliceMembers(tail[m], p, f);
  }

  lemma BehindHomed<V>(mp: MainPos, ns: seq<Node<V>>, tail: Tails, p: nat, f: nat, key: Key)
    requires |tail| == |ns| && NodesOk(mp, ns, tail) && key != NilKey && p == mp(key, |ns|) < |ns| && f < |ns| && f != p
    requires ns[f].key == NilKey && ns[p].key != NilKey && mp(ns[p].key, |ns|) == p
    ensures Homed(mp, Behind(ns, p, f, key), BehindTail(tail, p, f))
  {
    var now, tl := Behind(ns, p, f, key), BehindTail(tail, p, f);
    assert |now| == |ns| == |tl|;
    hide Behind, BehindTail, NodesOk;
    forall i | 0 <= i < |now| && now[i].key != NilKey
      ensures var m := mp(now[i].key, |now|);
              m < |now| && i in tl[m] && now[m].key != NilKey && mp(now[m].key, |now|) == m
    {
      BehindHome(mp, ns, tail, p, f, key, i);
    }
  }

  lemma BehindOk<V>(mp: MainPos, ns: seq<Node<V>>, tail: Tails, p: nat, f: nat, key: Key)
    requires |tail| == |ns| && NodesOk(mp, ns, tail) && key != NilKey && !HasKey(ns, key) && p == mp(key, |ns|) < |ns|
    requires f < |ns|
    requires ns[f].key == NilKey && ns[p].key != NilKey && mp(ns[p].key, |ns|) == p
    ensures NodesOk(mp, Behind(ns, p, f, key), BehindTail(tail, p, f))
  {
    hide Chained, Homed, Injective, FreeApart;
    Unpointed(ns, f);
    BehindChained(ns, tail, p, f, key);
    BehindHomed(mp, ns, tail, p, f, key);
    BehindLinks(ns, p, f, key);
  }

  lemma BehindLinks<V>(ns: seq<Node<V>>, p: nat, f: nat, key: Key)
    requires Injective(ns) && FreeApart(ns) && p < |ns| && f < |ns| && p != f && key != NilKey
    requires ns[f].key == NilKey && ns[p].key != NilKey
    ensures Injective(Behind(ns, p, f, key)) && FreeApart(Behind(ns, p, f, key))
  {
    Unpointed(ns, f);
  }

  lemma Unpointed<V>(ns: seq<Node<V>>, f: nat)
    requires FreeApart(ns) && f < |ns| && ns[f].key == NilKey
    ensures ns[f].next == -1 && forall i :: 0 <= i < |ns| ==> ns[i].next != f
  {
  }

  // ---------------------------------------------------------------- moving the colliding node away

  function Moved<V>(ns: seq<Node<V>>, p: nat, f: nat, prev: nat, key: Key): seq<Node<V>>
    requires p < |ns| && f < |ns| && prev < |ns|
  {
    ns[prev := ns[prev].(next := f)][f := ns[p]][p := Node(key, Nil, -1)]
  }

  function MovedTail(tail: Tails, p: nat, f: nat): Tails
    requires p < |tail|
  {
    seq(|tail|, x requires 0 <= x < |tail| =>
      if x == p then [p] else if x == f then [f] + (if tail[p] == [] then [] else tail[p][1..])
      else Subst(tail[x], p, f))
  }

  lemma MovedTailAt(tail: Tails, p: nat, f: nat, x: nat)
    requires p < |tail| && x < |tail| && tail[p] != []
    ensures |MovedTail(tail, p, f)| == |tail|
    ensures MovedTail(tail, p, f)[x] ==
      if x == p then [p] else if x == f then [f] + tail[p][1..] else Subst(tail[x], p, f)
  {
  }

  lemma MovedNode<V>(ns: seq<Node<V>>, p: nat, f: nat, prev: nat, key: Key, x: nat)
    requires p < |ns| && f < |ns| && prev < |ns| && p != f && prev != p && prev != f && x < |ns|
    ensures |Moved(ns, p, f, prev, key)| == |ns|
    ensures Moved(ns, p, f, prev, key)[x].next ==
      if x == p then -1 else if x == f then ns[p].next else if x == prev then f else ns[x].next
  {
  }

  lemma SubstCons(x: nat, rest: seq<nat>, p: nat, f: nat)
    ensures Subst([x] + rest, p, f) == [if x == p then f else x] + Subst(rest, p, f) && Subst([], p, f) == []
  {
    assert ([x] + rest)[1..] == rest;
  }

  /** What becomes of a chain from x on when p's node has moved to f. */
  lemma MovedAt<V>(ns: seq<Node<V>>, tail: Tails, p: nat, f: nat, x: nat)
    requires Chained(ns, tail) && p < |ns| && x < |ns|
    ensures var rest := if ns[x].next == -1 then [] else tail[ns[x].next];
            && Subst(tail[x], p, f) == [if x == p then f else x] + Subst(rest, p, f)
            && (x == p ==> Subst(rest, p, f) == rest) && Subst([], p, f) == []
  {
    hide Subst;
    var rest := if ns[x].next == -1 then [] else tail[ns[x].next];
    assert tail[x] == [x] + rest;
    SubstCons(x, rest, p, f);
    if x == p {
      if ns[p].next != -1 { NoCycle(ns, tail, p); }
      SubstMembers(rest, p, f);
    }
  }

  lemma MovedNext<V>(ns: seq<Node<V>>, tail: Tails, p: nat, f: nat, prev: nat, key: Key, x: nat)
    requires Chained(ns, tail) && |tail| == |ns| && p < |ns| && f < |ns| && prev < |ns| && p != f && prev != p
    requires prev != f && x < |ns|
    requires ns[prev].next == p && ns[x].next != f && ns[p].next != f && ns[p].next != p
    requires x != prev ==> ns[x].next != p
    ensures var now, tl := Moved(ns, p, f, prev, key), MovedTail(tail, p, f);
            && |now| == |tl| == |ns| && -1 <= now[x].next < |ns|
            && tl[x] == [x] + if now[x].next == -1 then [] else tl[now[x].next]
  {
    hide Subst, Chained, Moved, MovedTail;
    TailHead(ns, tail, p);
    MovedAt(ns, tail, p, f, p);
    MovedAt(ns, tail, p, f, x);
    MovedNode(ns, p, f, prev, key, x);
    MovedTailAt(tail, p, f, x);
    NextInside(ns, tail, x);
    NextInside(ns, tail, p);
    var n := Moved(ns, p, f, prev, key)[x].next;
    if n != -1 { MovedTailAt(tail, p, f, n); }
  }

  lemma MovedChained<V>(ns: seq<Node<V>>, tail: Tails, p: nat, f: nat, prev: nat, key: Key)
    requires Chained(ns, tail) && |tail| == |ns| && Injective(ns) && p < |ns| && f < |ns| && prev < |ns| && p != f
    requires prev != p && prev != f
    requires ns[f].next == -1 && ns[prev].next == p && forall i :: 0 <= i < |ns| ==> ns[i].next != f
    ensures Chained(Moved(ns, p, f, prev, key), MovedTail(tail, p, f))
  {
    assert forall i :: 0 <= i < |ns| && i != prev ==> ns[i].next != p;
    hide Chained, Moved, MovedTail, Subst, Injective;
    var now, tl := Moved(ns, p, f, prev, key), MovedTail(tail, p, f);
    MovedNext(ns, tail, p, f, prev, key, p);
    forall x: nat | x < |now| ensures Linked(now, tl, x) { MovedNext(ns, tail, p, f, prev, key, x); }
    ChainedIntro(now, tl);
  }

  lemma MovedHomed<V>(mp: MainPos, ns: seq<Node<V>>, tail: Tails, p: nat, f: nat, prev: nat, key: Key)
    requires |tail| == |ns| && NodesOk(mp, ns, tail) && key != NilKey && p == mp(key, |ns|) < |ns| && f < |ns|
    requires prev < |ns|
    requires ns[f].key == NilKey && ns[p].key != NilKey && mp(ns[p].key, |ns|) != p && ns[prev].next == p && prev != p
    ensures Homed(mp, Moved(ns, p, f, prev, key), MovedTail(tail, p, f))
  {
    hide Chained, Injective;
    var now, tl := Moved(ns, p, f, prev, key), MovedTail(tail, p, f);
    assert prev != f;
    forall i | 0 <= i < |now| && now[i].key != NilKey
      ensures var m := mp(now[i].key, |now|);
              m < |now| && i in tl[m] && now[m].key != NilKey && mp(now[m].key, |now|) == m
    {
      var m := mp(now[i].key, |now|);
      if i != p {
        var was := if i == f then p else i;
        assert m != p && m != f && was in tail[m];
        SubstMembers(tail[m], p, f);
      }
    }
  }

  lemma MovedOk<V>(mp: MainPos, ns: seq<Node<V>>, tail: Tails, p: nat, f: nat, prev: nat, key: Key)
    requires |tail| == |ns| && NodesOk(mp, ns, tail) && key != NilKey && !HasKey(ns, key) && p == mp(key, |ns|) < |ns|
    requires f < |ns| && prev < |ns|
    requires ns[f].key == NilKey && ns[p].key != NilKey && mp(ns[p].key, |ns|) != p && ns[prev].next == p && prev != p
    ensures NodesOk(mp, Moved(ns, p, f, prev, key), MovedTail(tail, p, f))
  {
    hide Chained, Homed, Injective, FreeApart;
    Unpointed(ns, f);
    MovedChained(ns, tail, p, f, prev, key);
    MovedHomed(mp, ns, tail, p, f, prev, key);
    MovedInjective(ns, p, f, prev, key);
    MovedApart(ns, p, f, prev, key);
    MovedUnique(ns, p, f, prev, key);
  }

  lemma MovedInjective<V>(ns: seq<Node<V>>, p: nat, f: nat, prev: nat, key: Key)
    requires Injective(ns) && p < |ns| && f < |ns| && prev < |ns| && p != f && prev != p && prev != f
    requires ns[prev].next == p && ns[f].next == -1 && forall i :: 0 <= i < |ns| ==> ns[i].next != f
    ensures Injective(Moved(ns, p, f, prev, key))
  {
  }

  lemma MovedApart<V>(ns: seq<Node<V>>, p: nat, f: nat, prev: nat, key: Key)
    requires Injective(ns) && FreeApart(ns) && p < |ns| && f < |ns| && prev < |ns| && p != f && prev != p && prev != f
    requires ns[prev].next == p && ns[p].key != NilKey && ns[f].key == NilKey && key != NilKey
    ensures FreeApart(Moved(ns, p, f, prev, key))
  {
  }

  lemma MovedUnique<V>(ns: seq<Node<V>>, p: nat, f: nat, prev: nat, key: Key)
    requires UniqueKeys(ns) && !HasKey(ns, key) && p < |ns| && f < |ns| && prev < |ns| && p != f && prev != p
    requires prev != f
    requires ns[f].key == NilKey
    ensures UniqueKeys(Moved(ns, p, f, prev, key))
  {
    var now := Moved(ns, p, f, prev, key);
    assert forall i :: 0 <= i < |ns| ==> now[i].key == if i == p then key else if i == f then ns[p].key else ns[i].key;
  }
}
