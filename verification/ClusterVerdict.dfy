/** The verdict on the cluster: slot coverage, failed owners, and the reachable majority of masters. */
module ClusterVerdict {
  import opened SlotBitmap
  import opened ClusterNode

  datatype Verdict = Verdict(covered: nat, masters: nat, reachable: nat, failSlots: bool)

  /** Whether data commands may be served. */
  predicate Ok(v: Verdict) {
    v.covered == SLOTS && !v.failSlots && v.masters > 0 && v.reachable >= v.masters / 2 + 1
  }

  /** All slots are covered but the majority of masters is not reachable. */
  predicate Minority(v: Verdict) {
    v.covered == SLOTS && !v.failSlots && v.masters > 0 && v.reachable < v.masters / 2 + 1
  }

  ghost predicate Serves(ns: seq<Node>, i: nat) {
    exists s: nat :: Owns(ns, i, s)
  }

  predicate IsMaster(n: Node) { Master in n.flags }

  predicate IsReachable(n: Node) { Master in n.flags && Fail !in n.flags && Disconnected !in n.flags }

  ghost function ServingMasters(ns: seq<Node>, k: nat): set<nat> {
    set i: nat | i < k && i < |ns| && IsMaster(ns[i]) && Serves(ns, i)
  }

  ghost function ReachableMasters(ns: seq<Node>, k: nat): set<nat> {
    set i: nat | i < k && i < |ns| && IsReachable(ns[i]) && Serves(ns, i)
  }

  /** The slots held by the first i nodes, and those below t held by node i. */
  ghost function CoveredBy(ns: seq<Node>, i: nat, t: nat): set<nat> {
    set s: nat | s < SLOTS && (HeldBelow(ns, i, s) || (s < t && Owns(ns, i, s)))
  }

  ghost predicate HeldBelow(ns: seq<Node>, i: nat, s: nat) {
    exists k: nat :: k < i && Owns(ns, k, s)
  }

  /** A failed node below i holds a slot, or a slot below t is held by node i, failed. */
  ghost predicate FailHeld(ns: seq<Node>, i: nat, t: nat) {
    exists k: nat, s: nat :: Owns(ns, k, s) && Fail in ns[k].flags && (k < i || (k == i && s < t))
  }

  /** The verdict computed anew. */
  ghost function Fresh(ns: seq<Node>): Verdict {
    Verdict(|CoveredBy(ns, |ns|, 0)|, |ServingMasters(ns, |ns|)|, |ReachableMasters(ns, |ns|)|, FailHeld(ns, |ns|, 0))
  }

  lemma CoveredStep(ns: seq<Node>, i: nat, t: nat)
    requires i < |ns| && t < SLOTS
    ensures CoveredBy(ns, i, t + 1) == if Owns(ns, i, t) then CoveredBy(ns, i, t) + {t} else CoveredBy(ns, i, t)
  {
    hide Has, Owns;
  }

  lemma CoveredNext(ns: seq<Node>, i: nat)
    requires i < |ns|
    ensures CoveredBy(ns, i, SLOTS) == CoveredBy(ns, i + 1, 0)
  {
    hide Has, Owns;
    forall s: nat ensures HeldBelow(ns, i + 1, s) == (HeldBelow(ns, i, s) || Owns(ns, i, s)) { }
  }

  lemma FailStep(ns: seq<Node>, i: nat, t: nat)
    requires i < |ns| && t < SLOTS
    ensures FailHeld(ns, i, t + 1) == (FailHeld(ns, i, t) || (Owns(ns, i, t) && Fail in ns[i].flags))
  {
    hide Has;
  }

  lemma FailNext(ns: seq<Node>, i: nat)
    requires i < |ns|
    ensures FailHeld(ns, i, SLOTS) == FailHeld(ns, i + 1, 0)
  {
  }

  lemma MastersStep(ns: seq<Node>, i: nat)
    requires i < |ns|
    ensures |ServingMasters(ns, i + 1)| == |ServingMasters(ns, i)| + if IsMaster(ns[i]) && Serves(ns, i) then 1 else 0
  {
    hide Serves, IsMaster;
    var was, now := ServingMasters(ns, i), ServingMasters(ns, i + 1);
    if IsMaster(ns[i]) && Serves(ns, i) { assert now == was + {i}; } else { assert now == was; }
  }

  lemma ReachableStep(ns: seq<Node>, i: nat)
    requires i < |ns|
    ensures |ReachableMasters(ns, i + 1)| ==
      |ReachableMasters(ns, i)| + if IsReachable(ns[i]) && Serves(ns, i) then 1 else 0
  {
    hide Serves, IsReachable;
    var was, now := ReachableMasters(ns, i), ReachableMasters(ns, i + 1);
    if IsReachable(ns[i]) && Serves(ns, i) { assert now == was + {i}; } else { assert now == was; }
  }

  /** One node's slots: adds to the covered slots and tells whether it serves any. */
  method ScanNode(ns: seq<Node>, i: nat, cov0: Bitmap, count0: nat, fail0: bool)
    returns (cov: Bitmap, count: nat, serves: bool, fail: bool)
    requires i < |ns| && (forall s: nat :: Has(cov0, s) == (s in CoveredBy(ns, i, 0)))
    requires count0 == |CoveredBy(ns, i, 0)| && fail0 == FailHeld(ns, i, 0)
    ensures forall s: nat :: Has(cov, s) == (s in CoveredBy(ns, i + 1, 0))
    ensures count == |CoveredBy(ns, i + 1, 0)| && fail == FailHeld(ns, i + 1, 0) && serves == Serves(ns, i)
  {
    hide Has, With, CoveredBy, FailHeld;
    cov, count, serves, fail := cov0, count0, false, fail0;
    for s := 0 to SLOTS
      invariant forall t: nat :: Has(cov, t) == (t in CoveredBy(ns, i, s))
      invariant count == |CoveredBy(ns, i, s)| && fail == FailHeld(ns, i, s)
      invariant serves == exists t: nat :: t < s && Owns(ns, i, t)
    {
      CoveredStep(ns, i, s);
      FailStep(ns, i, s);
      if Owns(ns, i, s) {
        serves := true;
        if Fail in ns[i].flags { fail := true; }
        if !Has(cov, s) {
          forall t: nat ensures Has(With(cov, s, true), t) == (t == s || Has(cov, t)) { HasWith(cov, s, true, t); }
          cov, count := With(cov, s, true), count + 1;
        }
      }
    }
    CoveredNext(ns, i);
    FailNext(ns, i);
    forall t: nat | Owns(ns, i, t) ensures t < SLOTS { HasSlot(ns[i].slots, t); }
  }

  lemma HasSlot(bm: Bitmap, s: nat)
    requires Has(bm, s)
    ensures s < SLOTS
  {
  }

  method Recompute(ns: seq<Node>) returns (v: Verdict)
    ensures v == Fresh(ns)
  {
    hide Has, CoveredBy, FailHeld, ServingMasters, ReachableMasters, Serves;
    var cov, covered, masters, reachable, fail := Empty(), 0, 0, 0, false;
    NothingYet(ns);
    for i := 0 to |ns|
      invariant forall s: nat :: Has(cov, s) == (s in CoveredBy(ns, i, 0))
      invariant covered == |CoveredBy(ns, i, 0)| && fail == FailHeld(ns, i, 0)
      invariant masters == |ServingMasters(ns, i)| && reachable == |ReachableMasters(ns, i)|
    {
      var serves;
      cov, covered, serves, fail := ScanNode(ns, i, cov, covered, fail);
      MastersStep(ns, i);
      ReachableStep(ns, i);
      if IsMaster(ns[i]) && serves {
        masters := masters + 1;
        if IsReachable(ns[i]) { reachable := reachable + 1; }
      }
    }
    v := Verdict(covered, masters, reachable, fail);
  }

  lemma NothingYet(ns: seq<Node>)
    ensures CoveredBy(ns, 0, 0) == {} && ServingMasters(ns, 0) == {} && ReachableMasters(ns, 0) == {}
    ensures !FailHeld(ns, 0, 0)
  {
  }

  /** The verdict depends on owners and flags only. */
  lemma SameVerdict(ns: seq<Node>, now: seq<Node>)
    requires |now| == |ns| && forall i: nat, s: nat :: Owns(now, i, s) == Owns(ns, i, s)
    requires forall i :: 0 <= i < |ns| ==> now[i].flags == ns[i].flags
    ensures Fresh(now) == Fresh(ns)
  {
    hide Owns;
    assert forall i: nat :: Serves(now, i) == Serves(ns, i);
    assert ServingMasters(now, |now|) == ServingMasters(ns, |ns|);
    assert ReachableMasters(now, |now|) == ReachableMasters(ns, |ns|);
    assert CoveredBy(now, |now|, 0) == CoveredBy(ns, |ns|, 0) by {
      forall s: nat ensures HeldBelow(now, |now|, s) == HeldBelow(ns, |ns|, s) { }
    }
    SameFail(ns, now);
  }

  lemma SameFail(ns: seq<Node>, now: seq<Node>)
    requires |now| == |ns| && forall i: nat, s: nat :: Owns(now, i, s) == Owns(ns, i, s)
    requires forall i :: 0 <= i < |ns| ==> now[i].flags == ns[i].flags
    ensures FailHeld(now, |now|, 0) == FailHeld(ns, |ns|, 0)
  {
    hide Has;
  }

  /** A new node without slots does not change the verdict. */
  lemma AddedVerdict(ns: seq<Node>, n: Node)
    requires forall s: nat :: !Has(n.slots, s)
    ensures Fresh(ns + [n]) == Fresh(ns)
  {
    hide Has;
    var now := ns + [n];
    forall i: nat, s: nat ensures Owns(now, i, s) == Owns(ns, i, s) { }
    assert forall i: nat :: Serves(now, i) == Serves(ns, i);
    assert ServingMasters(now, |now|) == ServingMasters(ns, |ns|) by { NoServe(now, |ns|); }
    assert ReachableMasters(now, |now|) == ReachableMasters(ns, |ns|) by { NoServe(now, |ns|); }
    assert CoveredBy(now, |now|, 0) == CoveredBy(ns, |ns|, 0) by {
      forall s: nat ensures HeldBelow(now, |now|, s) == HeldBelow(ns, |ns|, s) { }
    }
    assert FailHeld(now, |now|, 0) == FailHeld(ns, |ns|, 0);
  }

  lemma NoServe(ns: seq<Node>, i: nat)
    requires forall s: nat :: !Owns(ns, i, s)
    ensures !Serves(ns, i)
  {
  }
}
