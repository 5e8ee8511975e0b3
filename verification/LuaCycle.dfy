/** Collections that run to their end: a measure that every step lowers, and what many steps keep. */
module LuaCycle {
  import opened LuaHeap
  import opened LuaMark
  import opened LuaGcState
  import opened LuaSweep
  import opened LuaPrecise

  /** The order of the phases within a cycle. */
  function Rank(p: Phase): nat {
    match p
    case Pause => 0
    case Finalize => 1
    case Sweep => 2
    case SweepString => 3
    case Propagate => 4
  }

  /** What a phase uses up: objects to mark, or objects to free. */
  ghost function Work(s: State): set<Ref> {
    if s.phase.Propagate? then Whites(s.color) else if s.phase.Sweep? then s.heap.Keys else {}
  }

  function Left(n: nat, i: nat): nat { if i < n then n - i else 0 }

  /** What is left of a list while the work stays the same. */
  function Steps(s: State): nat {
    match s.phase
    case Propagate => |s.gray|
    case SweepString => Left(|s.strt|, s.sweepStr)
    case Sweep => Left(|s.rootgc|, s.sweepPos)
    case _ => 0
  }

  ghost predicate Progress(s: State, t: State) {
    || Rank(t.phase) < Rank(s.phase)
    || (t.phase == s.phase && (Work(t) < Work(s) || (Work(t) == Work(s) && Steps(t) < Steps(s))))
  }

  /** A sweep frees objects or moves along the list. */
  ghost predicate Swept(s: State, t: State) {
    t.heap.Keys < s.heap.Keys
    || (t.heap.Keys == s.heap.Keys && Left(|t.rootgc|, t.sweepPos) < Left(|s.rootgc|, s.sweepPos))
  }

  lemma SweptAdvance(s: State, m: State, t: State)
    requires m.heap.Keys <= s.heap.Keys && m.rootgc == s.rootgc && m.sweepPos == s.sweepPos < |s.rootgc|
    requires t.heap == m.heap && t.rootgc == m.rootgc && t.sweepPos == m.sweepPos + 1
    ensures Swept(s, t)
  {
  }

  lemma SweptFree(s: State, m: State, t: State, r: Ref)
    requires t.heap.Keys <= m.heap.Keys <= s.heap.Keys && r in m.heap && r !in t.heap
    ensures Swept(s, t)
  {
    assert r in s.heap.Keys && r !in t.heap.Keys;
  }

  lemma UnlinkKeys(h: Heap, u: Ref)
    requires u in h && h[u].Open? && h[u].thread in h && h[h[u].thread].Thread?
    ensures UnlinkUpval(h, u).Keys == h.Keys - {u}
  {
    hide Without;
  }

  // ---------------------------------------------------------------- many steps

  /** What is reachable stays reachable, and nothing else becomes so. */
  lemma KeptReach(s: State, t: State, r: Ref)
    requires Kept(s, t)
    ensures Reach(s, r) <==> Reach(t, r)
  {
    hide Roots, Reachable, Fields;
    forall x | x in Roots(s) ensures Reach(s, x) && Reach(t, x) {
      ReachableRoot(s.heap, Roots(s), x);
      ReachableRoot(t.heap, Roots(t), x);
    }
    if Reach(s, r) {
      var both := iset x: Ref | Reach(s, x) && Reach(t, x);
      forall x, y | x in both && x in s.heap && Points(s.heap, x, y) ensures y in both {
        ReachClosed(s, x, y);
        ReachClosed(t, x, y);
      }
      ReachableInClosed(s.heap, Roots(s), both, r);
    }
    if Reach(t, r) {
      var first := iset x: Ref | Reach(s, x);
      forall x, y | x in first && x in t.heap && Points(t.heap, x, y) ensures y in first { ReachClosed(s, x, y); }
      ReachableInClosed(t.heap, Roots(t), first, r);
    }
  }

  lemma KeptTrans(s: State, t: State, u: State)
    requires Kept(s, t) && Kept(t, u)
    ensures Kept(s, u)
  {
    hide Roots, Reach, Fields;
    forall r | Reach(s, r) ensures r in s.heap && r in u.heap && Fields(u.heap, r) == Fields(s.heap, r) {
      KeptReach(s, t, r);
    }
  }

  /** The heap holds the reachable objects and no others. */
  ghost predicate NoGarbage(s: State) {
    forall r :: r in s.heap <==> Reach(s, r)
  }

  lemma PreciseExact(s: State)
    requires s.phase.Propagate? && Precise(s)
    ensures Exact(s)
  {
  }

  lemma CleanEnd(s: State, t: State)
    requires Inv(s) && s.phase.Finalize? && Exact(s) && t == s.(phase := Pause)
    ensures NoGarbage(t)
  {
    hide Inv, Reachable;
    assert Roots(t) == Roots(s);
    forall r ensures r in t.heap <==> Reach(t, r) { CycleIsExact(s, r); }
  }

  /** After a collection the heap holds what was reachable when it began. */
  lemma OnlyReachable(s: State, t: State)
    requires Kept(s, t) && NoGarbage(t)
    ensures forall r :: r in t.heap <==> Reach(s, r)
  {
    hide Reach, Kept;
    forall r ensures r in t.heap <==> Reach(s, r) { KeptReach(s, t, r); }
  }
}
