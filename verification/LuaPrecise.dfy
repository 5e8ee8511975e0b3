/** What the collector frees: a cycle that the program does not interrupt leaves exactly the reachable objects. */
module LuaPrecise {
  import opened LuaHeap
  import opened LuaMark
  import opened LuaGcState
  import opened LuaPropagate
  import opened LuaSweep

  /** Only reachable objects are marked. */
  ghost predicate Precise(s: State) {
    forall r :: r in s.color && !IsWhite(s.color[r]) ==> Reach(s, r)
  }

  /** Only reachable objects are spared by the sweep. */
  ghost predicate Tight(s: State) {
    forall r :: Alive(s, r) ==> Reach(s, r)
  }

  /** No garbage has been marked in this cycle. */
  ghost predicate Exact(s: State) {
    match s.phase
    case Pause => true
    case Propagate => Precise(s)
    case _ => Tight(s)
  }

  ghost function ReachSet(s: State): iset<Ref> { iset r: Ref | Reach(s, r) }

  /** The closed set that marking stays in. */
  ghost function MarkSet(s: State): iset<Ref> {
    if Precise(s) then ReachSet(s) else Everything()
  }

  lemma ReachClosed(s: State, r: Ref, x: Ref)
    requires Reach(s, r) && r in s.heap && Points(s.heap, r, x)
    ensures Reach(s, x)
  {
    ReachableStep(s.heap, Roots(s), r, x);
  }

  lemma RootsReach(s: State)
    ensures Reach(s, s.mainthread) && Reach(s, s.running) && ValsIn([s.registry], ReachSet(s))
    ensures ValsIn(s.mt, ReachSet(s))
    ensures forall r :: r in s.fixed ==> Reach(s, r)
  {
    hide Reachable;
    forall r | r in Roots(s) ensures Reach(s, r) { ReachableRoot(s.heap, Roots(s), r); }
  }

  lemma PreciseInside(s: State)
    requires Precise(s)
    ensures Inside(s.heap, s.color, ReachSet(s))
  {
    hide Reach;
    forall r, x | r in ReachSet(s) && r in s.heap && Points(s.heap, r, x) ensures x in ReachSet(s) {
      ReachClosed(s, r, x);
    }
  }

  lemma MarkSetInside(s: State)
    ensures Inside(s.heap, s.color, MarkSet(s)) && ValsIn([To(s.running)], MarkSet(s)) && ValsIn(s.mt, MarkSet(s))
  {
    hide Reach, Precise, Inside;
    RootsReach(s);
    if Precise(s) {
      PreciseInside(s);
    } else {
      InsideAll(s.heap, s.color, [To(s.running)]);
      InsideAll(s.heap, s.color, s.mt);
    }
  }

  lemma StartInside(s: State)
    requires Lists(s) && AllWhite(s)
    ensures Inside(s.heap, s.color, ReachSet(s)) && s.mainthread in ReachSet(s) && ValsIn([s.registry], ReachSet(s))
    ensures ValsIn(s.mt, ReachSet(s))
  {
    hide Reach, Inside;
    RootsReach(s);
    PreciseInside(s);
  }

  /** Same objects and same roots. */
  ghost predicate SameGraph(s: State, t: State) {
    t.heap == s.heap && Roots(t) == Roots(s)
  }

  /** Marking changes colours, queues and the phase only. */
  lemma MarkingSame(s: State, t: State)
    requires t == s.(color := t.color, gray := t.gray, grayagain := t.grayagain, phase := t.phase)
    ensures SameGraph(s, t)
  {
  }

  lemma InsidePrecise(s: State, t: State)
    requires SameGraph(s, t) && Inside(t.heap, t.color, ReachSet(s))
    ensures Precise(t)
  {
    hide Reachable, Roots;
  }

  lemma MarkSetPrecise(s: State, t: State)
    requires SameGraph(s, t) && Inside(t.heap, t.color, MarkSet(s))
    ensures Precise(s) ==> Precise(t)
  {
    hide Reach;
    if Precise(s) { InsidePrecise(s, t); }
  }

  /** After the flip of white, what is alive was marked or is fixed. */
  lemma FlipTight(s: State, m: State, t: State)
    requires m == s.(color := m.color, gray := m.gray, grayagain := m.grayagain)
    requires t == m.(white := OtherWhite(m.white), phase := SweepString, sweepStr := 0, sweepPos := 0)
    requires Lists(m) && NoDead(m) && Inside(m.heap, m.color, MarkSet(s))
    ensures Precise(s) ==> Tight(t)
  {
    hide Reachable, Inside;
    assert Roots(s) == Roots(m) == Roots(t);
    if Precise(s) {
      RootsReach(s);
      MarkSetPrecise(s, m);
      forall r | Alive(t, r) ensures Reach(t, r) {
        if r !in t.fixed { WhiteOr(m.white, m.color[r]); }
      }
    }
  }

  lemma WhiteOr(white: Color, c: Color)
    requires c != white && c != OtherWhite(white) && IsWhite(white)
    ensures !IsWhite(c)
  {
  }

  lemma ReachCarries(s: State, t: State, r: Ref)
    requires Survives(s, t) && Safe(s) && Reach(s, r)
    ensures Reach(t, r)
  {
    hide Roots, Reachable;
    var set1 := iset x: Ref | Alive(s, x) && Reach(t, x);
    forall x | x in Roots(s) ensures x in set1 {
      ReachableRoot(t.heap, Roots(t), x);
      ReachableRoot(s.heap, Roots(s), x);
      ReachableAlive(s, x);
    }
    forall x, y | x in set1 && x in s.heap && Points(s.heap, x, y) ensures y in set1 {
      assert Fields(t.heap, x) == Fields(s.heap, x);
      ReachClosed(t, x, y);
      assert Alive(s, y);
    }
    ReachableInClosed(s.heap, Roots(s), set1, r);
  }

  /** The sweep frees garbage only and spares no garbage that was not spared before. */
  lemma TightStays(s: State, t: State)
    requires Survives(s, t) && Inv(s)
    ensures Tight(s) ==> Tight(t)
  {
    hide Roots, Reach, Lists, NeverBlack, PhaseOk, Fields;
    if Tight(s) {
      forall r | Alive(t, r) ensures Reach(t, r) { ReachCarries(s, t, r); }
    }
  }

  /** At the end of an uninterrupted cycle the heap holds the reachable objects and no others. */
  lemma CycleIsExact(s: State, r: Ref)
    requires Inv(s) && s.phase.Finalize? && Exact(s)
    ensures r in s.heap <==> Reach(s, r)
  {
    hide Lists, NeverBlack, Reach;
    InvKeys(s);
    if r in s.heap { assert Alive(s, r); }
    if Reach(s, r) { ReachableAlive(s, r); }
  }

  lemma ThreadFieldsIn(h: Heap, t: Ref, s: iset<Ref>)
    requires t in h && h[t].Thread? && ValsIn(Fields(h, t), s)
    ensures ValsIn(h[t].fields, s)
  {
    forall i | 0 <= i < |h[t].fields| && h[t].fields[i].To? ensures h[t].fields[i].ref in s {
      assert Fields(h, t)[i] == h[t].fields[i];
    }
  }
}
