/** The sweep on values: the primitive steps that whiten or free one object. */
module LuaSweep {
  import opened Basics
  import opened LuaHeap
  import opened LuaMark
  import opened LuaGcState

  // ---------------------------------------------------------------- unlinking from a list

  function Without(s: seq<Ref>, r: Ref): seq<Ref> {
    if s == [] then [] else (if s[0] == r then [] else [s[0]]) + Without(s[1..], r)
  }

  lemma {:induction false} WithoutMembers(s: seq<Ref>, r: Ref)
    ensures forall x :: x in Without(s, r) <==> x in s && x != r
  {
    if s != [] { WithoutMembers(s[1..], r); }
  }

  lemma {:induction false} WithoutNoDup(s: seq<Ref>, r: Ref)
    requires NoDup(s)
    ensures NoDup(Without(s, r))
  {
    if s != [] {
      assert NoDup(s[1..]);
      WithoutNoDup(s[1..], r);
      WithoutMembers(s[1..], r);
      assert s[0] !in s[1..];
    }
  }

  lemma {:induction false} WithoutPrefix(s: seq<Ref>, r: Ref, k: nat)
    requires k <= |s| && r !in s[..k]
    ensures k <= |Without(s, r)| && Without(s, r)[..k] == s[..k]
  {
    if k > 0 {
      assert s[0] in s[..k];
      assert s[1..][..k - 1] == s[..k][1..];
      WithoutPrefix(s[1..], r, k - 1);
      assert Without(s, r) == [s[0]] + Without(s[1..], r);
    }
  }

  lemma {:induction false} WithoutDescending(h: Heap, s: seq<Ref>, r: Ref)
    requires Descending(h, s) && forall x :: x in s ==> x in h && h[x].Open?
    ensures Descending(h, Without(s, r))
  {
    if s != [] {
      var rest := s[1..];
      assert forall i :: 0 <= i < |rest| ==> rest[i] == s[i + 1];
      WithoutDescending(h, rest, r);
      WithoutMembers(rest, r);
      if s[0] != r {
        var w := Without(rest, r);
        forall j | 0 <= j < |w| ensures h[s[0]].slot > h[w[j]].slot {
          assert w[j] in rest;
          var k :| 0 <= k < |rest| && rest[k] == w[j];
          assert h[s[0]].slot > h[s[k + 1]].slot;
        }
      }
    }
  }

  // ---------------------------------------------------------------- steps

  predicate Sweeping(s: State) { s.phase.SweepString? || s.phase.Sweep? }

  /** What was alive stays alive and keeps its references, nothing else comes alive, and the roots are the same. */
  ghost predicate Survives(s: State, t: State) {
    && Roots(t) == Roots(s)
    && forall x :: (Alive(s, x) <==> Alive(t, x)) && (Alive(s, x) ==> Fields(t.heap, x) == Fields(s.heap, x))
  }

  /** When a sweep is over, the heap holds exactly what was alive when it began: all garbage is freed. */
  lemma SweepIsExact(s: State, t: State, r: Ref)
    requires Survives(s, t) && Inv(t) && (t.phase.Finalize? || t.phase.Pause?)
    ensures r in t.heap <==> Alive(s, r)
  {
    hide Lists, Safe, NeverBlack;
    InvKeys(t);
  }

  /** Every reachable object is still in the heap and refers to the same objects. */
  ghost predicate Kept(s: State, t: State) {
    Roots(t) == Roots(s) &&
    forall r :: Reach(s, r) ==> r in s.heap && r in t.heap && Fields(t.heap, r) == Fields(s.heap, r)
  }

  lemma SurvivesTrans(s: State, t: State, u: State)
    requires Survives(s, t) && Survives(t, u)
    ensures Survives(s, u)
  {
    hide Roots, Fields;
    assert forall x :: Alive(s, x) ==> Alive(t, x);
  }

  /** A step that keeps the same objects alive, holding the same references, stays safe. */
  lemma SafeSame(s: State, t: State)
    requires Safe(s) && Roots(t) == Roots(s)
    requires forall x :: Alive(t, x) <==> Alive(s, x)
    requires forall x :: Alive(s, x) ==> x in t.heap && Fields(t.heap, x) == Fields(s.heap, x)
    ensures Safe(t)
  {
    forall r, c | Alive(t, r) && Points(t.heap, r, c) ensures Alive(t, c) {
      assert Points(s.heap, r, c);
    }
  }

  lemma WhitenInv(s: State, r: Ref)
    requires Inv(s) && Sweeping(s) && Alive(s, r)
    ensures Inv(s.(color := s.color[r := s.white])) && Survives(s, s.(color := s.color[r := s.white]))
  {
    var t := s.(color := s.color[r := s.white]);
    hide Roots, Fields, RootListOk, StringsOk, OpenOk, Safe;
    RootsFrame(s, t);
    SafeSame(s, t);
  }

  lemma RootsFrame(s: State, t: State)
    requires t.mainthread == s.mainthread && t.running == s.running && t.registry == s.registry && t.mt == s.mt
    requires t.fixed == s.fixed
    ensures Roots(t) == Roots(s)
  {
  }

  // ---------------------------------------------------------------- the lists, one object less

  lemma RootListDrop(h: Heap, rootgc: seq<Ref>, r: Ref)
    requires RootListOk(h, rootgc) && r in h && !InRootList(h[r])
    ensures RootListOk(h - {r}, rootgc)
  {
  }

  lemma StringsDrop(h: Heap, strt: seq<seq<Ref>>, r: Ref)
    requires StringsOk(h, strt) && r in h && !h[r].Str?
    ensures StringsOk(h - {r}, strt)
  {
  }

  lemma OpenDrop(h: Heap, uvhead: set<Ref>, r: Ref)
    requires OpenOk(h, uvhead) && r in h && !h[r].Open? && (h[r].Thread? ==> h[r].open == [])
    ensures OpenOk(h - {r}, uvhead)
    ensures forall x :: x in h && x != r ==> Fields(h - {r}, x) == Fields(h, x)
  {
    hide Fields;
    var h' := h - {r};
    assert forall u :: u in h && h[u].Open? ==> h[u].thread != r;
    forall t | t in h' && h'[t].Thread? ensures Descending(h', h'[t].open) { DropDescends(h, r, t); }
    forall x | x in h && x != r ensures Fields(h', x) == Fields(h, x) { DropFields(h, r, x); }
    hide Descending;
  }

  lemma DropDescends(h: Heap, r: Ref, t: Ref)
    requires t in h && h[t].Thread? && Descending(h, h[t].open)
    ensures Descending(h - {r}, h[t].open)
  {
  }

  lemma DropFields(h: Heap, r: Ref, x: Ref)
    requires x in h && x != r && (h[x].Open? ==> h[x].thread != r)
    ensures Fields(h - {r}, x) == Fields(h, x)
  {
  }

  lemma RootListUnlink(h: Heap, rootgc: seq<Ref>, r: Ref)
    requires RootListOk(h, rootgc)
    ensures RootListOk(h - {r}, Without(rootgc, r))
  {
    WithoutMembers(rootgc, r);
    WithoutNoDup(rootgc, r);
  }

  lemma StringsUnlink(h: Heap, strt: seq<seq<Ref>>, b: nat, r: Ref)
    requires StringsOk(h, strt) && b < |strt| && r in strt[b]
    ensures StringsOk(h - {r}, strt[b := Without(strt[b], r)])
  {
    var now := strt[b := Without(strt[b], r)];
    WithoutMembers(strt[b], r);
    WithoutNoDup(strt[b], r);
    forall x ensures InSomeBucket(now, x) <==> x in h - {r} && (h - {r})[x].Str? {
      if InSomeBucket(now, x) {
        var c :| 0 <= c < |now| && x in now[c];
        assert x in strt[c] && x != r;
        assert InSomeBucket(strt, x);
      }
      if x in h && x != r && h[x].Str? {
        assert InSomeBucket(strt, x);
        var c :| 0 <= c < |strt| && x in strt[c];
        assert x in now[c];
      }
    }
  }

  /** The heap with open upvalue u unlinked from its thread and freed. */
  function UnlinkUpval(h: Heap, u: Ref): (h': Heap)
    requires u in h && h[u].Open? && h[u].thread in h && h[h[u].thread].Thread?
  {
    var t := h[u].thread;
    (h - {u})[t := h[t].(open := Without(h[t].open, u))]
  }

  lemma UnlinkFrame(h: Heap, uvhead: set<Ref>, u: Ref)
    requires OpenOk(h, uvhead) && u in h && h[u].Open?
    ensures var h' := UnlinkUpval(h, u);
            && (forall x :: x in h' <==> x in h && x != u)
            && (forall x :: x in h' && !h[x].Thread? ==> h'[x] == h[x])
            && (forall x :: x in h' && h[x].Thread? ==>
                  h'[x] == h[x].(open := if x == h[u].thread then Without(h[x].open, u) else h[x].open))
  {
  }

  lemma UnlinkFields(h: Heap, uvhead: set<Ref>, u: Ref)
    requires OpenOk(h, uvhead) && u in h && h[u].Open?
    ensures forall x :: x in UnlinkUpval(h, u) ==> x in h && Fields(UnlinkUpval(h, u), x) == Fields(h, x)
  {
    hide UnlinkUpval;
    UnlinkFrame(h, uvhead, u);
  }

  lemma OpenUnlinkHomes(h: Heap, uvhead: set<Ref>, u: Ref)
    requires OpenOk(h, uvhead) && u in h && h[u].Open?
    ensures var h' := UnlinkUpval(h, u);
            forall x :: x in h' && h'[x].Open? ==>
              && h'[x].thread in h' && h'[h'[x].thread].Thread? && h'[x].slot < |h'[h'[x].thread].stack|
              && x in h'[h'[x].thread].open
  {
    hide UnlinkUpval, Without, Descending;
    UnlinkFrame(h, uvhead, u);
    WithoutMembers(h[h[u].thread].open, u);
  }

  lemma OpenUnlinkLists(h: Heap, uvhead: set<Ref>, u: Ref)
    requires OpenOk(h, uvhead) && u in h && h[u].Open?
    ensures var h' := UnlinkUpval(h, u);
            forall t :: t in h' && h'[t].Thread? ==>
              Descending(h', h'[t].open) && forall x :: x in h'[t].open ==> x in h' && h'[x].Open? && h'[x].thread == t
  {
    hide UnlinkUpval, Without, Descending;
    var h' := UnlinkUpval(h, u);
    UnlinkFrame(h, uvhead, u);
    UpvalOnlyThere(h, uvhead, u);
    WithoutMembers(h[h[u].thread].open, u);
    WithoutDescending(h, h[h[u].thread].open, u);
    forall t | t in h' && h'[t].Thread? ensures Descending(h', h'[t].open) {
      DescendingFrame(h, h', h'[t].open);
    }
  }

  lemma OpenUnlink(h: Heap, uvhead: set<Ref>, u: Ref)
    requires OpenOk(h, uvhead) && u in h && h[u].Open?
    ensures OpenOk(UnlinkUpval(h, u), uvhead - {u})
  {
    hide UnlinkUpval, Descending;
    UnlinkFrame(h, uvhead, u);
    OpenUnlinkHomes(h, uvhead, u);
    OpenUnlinkLists(h, uvhead, u);
  }

  lemma DescendingFrame(h: Heap, h': Heap, open: seq<Ref>)
    requires Descending(h, open) && forall x :: x in open && x in h' && h'[x].Open? ==> x in h && h[x] == h'[x]
    ensures Descending(h', open)
  {
  }

  lemma RootListUnlinkUpval(h: Heap, uvhead: set<Ref>, rootgc: seq<Ref>, u: Ref)
    requires OpenOk(h, uvhead) && u in h && h[u].Open? && RootListOk(h, rootgc)
    ensures RootListOk(UnlinkUpval(h, u), rootgc)
  {
    hide UnlinkUpval;
    UnlinkFrame(h, uvhead, u);
  }

  lemma StringsUnlinkUpval(h: Heap, uvhead: set<Ref>, strt: seq<seq<Ref>>, u: Ref)
    requires OpenOk(h, uvhead) && u in h && h[u].Open? && StringsOk(h, strt)
    ensures StringsOk(UnlinkUpval(h, u), strt)
  {
    hide UnlinkUpval;
    UnlinkFrame(h, uvhead, u);
  }

  // ---------------------------------------------------------------- freeing

  function FreeString(s: State, b: nat, r: Ref): State
    requires b < |s.strt|
  {
    s.(heap := s.heap - {r}, color := s.color - {r}, strt := s.strt[b := Without(s.strt[b], r)])
  }

  function FreeUpval(s: State, u: Ref): State
    requires u in s.heap && s.heap[u].Open? && s.heap[u].thread in s.heap && s.heap[s.heap[u].thread].Thread?
  {
    s.(heap := UnlinkUpval(s.heap, u), color := s.color - {u}, uvhead := s.uvhead - {u})
  }

  function FreeRoot(s: State, r: Ref): State {
    s.(heap := s.heap - {r}, color := s.color - {r}, rootgc := Without(s.rootgc, r))
  }

  /** Freeing an object that is not alive. */
  lemma FreeSafe(s: State, t: State, r: Ref)
    requires Safe(s) && !Alive(s, r) && Roots(t) == Roots(s) && t.white == s.white && t.fixed == s.fixed
    requires s.color.Keys == s.heap.Keys && t.color == s.color - {r}
    requires forall x :: x in t.heap <==> x in s.heap && x != r
    requires forall x :: x in t.heap && Alive(s, x) ==> Fields(t.heap, x) == Fields(s.heap, x)
    ensures Safe(t) && Survives(s, t)
  {
    hide Roots, Fields, Safe;
    forall x ensures Alive(t, x) <==> Alive(s, x) { }
    SafeSame(s, t);
  }

  lemma NotAliveNotRoot(s: State, r: Ref)
    requires Safe(s) && !Alive(s, r)
    ensures r !in s.fixed && r != s.mainthread && r != s.running
  {
    assert r !in Roots(s);
  }

  lemma BucketString(h: Heap, strt: seq<seq<Ref>>, b: nat, r: Ref)
    requires StringsOk(h, strt) && b < |strt| && r in strt[b]
    ensures r in h && h[r].Str?
  {
    assert InSomeBucket(strt, r);
  }

  /** Freeing an object keeps the swept part swept. */
  lemma SweptKept(s: State, t: State, r: Ref)
    requires SweptRoots(s) && t.sweepPos == s.sweepPos && t.white == s.white && t.color == s.color - {r}
    requires t.sweepPos <= |t.rootgc| && t.rootgc[..t.sweepPos] == s.rootgc[..s.sweepPos]
    requires r !in s.rootgc[..s.sweepPos]
    requires forall x :: x in t.heap && t.heap[x].Thread? ==>
      x in s.heap && s.heap[x].Thread? && forall u :: u in t.heap[x].open ==> u in s.heap[x].open && u != r
    ensures SweptRoots(t)
  {
    assert forall i :: 0 <= i < s.sweepPos ==> t.rootgc[i] == t.rootgc[..t.sweepPos][i] == s.rootgc[i];
  }

  lemma NeverBlackKept(s: State, t: State, r: Ref)
    requires NeverBlack(s) && t.color == s.color - {r}
    requires forall x :: x in t.heap ==>
      x in s.heap && (t.heap[x].Thread? <==> s.heap[x].Thread?) && (t.heap[x].Open? <==> s.heap[x].Open?)
    ensures NeverBlack(t)
  {
  }

  lemma FreeStringSafe(s: State, b: nat, r: Ref)
    requires Lists(s) && Safe(s) && b < |s.strt| && r in s.strt[b] && !Alive(s, r)
    ensures Safe(FreeString(s, b, r)) && Survives(s, FreeString(s, b, r)) && r !in s.fixed
  {
    hide Roots, RootListOk, StringsOk, OpenOk, Safe, Alive, Without, Fields, Survives;
    NotAliveNotRoot(s, r);
    BucketString(s.heap, s.strt, b, r);
    OpenDrop(s.heap, s.uvhead, r);
    RootsFrame(s, FreeString(s, b, r));
    FreeSafe(s, FreeString(s, b, r), r);
  }

  lemma FreeStringInv(s: State, b: nat, r: Ref)
    requires Inv(s) && Sweeping(s) && b < |s.strt| && r in s.strt[b] && !Alive(s, r)
    ensures Inv(FreeString(s, b, r)) && Survives(s, FreeString(s, b, r))
  {
    hide Inv, Lists, Roots, RootListOk, StringsOk, OpenOk, Safe, Alive, NeverBlack, PhaseOk, Without, Fields, Survives;
    InvParts(s);
    FreeStringSafe(s, b, r);
    FreeStringLists(s, b, r);
    NeverBlackKept(s, FreeString(s, b, r), r);
    FreeStringPhase(s, b, r);
    InvIntro(FreeString(s, b, r));
  }

  lemma FreeStringLists(s: State, b: nat, r: Ref)
    requires Lists(s) && b < |s.strt| && r in s.strt[b] && r !in s.fixed
    ensures Lists(FreeString(s, b, r))
  {
    hide RootListOk, StringsOk, OpenOk, Without;
    BucketString(s.heap, s.strt, b, r);
    RootListDrop(s.heap, s.rootgc, r);
    OpenDrop(s.heap, s.uvhead, r);
    StringsUnlink(s.heap, s.strt, b, r);
  }

  lemma FreeStringPhase(s: State, b: nat, r: Ref)
    requires Lists(s) && PhaseOk(s) && Sweeping(s) && b < |s.strt| && r in s.strt[b]
    ensures PhaseOk(FreeString(s, b, r))
  {
    hide StringsOk, OpenOk, SweptRoots;
    var t := FreeString(s, b, r);
    BucketString(s.heap, s.strt, b, r);
    WithoutMembers(s.strt[b], r);
    OnlyString(s, r);
    SweptBound(s);
    assert r !in s.rootgc;
    SweptKept(s, t, r);
    forall c | 0 <= c < |s.strt| && WhiteList(s, s.strt[c]) ensures WhiteList(t, t.strt[c]) {
      if c != b { OtherBucket(s.heap, s.strt, b, c, r); }
    }
  }

  lemma SweptBound(s: State)
    requires SweptRoots(s)
    ensures s.sweepPos <= |s.rootgc|
  {
  }

  lemma OnlyString(s: State, r: Ref)
    requires Lists(s) && r in s.heap && s.heap[r].Str?
    ensures forall x :: x in s.heap && s.heap[x].Thread? ==> r !in s.heap[x].open
  {
  }

  lemma OtherBucket(h: Heap, strt: seq<seq<Ref>>, b: nat, c: nat, r: Ref)
    requires StringsOk(h, strt) && b < |strt| && c < |strt| && b != c && r in strt[b]
    ensures r !in strt[c]
  {
  }

  // open upvalues

  lemma OpenHome(h: Heap, uvhead: set<Ref>, u: Ref)
    requires OpenOk(h, uvhead) && u in h && h[u].Open?
    ensures h[u].thread in h && h[h[u].thread].Thread? && u in h[h[u].thread].open
  {
  }

  lemma FreeUpvalLists(s: State, u: Ref)
    requires Lists(s) && u in s.heap && s.heap[u].Open? && s.heap[u].thread in s.heap
    requires s.heap[s.heap[u].thread].Thread?
    ensures Lists(FreeUpval(s, u))
  {
    hide RootListOk, StringsOk, OpenOk, UnlinkUpval;
    OpenUnlink(s.heap, s.uvhead, u);
    RootListUnlinkUpval(s.heap, s.uvhead, s.rootgc, u);
    StringsUnlinkUpval(s.heap, s.uvhead, s.strt, u);
    UnlinkFrame(s.heap, s.uvhead, u);
  }

  lemma FreeUpvalSafe(s: State, u: Ref)
    requires Lists(s) && Safe(s) && u in s.heap && s.heap[u].Open? && !Alive(s, u)
    requires s.heap[u].thread in s.heap && s.heap[s.heap[u].thread].Thread?
    ensures Safe(FreeUpval(s, u)) && Survives(s, FreeUpval(s, u))
  {
    hide Roots, RootListOk, StringsOk, OpenOk, Safe, Alive, UnlinkUpval, Fields, Survives;
    UnlinkFrame(s.heap, s.uvhead, u);
    UnlinkFields(s.heap, s.uvhead, u);
    RootsFrame(s, FreeUpval(s, u));
    FreeSafe(s, FreeUpval(s, u), u);
  }

  lemma FreeUpvalPhase(s: State, u: Ref)
    requires Lists(s) && PhaseOk(s) && Sweeping(s) && NeverBlack(s) && u in s.heap && s.heap[u].Open?
    requires s.heap[u].thread in s.heap && s.heap[s.heap[u].thread].Thread?
    ensures PhaseOk(FreeUpval(s, u)) && NeverBlack(FreeUpval(s, u))
  {
    hide StringsOk, OpenOk, SweptRoots, UnlinkUpval, NeverBlack, Without;
    var t := FreeUpval(s, u);
    UnlinkFrame(s.heap, s.uvhead, u);
    WithoutMembers(s.heap[s.heap[u].thread].open, u);
    UpvalOnlyThere(s.heap, s.uvhead, u);
    SweptBound(s);
    SweptKept(s, t, u);
    NeverBlackKept(s, t, u);
    forall c | 0 <= c < |s.strt| && WhiteList(s, s.strt[c]) ensures WhiteList(t, t.strt[c]) {
      UpvalNotString(s.heap, s.strt, c, u);
    }
  }

  lemma UpvalNotString(h: Heap, strt: seq<seq<Ref>>, c: nat, u: Ref)
    requires StringsOk(h, strt) && c < |strt| && u in h && h[u].Open?
    ensures u !in strt[c]
  {
    if u in strt[c] { BucketString(h, strt, c, u); }
  }

  lemma UpvalOnlyThere(h: Heap, uvhead: set<Ref>, u: Ref)
    requires OpenOk(h, uvhead) && u in h && h[u].Open?
    ensures forall x :: x in h && h[x].Thread? && x != h[u].thread ==> u !in h[x].open
  {
  }

  lemma FreeUpvalInv(s: State, u: Ref)
    requires Inv(s) && Sweeping(s) && u in s.heap && s.heap[u].Open? && !Alive(s, u)
    requires s.heap[u].thread in s.heap && s.heap[s.heap[u].thread].Thread?
    ensures Inv(FreeUpval(s, u)) && Survives(s, FreeUpval(s, u))
  {
    hide *;
    InvParts(s);
    FreeUpvalLists(s, u);
    FreeUpvalSafe(s, u);
    FreeUpvalPhase(s, u);
    InvIntro(FreeUpval(s, u));
  }

  // objects of the root list

  lemma FreeRootLists(s: State, r: Ref)
    requires Lists(s) && r in s.heap && InRootList(s.heap[r]) && (s.heap[r].Thread? ==> s.heap[r].open == [])
    requires r != s.mainthread && r != s.running
    ensures Lists(FreeRoot(s, r))
  {
    hide RootListOk, StringsOk, OpenOk, Without;
    RootListUnlink(s.heap, s.rootgc, r);
    StringsDrop(s.heap, s.strt, r);
    OpenDrop(s.heap, s.uvhead, r);
  }

  lemma FreeRootSafe(s: State, r: Ref)
    requires Lists(s) && Safe(s) && r in s.heap && InRootList(s.heap[r]) && !Alive(s, r)
    requires s.heap[r].Thread? ==> s.heap[r].open == []
    ensures Safe(FreeRoot(s, r)) && Survives(s, FreeRoot(s, r)) && r != s.mainthread && r != s.running
  {
    hide Roots, RootListOk, StringsOk, OpenOk, Safe, Alive, Without, Fields, Survives;
    NotAliveNotRoot(s, r);
    OpenDrop(s.heap, s.uvhead, r);
    RootsFrame(s, FreeRoot(s, r));
    FreeSafe(s, FreeRoot(s, r), r);
  }

  lemma FreeRootPhase(s: State, r: Ref)
    requires Lists(s) && PhaseOk(s) && Sweeping(s) && NeverBlack(s) && r in s.heap && InRootList(s.heap[r])
    requires r !in s.rootgc[..Min(s.sweepPos, |s.rootgc|)]
    ensures PhaseOk(FreeRoot(s, r)) && NeverBlack(FreeRoot(s, r))
  {
    hide StringsOk, OpenOk, SweptRoots, NeverBlack, Without;
    var t := FreeRoot(s, r);
    SweptBound(s);
    WithoutPrefix(s.rootgc, r, s.sweepPos);
    RootNotOpen(s.heap, s.uvhead, r);
    SweptKept(s, t, r);
    NeverBlackKept(s, t, r);
    forall c | 0 <= c < |s.strt| && WhiteList(s, s.strt[c]) ensures WhiteList(t, t.strt[c]) {
      RootNotString(s.heap, s.strt, c, r);
    }
  }

  lemma RootNotString(h: Heap, strt: seq<seq<Ref>>, c: nat, r: Ref)
    requires StringsOk(h, strt) && c < |strt| && r in h && InRootList(h[r])
    ensures r !in strt[c]
  {
    if r in strt[c] { BucketString(h, strt, c, r); }
  }

  lemma RootNotOpen(h: Heap, uvhead: set<Ref>, r: Ref)
    requires OpenOk(h, uvhead) && r in h && InRootList(h[r])
    ensures forall x :: x in h && h[x].Thread? ==> r !in h[x].open
  {
  }

  lemma FreeRootInv(s: State, r: Ref)
    requires Inv(s) && Sweeping(s) && r in s.heap && InRootList(s.heap[r]) && !Alive(s, r)
    requires s.heap[r].Thread? ==> s.heap[r].open == []
    ensures Inv(FreeRoot(s, r)) && Survives(s, FreeRoot(s, r))
  {
    InvParts(s);
    assert r !in s.rootgc[..Min(s.sweepPos, |s.rootgc|)] by { SweptAlive(s, r); }
    hide *;
    FreeRootSafe(s, r);
    FreeRootLists(s, r);
    FreeRootPhase(s, r);
    InvIntro(FreeRoot(s, r));
  }

  lemma SweptAlive(s: State, r: Ref)
    requires Lists(s) && PhaseOk(s) && Sweeping(s) && !Alive(s, r)
    ensures r !in s.rootgc[..Min(s.sweepPos, |s.rootgc|)]
  {
    hide RootListOk, StringsOk, OpenOk;
    assert SweptRoots(s);
    if r in s.rootgc[..s.sweepPos] { SweptInHeap(s, r); }
  }

  lemma SweptInHeap(s: State, r: Ref)
    requires Lists(s) && SweptRoots(s) && r in s.rootgc[..s.sweepPos]
    ensures Alive(s, r)
  {
    assert r in s.rootgc;
  }

  // ---------------------------------------------------------------- progress of the sweep

  /** The current object is white, with its open upvalues: the sweep moves past it. */
  lemma AdvanceInv(s: State)
    requires Inv(s) && s.phase.Sweep? && s.sweepPos < |s.rootgc|
    requires WhiteList(s, [s.rootgc[s.sweepPos]])
    requires s.rootgc[s.sweepPos] in s.heap && s.heap[s.rootgc[s.sweepPos]].Thread? ==>
      WhiteList(s, s.heap[s.rootgc[s.sweepPos]].open)
    ensures Inv(s.(sweepPos := s.sweepPos + 1))
  {
    hide Lists, Safe, NeverBlack, SweptStrings;
    var t := s.(sweepPos := s.sweepPos + 1);
    assert Lists(t) && Safe(t) && NeverBlack(t) && SweptStrings(t, |t.strt|) by { SameLists(s, t); }
    assert t.rootgc[..t.sweepPos] == s.rootgc[..s.sweepPos] + [s.rootgc[s.sweepPos]];
    assert s.rootgc[s.sweepPos] in [s.rootgc[s.sweepPos]];
  }

  /** States that differ only in the progress of the collector. */
  lemma SameLists(s: State, t: State)
    requires t == s.(sweepPos := t.sweepPos, sweepStr := t.sweepStr, phase := t.phase,
                   gray := t.gray, grayagain := t.grayagain)
    ensures Lists(s) ==> Lists(t)
    ensures Safe(s) ==> Safe(t)
    ensures NeverBlack(s) ==> NeverBlack(t)
    ensures forall n :: SweptStrings(s, n) ==> SweptStrings(t, n)
    ensures AllWhite(s) ==> AllWhite(t)
  {
    RootsFrame(s, t);
    if Safe(s) { SafeSame(s, t); }
    forall n | SweptStrings(s, n) ensures SweptStrings(t, n) {
      forall b | 0 <= b < n ensures WhiteList(t, t.strt[b]) { assert WhiteList(s, s.strt[b]); }
    }
  }

  lemma NextBucketInv(s: State)
    requires Inv(s) && s.phase.SweepString? && s.sweepStr < |s.strt| && WhiteList(s, s.strt[s.sweepStr])
    ensures Inv(s.(sweepStr := s.sweepStr + 1, phase := if s.sweepStr + 1 >= |s.strt| then Sweep else SweepString))
  {
    hide Lists, Safe, NeverBlack;
    var t := s.(sweepStr := s.sweepStr + 1, phase := if s.sweepStr + 1 >= |s.strt| then Sweep else SweepString);
    SameLists(s, t);
    assert SweptRoots(t);
    forall b | 0 <= b < t.sweepStr ensures WhiteList(t, t.strt[b]) { assert WhiteList(s, s.strt[b]); }
  }

  lemma SweptStringWhite(s: State, r: Ref)
    requires StringsOk(s.heap, s.strt) && SweptStrings(s, |s.strt|) && r in s.heap && s.heap[r].Str?
    ensures r in s.color && s.color[r] == s.white
  {
    assert InSomeBucket(s.strt, r);
    var b :| 0 <= b < |s.strt| && r in s.strt[b];
    assert WhiteList(s, s.strt[b]);
  }

  lemma SweptRootWhite(s: State, r: Ref)
    requires RootListOk(s.heap, s.rootgc) && SweptRoots(s) && s.sweepPos == |s.rootgc| && r in s.heap
    requires InRootList(s.heap[r])
    ensures r in s.color && s.color[r] == s.white && (s.heap[r].Thread? ==> WhiteList(s, s.heap[r].open))
  {
    assert r in s.rootgc && s.rootgc[..s.sweepPos] == s.rootgc;
    var i :| 0 <= i < |s.rootgc| && s.rootgc[i] == r;
  }

  /** When the sweep has passed every list, every object is current white. */
  lemma SweepDone(s: State)
    requires Inv(s) && s.phase.Sweep? && s.sweepPos == |s.rootgc|
    ensures AllWhite(s)
  {
    InvParts(s);
    hide Inv, Lists, Safe, NeverBlack, StringsOk, SweptStrings, RootListOk, SweptRoots, OpenOk;
    forall r | r in s.color ensures s.color[r] == s.white {
      match s.heap[r] {
        case Str => SweptStringWhite(s, r);
        case Open(t, _) =>
          OpenHome(s.heap, s.uvhead, r);
          SweptRootWhite(s, t);
        case _ => SweptRootWhite(s, r);
      }
    }
  }

  lemma QuietInv(s: State, t: State)
    requires Inv(s) && t == s.(phase := t.phase) && AllWhite(s) && (t.phase.Pause? || t.phase.Finalize?)
    ensures Inv(t)
  {
    hide Lists, Safe, NeverBlack, AllWhite;
    SameLists(s, t);
  }

  /** Restarting the sweep from the beginning, when nothing is dead. */
  lemma RestartInv(s: State, t: State)
    requires Inv(s) && t == s.(phase := SweepString, gray := [], grayagain := [], sweepStr := 0, sweepPos := 0)
    ensures Inv(t)
  {
    hide Lists, Safe, NeverBlack;
    SameLists(s, t);
    assert t.rootgc[..0] == [];
  }
}
