/** The propagation phase on values: popping one gray object keeps the tri-colour invariant, and
    once the queues are drained everything marked has marked children. */
module LuaPropagate {
  import opened LuaHeap
  import opened LuaMark
  import opened LuaGcState

  /** The part of the tri-colour invariant that marking works with. */
  ghost predicate Tri(h: Heap, c: Colors, gray: seq<Ref>, again: seq<Ref>) {
    && c.Keys == h.Keys && Sound(h) && GrayOk(h, c, gray + again)
    && (forall r :: r in h && c[r] == Black ==> Scanned(h, c, r) && !h[r].Thread? && !h[r].Open?)
    && (forall r :: r in h && c[r] == Gray ==> h[r].Str? || h[r].Open? || r in gray || r in again)
  }

  /** Whatever is marked has marked children, or is queued, or is in a. */
  ghost predicate Pending(h: Heap, c: Colors, gray: seq<Ref>, a: set<Ref>) {
    c.Keys == h.Keys && forall r :: r in h && !IsWhite(c[r]) ==> Scanned(h, c, r) || r in gray || r in a
  }

  lemma TriReady(h: Heap, c: Colors, gray: seq<Ref>, again: seq<Ref>)
    requires Tri(h, c, gray, again)
    ensures Ready(h, c, gray)
  {
    assert forall i :: 0 <= i < |gray| ==> (gray + again)[i] == gray[i];
  }

  lemma {:induction false} GrayPushed(h: Heap, c: Colors, gray: seq<Ref>, again: seq<Ref>, c': Colors, gray': seq<Ref>)
    requires GrayOk(h, c, gray + again) && Marks(h, c, gray, c', gray') && GrayOk(h, c', gray')
    ensures GrayOk(h, c', gray' + again)
  {
    var all := gray' + again;
    var d := |gray'| - |gray|;
    assert forall j :: 0 <= j < |again| ==> again[j] == (gray + again)[|gray| + j];
    assert forall i :: d <= i < |gray'| ==> gray'[i] == gray'[d..][i - d] == (gray + again)[i - d];
    forall i, j | 0 <= i < j < |all| ensures all[i] != all[j] {
      if j >= |gray'| && i < d {
        assert IsWhite(c[gray'[i]]);
        assert c[again[j - |gray'|]] == Gray;
      } else if j >= |gray'| && i < |gray'| {
        assert (gray + again)[i - d] != (gray + again)[|gray| + (j - |gray'|)];
      } else if j >= |gray'| {
        assert (gray + again)[|gray| + (i - |gray'|)] != (gray + again)[|gray| + (j - |gray'|)];
      }
    }
  }

  /** Marking keeps the tri-colour invariant and adds nothing to what is pending. */
  lemma MarksKeepTri(h: Heap, c: Colors, gray: seq<Ref>, again: seq<Ref>, c': Colors, gray': seq<Ref>, a: set<Ref>)
    requires Tri(h, c, gray, again) && Marks(h, c, gray, c', gray') && Ready(h, c', gray') && Pending(h, c, gray, a)
    ensures Tri(h, c', gray', again) && Pending(h, c', gray', a)
  {
    GrayPushed(h, c, gray, again, c', gray');
    assert forall r :: r in gray ==> r in gray'[|gray'| - |gray|..];
    forall r | r in h && !IsWhite(c'[r])
      ensures c'[r] == Black ==> Scanned(h, c', r) && !h[r].Thread? && !h[r].Open?
      ensures c'[r] == Gray ==> h[r].Str? || h[r].Open? || r in gray' || r in again
      ensures Scanned(h, c', r) || r in gray' || r in a
    {
      if IsWhite(c[r]) {
        assert Settled(h, c', gray', r);
      } else if Scanned(h, c, r) {
        assert Scanned(h, c', r);
      }
    }
  }

  /** What was marked stays marked. */
  ghost predicate MarksStay(c: Colors, c2: Colors) {
    c.Keys == c2.Keys && forall x :: x in c && !IsWhite(c[x]) ==> !IsWhite(c2[x])
  }

  lemma ScannedStays(h: Heap, c: Colors, c2: Colors, r: Ref)
    requires r in h && MarksStay(c, c2) && Scanned(h, c, r)
    ensures Scanned(h, c2, r)
  {
  }

  lemma PopMarksStay(h: Heap, c: Colors, o: Ref, c1: Colors, gray1: seq<Ref>, c2: Colors, gray2: seq<Ref>)
    requires o in c && (c1 == c || c1 == c[o := Black]) && Marks(h, c1, gray1, c2, gray2)
    ensures MarksStay(c, c2) && forall r :: r in c && r != o && !IsWhite(c[r]) ==> c2[r] == c[r]
  {
    hide Settled;
  }

  /** The claims of the tri-colour invariant about one marked object. */
  ghost predicate TriAt(h: Heap, c: Colors, gray: seq<Ref>, again: seq<Ref>, a: set<Ref>, r: Ref)
    requires r in h && r in c
  {
    && (c[r] == Black ==> Scanned(h, c, r) && !h[r].Thread? && !h[r].Open?)
    && (c[r] == Gray ==> h[r].Str? || h[r].Open? || r in gray || r in again)
    && (Scanned(h, c, r) || r in gray || r in a)
  }

  /** An object marked before, other than the one taken off. */
  lemma PopOld(h: Heap, c: Colors, gray: seq<Ref>, again: seq<Ref>, again1: seq<Ref>, c2: Colors, gray2: seq<Ref>,
               a: set<Ref>, r: Ref)
    requires Tri(h, c, gray, again) && Pending(h, c, gray, a) && r in h && !IsWhite(c[r]) && MarksStay(c, c2)
    requires c2[r] == c[r]
    requires (r in gray ==> r in gray2) && (r in again ==> r in again1)
    ensures r in c2 && TriAt(h, c2, gray2, again1, a, r)
  {
    hide GrayOk, Sound;
    if Scanned(h, c, r) { ScannedStays(h, c, c2, r); }
  }

  lemma KeptOnList(rest: seq<Ref>, gray2: seq<Ref>, r: Ref)
    requires |rest| <= |gray2| && gray2[|gray2| - |rest|..] == rest && r in rest
    ensures r in gray2
  {
    var k :| 0 <= k < |rest| && rest[k] == r;
    assert gray2[|gray2| - |rest| + k] == r;
  }

  lemma TriIntro(h: Heap, c: Colors, gray: seq<Ref>, again: seq<Ref>, a: set<Ref>)
    requires c.Keys == h.Keys && Sound(h) && GrayOk(h, c, gray + again)
    requires forall r :: r in h && !IsWhite(c[r]) ==> TriAt(h, c, gray, again, a, r)
    ensures Tri(h, c, gray, again) && Pending(h, c, gray, a)
  {
    hide Sound, GrayOk, Scanned;
  }

  /** Taking o off the gray list and blackening it (a thread goes to the second list instead), then
      marking what it holds. */
  lemma PopKeepsTri(h: Heap, c: Colors, gray: seq<Ref>, again: seq<Ref>, c1: Colors, again1: seq<Ref>,
                    c2: Colors, gray2: seq<Ref>, a: set<Ref>)
    requires Tri(h, c, gray, again) && gray != [] && Pending(h, c, gray, a)
    requires gray[0] in h && c1 == (if h[gray[0]].Thread? then c else c[gray[0] := Black])
    requires again1 == (if h[gray[0]].Thread? then [gray[0]] + again else again)
    requires Marks(h, c1, gray[1..], c2, gray2) && Ready(h, c2, gray2) && Scanned(h, c2, gray[0])
    ensures Tri(h, c2, gray2, again1) && Pending(h, c2, gray2, a)
  {
    var o, rest := gray[0], gray[1..];
    assert Container(h[o]) && c[o] == Gray by { assert (gray + again)[0] == o; }
    hide Settled, GrayOk, Sound, Scanned;
    PopGray(h, c, gray, again, c1, again1);
    assert GrayOk(h, c2, gray2);
    GrayPushed(h, c1, rest, again1, c2, gray2);
    PopMarksStay(h, c, o, c1, rest, c2, gray2);
    assert o in again1 || c2[o] == Black;
    forall r | r in h && !IsWhite(c2[r]) ensures TriAt(h, c2, gray2, again1, a, r) {
      if r != o {
        if IsWhite(c1[r]) {
          SettledUse(h, c2, gray2, r);
        } else {
          if r in gray { KeptOnList(rest, gray2, r); }
          PopOld(h, c, gray, again, again1, c2, gray2, a, r);
        }
      }
    }
    TriIntro(h, c2, gray2, again1, a);
  }

  lemma SettledUse(h: Heap, c: Colors, gray: seq<Ref>, r: Ref)
    requires r in h && r in c && Settled(h, c, gray, r)
    ensures c[r] == Black ==> Scanned(h, c, r) && !h[r].Thread? && !h[r].Open?
    ensures c[r] == Gray ==> h[r].Str? || h[r].Open? || r in gray
    ensures Scanned(h, c, r) || r in gray
  {
  }

  /** Where the entries of the queues come from when the first gray object has been taken off. */
  function PopFrom(n: nat, again: bool, j: nat): nat {
    if j < n then j + 1 else if !again then j + 1 else if j == n then 0 else j
  }

  lemma PopEntry(gray: seq<Ref>, again: seq<Ref>, thread: bool, j: nat)
    requires gray != []
    requires j < |gray[1..] + if thread then [gray[0]] + again else again|
    ensures var k := PopFrom(|gray| - 1, thread, j);
            && k < |gray + again| && (!thread ==> k > 0)
            && (gray[1..] + if thread then [gray[0]] + again else again)[j] == (gray + again)[k]
  {
  }

  lemma PopGray(h: Heap, c: Colors, gray: seq<Ref>, again: seq<Ref>, c1: Colors, again1: seq<Ref>)
    requires GrayOk(h, c, gray + again) && gray != [] && gray[0] in h
    requires c1 == (if h[gray[0]].Thread? then c else c[gray[0] := Black])
    requires again1 == (if h[gray[0]].Thread? then [gray[0]] + again else again)
    ensures GrayOk(h, c1, gray[1..] + again1)
  {
    var all, now, thread := gray + again, gray[1..] + again1, h[gray[0]].Thread?;
    assert all[0] == gray[0];
    forall i, j | 0 <= i < j < |now| ensures now[i] != now[j] {
      PopEntry(gray, again, thread, i);
      PopEntry(gray, again, thread, j);
      var a, b := PopFrom(|gray| - 1, thread, i), PopFrom(|gray| - 1, thread, j);
      assert a < b || b < a;
    }
    forall i | 0 <= i < |now| ensures now[i] in h && now[i] in c1 && c1[now[i]] == Gray && Container(h[now[i]]) {
      PopEntry(gray, again, thread, i);
      var a := PopFrom(|gray| - 1, thread, i);
      assert all[a] in h && c[all[a]] == Gray;
      assert a > 0 ==> all[0] != all[a];
    }
  }

  /** All objects white and the queues empty: the start of a cycle. */
  lemma TriStart(h: Heap, c: Colors)
    requires c.Keys == h.Keys && Sound(h) && forall r :: r in c ==> IsWhite(c[r])
    ensures Tri(h, c, [], []) && Pending(h, c, [], {})
  {
  }

  lemma PendingUpvals(h: Heap, c: Colors, gray: seq<Ref>, again: seq<Ref>, uvhead: set<Ref>)
    requires Tri(h, c, gray, again) && OpenOk(h, uvhead)
    ensures Pending(h, c, gray, uvhead + set r | r in again)
  {
  }

  /** One open upvalue remarked. */
  lemma PendingLess(h: Heap, c: Colors, gray: seq<Ref>, a: set<Ref>, u: Ref, b: set<Ref>)
    requires c.Keys == h.Keys && Pending(h, c, gray, a) && u in h && (IsWhite(c[u]) || Scanned(h, c, u))
    requires forall r :: r in a ==> r == u || r in b
    ensures Pending(h, c, gray, b)
  {
  }

  /** The second list becomes the gray list. */
  lemma SwapLists(h: Heap, c: Colors, again: seq<Ref>, a: set<Ref>)
    requires Tri(h, c, [], again) && Pending(h, c, [], a) && forall r :: r in a ==> r in again
    ensures Tri(h, c, again, []) && Pending(h, c, again, {})
  {
    assert [] + again == again + [];
  }

  /** No object awaits the sweep. */
  ghost predicate NoDead(s: State) {
    forall r :: r in s.color ==> s.color[r] != OtherWhite(s.white)
  }

  lemma NoDeadSound(s: State)
    requires Lists(s) && Safe(s) && NoDead(s)
    ensures Sound(s.heap) && forall r :: r in Roots(s) ==> r in s.heap
  {
    forall r, c | r in s.heap && Points(s.heap, r, c) ensures c in s.heap {
      assert Alive(s, r);
    }
  }

  lemma TriColorTri(s: State)
    requires Lists(s) && Safe(s) && TriColor(s)
    ensures Tri(s.heap, s.color, s.gray, s.grayagain) && NoDead(s)
  {
    NoDeadSound(s);
  }

  lemma SameRoots(s: State, t: State)
    requires t == s.(color := t.color, gray := t.gray, grayagain := t.grayagain, phase := Propagate)
    ensures Roots(t) == Roots(s)
  {
  }

  lemma TriLists(s: State, t: State)
    requires Lists(s) && Darkens(s.color, t.color)
    requires t == s.(color := t.color, gray := t.gray, grayagain := t.grayagain, phase := Propagate)
    ensures Lists(t)
  {
    hide RootListOk, StringsOk, OpenOk;
  }

  lemma TriNoDead(s: State, t: State)
    requires Lists(s) && NoDead(s) && Darkens(s.color, t.color) && t.white == s.white
    ensures NoDead(t)
  {
  }

  lemma TriSafe(s: State, t: State)
    requires Lists(t) && NoDead(t) && Sound(t.heap) && forall r :: r in Roots(t) ==> r in t.heap
    ensures Safe(t)
  {
    hide Roots, RootListOk, StringsOk, OpenOk, Points;
    assert forall r :: Alive(t, r) <==> r in t.heap;
  }

  lemma TriPhase(t: State)
    requires Tri(t.heap, t.color, t.gray, t.grayagain) && NoDead(t)
    requires Marked(t.color, To(t.mainthread)) && Marked(t.color, t.registry)
    ensures TriColor(t) && NeverBlack(t)
  {
    hide GrayOk, Scanned, Sound;
  }

  /** The colours and queues that marking leaves re-establish the invariant of the propagation phase. */
  lemma TriInv(s: State, t: State)
    requires Lists(s) && Safe(s) && NoDead(s) && Darkens(s.color, t.color)
    requires t == s.(color := t.color, gray := t.gray, grayagain := t.grayagain, phase := Propagate)
    requires Tri(t.heap, t.color, t.gray, t.grayagain)
    requires Marked(t.color, To(t.mainthread)) && Marked(t.color, t.registry)
    ensures Inv(t)
  {
    hide Lists, Safe, NoDead, Tri, Darkens, Marked, Roots, Sound, TriColor, NeverBlack;
    NoDeadSound(s);
    SameRoots(s, t);
    TriLists(s, t);
    TriNoDead(s, t);
    TriSafe(s, t);
    TriPhase(t);
  }

  /** Everything marked has marked children and the roots are marked: after the flip of the current
      white, what was left white is unreachable. */
  lemma FlipInv(s: State, t: State)
    requires Lists(s) && NoDead(s) && NeverBlack(s)
    requires Pending(s.heap, s.color, [], {})
    requires forall r :: r in MarkedRoots(s) ==> r in s.heap && !IsWhite(s.color[r])
    requires t == s.(white := OtherWhite(s.white), phase := SweepString, sweepStr := 0, sweepPos := 0)
    ensures Inv(t)
  {
    hide Lists, Safe, NoDead, Pending, MarkedRoots, NeverBlack, PhaseOk;
    FlipSafe(s, t);
    FlipRest(s, t);
    InvIntro(t);
  }

  lemma FlipRest(s: State, t: State)
    requires Lists(s) && NeverBlack(s)
    requires t == s.(white := OtherWhite(s.white), phase := SweepString, sweepStr := 0, sweepPos := 0)
    ensures Lists(t) && NeverBlack(t) && PhaseOk(t)
  {
    hide RootListOk, StringsOk, OpenOk;
    assert t.rootgc[..0] == [];
  }

  /** What is marked, or fixed, is what is alive after the flip. */
  lemma FlipSafe(s: State, t: State)
    requires Lists(s) && NoDead(s) && Pending(s.heap, s.color, [], {})
    requires forall r :: r in MarkedRoots(s) ==> r in s.heap && !IsWhite(s.color[r])
    requires t == s.(white := OtherWhite(s.white), phase := SweepString, sweepStr := 0, sweepPos := 0)
    ensures Safe(t)
  {
    hide RootListOk, StringsOk, OpenOk;
    assert forall r :: Alive(t, r) <==> r in t.heap && (!IsWhite(t.color[r]) || r in t.fixed);
    assert Roots(t) == Roots(s);
    forall r, c | Alive(t, r) && Points(t.heap, r, c) ensures Alive(t, c) {
      assert !t.heap[r].Str?;
      assert Scanned(s.heap, s.color, r);
    }
  }

  lemma RootVals(s: State, vals: seq<Val>)
    requires Lists(s) && Safe(s) && (vals == s.mt || vals == [s.registry] || vals == s.heap[s.mainthread].fields)
    ensures forall i :: 0 <= i < |vals| && vals[i].To? ==> vals[i].ref in s.heap
  {
    forall i | 0 <= i < |vals| && vals[i].To? ensures vals[i].ref in s.heap {
      var v := vals[i];
      if vals == s.mt || vals == [s.registry] {
        assert v.ref in Roots(s);
      } else {
        assert s.mainthread in Roots(s);
        var f := Fields(s.heap, s.mainthread);
        assert f[i] == v;
        assert Points(s.heap, s.mainthread, v.ref);
      }
      assert Alive(s, v.ref);
    }
  }
}
