/** New objects, resurrected strings and upvalues, and changed roots, on values. */
module LuaAlloc {
  import opened LuaHeap
  import opened LuaMark
  import opened LuaGcState
  import opened LuaSweep
  import opened LuaLink
  import opened LuaMutator

  lemma SafeBy(n: State)
    requires forall x :: x in Roots(n) ==> Alive(n, x)
    requires forall x :: Alive(n, x) ==> LiveVals(n, Fields(n.heap, x))
    ensures Safe(n)
  {
    forall r, c | Alive(n, r) && Points(n.heap, r, c) ensures Alive(n, c) {
      var f := Fields(n.heap, r);
      var i :| 0 <= i < |f| && f[i] == To(c);
      assert LiveVal(n, f[i]);
    }
  }

  lemma LiveMore(s: State, n: State, vals: seq<Val>)
    requires LiveVals(s, vals) && forall x :: Alive(s, x) ==> Alive(n, x)
    ensures LiveVals(n, vals)
  {
    forall i | 0 <= i < |vals| ensures LiveVal(n, vals[i]) { assert LiveVal(s, vals[i]); }
  }

  /** A step that gives life to r alone. */
  lemma SafeMore(s: State, n: State, r: Ref)
    requires Safe(s) && Roots(n) == Roots(s)
    requires forall x :: Alive(n, x) <==> Alive(s, x) || x == r
    requires forall x :: Alive(s, x) && x != r ==> x in n.heap && Fields(n.heap, x) == Fields(s.heap, x)
    requires Alive(n, r) && LiveVals(s, Fields(n.heap, r))
    ensures Safe(n)
  {
    hide Roots, Fields;
    forall x | Alive(n, x) ensures LiveVals(n, Fields(n.heap, x)) {
      if x != r { SafeVals(s, x); }
      LiveMore(s, n, Fields(n.heap, x));
    }
    SafeBy(n);
  }

  // ---------------------------------------------------------------- objects

  function AddObject(s: State, r: Ref, o: Obj, at: nat): State
    requires at <= |s.rootgc|
  {
    s.(heap := s.heap[r := o], color := s.color[r := s.white], rootgc := InsertAt(s.rootgc, at, r),
       sweepPos := Shift(s.sweepPos, at))
  }

  lemma AddLists(s: State, r: Ref, o: Obj, at: nat)
    requires Lists(s) && r !in s.heap && InRootList(o) && (o.Thread? ==> o.open == []) && at <= |s.rootgc|
    ensures Lists(AddObject(s, r, o, at))
  {
    hide RootListOk, StringsOk, OpenOk, InsertAt;
    RootListAdd(s.heap, s.rootgc, at, r, o);
    StringsAdd(s.heap, s.strt, r, o);
    OpenAdd(s.heap, s.uvhead, r, o);
  }

  lemma AddSafe(s: State, r: Ref, o: Obj, at: nat)
    requires Lists(s) && Safe(s) && r !in s.heap && InRootList(o) && (o.Thread? ==> o.open == []) && at <= |s.rootgc|
    requires LiveVals(s, Fields(map[r := o], r))
    ensures Safe(AddObject(s, r, o, at))
  {
    hide RootListOk, StringsOk, OpenOk, InsertAt, Roots, Safe, LiveVals;
    var n := AddObject(s, r, o, at);
    OpenAdd(s.heap, s.uvhead, r, o);
    RootsFrame(s, n);
    assert Fields(n.heap, r) == Fields(map[r := o], r);
    assert forall x :: Alive(n, x) <==> Alive(s, x) || x == r;
    hide Fields, Alive;
    SafeMore(s, n, r);
  }

  lemma AddTri(s: State, r: Ref, o: Obj, at: nat)
    requires Lists(s) && TriColor(s) && r !in s.heap && InRootList(o) && (o.Thread? ==> o.open == [])
    requires at <= |s.rootgc|
    ensures TriColor(AddObject(s, r, o, at))
  {
    hide RootListOk, StringsOk, OpenOk, InsertAt;
    var n := AddObject(s, r, o, at);
    OpenAdd(s.heap, s.uvhead, r, o);
    assert GrayOk(n.heap, n.color, n.gray + n.grayagain);
    hide GrayOk, NoDup, Fields;
    forall x | x in n.heap && n.color[x] == Black
      ensures Scanned(n.heap, n.color, x) && !n.heap[x].Thread? && !n.heap[x].Open?
    {
      assert Scanned(s.heap, s.color, x);
    }
  }

  lemma AddSwept(s: State, r: Ref, o: Obj, at: nat)
    requires Lists(s) && SweptRoots(s) && r !in s.heap && (o.Thread? ==> o.open == []) && at <= |s.rootgc|
    ensures SweptRoots(AddObject(s, r, o, at))
  {
    hide RootListOk, StringsOk, OpenOk, InsertAt;
    var n := AddObject(s, r, o, at);
    InsertPrefix(s.rootgc, at, r, s.sweepPos);
    SweptUse(s);
    forall x | x in n.rootgc[..n.sweepPos] ensures x in n.color && n.color[x] == n.white {
      if x != r { assert x in s.rootgc[..s.sweepPos]; }
    }
    forall i | 0 <= i < n.sweepPos && n.rootgc[i] in n.heap && n.heap[n.rootgc[i]].Thread?
      ensures WhiteList(n, n.heap[n.rootgc[i]].open)
    {
      assert n.rootgc[i] in n.rootgc[..n.sweepPos];
      if n.rootgc[i] != r { assert WhiteList(s, s.heap[n.rootgc[i]].open); }
    }
  }

  lemma WhiterStrings(s: State, n: State, k: nat)
    requires SweptStrings(s, k) && n.strt == s.strt && n.white == s.white
    requires forall x :: x in s.color ==> x in n.color && (n.color[x] == s.color[x] || n.color[x] == s.white)
    ensures SweptStrings(n, k)
  {
    forall b | 0 <= b < k ensures WhiteList(n, n.strt[b]) { assert WhiteList(s, s.strt[b]); }
  }

  lemma AddPhase(s: State, r: Ref, o: Obj, at: nat)
    requires Lists(s) && NeverBlack(s) && PhaseOk(s) && r !in s.heap
    requires InRootList(o) && (o.Thread? ==> o.open == []) && at <= |s.rootgc|
    ensures PhaseOk(AddObject(s, r, o, at)) && NeverBlack(AddObject(s, r, o, at))
  {
    hide RootListOk, StringsOk, OpenOk, InsertAt, SweptRoots, SweptStrings, TriColor;
    match s.phase {
      case Propagate => AddTri(s, r, o, at);
      case SweepString => AddSwept(s, r, o, at); WhiterStrings(s, AddObject(s, r, o, at), s.sweepStr);
      case Sweep => AddSwept(s, r, o, at); WhiterStrings(s, AddObject(s, r, o, at), |s.strt|);
      case _ =>
    }
  }

  lemma AddInv(s: State, r: Ref, o: Obj, at: nat)
    requires Inv(s) && r !in s.heap && InRootList(o) && (o.Thread? ==> o.open == []) && at <= |s.rootgc|
    requires LiveVals(s, Fields(map[r := o], r))
    ensures Inv(AddObject(s, r, o, at)) && Alive(AddObject(s, r, o, at), r)
    ensures forall x :: Alive(s, x) ==> Alive(AddObject(s, r, o, at), x)
  {
    hide *;
    InvParts(s);
    AddLists(s, r, o, at);
    AddSafe(s, r, o, at);
    AddPhase(s, r, o, at);
    InvIntro(AddObject(s, r, o, at));
    AddAlive(s, r, o, at);
  }

  lemma AddAlive(s: State, r: Ref, o: Obj, at: nat)
    requires Lists(s) && r !in s.heap && at <= |s.rootgc|
    ensures Alive(AddObject(s, r, o, at), r) && forall x :: Alive(s, x) ==> Alive(AddObject(s, r, o, at), x)
  {
    hide RootListOk, StringsOk, OpenOk, InsertAt;
  }

  // ---------------------------------------------------------------- strings

  function AddString(s: State, b: nat, r: Ref): State
    requires b < |s.strt|
  {
    s.(heap := s.heap[r := Str], color := s.color[r := s.white], strt := s.strt[b := [r] + s.strt[b]])
  }

  lemma StringsGrow(h: Heap, strt: seq<seq<Ref>>, b: nat, r: Ref)
    requires StringsOk(h, strt) && b < |strt| && r !in h
    ensures StringsOk(h[r := Str], strt[b := [r] + strt[b]])
  {
    var now := strt[b := [r] + strt[b]];
    forall c | 0 <= c < |strt| ensures r !in strt[c] { if r in strt[c] { assert InSomeBucket(strt, r); } }
    forall x ensures InSomeBucket(now, x) <==> x in h[r := Str] && h[r := Str][x].Str? {
      if InSomeBucket(now, x) && x != r {
        var c :| 0 <= c < |now| && x in now[c];
        assert x in strt[c];
        assert InSomeBucket(strt, x);
      }
      if InSomeBucket(strt, x) {
        var c :| 0 <= c < |strt| && x in strt[c];
        assert x in now[c];
      }
      assert r in now[b];
    }
  }

  lemma RootListAddOther(h: Heap, rootgc: seq<Ref>, r: Ref, o: Obj)
    requires RootListOk(h, rootgc) && r !in h && !InRootList(o)
    ensures RootListOk(h[r := o], rootgc)
  {
    assert r !in rootgc;
  }

  lemma AddStringLists(s: State, b: nat, r: Ref)
    requires Lists(s) && b < |s.strt| && r !in s.heap
    ensures Lists(AddString(s, b, r))
  {
    hide RootListOk, StringsOk, OpenOk;
    StringsGrow(s.heap, s.strt, b, r);
    RootListAddOther(s.heap, s.rootgc, r, Str);
    OpenAdd(s.heap, s.uvhead, r, Str);
  }

  lemma AddStringSafe(s: State, b: nat, r: Ref)
    requires Lists(s) && Safe(s) && b < |s.strt| && r !in s.heap
    ensures Safe(AddString(s, b, r))
  {
    hide RootListOk, StringsOk, OpenOk, Roots, Safe;
    var n := AddString(s, b, r);
    OpenAdd(s.heap, s.uvhead, r, Str);
    RootsFrame(s, n);
    assert Fields(n.heap, r) == [];
    assert forall x :: Alive(n, x) <==> Alive(s, x) || x == r;
    hide Fields, Alive;
    SafeMore(s, n, r);
  }

  lemma AddStringPhase(s: State, b: nat, r: Ref)
    requires Lists(s) && NeverBlack(s) && PhaseOk(s) && b < |s.strt| && r !in s.heap
    ensures PhaseOk(AddString(s, b, r)) && NeverBlack(AddString(s, b, r))
  {
    hide RootListOk, StringsOk, OpenOk;
    var n := AddString(s, b, r);
    match s.phase {
      case Propagate => AddStringTri(s, b, r);
      case SweepString => FreshSwept(s, n, r); GrownStrings(s, b, r, s.sweepStr);
      case Sweep => FreshSwept(s, n, r); GrownStrings(s, b, r, |s.strt|);
      case _ =>
    }
  }

  lemma GrownStrings(s: State, b: nat, r: Ref, k: nat)
    requires SweptStrings(s, k) && b < |s.strt| && r !in s.color
    ensures SweptStrings(AddString(s, b, r), k)
  {
    var n := AddString(s, b, r);
    forall c | 0 <= c < k ensures WhiteList(n, n.strt[c]) { assert WhiteList(s, s.strt[c]); }
  }

  lemma FreshSwept(s: State, n: State, r: Ref)
    requires SweptRoots(s) && n.rootgc == s.rootgc && n.sweepPos == s.sweepPos && n.white == s.white
    requires n.heap == s.heap[r := Str] && n.color == s.color[r := s.white]
    ensures SweptRoots(n)
  {
    forall i | 0 <= i < n.sweepPos && n.rootgc[i] in n.heap && n.heap[n.rootgc[i]].Thread?
      ensures WhiteList(n, n.heap[n.rootgc[i]].open)
    {
      assert WhiteList(s, s.heap[s.rootgc[i]].open);
    }
  }

  lemma AddStringTri(s: State, b: nat, r: Ref)
    requires Lists(s) && TriColor(s) && b < |s.strt| && r !in s.heap
    ensures TriColor(AddString(s, b, r))
  {
    hide RootListOk, StringsOk, OpenOk;
    var n := AddString(s, b, r);
    OpenAdd(s.heap, s.uvhead, r, Str);
    assert GrayOk(n.heap, n.color, n.gray + n.grayagain);
    hide GrayOk, NoDup, Fields;
    forall x | x in n.heap && n.color[x] == Black
      ensures Scanned(n.heap, n.color, x) && !n.heap[x].Thread? && !n.heap[x].Open?
    {
      assert Scanned(s.heap, s.color, x);
    }
  }

  lemma AddStringInv(s: State, b: nat, r: Ref)
    requires Inv(s) && b < |s.strt| && r !in s.heap
    ensures Inv(AddString(s, b, r)) && Alive(AddString(s, b, r), r)
    ensures forall x :: Alive(s, x) ==> Alive(AddString(s, b, r), x)
  {
    hide *;
    InvParts(s);
    AddStringAlive(s, b, r);
    AddStringLists(s, b, r);
    AddStringSafe(s, b, r);
    AddStringPhase(s, b, r);
    InvIntro(AddString(s, b, r));
  }

  lemma AddStringAlive(s: State, b: nat, r: Ref)
    requires Lists(s) && r !in s.heap && b < |s.strt|
    ensures Alive(AddString(s, b, r), r) && forall x :: Alive(s, x) ==> Alive(AddString(s, b, r), x)
  {
    hide RootListOk, StringsOk, OpenOk;
  }

  // ---------------------------------------------------------------- resurrection

  /** A dead object found again through a list that does not keep it alive, with living contents. */
  lemma ResurrectInv(s: State, r: Ref)
    requires Inv(s) && r in s.heap && r in s.color && s.color[r] == OtherWhite(s.white)
    requires LiveVals(s, Fields(s.heap, r))
    ensures Inv(s.(color := s.color[r := s.white])) && Alive(s.(color := s.color[r := s.white]), r)
    ensures forall x :: Alive(s, x) ==> Alive(s.(color := s.color[r := s.white]), x)
  {
    hide *;
    InvParts(s);
    ResurrectFacts(s, r);
    ResurrectSafe(s, r);
    InvIntro(s.(color := s.color[r := s.white]));
  }

  lemma ResurrectFacts(s: State, r: Ref)
    requires Lists(s) && NeverBlack(s) && PhaseOk(s) && r in s.heap && r in s.color && s.color[r] == OtherWhite(s.white)
    ensures var n := s.(color := s.color[r := s.white]);
            && Lists(n) && NeverBlack(n) && PhaseOk(n) && Alive(n, r) && (forall x :: Alive(s, x) ==> Alive(n, x))
  {
    hide RootListOk, StringsOk, OpenOk, SweptStrings;
    var n := s.(color := s.color[r := s.white]);
    assert Sweeping(s);
    WhiterStrings(s, n, if s.phase.Sweep? then |s.strt| else s.sweepStr);
  }

  lemma ResurrectSafe(s: State, r: Ref)
    requires Lists(s) && Safe(s) && r in s.heap && r in s.color && s.color[r] == OtherWhite(s.white)
    requires LiveVals(s, Fields(s.heap, r))
    ensures Safe(s.(color := s.color[r := s.white]))
  {
    hide RootListOk, StringsOk, OpenOk, Safe, LiveVals, Roots, Fields;
    var n := s.(color := s.color[r := s.white]);
    RootsFrame(s, n);
    assert Alive(n, r) && forall x :: Alive(n, x) <==> Alive(s, x) || x == r;
    SafeMore(s, n, r);
  }

  // ---------------------------------------------------------------- open upvalues

  function OpenHeap(h: Heap, r: Ref, t: Ref, i: nat, j: nat): Heap
    requires t in h && h[t].Thread? && j <= |h[t].open|
  {
    h[r := Open(t, i)][t := Thread(h[t].fields, h[t].stack, InsertAt(h[t].open, j, r))]
  }

  function AddUpval(s: State, r: Ref, t: Ref, i: nat, j: nat): State
    requires t in s.heap && s.heap[t].Thread? && j <= |s.heap[t].open|
  {
    s.(heap := OpenHeap(s.heap, r, t, i, j), color := s.color[r := s.white], uvhead := s.uvhead + {r})
  }

  /** Slot i falls between the open upvalues before and after position j. */
  ghost predicate FitsAt(h: Heap, open: seq<Ref>, i: nat, j: nat) {
    && j <= |open|
    && (forall k :: 0 <= k < j ==> open[k] in h && h[open[k]].Open? && h[open[k]].slot > i)
    && (forall k :: j <= k < |open| ==> open[k] in h && h[open[k]].Open? && h[open[k]].slot < i)
  }

  lemma InsertDescending(h: Heap, h': Heap, open: seq<Ref>, r: Ref, t: Ref, i: nat, j: nat)
    requires Descending(h, open) && FitsAt(h, open, i, j) && r !in h
    requires r in h' && h'[r] == Open(t, i)
    requires forall k :: 0 <= k < |open| ==> open[k] in h' && h'[open[k]] == h[open[k]]
    ensures Descending(h', InsertAt(open, j, r))
  {
    var now := InsertAt(open, j, r);
    assert forall k :: 0 <= k < |now| ==> now[k] == if k < j then open[k] else if k == j then r else open[k - 1];
    forall a, b | 0 <= a < b < |now| ensures h'[now[a]].slot > h'[now[b]].slot {
    }
  }

  lemma OpenHeapFrame(h: Heap, r: Ref, t: Ref, i: nat, j: nat)
    requires t in h && h[t].Thread? && j <= |h[t].open| && r !in h
    ensures var h' := OpenHeap(h, r, t, i, j);
            && h'.Keys == h.Keys + {r} && h'[r] == Open(t, i)
            && h'[t] == Thread(h[t].fields, h[t].stack, InsertAt(h[t].open, j, r))
            && (forall x :: x in h && x != t ==> h'[x] == h[x])
            && (forall x :: x in h ==> Fields(h', x) == Fields(h, x))
            && (i < |h[t].stack| ==> Fields(h', r) == [h[t].stack[i]])
  {
  }

  lemma OpenGrowHomes(h: Heap, uvhead: set<Ref>, r: Ref, t: Ref, i: nat, j: nat)
    requires OpenOk(h, uvhead) && r !in h && t in h && h[t].Thread? && i < |h[t].stack| && j <= |h[t].open|
    ensures var h' := OpenHeap(h, r, t, i, j);
            forall x :: x in h' && h'[x].Open? ==>
              && h'[x].thread in h' && h'[h'[x].thread].Thread? && h'[x].slot < |h'[h'[x].thread].stack|
              && x in h'[h'[x].thread].open
  {
    hide OpenHeap, InsertAt, Descending, Fields;
    OpenHeapFrame(h, r, t, i, j);
    InsertMembers(h[t].open, j, r);
  }

  lemma OpenGrowLists(h: Heap, uvhead: set<Ref>, r: Ref, t: Ref, i: nat, j: nat)
    requires OpenOk(h, uvhead) && r !in h && t in h && h[t].Thread? && i < |h[t].stack| && FitsAt(h, h[t].open, i, j)
    ensures var h' := OpenHeap(h, r, t, i, j);
            forall x :: x in h' && h'[x].Thread? ==>
              Descending(h', h'[x].open) && forall y :: y in h'[x].open ==> y in h' && h'[y].Open? && h'[y].thread == x
  {
    hide OpenHeap, InsertAt, Descending, Fields;
    var h' := OpenHeap(h, r, t, i, j);
    OpenHeapFrame(h, r, t, i, j);
    InsertMembers(h[t].open, j, r);
    InsertDescending(h, h', h[t].open, r, t, i, j);
    forall x | x in h' && h'[x].Thread? ensures Descending(h', h'[x].open) {
      if x != t { DescendingFrame(h, h', h[x].open); }
    }
  }

  lemma OpenGrow(h: Heap, uvhead: set<Ref>, r: Ref, t: Ref, i: nat, j: nat)
    requires OpenOk(h, uvhead) && r !in h && t in h && h[t].Thread? && i < |h[t].stack| && FitsAt(h, h[t].open, i, j)
    ensures OpenOk(OpenHeap(h, r, t, i, j), uvhead + {r})
  {
    hide OpenHeap, InsertAt, Descending, Fields;
    OpenHeapFrame(h, r, t, i, j);
    OpenGrowHomes(h, uvhead, r, t, i, j);
    OpenGrowLists(h, uvhead, r, t, i, j);
  }

  lemma RootListAddUpval(h: Heap, rootgc: seq<Ref>, r: Ref, t: Ref, i: nat, j: nat)
    requires RootListOk(h, rootgc) && r !in h && t in h && h[t].Thread? && j <= |h[t].open|
    ensures RootListOk(OpenHeap(h, r, t, i, j), rootgc)
  {
    hide OpenHeap, Fields;
    OpenHeapFrame(h, r, t, i, j);
  }

  lemma StringsAddUpval(h: Heap, strt: seq<seq<Ref>>, r: Ref, t: Ref, i: nat, j: nat)
    requires StringsOk(h, strt) && r !in h && t in h && h[t].Thread? && j <= |h[t].open|
    ensures StringsOk(OpenHeap(h, r, t, i, j), strt)
  {
    hide OpenHeap, Fields;
    OpenHeapFrame(h, r, t, i, j);
  }

  lemma AddUpvalLists(s: State, r: Ref, t: Ref, i: nat, j: nat)
    requires Lists(s) && r !in s.heap && t in s.heap && s.heap[t].Thread? && i < |s.heap[t].stack|
    requires FitsAt(s.heap, s.heap[t].open, i, j)
    ensures Lists(AddUpval(s, r, t, i, j))
  {
    hide OpenHeap, OpenOk, RootListOk, StringsOk, Fields, InsertAt;
    OpenGrow(s.heap, s.uvhead, r, t, i, j);
    RootListAddUpval(s.heap, s.rootgc, r, t, i, j);
    StringsAddUpval(s.heap, s.strt, r, t, i, j);
    OpenHeapFrame(s.heap, r, t, i, j);
  }

  lemma AddUpvalSafe(s: State, r: Ref, t: Ref, i: nat, j: nat)
    requires Lists(s) && Safe(s) && r !in s.heap && Alive(s, t) && s.heap[t].Thread? && i < |s.heap[t].stack|
    requires j <= |s.heap[t].open|
    ensures Safe(AddUpval(s, r, t, i, j))
  {
    hide RootListOk, StringsOk, OpenOk, Roots, Safe;
    var n := AddUpval(s, r, t, i, j);
    OpenHeapFrame(s.heap, r, t, i, j);
    RootsFrame(s, n);
    SafeVals(s, t);
    assert LiveVal(s, s.heap[t].stack[i]) by {
      assert Fields(s.heap, t)[|s.heap[t].fields| + i] == s.heap[t].stack[i];
    }
    hide OpenHeap;
    assert forall x :: Alive(n, x) <==> Alive(s, x) || x == r;
    hide Fields, Alive;
    SafeMore(s, n, r);
  }

  lemma AddUpvalTri(s: State, r: Ref, t: Ref, i: nat, j: nat)
    requires Lists(s) && TriColor(s) && r !in s.heap && t in s.heap && s.heap[t].Thread? && j <= |s.heap[t].open|
    ensures TriColor(AddUpval(s, r, t, i, j))
  {
    hide RootListOk, StringsOk, OpenOk;
    var n := AddUpval(s, r, t, i, j);
    OpenHeapFrame(s.heap, r, t, i, j);
    hide OpenHeap;
    assert GrayOk(n.heap, n.color, n.gray + n.grayagain);
    hide GrayOk, NoDup, Fields;
    forall x | x in n.heap && n.color[x] == Black
      ensures Scanned(n.heap, n.color, x) && !n.heap[x].Thread? && !n.heap[x].Open?
    {
      assert Scanned(s.heap, s.color, x);
    }
  }

  lemma AddUpvalSwept(s: State, r: Ref, t: Ref, i: nat, j: nat)
    requires Lists(s) && SweptRoots(s) && r !in s.heap && t in s.heap && s.heap[t].Thread? && j <= |s.heap[t].open|
    ensures SweptRoots(AddUpval(s, r, t, i, j))
  {
    hide RootListOk, StringsOk, OpenOk;
    var n := AddUpval(s, r, t, i, j);
    OpenHeapFrame(s.heap, r, t, i, j);
    hide OpenHeap, InsertAt;
    InsertMembers(s.heap[t].open, j, r);
    forall k | 0 <= k < n.sweepPos && n.rootgc[k] in n.heap && n.heap[n.rootgc[k]].Thread?
      ensures WhiteList(n, n.heap[n.rootgc[k]].open)
    {
      assert WhiteList(s, s.heap[s.rootgc[k]].open);
    }
  }

  lemma AddUpvalPhase(s: State, r: Ref, t: Ref, i: nat, j: nat)
    requires Lists(s) && NeverBlack(s) && PhaseOk(s) && r !in s.heap && t in s.heap && s.heap[t].Thread?
    requires j <= |s.heap[t].open|
    ensures PhaseOk(AddUpval(s, r, t, i, j)) && NeverBlack(AddUpval(s, r, t, i, j))
  {
    hide RootListOk, StringsOk, OpenOk, SweptRoots, SweptStrings, TriColor;
    OpenHeapFrame(s.heap, r, t, i, j);
    hide OpenHeap;
    match s.phase {
      case Propagate => AddUpvalTri(s, r, t, i, j);
      case SweepString => AddUpvalSwept(s, r, t, i, j); WhiterStrings(s, AddUpval(s, r, t, i, j), s.sweepStr);
      case Sweep => AddUpvalSwept(s, r, t, i, j); WhiterStrings(s, AddUpval(s, r, t, i, j), |s.strt|);
      case _ =>
    }
  }

  lemma AddUpvalInv(s: State, r: Ref, t: Ref, i: nat, j: nat)
    requires Inv(s) && r !in s.heap && Alive(s, t) && t in s.heap && s.heap[t].Thread? && i < |s.heap[t].stack|
    requires FitsAt(s.heap, s.heap[t].open, i, j) && j <= |s.heap[t].open|
    ensures Inv(AddUpval(s, r, t, i, j)) && Alive(AddUpval(s, r, t, i, j), r)
    ensures forall x :: Alive(s, x) ==> Alive(AddUpval(s, r, t, i, j), x)
  {
    hide *;
    InvParts(s);
    AddUpvalAlive(s, r, t, i, j);
    AddUpvalLists(s, r, t, i, j);
    AddUpvalSafe(s, r, t, i, j);
    AddUpvalPhase(s, r, t, i, j);
    InvIntro(AddUpval(s, r, t, i, j));
  }

  lemma AddUpvalAlive(s: State, r: Ref, t: Ref, i: nat, j: nat)
    requires Lists(s) && r !in s.heap && t in s.heap && s.heap[t].Thread? && j <= |s.heap[t].open|
    ensures Alive(AddUpval(s, r, t, i, j), r) && forall x :: Alive(s, x) ==> Alive(AddUpval(s, r, t, i, j), x)
  {
    hide RootListOk, StringsOk, OpenOk, InsertAt;
  }

  // ---------------------------------------------------------------- roots

  /** The running thread, the basic metatables and the fixed strings may change to any living objects:
      the first two are marked again by the atomic step, the last need no mark. */
  lemma RootsInv(s: State, n: State)
    requires Inv(s) && n == s.(running := n.running, mt := n.mt, fixed := n.fixed)
    requires n.running in s.heap && s.heap[n.running].Thread? && Alive(s, n.running) && LiveVals(s, n.mt)
    requires s.fixed <= n.fixed && forall r :: r in n.fixed ==> Alive(s, r) && s.heap[r].Str?
    ensures Inv(n)
  {
    hide RootListOk, StringsOk, OpenOk, NeverBlack, Fields;
    assert forall x :: Alive(n, x) <==> Alive(s, x);
    assert Lists(n);
    assert Safe(n) by { RootsSafe(s, n); }
    assert NeverBlack(n) by { RootsBlack(s, n); }
    assert PhaseOk(n) by { RootsPhase(s, n); }
  }

  lemma RootsSafe(s: State, n: State)
    requires Safe(s) && n == s.(running := n.running, mt := n.mt, fixed := n.fixed)
    requires Alive(s, n.running) && LiveVals(s, n.mt) && forall r :: r in n.fixed ==> Alive(s, r)
    requires forall x :: Alive(n, x) <==> Alive(s, x)
    ensures Safe(n)
  {
    hide Fields, Alive;
    forall x | x in Roots(n) ensures Alive(n, x) {
      if To(x) in n.mt {
        var i :| 0 <= i < |n.mt| && n.mt[i] == To(x);
        assert LiveVal(s, n.mt[i]);
      } else if x !in n.fixed && x != n.running {
        assert x in Roots(s);
      }
    }
  }

  lemma RootsBlack(s: State, n: State)
    requires NeverBlack(s) && n.heap == s.heap && n.color == s.color
    ensures NeverBlack(n)
  {
  }

  lemma RootsPhase(s: State, n: State)
    requires PhaseOk(s) && n == s.(running := n.running, mt := n.mt, fixed := n.fixed)
    ensures PhaseOk(n)
  {
    if Sweeping(s) { WhiterStrings(s, n, if s.phase.Sweep? then |s.strt| else s.sweepStr); }
  }

  /** The registry may change to any living object outside the propagation phase, which has marked it. */
  lemma RegistryInv(s: State, n: State)
    requires Inv(s) && n == s.(registry := n.registry) && !s.phase.Propagate? && LiveVal(s, n.registry)
    ensures Inv(n)
  {
    hide RootListOk, StringsOk, OpenOk, NeverBlack, Fields;
    assert forall x :: Alive(n, x) <==> Alive(s, x);
    assert Lists(n);
    assert Safe(n) by { RegistrySafe(s, n); }
    assert NeverBlack(n) by { RootsBlack(s, n); }
    assert PhaseOk(n) by { RegistryPhase(s, n); }
  }

  lemma RegistrySafe(s: State, n: State)
    requires Safe(s) && n == s.(registry := n.registry) && LiveVal(s, n.registry)
    requires forall x :: Alive(n, x) <==> Alive(s, x)
    ensures Safe(n)
  {
    hide Fields, Alive;
    forall x | x in Roots(n) ensures Alive(n, x) {
      if n.registry != To(x) { assert x in Roots(s); }
    }
  }

  lemma RegistryPhase(s: State, n: State)
    requires PhaseOk(s) && n == s.(registry := n.registry) && !s.phase.Propagate?
    ensures PhaseOk(n)
  {
    if Sweeping(s) { WhiterStrings(s, n, if s.phase.Sweep? then |s.strt| else s.sweepStr); }
  }
}
