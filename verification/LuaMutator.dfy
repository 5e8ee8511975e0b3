/** The program's own steps on the heap, on values: stack writes, stores behind a barrier, new
    objects, captured upvalues.  Each keeps the collector's invariant in every phase. */
module LuaMutator {
  import opened LuaHeap
  import opened LuaMark
  import opened LuaGcState
  import opened LuaSweep
  import opened LuaLink

  ghost predicate LiveVal(s: State, v: Val) {
    v.To? ==> Alive(s, v.ref)
  }

  ghost predicate LiveVals(s: State, vals: seq<Val>) {
    forall i :: 0 <= i < |vals| ==> LiveVal(s, vals[i])
  }

  /** A new heap in which every living object refers to living objects only is safe. */
  lemma SafeIf(s: State, t: State)
    requires forall x :: Alive(t, x) <==> Alive(s, x)
    requires forall x :: x in Roots(t) ==> Alive(s, x)
    requires forall x :: Alive(s, x) ==> x in t.heap && LiveVals(s, Fields(t.heap, x))
    ensures Safe(t)
  {
    forall r, c | Alive(t, r) && Points(t.heap, r, c) ensures Alive(t, c) {
      var f := Fields(t.heap, r);
      var i :| 0 <= i < |f| && f[i] == To(c);
      assert LiveVal(s, f[i]);
    }
  }

  lemma SafeVals(s: State, x: Ref)
    requires Safe(s) && Alive(s, x)
    ensures LiveVals(s, Fields(s.heap, x))
  {
    var f := Fields(s.heap, x);
    forall i | 0 <= i < |f| ensures LiveVal(s, f[i]) {
      if f[i].To? { assert Points(s.heap, x, f[i].ref); }
    }
  }

  // ---------------------------------------------------------------- stacks

  function SetStack(s: State, t: Ref, fields: seq<Val>, stack: seq<Val>): State
    requires t in s.heap && s.heap[t].Thread?
  {
    s.(heap := s.heap[t := Thread(fields, stack, s.heap[t].open)])
  }

  lemma SameRoots(h: Heap, h': Heap, rootgc: seq<Ref>)
    requires RootListOk(h, rootgc) && h'.Keys == h.Keys && forall x :: x in h ==> InRootList(h'[x]) == InRootList(h[x])
    ensures RootListOk(h', rootgc)
  {
  }

  lemma SameStrings(h: Heap, h': Heap, strt: seq<seq<Ref>>)
    requires StringsOk(h, strt) && h'.Keys == h.Keys && forall x :: x in h ==> h'[x].Str? == h[x].Str?
    ensures StringsOk(h', strt)
  {
  }

  lemma StackLists(s: State, t: Ref, fields: seq<Val>, stack: seq<Val>)
    requires Lists(s) && t in s.heap && s.heap[t].Thread?
    requires forall u :: u in s.heap[t].open && u in s.heap && s.heap[u].Open? ==> s.heap[u].slot < |stack|
    ensures Lists(SetStack(s, t, fields, stack))
  {
    hide OpenOk, RootListOk, StringsOk;
    var n := SetStack(s, t, fields, stack);
    StackOpen(s.heap, s.uvhead, t, fields, stack);
    SameRoots(s.heap, n.heap, s.rootgc);
    SameStrings(s.heap, n.heap, s.strt);
  }

  lemma StackOpen(h: Heap, uvhead: set<Ref>, t: Ref, fields: seq<Val>, stack: seq<Val>)
    requires OpenOk(h, uvhead) && t in h && h[t].Thread?
    requires forall u :: u in h[t].open && u in h && h[u].Open? ==> h[u].slot < |stack|
    ensures OpenOk(h[t := Thread(fields, stack, h[t].open)], uvhead)
  {
    var h' := h[t := Thread(fields, stack, h[t].open)];
    hide Descending;
    forall x | x in h' && h'[x].Thread? ensures Descending(h', h'[x].open) { DescendingFrame(h, h', h[x].open); }
    forall u | u in h' && h'[u].Open?
      ensures h'[u].thread in h' && h'[h'[u].thread].Thread? && h'[u].slot < |h'[h'[u].thread].stack|
      ensures u in h'[h'[u].thread].open
    {
      assert u != t && h'[u] == h[u];
    }
    forall x, u | x in h' && h'[x].Thread? && u in h'[x].open ensures u in h' && h'[u].Open? && h'[u].thread == x {
      assert u in h[x].open && u != t;
    }
  }

  lemma StackSafe(s: State, t: Ref, fields: seq<Val>, stack: seq<Val>)
    requires Lists(s) && Safe(s) && t in s.heap && s.heap[t].Thread?
    requires Alive(s, t) ==> LiveVals(s, fields) && LiveVals(s, stack)
    requires forall u :: u in s.heap[t].open && Alive(s, u) && s.heap[u].Open? && s.heap[u].slot < |stack| ==>
      LiveVal(s, stack[s.heap[u].slot])
    ensures Safe(SetStack(s, t, fields, stack))
  {
    hide RootListOk, StringsOk, Roots;
    var n := SetStack(s, t, fields, stack);
    RootsFrame(s, n);
    forall x | Alive(s, x) ensures x in n.heap && LiveVals(s, Fields(n.heap, x)) {
      SafeVals(s, x);
      if x != t && s.heap[x].Open? && s.heap[x].thread == t {
        assert x in s.heap[t].open;
      }
    }
    assert forall x :: Alive(n, x) <==> Alive(s, x);
    SafeIf(s, n);
  }

  lemma StackPhase(s: State, t: Ref, fields: seq<Val>, stack: seq<Val>)
    requires Lists(s) && NeverBlack(s) && PhaseOk(s) && t in s.heap && s.heap[t].Thread?
    ensures PhaseOk(SetStack(s, t, fields, stack)) && NeverBlack(SetStack(s, t, fields, stack))
  {
    hide RootListOk, StringsOk, OpenOk, NoDup;
    var n := SetStack(s, t, fields, stack);
    assert forall x :: x in s.heap ==> (Container(n.heap[x]) <==> Container(s.heap[x]));
    match s.phase {
      case Propagate => StackTri(s, t, fields, stack);
      case SweepString => StackSwept(s, n, t); SweptStringsSame(s, n, s.sweepStr);
      case Sweep => StackSwept(s, n, t); SweptStringsSame(s, n, |s.strt|);
      case _ =>
    }
  }

  lemma SweptStringsSame(s: State, n: State, k: nat)
    requires SweptStrings(s, k) && n.strt == s.strt && n.color == s.color && n.white == s.white
    ensures SweptStrings(n, k)
  {
    forall b | 0 <= b < k ensures WhiteList(n, n.strt[b]) { assert WhiteList(s, s.strt[b]); }
  }

  lemma StackSwept(s: State, n: State, t: Ref)
    requires SweptRoots(s) && t in s.heap && s.heap[t].Thread? && t in n.heap && n.heap[t].Thread?
    requires n == s.(heap := n.heap) && n.heap == s.heap[t := n.heap[t]] && n.heap[t].open == s.heap[t].open
    ensures SweptRoots(n)
  {
  }

  lemma StackTri(s: State, t: Ref, fields: seq<Val>, stack: seq<Val>)
    requires Lists(s) && TriColor(s) && t in s.heap && s.heap[t].Thread?
    ensures TriColor(SetStack(s, t, fields, stack))
  {
    hide RootListOk, StringsOk, OpenOk, NoDup;
    var n := SetStack(s, t, fields, stack);
    assert GrayOk(n.heap, n.color, n.gray + n.grayagain) by { GraySame(s.heap, n.heap, s.color, s.gray + s.grayagain); }
    forall x | x in n.heap && n.color[x] == Black
      ensures Scanned(n.heap, n.color, x) && !n.heap[x].Thread? && !n.heap[x].Open?
    {
      assert Scanned(s.heap, s.color, x);
      assert x != t && Fields(n.heap, x) == Fields(s.heap, x);
    }
  }

  lemma GraySame(h: Heap, h': Heap, c: Colors, gray: seq<Ref>)
    requires GrayOk(h, c, gray) && forall x :: x in h ==> x in h' && (Container(h[x]) ==> Container(h'[x]))
    ensures GrayOk(h', c, gray)
  {
  }

  /** A thread's stack and globals may be overwritten without a barrier. */
  lemma StackInv(s: State, t: Ref, fields: seq<Val>, stack: seq<Val>)
    requires Inv(s) && t in s.heap && s.heap[t].Thread?
    requires forall u :: u in s.heap[t].open && u in s.heap && s.heap[u].Open? ==> s.heap[u].slot < |stack|
    requires Alive(s, t) ==> LiveVals(s, fields) && LiveVals(s, stack)
    requires forall u :: u in s.heap[t].open && Alive(s, u) && s.heap[u].Open? && s.heap[u].slot < |stack| ==>
      LiveVal(s, stack[s.heap[u].slot])
    ensures Inv(SetStack(s, t, fields, stack))
  {
    hide *;
    InvParts(s);
    StackLists(s, t, fields, stack);
    StackSafe(s, t, fields, stack);
    StackPhase(s, t, fields, stack);
    InvIntro(SetStack(s, t, fields, stack));
  }

  // ---------------------------------------------------------------- stores behind a barrier

  predicate HasFields(o: Obj) { o.Udata? || o.Func? || o.Table? || o.Proto? || o.Closed? }

  function WithFields(o: Obj, fields: seq<Val>): (p: Obj)
    ensures HasFields(o) ==> HasFields(p) && Container(p) == Container(o) && p.Table? == o.Table?
  {
    match o
    case Udata(_) => Udata(fields)
    case Func(_) => Func(fields)
    case Table(_) => Table(fields)
    case Proto(_) => Proto(fields)
    case Closed(_) => Closed(fields)
    case _ => o
  }

  function SetFields(s: State, o: Ref, fields: seq<Val>, k: Color, again: seq<Ref>): State
    requires o in s.heap && HasFields(s.heap[o])
  {
    s.(heap := s.heap[o := WithFields(s.heap[o], fields)], color := s.color[o := k], grayagain := again)
  }

  /** What the barriers do to the stored-into object: nothing when the store is harmless, gray again on
      the second list for a black table, white outside the propagation phase for any other black object. */
  ghost predicate Barriered(s: State, o: Ref, fields: seq<Val>, k: Color, again: seq<Ref>)
    requires o in s.heap && o in s.color
  {
    || (k == s.color[o] && again == s.grayagain &&
        (s.phase.Propagate? && k == Black ==> forall i :: 0 <= i < |fields| ==> Marked(s.color, fields[i])))
    || (s.heap[o].Table? && s.color[o] == Black && k == Gray && again == [o] + s.grayagain)
    || (Sweeping(s) && k == s.white && again == s.grayagain)
  }

  lemma StoreLists(s: State, o: Ref, fields: seq<Val>, k: Color, again: seq<Ref>)
    requires Lists(s) && o in s.heap && HasFields(s.heap[o])
    ensures Lists(SetFields(s, o, fields, k, again))
  {
    hide OpenOk, RootListOk, StringsOk;
    var p := WithFields(s.heap[o], fields);
    StoreOpen(s.heap, s.uvhead, o, p);
    SameRoots(s.heap, s.heap[o := p], s.rootgc);
    SameStrings(s.heap, s.heap[o := p], s.strt);
  }

  lemma StoreFrame(h: Heap, uvhead: set<Ref>, o: Ref, obj: Obj)
    requires OpenOk(h, uvhead) && o in h && HasFields(h[o]) && HasFields(obj)
    ensures forall x :: x in h && x != o ==> Fields(h[o := obj], x) == Fields(h, x)
  {
    hide Descending;
  }

  lemma StoreOpen(h: Heap, uvhead: set<Ref>, o: Ref, obj: Obj)
    requires OpenOk(h, uvhead) && o in h && HasFields(h[o]) && HasFields(obj)
    ensures OpenOk(h[o := obj], uvhead)
    ensures forall x :: x in h && x != o ==> Fields(h[o := obj], x) == Fields(h, x)
  {
    hide Descending, Fields;
    StoreFrame(h, uvhead, o, obj);
    var h' := h[o := obj];
    forall x | x in h' && h'[x].Thread? ensures Descending(h', h'[x].open) { DescendingFrame(h, h', h[x].open); }
    forall u | u in h' && h'[u].Open?
      ensures h'[u].thread in h' && h'[h'[u].thread].Thread? && h'[u].slot < |h'[h'[u].thread].stack|
      ensures u in h'[h'[u].thread].open
    {
      assert u != o && h'[u] == h[u] && h[u].thread != o;
    }
    forall t, u | t in h' && h'[t].Thread? && u in h'[t].open ensures u in h' && h'[u].Open? && h'[u].thread == t {
      assert t != o && u in h[t].open && u != o;
    }
  }

  lemma StoreSafe(s: State, o: Ref, fields: seq<Val>, k: Color, again: seq<Ref>)
    requires Lists(s) && Safe(s) && NeverBlack(s) && Alive(s, o) && HasFields(s.heap[o]) && LiveVals(s, fields)
    requires Barriered(s, o, fields, k, again)
    ensures Safe(SetFields(s, o, fields, k, again))
  {
    hide RootListOk, StringsOk, Roots, OpenOk;
    var n := SetFields(s, o, fields, k, again);
    RootsFrame(s, n);
    StoreOpen(s.heap, s.uvhead, o, n.heap[o]);
    forall x | Alive(s, x) ensures x in n.heap && LiveVals(s, Fields(n.heap, x)) {
      if x != o { SafeVals(s, x); }
    }
    assert forall x :: Alive(n, x) <==> Alive(s, x);
    SafeIf(s, n);
  }

  lemma StoreTri(s: State, o: Ref, fields: seq<Val>, k: Color, again: seq<Ref>)
    requires Lists(s) && TriColor(s) && s.phase.Propagate? && o in s.heap && HasFields(s.heap[o])
    requires Barriered(s, o, fields, k, again)
    ensures TriColor(SetFields(s, o, fields, k, again))
  {
    var n := SetFields(s, o, fields, k, again);
    StoreScanned(s, o, fields, k, again);
    StoreGray(s, o, fields, k, again);
    StoreKeys(s, o, fields, k, again);
    forall x | x in n.color
      ensures n.color[x] != OtherWhite(n.white) && (!IsWhite(s.color[x]) ==> !IsWhite(n.color[x]))
      ensures n.color[x] == Gray ==> n.heap[x].Str? || n.heap[x].Open? || x in n.gray || x in n.grayagain
    {
      StoreAt(s, o, fields, k, again, x);
    }
    hide Lists, GrayOk, Scanned, Barriered, SetFields;
  }

  lemma StoreKeys(s: State, o: Ref, fields: seq<Val>, k: Color, again: seq<Ref>)
    requires Lists(s) && o in s.heap && HasFields(s.heap[o])
    ensures var n := SetFields(s, o, fields, k, again);
            && n.color.Keys == s.color.Keys == n.heap.Keys && n.white == s.white && n.mainthread == s.mainthread
            && n.registry == s.registry
  {
    hide RootListOk, StringsOk, OpenOk;
  }

  /** One object after the store. */
  lemma StoreAt(s: State, o: Ref, fields: seq<Val>, k: Color, again: seq<Ref>, x: Ref)
    requires Lists(s) && TriColor(s) && s.phase.Propagate? && o in s.heap && HasFields(s.heap[o])
    requires Barriered(s, o, fields, k, again) && x in s.color
    ensures var n := SetFields(s, o, fields, k, again);
            && x in n.color && x in n.heap && n.color[x] != OtherWhite(n.white)
            && (!IsWhite(s.color[x]) ==> !IsWhite(n.color[x]))
            && (n.color[x] == Gray ==> n.heap[x].Str? || n.heap[x].Open? || x in n.gray || x in n.grayagain)
  {
    BarrierColor(s, o, fields, k, again);
    StoreKeys(s, o, fields, k, again);
    hide Lists, GrayOk, Scanned, Barriered;
  }

  /** What a barrier of the propagation phase does to the colour. */
  lemma BarrierColor(s: State, o: Ref, fields: seq<Val>, k: Color, again: seq<Ref>)
    requires Lists(s) && s.phase.Propagate? && o in s.heap && Barriered(s, o, fields, k, again)
    ensures k != OtherWhite(s.white) || k == s.color[o]
    ensures k == s.color[o] || (s.color[o] == Black && k == Gray && o in again)
    ensures forall y :: y in s.grayagain ==> y in again
  {
  }

  /** What is black after the store has marked fields. */
  lemma StoreScanned(s: State, o: Ref, fields: seq<Val>, k: Color, again: seq<Ref>)
    requires Lists(s) && TriColor(s) && s.phase.Propagate? && o in s.heap && HasFields(s.heap[o])
    requires Barriered(s, o, fields, k, again)
    ensures var n := SetFields(s, o, fields, k, again);
            forall x :: x in n.heap && x in n.color && n.color[x] == Black ==>
              Scanned(n.heap, n.color, x) && !n.heap[x].Thread? && !n.heap[x].Open?
  {
    hide RootListOk, StringsOk, OpenOk, NoDup, GrayOk;
    var n := SetFields(s, o, fields, k, again);
    StoreOpen(s.heap, s.uvhead, o, n.heap[o]);
    forall x | x in n.heap && x in n.color && n.color[x] == Black
      ensures Scanned(n.heap, n.color, x) && !n.heap[x].Thread? && !n.heap[x].Open?
    {
      if x == o { FieldsScanned(n.heap, n.color, o); } else { OthersScanned(s, n, o, x); }
    }
  }

  /** Another black object keeps its fields, and they stay marked. */
  lemma OthersScanned(s: State, n: State, o: Ref, x: Ref)
    requires x in s.heap && x in s.color && s.color[x] == Black && Scanned(s.heap, s.color, x) && x != o
    requires n.heap.Keys == s.heap.Keys && n.heap[x] == s.heap[x] && Fields(n.heap, x) == Fields(s.heap, x)
    requires !s.heap[x].Thread? && !s.heap[x].Open?
    requires o in s.color && o in n.color && n.color == s.color[o := n.color[o]]
    requires IsWhite(n.color[o]) ==> IsWhite(s.color[o])
    ensures Scanned(n.heap, n.color, x) && !n.heap[x].Thread? && !n.heap[x].Open?
  {
    hide Fields;
  }

  lemma StoreGray(s: State, o: Ref, fields: seq<Val>, k: Color, again: seq<Ref>)
    requires TriColor(s) && s.phase.Propagate? && o in s.heap && o in s.color && HasFields(s.heap[o])
    requires Barriered(s, o, fields, k, again)
    ensures var n := SetFields(s, o, fields, k, again); GrayOk(n.heap, n.color, n.gray + n.grayagain)
  {
    var n := SetFields(s, o, fields, k, again);
    var was, now := s.gray + s.grayagain, n.gray + n.grayagain;
    GraySame(s.heap, n.heap, s.color, was);
    if k == s.color[o] {
      assert n.color == s.color && now == was;
    } else {
      assert !Sweeping(s) && again == [o] + s.grayagain;
      assert o !in was;
      assert now == InsertAt(was, |s.gray|, o);
      InsertMembers(was, |s.gray|, o);
      forall i | 0 <= i < |now|
        ensures now[i] in n.heap && now[i] in n.color && n.color[now[i]] == Gray && Container(n.heap[now[i]])
      {
        assert now[i] in was || now[i] == o;
      }
    }
  }

  lemma StoreSwept(s: State, o: Ref, fields: seq<Val>, k: Color, again: seq<Ref>)
    requires SweptRoots(s) && Sweeping(s) && o in s.heap && o in s.color && HasFields(s.heap[o]) && Lists(s)
    requires Barriered(s, o, fields, k, again)
    ensures SweptRoots(SetFields(s, o, fields, k, again))
  {
    hide RootListOk, StringsOk;
    var n := SetFields(s, o, fields, k, again);
    assert IsWhite(s.white);
    assert forall x :: x in s.heap && s.heap[x].Thread? ==> o !in s.heap[x].open;
    forall i | 0 <= i < n.sweepPos && n.rootgc[i] in n.heap && n.heap[n.rootgc[i]].Thread?
      ensures WhiteList(n, n.heap[n.rootgc[i]].open)
    {
      assert WhiteList(s, s.heap[s.rootgc[i]].open);
    }
  }

  lemma StoreStrings(s: State, o: Ref, fields: seq<Val>, k: Color, again: seq<Ref>, m: nat)
    requires SweptStrings(s, m) && o in s.heap && HasFields(s.heap[o]) && StringsOk(s.heap, s.strt)
    ensures SweptStrings(SetFields(s, o, fields, k, again), m)
  {
    var n := SetFields(s, o, fields, k, again);
    hide StringsOk;
    forall b | 0 <= b < m ensures WhiteList(n, n.strt[b]) {
      assert WhiteList(s, s.strt[b]);
      RootNotString(s.heap, s.strt, b, o);
    }
  }

  lemma StorePhase(s: State, o: Ref, fields: seq<Val>, k: Color, again: seq<Ref>)
    requires Lists(s) && NeverBlack(s) && PhaseOk(s) && o in s.heap && HasFields(s.heap[o])
    requires Barriered(s, o, fields, k, again)
    ensures PhaseOk(SetFields(s, o, fields, k, again)) && NeverBlack(SetFields(s, o, fields, k, again))
  {
    hide RootListOk, StringsOk, OpenOk, SweptRoots, SweptStrings, TriColor;
    match s.phase {
      case Propagate => StoreTri(s, o, fields, k, again);
      case SweepString => StoreSwept(s, o, fields, k, again); StoreStrings(s, o, fields, k, again, s.sweepStr);
      case Sweep => StoreSwept(s, o, fields, k, again); StoreStrings(s, o, fields, k, again, |s.strt|);
      case _ =>
    }
  }

  lemma StoreInv(s: State, o: Ref, fields: seq<Val>, k: Color, again: seq<Ref>)
    requires Inv(s) && Alive(s, o) && o in s.heap && o in s.color && HasFields(s.heap[o]) && LiveVals(s, fields)
    requires Barriered(s, o, fields, k, again)
    ensures Inv(SetFields(s, o, fields, k, again))
  {
    hide *;
    InvParts(s);
    StoreLists(s, o, fields, k, again);
    StoreSafe(s, o, fields, k, again);
    StorePhase(s, o, fields, k, again);
    InvIntro(SetFields(s, o, fields, k, again));
  }
}
