/** Linking objects into the collector's lists: new objects, and upvalues that are closed. */
module LuaLink {
  import opened LuaHeap
  import opened LuaMark
  import opened LuaGcState
  import opened LuaSweep

  /** Where a list position moves when something is linked at index at: a position stays put unless it
      is behind the new element. */
  function Shift(pos: nat, at: nat): nat { if pos <= at then pos else pos + 1 }

  function InsertAt(s: seq<Ref>, at: nat, r: Ref): seq<Ref>
    requires at <= |s|
  {
    s[..at] + [r] + s[at..]
  }

  lemma InsertMembers(s: seq<Ref>, at: nat, r: Ref)
    requires at <= |s|
    ensures forall x :: x in InsertAt(s, at, r) <==> x in s || x == r
    ensures NoDup(s) && r !in s ==> NoDup(InsertAt(s, at, r))
  {
    var t := InsertAt(s, at, r);
    assert s == s[..at] + s[at..];
    assert forall i :: 0 <= i < |t| ==> t[i] == if i < at then s[i] else if i == at then r else s[i - 1];
    assert t[at] == r;
    forall x | x in s ensures x in t {
      var i :| 0 <= i < |s| && s[i] == x;
      assert t[if i < at then i else i + 1] == x;
    }
  }

  /** The swept prefix of the list after an insertion: the old one, with the new element if it lies inside. */
  lemma InsertPrefix(s: seq<Ref>, at: nat, r: Ref, pos: nat)
    requires at <= |s| && pos <= |s|
    ensures Shift(pos, at) <= |InsertAt(s, at, r)|
    ensures forall x :: x in InsertAt(s, at, r)[..Shift(pos, at)] ==> x in s[..pos] || (x == r && at < pos)
  {
    var t := InsertAt(s, at, r);
    assert forall i :: 0 <= i < |t| ==> t[i] == if i < at then s[i] else if i == at then r else s[i - 1];
    forall x | x in t[..Shift(pos, at)] ensures x in s[..pos] || (x == r && at < pos) {
      var i :| 0 <= i < Shift(pos, at) && t[i] == x;
      if i != at {
        var j := if i < at then i else i - 1;
        assert s[..pos][j] == x;
      }
    }
  }

  lemma RootListAdd(h: Heap, rootgc: seq<Ref>, at: nat, r: Ref, o: Obj)
    requires RootListOk(h, rootgc) && r !in h && InRootList(o) && at <= |rootgc|
    ensures RootListOk(h[r := o], InsertAt(rootgc, at, r))
  {
    hide InsertAt;
    InsertMembers(rootgc, at, r);
  }

  lemma StringsAdd(h: Heap, strt: seq<seq<Ref>>, r: Ref, o: Obj)
    requires StringsOk(h, strt) && r !in h && !o.Str?
    ensures StringsOk(h[r := o], strt)
  {
    forall x | InSomeBucket(strt, x) ensures x != r { }
  }

  lemma AddFields(h: Heap, uvhead: set<Ref>, r: Ref, o: Obj)
    requires OpenOk(h, uvhead) && r !in h
    ensures forall x :: x in h ==> Fields(h[r := o], x) == Fields(h, x)
  {
    hide Descending;
  }

  lemma OpenAdd(h: Heap, uvhead: set<Ref>, r: Ref, o: Obj)
    requires OpenOk(h, uvhead) && r !in h && !o.Open? && (o.Thread? ==> o.open == [])
    ensures OpenOk(h[r := o], uvhead)
    ensures forall x :: x in h ==> Fields(h[r := o], x) == Fields(h, x)
  {
    AddFields(h, uvhead, r, o);
    var h' := h[r := o];
    assert Descending(h', []);
    hide Descending, Fields;
    forall t | t in h' && h'[t].Thread? ensures Descending(h', h'[t].open) {
      if t != r { DescendingFrame(h, h', h[t].open); }
    }
  }

  // ---------------------------------------------------------------- closing an upvalue

  function CloseHeap(h: Heap, u: Ref): Heap
    requires u in h && h[u].Open? && h[u].thread in h && h[h[u].thread].Thread?
  {
    UnlinkUpval(h, u)[u := Closed(Fields(h, u))]
  }

  function CloseUpval(s: State, u: Ref, k: Color): State
    requires u in s.heap && s.heap[u].Open? && s.heap[u].thread in s.heap && s.heap[s.heap[u].thread].Thread?
  {
    s.(heap := CloseHeap(s.heap, u), color := s.color[u := k], uvhead := s.uvhead - {u},
       rootgc := InsertAt(s.rootgc, 0, u), sweepPos := Shift(s.sweepPos, 0))
  }

  lemma CloseLists(s: State, u: Ref, k: Color)
    requires Lists(s) && u in s.heap && s.heap[u].Open? && s.heap[u].thread in s.heap
    requires s.heap[s.heap[u].thread].Thread?
    ensures Lists(CloseUpval(s, u, k))
  {
    hide RootListOk, StringsOk, OpenOk, UnlinkUpval, InsertAt, Fields;
    var h := UnlinkUpval(s.heap, u);
    UnlinkFrame(s.heap, s.uvhead, u);
    OpenUnlink(s.heap, s.uvhead, u);
    RootListUnlinkUpval(s.heap, s.uvhead, s.rootgc, u);
    StringsUnlinkUpval(s.heap, s.uvhead, s.strt, u);
    RootListAdd(h, s.rootgc, 0, u, Closed(Fields(s.heap, u)));
    StringsAdd(h, s.strt, u, Closed(Fields(s.heap, u)));
    OpenAdd(h, s.uvhead - {u}, u, Closed(Fields(s.heap, u)));
  }

  /** Closing changes no object's references. */
  lemma CloseFields(s: State, u: Ref)
    requires Lists(s) && u in s.heap && s.heap[u].Open? && s.heap[u].thread in s.heap
    requires s.heap[s.heap[u].thread].Thread?
    ensures CloseHeap(s.heap, u).Keys == s.heap.Keys
    ensures forall x :: x in s.heap ==> Fields(CloseHeap(s.heap, u), x) == Fields(s.heap, x)
  {
    hide RootListOk, StringsOk, UnlinkUpval, OpenOk;
    var h := UnlinkUpval(s.heap, u);
    UnlinkFrame(s.heap, s.uvhead, u);
    UnlinkFields(s.heap, s.uvhead, u);
    OpenUnlink(s.heap, s.uvhead, u);
    OpenAdd(h, s.uvhead - {u}, u, Closed(Fields(s.heap, u)));
    assert Fields(CloseHeap(s.heap, u), u) == Fields(s.heap, u);
    hide Fields;
  }

  /** The colour of a closed upvalue: in the propagation phase a gray one turns black (its value having
      been marked), otherwise it turns white. */
  function ClosedColor(s: State, u: Ref): Color
    requires u in s.color
  {
    if s.color[u] != Gray then s.color[u] else if s.phase.Propagate? then Black else s.white
  }

  lemma CloseSafe(s: State, u: Ref)
    requires Lists(s) && Safe(s) && u in s.heap && s.heap[u].Open? && Alive(s, u)
    requires s.heap[u].thread in s.heap && s.heap[s.heap[u].thread].Thread?
    ensures Safe(CloseUpval(s, u, ClosedColor(s, u))) && Survives(s, CloseUpval(s, u, ClosedColor(s, u)))
  {
    hide Roots, RootListOk, StringsOk, OpenOk, Safe, Fields, CloseHeap, InsertAt;
    var t := CloseUpval(s, u, ClosedColor(s, u));
    CloseFields(s, u);
    RootsFrame(s, t);
    assert forall x :: Alive(t, x) <==> Alive(s, x);
    SafeSame(s, t);
  }

  /** What closing u does to the objects: u itself, and the list of its thread. */
  lemma CloseFrame(s: State, u: Ref)
    requires Lists(s) && u in s.heap && s.heap[u].Open? && s.heap[u].thread in s.heap
    requires s.heap[s.heap[u].thread].Thread?
    ensures var h := CloseHeap(s.heap, u);
            && h.Keys == s.heap.Keys && h[u].Closed?
            && (forall x :: x in h && x != u && !s.heap[x].Thread? ==> h[x] == s.heap[x])
            && (forall x :: x in h && x != u && s.heap[x].Thread? ==> h[x].Thread?)
            && (forall x, y :: x in h && x != u && s.heap[x].Thread? && y in h[x].open ==>
                  y in s.heap[x].open && y != u)
  {
    hide RootListOk, StringsOk, UnlinkUpval, Without, Fields;
    UnlinkFrame(s.heap, s.uvhead, u);
    WithoutMembers(s.heap[s.heap[u].thread].open, u);
    UpvalOnlyThere(s.heap, s.uvhead, u);
  }

  lemma CloseGray(h: Heap, h': Heap, c: Colors, c': Colors, u: Ref, gray: seq<Ref>)
    requires GrayOk(h, c, gray) && u in h && h[u].Open? && u in c && u in c' && c' == c[u := c'[u]]
    requires forall x :: x in h && x != u && Container(h[x]) ==> x in h' && Container(h'[x])
    ensures GrayOk(h', c', gray)
  {
  }

  lemma CloseScanned(s: State, u: Ref, k: Color)
    requires Lists(s) && s.color.Keys == s.heap.Keys && TriColor(s) && u in s.heap && s.heap[u].Open?
    requires k == (if s.color[u] == Gray then Black else s.color[u])
    requires s.heap[u].thread in s.heap && s.heap[s.heap[u].thread].Thread?
    requires s.color[u] == Gray ==> Scanned(s.heap, s.color, u)
    ensures var t := CloseUpval(s, u, k);
            forall x :: x in t.heap && t.color[x] == Black ==>
              Scanned(t.heap, t.color, x) && !t.heap[x].Thread? && !t.heap[x].Open?
  {
    hide Lists, CloseHeap, Fields, InsertAt, GrayOk;
    var t := CloseUpval(s, u, k);
    CloseFields(s, u);
    CloseFrame(s, u);
    forall x | x in t.heap && t.color[x] == Black
      ensures Scanned(t.heap, t.color, x) && !t.heap[x].Thread? && !t.heap[x].Open?
    {
      assert Scanned(s.heap, s.color, x);
    }
  }

  lemma CloseListed(s: State, u: Ref, k: Color)
    requires Lists(s) && s.color.Keys == s.heap.Keys && TriColor(s) && u in s.heap && s.heap[u].Open?
    requires s.heap[u].thread in s.heap && s.heap[s.heap[u].thread].Thread?
    requires k == (if s.color[u] == Gray then Black else s.color[u])
    ensures var t := CloseUpval(s, u, k);
            && (forall x :: x in t.heap && t.color[x] == Gray ==>
                  t.heap[x].Str? || t.heap[x].Open? || x in t.gray || x in t.grayagain)
            && GrayOk(t.heap, t.color, t.gray + t.grayagain)
  {
    hide Lists, CloseHeap, Fields, InsertAt, GrayOk, Scanned;
    var t := CloseUpval(s, u, k);
    CloseFrame(s, u);
    CloseGray(s.heap, t.heap, s.color, t.color, u, s.gray + s.grayagain);
  }

  lemma CloseTri(s: State, u: Ref)
    requires Lists(s) && s.color.Keys == s.heap.Keys && TriColor(s) && u in s.heap && s.heap[u].Open?
    requires s.heap[u].thread in s.heap && s.heap[s.heap[u].thread].Thread?
    requires s.color[u] == Gray ==> Scanned(s.heap, s.color, u)
    ensures TriColor(CloseUpval(s, u, if s.color[u] == Gray then Black else s.color[u]))
  {
    hide Lists, CloseHeap, Fields, InsertAt, GrayOk, Scanned;
    var k := if s.color[u] == Gray then Black else s.color[u];
    CloseKeys(s, u);
    CloseListed(s, u, k);
    CloseScanned(s, u, k);
  }

  lemma CloseKeys(s: State, u: Ref)
    requires Lists(s) && u in s.heap && s.heap[u].Open? && s.heap[u].thread in s.heap
    requires s.heap[s.heap[u].thread].Thread?
    ensures CloseHeap(s.heap, u).Keys == s.heap.Keys
  {
    CloseFrame(s, u);
  }

  lemma CloseSwept(s: State, u: Ref, k: Color)
    requires Lists(s) && SweptRoots(s) && u in s.heap && s.heap[u].Open? && (k == s.white || k == s.color[u])
    requires s.heap[u].thread in s.heap && s.heap[s.heap[u].thread].Thread?
    requires s.sweepPos > 0 ==> k == s.white
    ensures SweptRoots(CloseUpval(s, u, k))
  {
    hide RootListOk, StringsOk, OpenOk, CloseHeap, Fields, InsertAt;
    var t := CloseUpval(s, u, k);
    CloseFrame(s, u);
    InsertPrefix(s.rootgc, 0, u, s.sweepPos);
    SweptUse(s);
    forall x | x in t.rootgc[..t.sweepPos] ensures x in t.color && t.color[x] == t.white
    {
      if x != u { assert x in s.rootgc[..s.sweepPos]; }
    }
    forall i | 0 <= i < t.sweepPos && t.rootgc[i] in t.heap && t.heap[t.rootgc[i]].Thread?
      ensures WhiteList(t, t.heap[t.rootgc[i]].open)
    {
      assert t.rootgc[i] in t.rootgc[..t.sweepPos];
      assert WhiteList(s, s.heap[t.rootgc[i]].open);
    }
  }

  lemma SweptUse(s: State)
    requires SweptRoots(s)
    ensures forall x :: x in s.rootgc[..s.sweepPos] ==>
      x in s.color && s.color[x] == s.white && (x in s.heap && s.heap[x].Thread? ==> WhiteList(s, s.heap[x].open))
  {
    forall x | x in s.rootgc[..s.sweepPos] && x in s.heap && s.heap[x].Thread? ensures WhiteList(s, s.heap[x].open) {
      var i :| 0 <= i < s.sweepPos && s.rootgc[i] == x;
    }
  }

  lemma CloseStrings(s: State, u: Ref, k: Color, n: nat)
    requires Lists(s) && SweptStrings(s, n) && u in s.heap && s.heap[u].Open?
    requires s.heap[u].thread in s.heap && s.heap[s.heap[u].thread].Thread?
    ensures SweptStrings(CloseUpval(s, u, k), n)
  {
    hide RootListOk, StringsOk, OpenOk, CloseHeap, InsertAt;
    forall c | 0 <= c < n ensures WhiteList(CloseUpval(s, u, k), s.strt[c]) {
      UpvalNotString(s.heap, s.strt, c, u);
      assert WhiteList(s, s.strt[c]);
    }
  }

  lemma CloseBlack(s: State, u: Ref, k: Color)
    requires Lists(s) && NeverBlack(s) && u in s.heap && s.heap[u].Open?
    requires s.heap[u].thread in s.heap && s.heap[s.heap[u].thread].Thread?
    ensures NeverBlack(CloseUpval(s, u, k))
  {
    hide RootListOk, StringsOk, OpenOk, CloseHeap, InsertAt;
    CloseFrame(s, u);
  }

  lemma ClosePhase(s: State, u: Ref)
    requires Lists(s) && NeverBlack(s) && PhaseOk(s) && u in s.heap && s.heap[u].Open? && Alive(s, u)
    requires s.heap[u].thread in s.heap && s.heap[s.heap[u].thread].Thread?
    requires s.phase.Propagate? && s.color[u] == Gray ==> Scanned(s.heap, s.color, u)
    ensures PhaseOk(CloseUpval(s, u, ClosedColor(s, u)))
  {
    hide RootListOk, StringsOk, OpenOk, CloseHeap, SweptRoots, SweptStrings, TriColor, InsertAt, Scanned;
    var k := ClosedColor(s, u);
    assert s.color[u] != Black && u !in s.fixed;
    match s.phase {
      case Propagate => CloseTri(s, u);
      case SweepString => CloseSwept(s, u, k); CloseStrings(s, u, k, s.sweepStr);
      case Sweep => CloseSwept(s, u, k); CloseStrings(s, u, k, |s.strt|);
      case _ => CloseFrame(s, u);
    }
  }

  lemma CloseInv(s: State, u: Ref)
    requires Inv(s) && u in s.heap && s.heap[u].Open? && Alive(s, u)
    requires s.heap[u].thread in s.heap && s.heap[s.heap[u].thread].Thread?
    requires s.phase.Propagate? && s.color[u] == Gray ==> Scanned(s.heap, s.color, u)
    ensures Inv(CloseUpval(s, u, ClosedColor(s, u))) && Survives(s, CloseUpval(s, u, ClosedColor(s, u)))
  {
    hide *;
    InvParts(s);
    var k := ClosedColor(s, u);
    CloseLists(s, u, k);
    CloseSafe(s, u);
    CloseBlack(s, u, k);
    ClosePhase(s, u);
    InvIntro(CloseUpval(s, u, k));
  }
}
