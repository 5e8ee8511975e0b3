/** Marking: what one call of the collector's marking routine does to the colours and the gray list. */
module LuaMark {
  import opened LuaHeap

  predicate Container(o: Obj) { o.Func? || o.Table? || o.Proto? || o.Thread? }

  ghost function Whites(c: Colors): set<Ref> {
    set r | r in c && IsWhite(c[r])
  }

  /** Every reference held by an object of the heap is to an object of the heap. */
  ghost predicate Sound(h: Heap) {
    forall r, c :: r in h && Points(h, r, c) ==> c in h
  }

  ghost predicate Scanned(h: Heap, c: Colors, r: Ref)
    requires r in h
  {
    forall x :: Points(h, r, x) ==> x in c && !IsWhite(c[x])
  }

  /** The mark of r is complete: black with its children marked, or a gray string, or a gray open
      upvalue whose value is marked, or gray and queued. */
  ghost predicate Settled(h: Heap, c: Colors, gray: seq<Ref>, r: Ref)
    requires r in h && r in c
  {
    match c[r]
    case Black => Scanned(h, c, r) && !h[r].Thread? && !h[r].Open?
    case Gray => h[r].Str? || (h[r].Open? && Scanned(h, c, r)) || (Container(h[r]) && r in gray)
    case _ => false
  }

  ghost predicate NoDup(s: seq<Ref>) {
    forall i, j :: 0 <= i < j < |s| ==> s[i] != s[j]
  }

  /** The gray list: gray containers, each once (the list is threaded through the objects). */
  ghost predicate GrayOk(h: Heap, c: Colors, gray: seq<Ref>) {
    && NoDup(gray)
    && forall i :: 0 <= i < |gray| ==> gray[i] in h && gray[i] in c && c[gray[i]] == Gray && Container(h[gray[i]])
  }

  /** Marking only turns white objects gray or black, completely, and pushes onto the gray list. */
  ghost predicate Marks(h: Heap, c: Colors, gray: seq<Ref>, c': Colors, gray': seq<Ref>) {
    && c.Keys == c'.Keys == h.Keys
    && (forall r :: r in c && !IsWhite(c[r]) ==> c'[r] == c[r])
    && (forall r :: r in c && IsWhite(c[r]) && c'[r] != c[r] ==> Settled(h, c', gray', r))
    && |gray| <= |gray'| && gray'[|gray'| - |gray|..] == gray
    && (forall i :: 0 <= i < |gray'| - |gray| ==> gray'[i] in c && IsWhite(c[gray'[i]]))
  }

  /** Colours change only away from white. */
  ghost predicate Darkens(c: Colors, c': Colors) {
    c.Keys == c'.Keys && forall r :: r in c && IsWhite(c'[r]) ==> c[r] == c'[r]
  }

  lemma DarkensTrans(c: Colors, c1: Colors, c2: Colors)
    requires Darkens(c, c1) && Darkens(c1, c2)
    ensures Darkens(c, c2)
  {
  }

  lemma MarksDarken(h: Heap, c: Colors, gray: seq<Ref>, c': Colors, gray': seq<Ref>)
    requires Marks(h, c, gray, c', gray')
    ensures Darkens(c, c')
  {
  }

  lemma MarksRefl(h: Heap, c: Colors, gray: seq<Ref>)
    requires c.Keys == h.Keys
    ensures Marks(h, c, gray, c, gray)
  {
  }

  lemma SettledStays(h: Heap, c: Colors, gray: seq<Ref>, c': Colors, gray': seq<Ref>, r: Ref)
    requires Marks(h, c, gray, c', gray') && r in h && Settled(h, c, gray, r)
    ensures Settled(h, c', gray', r)
  {
    if r in gray {
      assert r in gray'[|gray'| - |gray|..];
    }
  }

  lemma MarksWhites(h: Heap, c: Colors, gray: seq<Ref>, c': Colors, gray': seq<Ref>)
    requires Marks(h, c, gray, c', gray')
    ensures Whites(c') <= Whites(c)
  {
    forall r | r in Whites(c') ensures r in Whites(c) { assert r in c; }
  }

  lemma MarksTrans(h: Heap, c: Colors, gray: seq<Ref>, c1: Colors, gray1: seq<Ref>, c2: Colors, gray2: seq<Ref>)
    requires Marks(h, c, gray, c1, gray1) && Marks(h, c1, gray1, c2, gray2)
    ensures Marks(h, c, gray, c2, gray2)
  {
    hide Settled;
    forall r | r in c && IsWhite(c[r]) && c2[r] != c[r] ensures Settled(h, c2, gray2, r) {
      if c1[r] != c[r] { SettledStays(h, c1, gray1, c2, gray2, r); }
    }
    assert gray2[|gray2| - |gray|..] == gray2[|gray2| - |gray1|..][|gray1| - |gray|..];
    forall i | 0 <= i < |gray2| - |gray| ensures gray2[i] in c && IsWhite(c[gray2[i]]) {
      if i >= |gray2| - |gray1| {
        assert gray2[i] == gray2[|gray2| - |gray1|..][i - (|gray2| - |gray1|)];
      } else {
        assert IsWhite(c1[gray2[i]]);
      }
    }
  }

  /** The precondition of every marking routine. */
  ghost predicate Ready(h: Heap, c: Colors, gray: seq<Ref>) {
    c.Keys == h.Keys && Sound(h) && GrayOk(h, c, gray)
  }

  ghost predicate Marked(c: Colors, v: Val) {
    v.To? ==> v.ref in c && !IsWhite(c[v.ref])
  }

  lemma MarkedStays(c: Colors, c': Colors, v: Val)
    requires Darkens(c, c') && Marked(c, v)
    ensures Marked(c', v)
  {
  }

  lemma WhitesShrink(c: Colors, x: Ref, k: Color)
    requires x in c && IsWhite(c[x]) && !IsWhite(k)
    ensures Whites(c[x := k]) < Whites(c)
  {
    assert x in Whites(c) && x !in Whites(c[x := k]);
    forall r | r in Whites(c[x := k]) ensures r in Whites(c) { }
  }

  /** Colouring a white object without queueing it leaves the gray list well formed. */
  lemma ColorReady(h: Heap, c: Colors, gray: seq<Ref>, x: Ref, k: Color)
    requires Ready(h, c, gray) && x in h && IsWhite(c[x])
    ensures Ready(h, c[x := k], gray)
  {
  }

  lemma QueueReady(h: Heap, c: Colors, gray: seq<Ref>, x: Ref)
    requires Ready(h, c, gray) && x in h && IsWhite(c[x]) && Container(h[x])
    ensures Ready(h, c[x := Gray], [x] + gray) && Marks(h, c, gray, c[x := Gray], [x] + gray)
  {
    assert x !in gray;
  }

  /** Colouring x, marking what it holds, and giving it its final colour is one complete marking. */
  lemma MarkOne(h: Heap, c: Colors, gray: seq<Ref>, x: Ref, k: Color, c2: Colors, gray2: seq<Ref>, k2: Color)
    requires Ready(h, c, gray) && x in h && IsWhite(c[x]) && !Container(h[x])
    requires !IsWhite(k) && (k2 == k || k2 == Black)
    requires Marks(h, c[x := k], gray, c2, gray2) && Ready(h, c2, gray2)
    requires Settled(h, c2[x := k2], gray2, x)
    ensures Marks(h, c, gray, c2[x := k2], gray2) && Ready(h, c2[x := k2], gray2)
  {
    var c3 := c2[x := k2];
    forall r | r in c && IsWhite(c[r]) && c3[r] != c[r] ensures Settled(h, c3, gray2, r) {
      if r != x { assert Settled(h, c2, gray2, r); }
    }
  }

  lemma FieldsScanned(h: Heap, c: Colors, x: Ref)
    requires x in h && forall i :: 0 <= i < |Fields(h, x)| ==> Marked(c, Fields(h, x)[i])
    ensures Scanned(h, c, x)
  {
    forall y | Points(h, x, y) ensures y in c && !IsWhite(c[y]) {
      var i :| 0 <= i < |Fields(h, x)| && Fields(h, x)[i] == To(y);
    }
  }

  // ---------------------------------------------------------------- precision

  /** Everything marked is in a set that is closed under references: marking stays inside it. */
  ghost predicate Inside(h: Heap, c: Colors, s: iset<Ref>) {
    && (forall r, x :: r in s && r in h && Points(h, r, x) ==> x in s)
    && (forall r :: r in c && !IsWhite(c[r]) ==> r in s)
  }

  ghost predicate ValsIn(vals: seq<Val>, s: iset<Ref>) {
    forall i :: 0 <= i < |vals| && vals[i].To? ==> vals[i].ref in s
  }

  lemma InsideColor(h: Heap, c: Colors, s: iset<Ref>, x: Ref, k: Color)
    requires Inside(h, c, s) && x in s
    ensures Inside(h, c[x := k], s)
  {
  }

  lemma InsideFields(h: Heap, c: Colors, s: iset<Ref>, x: Ref)
    requires Inside(h, c, s) && x in h && x in s
    ensures ValsIn(Fields(h, x), s)
  {
    forall i | 0 <= i < |Fields(h, x)| && Fields(h, x)[i].To? ensures Fields(h, x)[i].ref in s {
      assert Points(h, x, Fields(h, x)[i].ref);
    }
  }

  lemma InsideMarked(h: Heap, c: Colors, s: iset<Ref>, x: Ref)
    requires Inside(h, c, s) && x in c && !IsWhite(c[x])
    ensures x in s
  {
  }

  predicate AnyRef(r: Ref) { true }

  /** The set of all references. */
  ghost function Everything(): iset<Ref> { iset r: Ref | AnyRef(r) }

  lemma InsideAll(h: Heap, c: Colors, vals: seq<Val>)
    ensures Inside(h, c, Everything()) && ValsIn(vals, Everything())
  {
  }

  lemma OneIn(x: Ref, s: iset<Ref>)
    requires x in s
    ensures ValsIn([To(x)], s)
  {
  }
}
