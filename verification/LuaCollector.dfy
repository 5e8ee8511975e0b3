/** The incremental mark-and-sweep collector. */
module LuaCollector {
  import opened LuaHeap
  import opened LuaMark
  import opened LuaGcState
  import opened LuaPropagate
  import opened LuaSweep
  import opened LuaPrecise
  import opened LuaCycle
  import opened LuaLink
  import opened LuaMutator
  import opened LuaAlloc

  class Collector {
    var heap: Heap
    var color: Colors
    var white: Color
    var phase: Phase
    var gray: seq<Ref>
    var grayagain: seq<Ref>
    var rootgc: seq<Ref>
    var strt: seq<seq<Ref>>
    var uvhead: set<Ref>
    var sweepStr: nat
    var sweepPos: nat
    var mainthread: Ref
    var running: Ref
    var registry: Val
    var mt: seq<Val>
    var fixed: set<Ref>

    ghost function St(): State
      reads this
    {
      State(heap, color, white, phase, gray, grayagain, rootgc, strt, uvhead, sweepStr, sweepPos,
            mainthread, running, registry, mt, fixed)
    }

    ghost predicate Valid()
      reads this
    {
      Inv(St())
    }

    /** A new state: the main thread alone, pausing. */
    constructor (main: Ref, metatables: nat, buckets: nat)
      requires buckets > 0
      ensures Valid() && phase == Pause && mainthread == running == main && heap == map[main := Thread([], [], [])]
    {
      heap, color, white, phase := map[main := Thread([], [], [])], map[main := White0], White0, Pause;
      gray, grayagain, rootgc := [], [], [main];
      strt, uvhead, sweepStr, sweepPos := seq(buckets, _ => []), {}, 0, 0;
      mainthread, running, registry, mt, fixed := main, main, Nil, seq(metatables, _ => Nil), {};
    }

    // -------------------------------------------------------------- marking

    method ReallyMarkObject(x: Ref, ghost s: iset<Ref>)
      requires Ready(heap, color, gray) && x in heap && IsWhite(color[x]) && Inside(heap, color, s) && x in s
      modifies this`color, this`gray
      ensures Ready(heap, color, gray) && Marks(heap, old(color), old(gray), color, gray) && Inside(heap, color, s)
      ensures Marked(color, To(x))
      decreases Whites(color), 0
    {
      hide Ready, Marks, Settled, Scanned, Whites, Inside;
      ghost var c, g := color, gray;
      ReadyKeys(heap, c, g);
      WhitesShrink(c, x, Gray);
      WhitesShrink(c, x, Black);
      InsideColor(heap, c, s, x, Gray);
      InsideColor(heap, c, s, x, Black);
      match heap[x] {
        case Str =>
          color := color[x := Gray];
          FieldMark(c, g, x, Gray, s);
        case Udata(fields) =>
          color := color[x := Black];
          FieldMark(c, g, x, Black, s);
        case Open(_, _) =>
          color := color[x := Gray];
          FieldMark(c, g, x, Gray, s);
        case Closed(fields) =>
          color := color[x := Gray];
          FieldMark(c, g, x, Gray, s);
        case _ =>
          QueueReady(heap, c, g, x);
          color, gray := color[x := Gray], [x] + gray;
      }
    }

    /** Marks what a just coloured string, userdata or upvalue holds; a closed upvalue ends black. */
    method FieldMark(ghost c: Colors, ghost g: seq<Ref>, x: Ref, k: Color, ghost s: iset<Ref>)
      requires Ready(heap, c, g) && x in heap && x in c && IsWhite(c[x]) && !Container(heap[x])
      requires color == c[x := k] && gray == g && k == if heap[x].Udata? then Black else Gray
      requires Inside(heap, color, s) && x in s
      modifies this`color, this`gray
      ensures Ready(heap, color, gray) && Marks(heap, c, g, color, gray) && Inside(heap, color, s)
      ensures Marked(color, To(x))
      decreases Whites(color), 2
    {
      hide Ready, Marks, Settled, Scanned, Whites, Inside, ValsIn;
      ColorReady(heap, c, g, x, k);
      ReadyKeys(heap, color, gray);
      InsideFields(heap, color, s, x);
      MarkValues(Fields(heap, x), s);
      ghost var c2 := color;
      ReadyKeys(heap, c2, gray);
      FieldsScanned(heap, c2, x);
      InsideColor(heap, c2, s, x, Black);
      if heap[x].Closed? {
        color := color[x := Black];
      }
      FieldSettled(heap, c, g, x, k, c2, gray, if heap[x].Closed? then Black else k);
      MarkOne(heap, c, g, x, k, c2, gray, if heap[x].Closed? then Black else k);
      assert color == c2[x := if heap[x].Closed? then Black else k];
    }

    method MarkValues(vals: seq<Val>, ghost s: iset<Ref>)
      requires Ready(heap, color, gray) && Inside(heap, color, s) && ValsIn(vals, s)
      requires forall i :: 0 <= i < |vals| && vals[i].To? ==> vals[i].ref in heap
      modifies this`color, this`gray
      ensures Ready(heap, color, gray) && Marks(heap, old(color), old(gray), color, gray) && Inside(heap, color, s)
      ensures forall i :: 0 <= i < |vals| ==> Marked(color, vals[i])
      decreases Whites(color), 1
    {
      hide Ready, Marks, Settled, Scanned, Whites, Inside;
      ghost var c, g := color, gray;
      ReadyKeys(heap, c, g);
      MarksRefl(heap, c, g);
      for k := 0 to |vals|
        invariant Ready(heap, color, gray) && Marks(heap, c, g, color, gray) && color.Keys == heap.Keys
        invariant Inside(heap, color, s)
        invariant forall i :: 0 <= i < k ==> Marked(color, vals[i])
      {
        if vals[k].To? && IsWhite(color[vals[k].ref]) {
          ghost var c1, g1 := color, gray;
          MarksWhites(heap, c, g, c1, g1);
          ReallyMarkObject(vals[k].ref, s);
          MarksTrans(heap, c, g, c1, g1, color, gray);
          ReadyKeys(heap, color, gray);
          MarksDarken(heap, c1, g1, color, gray);
          forall i | 0 <= i < k ensures Marked(color, vals[i]) { MarkedStays(c1, color, vals[i]); }
        }
      }
    }

    /** Traverses one gray object, turning it black; a thread stays gray, on the second list. */
    method PropagateMark(ghost a: set<Ref>, ghost s: iset<Ref>)
      requires Tri(heap, color, gray, grayagain) && Pending(heap, color, gray, a) && gray != []
      requires Inside(heap, color, s)
      modifies this`color, this`gray, this`grayagain
      ensures Tri(heap, color, gray, grayagain) && Pending(heap, color, gray, a) && Inside(heap, color, s)
      ensures Darkens(old(color), color) && forall r :: r in old(grayagain) ==> r in grayagain
      ensures Whites(color) < old(Whites(color)) || (Whites(color) == old(Whites(color)) && |gray| < old(|gray|))
    {
      hide Marks, Settled, Scanned, Whites, Tri, Pending, Ready, Inside, ValsIn;
      ghost var c, g, ag := color, gray, grayagain;
      TriReady(heap, c, g, ag);
      PopFacts(heap, c, g, ag);
      var o := gray[0];
      InsideMarked(heap, c, s, o);
      InsideColor(heap, c, s, o, Black);
      gray := gray[1..];
      if heap[o].Thread? {
        grayagain := [o] + grayagain;
      } else {
        color := color[o := Black];
      }
      ghost var c1, g1 := color, gray;
      ReadyKeys(heap, c1, g1);
      InsideFields(heap, c1, s, o);
      MarkValues(Fields(heap, o), s);
      FieldsScanned(heap, color, o);
      PopKeepsTri(heap, c, g, ag, c1, grayagain, color, gray, a);
      PopProgress(heap, c, g, c1, color, gray);
    }

    method PropagateAll(ghost a: set<Ref>, ghost s: iset<Ref>)
      requires Tri(heap, color, gray, grayagain) && Pending(heap, color, gray, a) && Inside(heap, color, s)
      modifies this`color, this`gray, this`grayagain
      ensures Tri(heap, color, gray, grayagain) && Pending(heap, color, gray, a) && gray == [] && Inside(heap, color, s)
      ensures Darkens(old(color), color) && forall r :: r in old(grayagain) ==> r in grayagain
    {
      hide Tri, Pending, Whites, Inside;
      while gray != []
        invariant Tri(heap, color, gray, grayagain) && Pending(heap, color, gray, a) && Inside(heap, color, s)
        invariant Darkens(old(color), color) && forall r :: r in old(grayagain) ==> r in grayagain
        decreases Whites(color), |gray|
      {
        PropagateMark(a, s);
      }
    }

    /** Marks values inside the propagation phase. */
    method MarkRoots(vals: seq<Val>, ghost a: set<Ref>, ghost s: iset<Ref>)
      requires Tri(heap, color, gray, grayagain) && Pending(heap, color, gray, a) && Inside(heap, color, s)
      requires ValsIn(vals, s)
      requires forall i :: 0 <= i < |vals| && vals[i].To? ==> vals[i].ref in heap
      modifies this`color, this`gray
      ensures Tri(heap, color, gray, grayagain) && Pending(heap, color, gray, a) && Darkens(old(color), color)
      ensures Inside(heap, color, s)
      ensures forall i :: 0 <= i < |vals| ==> Marked(color, vals[i])
    {
      hide Tri, Pending, Marks, Ready, Inside, ValsIn;
      ghost var c, g := color, gray;
      TriReady(heap, c, g, grayagain);
      MarkValues(vals, s);
      MarksKeepTri(heap, c, g, grayagain, color, gray, a);
      MarksDarken(heap, c, g, color, gray);
    }

    /** Remarks the values of the marked open upvalues, which may live in dead threads. */
    method RemarkUpvals(ghost s: iset<Ref>)
      requires Tri(heap, color, gray, grayagain) && OpenOk(heap, uvhead) && Inside(heap, color, s)
      modifies this`color, this`gray
      ensures Tri(heap, color, gray, grayagain) && Pending(heap, color, gray, set r | r in grayagain)
      ensures Inside(heap, color, s)
      ensures Darkens(old(color), color)
    {
      hide Tri, Pending, Marks, Ready, Scanned, Inside, ValsIn;
      ghost var ag := set r | r in grayagain;
      PendingUpvals(heap, color, gray, grayagain, uvhead);
      var rest := uvhead;
      while rest != {}
        invariant rest <= uvhead && Tri(heap, color, gray, grayagain) && Pending(heap, color, gray, rest + ag)
        invariant Darkens(old(color), color) && Inside(heap, color, s)
        decreases rest
      {
        var uv :| uv in rest;
        TriReady(heap, color, gray, grayagain);
        ReadyKeys(heap, color, gray);
        if color[uv] == Gray {
          InsideMarked(heap, color, s, uv);
          InsideFields(heap, color, s, uv);
          MarkRoots(Fields(heap, uv), rest + ag, s);
          FieldsScanned(heap, color, uv);
        }
        assert IsWhite(color[uv]) || Scanned(heap, color, uv) by { NotBlackScanned(heap, color, gray, grayagain, uv); }
        PendingLess(heap, color, gray, rest + ag, uv, (rest - {uv}) + ag);
        rest := rest - {uv};
      }
      assert rest + ag == ag;
    }

    // -------------------------------------------------------------- phases

    /** Marks the main thread, its globals, the registry and the basic metatables. */
    method MarkRootSet(ghost s: iset<Ref>)
      requires Tri(heap, color, gray, grayagain) && Pending(heap, color, gray, {})
      requires Inside(heap, color, s) && mainthread in s && ValsIn([registry], s) && ValsIn(mt, s)
      requires mainthread in heap && heap[mainthread].Thread? && (registry.To? ==> registry.ref in heap)
      requires forall i :: 0 <= i < |mt| && mt[i].To? ==> mt[i].ref in heap
      modifies this`color, this`gray
      ensures Tri(heap, color, gray, grayagain) && Darkens(old(color), color) && Inside(heap, color, s)
      ensures Marked(color, To(mainthread)) && Marked(color, registry)
    {
      hide Tri, Pending, Darkens, Marked, Ready, Inside, ValsIn;
      InsideFields(heap, color, s, mainthread);
      ThreadFieldsIn(heap, mainthread, s);
      OneIn(mainthread, s);
      MarkRoots([To(mainthread)], {}, s);
      ghost var c1 := color;
      assert Marked(c1, [To(mainthread)][0]);
      TriReady(heap, color, gray, grayagain);
      ReadyKeys(heap, color, gray);
      var globals := heap[mainthread].fields;
      assert forall i :: 0 <= i < |globals| ==> Fields(heap, mainthread)[i] == globals[i];
      MarkRoots(globals, {}, s);
      ghost var c2 := color;
      MarkRoots([registry], {}, s);
      ghost var c3 := color;
      assert Marked(c3, [registry][0]);
      MarkRoots(mt, {}, s);
      DarkensTrans(old(color), c1, c2);
      DarkensTrans(old(color), c2, c3);
      DarkensTrans(old(color), c3, color);
      MarkedStays(c1, c2, To(mainthread));
      MarkedStays(c2, c3, To(mainthread));
      MarkedStays(c3, color, To(mainthread));
      MarkedStays(c3, color, registry);
    }

    /** Starts a cycle: marks the root set. */
    method MarkRoot()
      requires Lists(St()) && Safe(St()) && AllWhite(St())
      modifies this`color, this`gray, this`grayagain, this`phase
      ensures Valid() && phase == Propagate && Precise(St())
    {
      hide Lists, Safe, Tri, Pending, Inv, AllWhite, NoDead, Darkens;
      hide Marked, Roots, Inside, ValsIn, Precise, ReachSet, SameGraph;
      ghost var s := St();
      ghost var reach := ReachSet(s);
      StartInside(s);
      AllWhiteStart(s);
      RootVals(s, [registry]);
      assert registry.To? ==> [registry][0].ref in heap;
      RootVals(s, mt);
      gray, grayagain := [], [];
      MarkRootSet(reach);
      phase := Propagate;
      TriInv(s, St());
      MarkingSame(s, St());
      InsidePrecise(s, St());
    }

    /** The marking of the atomic step: afterwards everything marked has marked children. */
    method AtomicMark(ghost s: iset<Ref>)
      requires Tri(heap, color, gray, grayagain) && OpenOk(heap, uvhead) && running in heap
      requires Inside(heap, color, s) && ValsIn([To(running)], s) && ValsIn(mt, s)
      requires forall i :: 0 <= i < |mt| && mt[i].To? ==> mt[i].ref in heap
      modifies this`color, this`gray, this`grayagain
      ensures Tri(heap, color, gray, grayagain) && Pending(heap, color, [], {}) && Darkens(old(color), color)
      ensures Inside(heap, color, s)
      ensures Marked(color, To(running)) && forall i :: 0 <= i < |mt| ==> Marked(color, mt[i])
    {
      hide Tri, Pending, OpenOk, Darkens, Marked, Inside, ValsIn;
      ghost var a := set r | r in grayagain;
      RemarkUpvals(s);
      ghost var c1 := color;
      PropagateAll(a, s);
      DarkensTrans(old(color), c1, color);
      ghost var c2 := color;
      MarkRoots([To(running)], a, s);
      DarkensTrans(old(color), c2, color);
      ghost var c3 := color;
      assert Marked(c3, [To(running)][0]);
      MarkRoots(mt, a, s);
      DarkensTrans(old(color), c3, color);
      ghost var c4 := color;
      MarkedStays(c3, c4, To(running));
      PropagateAll(a, s);
      ghost var c5 := color;
      SwapLists(heap, color, grayagain, a);
      gray, grayagain := grayagain, [];
      PropagateAll({}, s);
      DarkensTrans(c4, c5, color);
      DarkensTrans(old(color), c4, color);
      forall i | 0 <= i < |mt| ensures Marked(color, mt[i]) { MarkedStays(c4, color, mt[i]); }
      MarkedStays(c4, color, To(running));
    }

    /** Finishes the mark phase without interruption and turns to the sweep. */
    method Atomic()
      requires Valid() && phase == Propagate && gray == []
      modifies this`color, this`gray, this`grayagain, this`phase, this`white, this`sweepStr, this`sweepPos
      ensures Valid() && phase == SweepString && (Precise(old(St())) ==> Tight(St()))
    {
      hide Inv, Tri, Pending, OpenOk, Darkens, Marked, Inside, ValsIn, Precise, Tight, MarkSet;
      ghost var s := St();
      AtomicReady(s);
      AtomicMark(MarkSet(s));
      ghost var m := St();
      white := OtherWhite(white);
      sweepStr, sweepPos := 0, 0;
      phase := SweepString;
      AtomicOutcome(s, m, St());
    }

    // -------------------------------------------------------------- sweeping

    /** Dead: the colour the atomic step left behind, and not fixed. */
    predicate IsDead(r: Ref)
      reads this
      requires r in color
    {
      color[r] == OtherWhite(white) && r !in fixed
    }

    method Whiten(r: Ref)
      requires Valid() && Sweeping(St()) && r in heap && r in color && !IsDead(r)
      modifies this`color
      ensures Valid() && Survives(old(St()), St()) && color == old(color)[r := white]
    {
      hide Inv, Survives;
      WhitenInv(St(), r);
      color := color[r := white];
    }

    method FreeStr(b: nat, r: Ref)
      requires Valid() && Sweeping(St()) && b < |strt| && r in strt[b] && r in color && IsDead(r)
      modifies this`heap, this`color, this`strt
      ensures Valid() && Survives(old(St()), St()) && St() == FreeString(old(St()), b, r)
    {
      hide Inv, Survives, Without;
      FreeStringInv(St(), b, r);
      heap, color := heap - {r}, color - {r};
      strt := strt[b := Without(strt[b], r)];
    }

    method FreeOpen(u: Ref)
      requires Valid() && Sweeping(St()) && u in heap && u in color && IsDead(u)
      requires heap[u].Open? && heap[u].thread in heap && heap[heap[u].thread].Thread?
      modifies this`heap, this`color, this`uvhead
      ensures Valid() && Survives(old(St()), St()) && St() == FreeUpval(old(St()), u) && heap.Keys <= old(heap).Keys
    {
      hide Inv, Survives, UnlinkUpval;
      UnlinkKeys(heap, u);
      FreeUpvalInv(St(), u);
      heap, color, uvhead := UnlinkUpval(heap, u), color - {u}, uvhead - {u};
    }

    method FreeObject(r: Ref)
      requires Valid() && Sweeping(St()) && r in heap && InRootList(heap[r]) && r in color && IsDead(r)
      requires heap[r].Thread? ==> heap[r].open == []
      modifies this`heap, this`color, this`rootgc
      ensures Valid() && Survives(old(St()), St()) && St() == FreeRoot(old(St()), r)
    {
      hide Inv, Survives, Without;
      FreeRootInv(St(), r);
      heap, color, rootgc := heap - {r}, color - {r}, Without(rootgc, r);
    }

    /** Frees the dead strings of one bucket and whitens the others. */
    method SweepBucket()
      requires Valid() && phase == SweepString
      modifies this`heap, this`color, this`strt, this`sweepStr, this`phase
      ensures Valid() && Survives(old(St()), St()) && (phase == SweepString || phase == Sweep)
      ensures phase == SweepString ==> old(sweepStr) < sweepStr < |strt| == |old(strt)|
    {
      hide Inv, Survives, Without;
      SweepStrBound(St());
      var list, b := strt[sweepStr], sweepStr;
      SurvivesRefl(St());
      for k := 0 to |list|
        invariant Valid() && Survives(old(St()), St()) && phase == SweepString && sweepStr == b < |strt| == |old(strt)|
        invariant forall r :: r in strt[b] ==> r in list
        invariant forall i :: 0 <= i < k && list[i] in strt[b] ==> list[i] in color && color[list[i]] == white
      {
        var r := list[k];
        if r in strt[b] {
          ghost var s := St();
          BucketColor(s, b, r);
          if IsDead(r) {
            WithoutMembers(strt[b], r);
            FreeStr(b, r);
          } else {
            Whiten(r);
          }
          SurvivesTrans(old(St()), s, St());
        }
      }
      assert WhiteList(St(), strt[b]);
      NextBucketInv(St());
      ghost var s := St();
      sweepStr := sweepStr + 1;
      if sweepStr >= |strt| {
        phase := Sweep;
      }
      SurvivesProgress(s, St());
      SurvivesTrans(old(St()), s, St());
    }

    /** Marks values in the propagation phase, as the forward barrier does. */
    method MarkNow(vals: seq<Val>)
      requires Valid() && phase == Propagate
      requires forall i :: 0 <= i < |vals| && vals[i].To? ==> vals[i].ref in heap
      modifies this`color, this`gray
      ensures Valid() && Survives(old(St()), St()) && Darkens(old(color), color)
      ensures forall i :: 0 <= i < |vals| ==> Marked(color, vals[i])
    {
      hide Inv, Lists, Safe, TriColor, Tri, Pending, NoDead;
      hide Marked, Survives, Darkens, Roots, Inside, ValsIn, Everything;
      ghost var s := St();
      BarrierReady(s);
      InsideAll(heap, color, vals);
      MarkRoots(vals, heap.Keys, Everything());
      BarrierDone(s, St());
    }

    /** Marks the value of a marked open upvalue that is about to be closed in the propagation phase. */
    method BarrierUpval(u: Ref)
      requires Valid() && u in heap && heap[u].Open? && u in color && !IsDead(u)
      modifies this`color, this`gray
      ensures Valid() && Survives(old(St()), St()) && u in color && Alive(St(), u)
      ensures phase == Propagate && color[u] == Gray ==> Scanned(heap, color, u)
      ensures phase != Propagate ==> color == old(color)
    {
      hide Inv, Survives, Darkens, Alive, Fields, Scanned, Marked;
      ghost var s := St();
      NotDeadAlive(s, u);
      SurvivesRefl(s);
      if phase == Propagate && color[u] == Gray {
        HeapVals(s, u);
        MarkNow(Fields(heap, u));
        FieldsScanned(heap, color, u);
        StillAlive(s, St(), u);
      }
    }

    /** Moves the value into the upvalue and links the upvalue into the object list. */
    method CloseLive(u: Ref)
      requires Valid() && u in heap && heap[u].Open? && heap[u].thread in heap && heap[heap[u].thread].Thread?
      requires u in color && Alive(St(), u) && (phase == Propagate && color[u] == Gray ==> Scanned(heap, color, u))
      modifies this`heap, this`color, this`uvhead, this`rootgc, this`sweepPos
      ensures Valid() && Survives(old(St()), St()) && St() == CloseUpval(old(St()), u, ClosedColor(old(St()), u))
      ensures heap.Keys == old(heap).Keys
    {
      hide Inv, Survives, Alive, UnlinkUpval, InsertAt, Scanned;
      UnlinkKeys(heap, u);
      CloseInv(St(), u);
      color := color[u := if color[u] != Gray then color[u] else if phase == Propagate then Black else white];
      heap, uvhead, rootgc, sweepPos := CloseHeap(heap, u), uvhead - {u}, InsertAt(rootgc, 0, u), Shift(sweepPos, 0);
    }

    /** Closes one open upvalue, or frees it if it is dead. */
    method CloseOne(u: Ref)
      requires Valid() && u in heap && heap[u].Open? && heap[u].thread in heap && heap[heap[u].thread].Thread?
      modifies this`heap, this`color, this`uvhead, this`rootgc, this`sweepPos, this`gray
      ensures Valid() && Survives(old(St()), St()) && heap.Keys <= old(heap).Keys
      ensures var t := old(heap)[u].thread; var o := old(heap)[t];
              && t in heap && heap[t] == o.(open := Without(o.open, u))
              && (Sweeping(St()) ==> t in color && t in old(color) && color[t] == old(color)[t])
    {
      hide Inv, Lists, Survives, Alive, Fields, UnlinkUpval, CloseHeap, InsertAt, Scanned, Without;
      ghost var s := St();
      CloseThread(s, u);
      if IsDead(u) {
        DeadSweeping(s, u);
        FreeOpen(u);
      } else {
        BarrierUpval(u);
        ghost var m := St();
        CloseLive(u);
        SurvivesTrans(s, m, St());
      }
    }

    function HeadSlot(t: Ref): nat
      reads this
      requires t in heap && heap[t].Thread? && heap[t].open != []
    {
      var u := heap[t].open[0];
      if u in heap && heap[u].Open? then heap[u].slot else 0
    }

    /** Closes the open upvalues of a thread at or above a stack level: the value moves into the upvalue,
        which is linked into the object list. */
    method CloseUpvals(t: Ref, level: nat)
      requires Valid() && t in heap && heap[t].Thread?
      modifies this`heap, this`color, this`uvhead, this`rootgc, this`sweepPos, this`gray
      ensures Valid() && Survives(old(St()), St()) && heap.Keys <= old(heap).Keys
      ensures t in heap && heap[t].Thread? && t in color
      ensures Sweeping(St()) ==> t in old(color) && color[t] == old(color)[t]
      ensures heap[t].stack == old(heap)[t].stack && heap[t].fields == old(heap)[t].fields
      ensures forall u :: u in heap[t].open ==> u in heap && heap[u].Open? && heap[u].slot < level
      ensures level == 0 ==> heap[t].open == []
    {
      hide Inv, Survives, Without;
      SurvivesRefl(St());
      InvKeys(St());
      while heap[t].open != [] && HeadSlot(t) >= level
        invariant Valid() && Survives(old(St()), St()) && heap.Keys <= old(heap).Keys
        invariant t in heap && heap[t].Thread? && color.Keys == heap.Keys
        invariant Sweeping(St()) ==> t in old(color) && color[t] == old(color)[t]
        invariant heap[t].stack == old(heap)[t].stack && heap[t].fields == old(heap)[t].fields
        decreases |heap[t].open|
      {
        var u := heap[t].open[0];
        ghost var s := St();
        OpenEntry(s, t, u);
        WithoutHead(heap[t].open);
        CloseOne(u);
        SurvivesTrans(old(St()), s, St());
        InvKeys(St());
      }
      HeadBound(St(), t, level);
    }

    /** Frees the dead open upvalues of a thread and whitens the others. */
    method SweepOpen(t: Ref)
      requires Valid() && Sweeping(St()) && t in heap && heap[t].Thread?
      modifies this`heap, this`color, this`uvhead
      ensures Valid() && Survives(old(St()), St()) && heap.Keys <= old(heap).Keys
      ensures t in heap && heap[t].Thread? && t in color && t in old(color) && color[t] == old(color)[t]
      ensures WhiteList(St(), heap[t].open)
    {
      hide Inv, Survives, Without, UnlinkUpval, WhiteList;
      var list := heap[t].open;
      SurvivesRefl(St());
      InvKeys(St());
      for k := 0 to |list|
        invariant Valid() && Survives(old(St()), St()) && Sweeping(St()) && heap.Keys <= old(heap).Keys
        invariant t in heap && heap[t].Thread? && t in color && t in old(color) && color[t] == old(color)[t]
        invariant forall u :: u in heap[t].open ==> u in list
        invariant forall i :: 0 <= i < k && list[i] in heap[t].open ==> list[i] in color && color[list[i]] == white
      {
        var u := list[k];
        if u in heap[t].open {
          ghost var s := St();
          OpenEntry(s, t, u);
          InvKeys(s);
          if IsDead(u) {
            CloseThread(s, u);
            WithoutMembers(heap[t].open, u);
            FreeOpen(u);
          } else {
            Whiten(u);
          }
          SurvivesTrans(old(St()), s, St());
        }
      }
      assert WhiteList(St(), heap[t].open) by { WhiteListIs(St(), heap[t].open); }
    }

    /** One object of the list: its open upvalues first if it is a thread, then the object itself. */
    method SweepObject()
      requires Valid() && phase == Sweep && sweepPos < |rootgc|
      modifies this`heap, this`color, this`uvhead, this`rootgc, this`sweepPos, this`gray
      ensures Valid() && Survives(old(St()), St()) && Swept(old(St()), St())
    {
      hide Inv, Survives, Without, WhiteList, Swept;
      var curr := rootgc[sweepPos];
      SurvivesRefl(St());
      RootColor(St(), curr);
      if heap[curr].Thread? {
        SweepOpen(curr);
      }
      ghost var s := St();
      if !IsDead(curr) {
        PassObject(curr);
        SweptAdvance(old(St()), s, St());
      } else {
        DropObject(curr);
        SweptFree(old(St()), s, St(), curr);
      }
      SurvivesTrans(old(St()), s, St());
    }

    /** A live object turns white and the sweep moves on. */
    method PassObject(r: Ref)
      requires Valid() && phase == Sweep && sweepPos < |rootgc| && r == rootgc[sweepPos] && r in heap && r in color
      requires !IsDead(r) && (heap[r].Thread? ==> WhiteList(St(), heap[r].open))
      modifies this`color, this`sweepPos
      ensures Valid() && Survives(old(St()), St()) && sweepPos == old(sweepPos) + 1
    {
      hide Inv, Survives, WhiteList;
      ghost var s := St();
      Whiten(r);
      assert WhiteList(St(), [r]) by { WhiteListIs(St(), [r]); }
      ghost var m := St();
      if heap[r].Thread? { WhitenList(s, m, heap[r].open, r); }
      AdvanceInv(m);
      sweepPos := sweepPos + 1;
      SurvivesProgress(m, St());
      SurvivesTrans(s, m, St());
    }

    /** A dead object goes, after the upvalues that a thread still has open are closed. */
    method DropObject(r: Ref)
      requires Valid() && phase == Sweep && r in heap && InRootList(heap[r]) && r in color && IsDead(r)
      modifies this`heap, this`color, this`uvhead, this`rootgc, this`sweepPos, this`gray
      ensures Valid() && Survives(old(St()), St()) && heap.Keys <= old(heap).Keys && r !in heap
    {
      hide Inv, Survives, Without;
      ghost var s := St();
      SurvivesRefl(s);
      if heap[r].Thread? {
        CloseUpvals(r, 0);
      }
      ghost var m := St();
      FreeObject(r);
      SurvivesTrans(s, m, St());
    }

    const SWEEP_MAX := 40

    /** Sweeps up to forty objects; at the end of the list every object is current white. */
    method SweepSome()
      requires Valid() && phase == Sweep
      modifies this`heap, this`color, this`uvhead, this`rootgc, this`sweepPos, this`gray, this`phase
      ensures Valid() && Survives(old(St()), St()) && (phase == Sweep || phase == Finalize)
      ensures phase == Sweep ==> Swept(old(St()), St())
    {
      hide Inv, Survives;
      SurvivesRefl(St());
      var count := 0;
      while count < SWEEP_MAX && sweepPos < |rootgc|
        invariant Valid() && Survives(old(St()), St()) && phase == Sweep
        invariant if count == 0 then St() == old(St()) else Swept(old(St()), St())
      {
        ghost var s := St();
        SweepObject();
        SurvivesTrans(old(St()), s, St());
        count := count + 1;
      }
      if sweepPos >= |rootgc| {
        ghost var s := St();
        SweepPosBound(s);
        SweepDone(s);
        phase := Finalize;
        QuietInv(s, St());
        SurvivesProgress(s, St());
        SurvivesTrans(old(St()), s, St());
      }
    }

    /** One step of the collector, from any phase.  No object reachable before the step is freed by it,
        or changed in what it refers to. */
    method SingleStep()
      requires Valid()
      modifies this
      ensures Valid()
      ensures Kept(old(St()), St())
      ensures Sweeping(old(St())) ==> Survives(old(St()), St())
      ensures Exact(old(St())) ==> Exact(St())
      ensures old(phase) == Pause || Progress(old(St()), St())
      ensures if old(phase) == Finalize then St() == old(St()).(phase := Pause) else phase != Pause
    {
      hide Inv, Survives, Lists, Safe, Kept, Precise, Tight, Whites;
      ghost var s := St();
      match phase {
        case Pause =>
          PauseParts(s);
          MarkRoot();
          KeptSame(s, St());
        case Propagate =>
          if gray != [] {
            PropagateOne();
          } else {
            Atomic();
          }
          KeptSame(s, St());
        case SweepString =>
          SweepBucket();
          KeptSurvives(s, St());
          TightStays(s, St());
        case Sweep =>
          SweepSome();
          KeptSurvives(s, St());
          TightStays(s, St());
        case Finalize =>
          phase := Pause;
          FinalizeWhite(s);
          QuietInv(s, St());
          KeptSame(s, St());
      }
    }

    /** Restarts the sweep from the beginning so as to return every object to white: the start of a full
        collection that finds the collector pausing or propagating. */
    method FullCollectionReset()
      requires Valid() && (phase == Pause || phase == Propagate)
      modifies this
      ensures Valid() && phase == SweepString && Kept(old(St()), St())
    {
      hide Inv, Kept;
      ghost var s := St();
      sweepStr, sweepPos := 0, 0;
      gray, grayagain := [], [];
      phase := SweepString;
      RestartInv(s, St());
      KeptSame(s, St());
    }

    /** Finishes a sweep that is under way. */
    method FinishSweep()
      requires Valid() && (phase == SweepString || phase == Sweep || phase == Finalize)
      modifies this
      ensures Valid() && phase == Finalize && Kept(old(St()), St())
    {
      hide Inv, Kept, Exact, Work, Steps, Survives;
      KeptSame(St(), St());
      while phase != Finalize
        invariant Valid() && Kept(old(St()), St()) && (phase == SweepString || phase == Sweep || phase == Finalize)
        decreases Rank(phase), Work(St()), Steps(St())
      {
        ghost var s := St();
        SingleStep();
        KeptTrans(old(St()), s, St());
      }
    }

    /** Runs a cycle to its end: every step makes progress, and at the end there is no garbage. */
    method FinishCycle()
      requires Valid() && phase != Pause && Exact(St())
      modifies this
      ensures Valid() && phase == Pause && Kept(old(St()), St()) && NoGarbage(St())
    {
      hide Inv, Kept, Exact, Work, Steps, Survives, NoGarbage;
      KeptSame(St(), St());
      while phase != Pause
        invariant Valid() && Kept(old(St()), St()) && Exact(St()) && (phase == Pause ==> NoGarbage(St()))
        decreases Rank(phase), Work(St()), Steps(St())
      {
        ghost var s := St();
        SingleStep();
        KeptTrans(old(St()), s, St());
        if s.phase == Finalize { CleanEnd(s, St()); }
      }
    }

    /** A full collection: whatever phase it finds, it ends, and leaves the objects that were reachable at
        its start and no others. */
    method FullGc()
      requires Valid()
      modifies this
      ensures Valid() && phase == Pause && Kept(old(St()), St())
      ensures forall r :: r in heap <==> Reach(old(St()), r)
    {
      hide Inv, Kept, Exact, Reach, NoGarbage, Lists, Safe, AllWhite, Precise;
      ghost var s := St();
      KeptSame(s, s);
      if phase == Pause || phase == Propagate {
        FullCollectionReset();
      }
      ghost var m := St();
      FinishSweep();
      KeptTrans(s, m, St());
      m := St();
      FinalizeParts(m);
      MarkRoot();
      KeptSame(m, St());
      KeptTrans(s, m, St());
      PreciseExact(St());
      m := St();
      FinishCycle();
      KeptTrans(s, m, St());
      OnlyReachable(s, St());
    }

    method PropagateOne()
      requires Valid() && phase == Propagate && gray != []
      modifies this`color, this`gray, this`grayagain
      ensures Valid() && (Precise(old(St())) ==> Precise(St()))
      ensures Whites(color) < old(Whites(color)) || (Whites(color) == old(Whites(color)) && |gray| < old(|gray|))
    {
      hide Inv, Tri, Pending, Darkens, Inside, Precise, MarkSet;
      ghost var s := St();
      PropagateReady(s);
      PropagateMark(heap.Keys, MarkSet(s));
      PropagateOutcome(s, St());
    }

    // -------------------------------------------------------------- the program's steps

    /** What the program can name: the reachable objects. */
    ghost predicate Holds(v: Val)
      reads this
    {
      v.To? ==> Reach(St(), v.ref)
    }

    /** Overwrites the stack and globals of a thread, without a barrier; slots with open upvalues stay. */
    method WriteStack(t: Ref, fields: seq<Val>, stack: seq<Val>)
      requires Valid() && t in heap && heap[t].Thread?
      requires forall i :: 0 <= i < |fields| ==> Holds(fields[i])
      requires forall i :: 0 <= i < |stack| ==> Holds(stack[i])
      requires forall u :: u in heap[t].open && u in heap && heap[u].Open? ==> heap[u].slot < |stack|
      modifies this`heap
      ensures Valid() && heap == old(heap)[t := Thread(fields, stack, old(heap)[t].open)]
    {
      hide Inv, Reach;
      HeldLive(St(), fields);
      HeldLive(St(), stack);
      StackInv(St(), t, fields, stack);
      heap := heap[t := Thread(fields, stack, heap[t].open)];
    }

    /** Stores v into a table, closure, userdata, prototype or closed upvalue, with the write barrier. */
    method Store(o: Ref, fields: seq<Val>, v: Val)
      requires Valid() && Reach(St(), o) && o in heap && HasFields(heap[o]) && Holds(v)
      requires forall i :: 0 <= i < |fields| ==> fields[i] == v || fields[i] in Fields(heap, o)
      modifies this`heap, this`color, this`gray, this`grayagain
      ensures Valid() && heap == old(heap)[o := WithFields(old(heap)[o], fields)]
    {
      hide Inv, Survives, Reach, Alive, Barriered, Marked, LiveVal;
      ghost var s := St();
      StoreLive(s, o, fields, v);
      if v.To? && IsWhite(color[v.ref]) && color[o] == Black {
        if heap[o].Table? {
          BackBarrier(s, o, fields);
          StoreInv(s, o, fields, Gray, [o] + grayagain);
          color, grayagain := color[o := Gray], [o] + grayagain;
        } else if phase == Propagate {
          MarkNow([v]);
          assert Marked(color, [v][0]);
          ghost var m := St();
          ForwardBarrier(s, m, o, fields, v);
          StoreInv(m, o, fields, m.color[o], grayagain);
          assert color[o := m.color[o]] == color;
        } else {
          WhiteBarrier(s, o, fields);
          StoreInv(s, o, fields, white, grayagain);
          color := color[o := white];
        }
      } else {
        NoBarrier(s, o, fields, v);
        StoreInv(s, o, fields, color[o], grayagain);
        assert color[o := color[o]] == color;
      }
      heap := heap[o := WithFields(heap[o], fields)];
    }

    /** Pushes a value the program holds onto the running thread's stack. */
    method Push(v: Val)
      requires Valid() && running in heap && heap[running].Thread? && (v.To? ==> Alive(St(), v.ref))
      modifies this`heap
      ensures Valid() && heap == Pushed(old(heap), running, v)
    {
      hide Inv, LiveVals;
      var o := heap[running];
      PushLive(St(), v);
      StackInv(St(), running, o.fields, o.stack + [v]);
      heap := heap[running := Thread(o.fields, o.stack + [v], o.open)];
    }

    /** Creates an object: white, linked at the head of the object list (userdata after the main thread),
        and left on the running thread's stack. */
    method NewObject(r: Ref, o: Obj)
      requires Valid() && r !in heap && InRootList(o) && (o.Thread? ==> o.open == [])
      requires forall i :: 0 <= i < |Fields(map[r := o], r)| ==> Holds(Fields(map[r := o], r)[i])
      modifies this`heap, this`color, this`rootgc, this`sweepPos
      ensures Valid() && r in heap && heap[r] == o && Reach(St(), r)
      ensures running in old(heap) && old(heap)[running].Thread? && heap == Pushed(old(heap)[r := o], running, To(r))
    {
      hide Inv, Reach, InsertAt, Fields, LiveVals;
      RunningThread(St());
      HeldLive(St(), Fields(map[r := o], r));
      LinkPlaces(St());
      var at := if o.Udata? then IndexOf(rootgc, mainthread) + 1 else 0;
      AddInv(St(), r, o, at);
      heap, color, rootgc, sweepPos := heap[r := o], color[r := white], InsertAt(rootgc, at, r), Shift(sweepPos, at);
      Push(To(r));
      TopReachable(St(), r);
    }

    /** Interns a string that is not in the table. */
    method NewString(b: nat, r: Ref)
      requires Valid() && r !in heap && b < |strt|
      modifies this`heap, this`color, this`strt
      ensures Valid() && r in heap && heap[r] == Str && Reach(St(), r)
      ensures running in old(heap) && old(heap)[running].Thread? && heap == Pushed(old(heap)[r := Str], running, To(r))
    {
      hide Inv, Reach;
      AddStringInv(St(), b, r);
      RunningThread(St());
      heap, color, strt := heap[r := Str], color[r := white], strt[b := [r] + strt[b]];
      Push(To(r));
      TopReachable(St(), r);
    }

    /** Interns a string that is in the table, perhaps dead and not yet swept: it is made white again. */
    method FindString(b: nat, r: Ref)
      requires Valid() && b < |strt| && r in strt[b]
      modifies this`heap, this`color
      ensures Valid() && r in heap && heap[r] == Str && Reach(St(), r)
      ensures running in old(heap) && old(heap)[running].Thread? && heap == Pushed(old(heap), running, To(r))
    {
      hide Inv, Reach;
      BucketColor(St(), b, r);
      StrVals(St(), b, r);
      if color[r] == OtherWhite(white) {
        ResurrectInv(St(), r);
        color := color[r := white];
      }
      RunningThread(St());
      Push(To(r));
      TopReachable(St(), r);
    }

    method SetRunning(t: Ref)
      requires Valid() && Reach(St(), t) && t in heap && heap[t].Thread?
      modifies this`running
      ensures Valid() && running == t
    {
      hide Inv, Reach;
      ghost var s := St();
      ReachAlive(s, t);
      RootLive(s);
      running := t;
      RootsInv(s, St());
    }

    /** Sets a basic metatable; the atomic step marks it again, so there is no barrier. */
    method SetMetatable(i: nat, v: Val)
      requires Valid() && i < |mt| && Holds(v)
      modifies this`mt
      ensures Valid() && mt == old(mt)[i := v]
    {
      hide Inv, Reach;
      ghost var s := St();
      if v.To? { ReachAlive(s, v.ref); }
      RootLive(s);
      mt := mt[i := v];
      RootsInv(s, St());
    }

    /** Installs the registry, as the opening of a state does while the collector pauses.  It has no barrier, so the
        propagation phase, which has marked the old one, is excluded. */
    method SetRegistry(v: Val)
      requires Valid() && phase != Propagate && Holds(v)
      modifies this`registry
      ensures Valid() && registry == v
    {
      hide Inv, Reach;
      ghost var s := St();
      if v.To? { ReachAlive(s, v.ref); }
      registry := v;
      RegistryInv(s, St());
    }

    method FixString(r: Ref)
      requires Valid() && Reach(St(), r) && r in heap && heap[r].Str?
      modifies this`fixed
      ensures Valid() && fixed == old(fixed) + {r}
    {
      hide Inv, Reach;
      ghost var s := St();
      ReachAlive(s, r);
      RootLive(s);
      fixed := fixed + {r};
      RootsInv(s, St());
    }

    /** Assigns through an upvalue.  An open one writes the stack slot it stands for, of a thread that may
        itself be unreachable. */
    method SetUpval(u: Ref, v: Val)
      requires Valid() && Reach(St(), u) && u in heap && (heap[u].Open? || heap[u].Closed?) && Holds(v)
      modifies this`heap, this`color, this`gray, this`grayagain
      ensures Valid() && u in heap && (old(heap)[u].Open? ==> heap[u] == old(heap)[u]) && Fields(heap, u) == [v]
      ensures old(heap)[u].Closed? ==> heap == old(heap)[u := Closed([v])]
      ensures old(heap)[u].Open? ==> var t, i := old(heap)[u].thread, old(heap)[u].slot;
        && t in old(heap) && old(heap)[t].Thread? && i < |old(heap)[t].stack|
        && heap == old(heap)[t := old(heap)[t].(stack := old(heap)[t].stack[i := v])]
    {
      hide Inv, Reach, LiveVals;
      if heap[u].Closed? {
        Store(u, [v], v);
      } else {
        UpvalWrite(St(), u, v);
        UpvalWriteOpens(St(), u, v);
        var t, i := heap[u].thread, heap[u].slot;
        var o := heap[t];
        StackInv(St(), t, o.fields, o.stack[i := v]);
        heap := heap[t := Thread(o.fields, o.stack[i := v], o.open)];
      }
    }

    /** The position in the running thread's list of open upvalues where slot i is or belongs. */
    method FindPlace(i: nat) returns (j: nat)
      requires Valid() && running in heap && heap[running].Thread?
      ensures j <= |heap[running].open|
      ensures forall k :: 0 <= k < |heap[running].open| ==>
        heap[running].open[k] in heap && heap[heap[running].open[k]].Open?
      ensures forall k :: 0 <= k < j ==> heap[heap[running].open[k]].slot > i
      ensures j < |heap[running].open| ==>
        heap[heap[running].open[j]].slot <= i && heap[heap[running].open[j]].thread == running
    {
      hide Inv;
      j := 0;
      OpenBounds(St(), running);
      while j < |heap[running].open| && heap[heap[running].open[j]].slot > i
        invariant j <= |heap[running].open| && forall k :: 0 <= k < j ==> heap[heap[running].open[k]].slot > i
      {
        j := j + 1;
      }
    }

    /** The open upvalue of stack slot i of the running thread: the one there is, revived if it is dead, or
        a new one. */
    method FindUpval(i: nat, r: Ref) returns (u: Ref)
      requires Valid() && running in heap && heap[running].Thread? && i < |heap[running].stack| && r !in heap
      modifies this`heap, this`color, this`uvhead
      ensures Valid() && u in heap && heap[u] == Open(running, i) && Alive(St(), u)
      ensures forall x :: Alive(old(St()), x) ==> Alive(St(), x)
      ensures forall x :: x in old(heap) && x != running ==> x in heap && heap[x] == old(heap)[x]
      ensures running in heap && heap[running] == old(heap)[running].(open := heap[running].open)
      ensures forall x :: x in old(color) && x in old(heap) && old(heap)[x].Func? ==>
        x in color && color[x] == old(color)[x]
    {
      hide Inv, InsertAt, LiveVals, FitsAt, OpenHeap, Fields, Alive;
      ghost var s := St();
      var j := FindPlace(i);
      var open := heap[running].open;
      RootLive(s);
      InvKeys(s);
      if j < |open| && heap[open[j]].slot == i {
        u := open[j];
        SlotLive(s, u);
        if color[u] == OtherWhite(white) {
          ResurrectInv(s, u);
          color := color[u := white];
        }
      } else {
        u := r;
        FitsHere(s, running, i, j);
        AddUpvalInv(s, r, running, i, j);
        OpenHeapFrame(heap, r, running, i, j);
        heap, color, uvhead := OpenHeap(heap, r, running, i, j), color[r := white], uvhead + {r};
      }
    }

    /** Captures stack slot i of the running thread in the just created closure f.  The closure being new
        and white, the store needs no barrier. */
    method CaptureUpval(f: Ref, i: nat, r: Ref) returns (u: Ref)
      requires Valid() && Reach(St(), f) && f in heap && heap[f].Func? && f in color && IsWhite(color[f])
      requires running in heap && heap[running].Thread? && i < |heap[running].stack| && r !in heap
      modifies this`heap, this`color, this`uvhead
      ensures Valid() && u in heap && heap[u] == Open(running, i)
      ensures f in heap && heap[f] == Func(old(heap)[f].fields + [To(u)])
      ensures forall x :: x in old(heap) && x != running && x != f ==> x in heap && heap[x] == old(heap)[x]
      ensures running in heap && heap[running] == old(heap)[running].(open := heap[running].open)
    {
      hide Inv, Reach, LiveVals, Barriered, Alive;
      ReachAlive(St(), f);
      u := FindUpval(i, r);
      ghost var m := St();
      ClosureStore(m, f, u);
      StoreInv(m, f, heap[f].fields + [To(u)], color[f], grayagain);
      assert color[f := color[f]] == color;
      heap := heap[f := WithFields(heap[f], heap[f].fields + [To(u)])];
    }
  }

  /** The heap with a value pushed onto the stack of a thread. */
  function Pushed(h: Heap, t: Ref, v: Val): Heap
    requires t in h && h[t].Thread?
  {
    h[t := h[t].(stack := h[t].stack + [v])]
  }

  function IndexOf(s: seq<Ref>, r: Ref): (i: nat)
    requires r in s
    ensures i < |s| && s[i] == r
  {
    if s[0] == r then 0 else 1 + IndexOf(s[1..], r)
  }

  lemma LinkPlaces(s: State)
    requires Inv(s)
    ensures s.mainthread in s.rootgc
  {
    hide Safe, NeverBlack, PhaseOk, StringsOk, OpenOk;
  }

  lemma RunningThread(s: State)
    requires Inv(s)
    ensures s.running in s.heap && s.heap[s.running].Thread?
  {
    hide Safe, NeverBlack, PhaseOk, RootListOk, StringsOk, OpenOk;
  }

  lemma ReachAlive(s: State, r: Ref)
    requires Inv(s) && Reach(s, r)
    ensures Alive(s, r)
  {
    hide Lists, Safe, NeverBlack, PhaseOk;
    ReachableAlive(s, r);
  }

  lemma RootLive(s: State)
    requires Inv(s)
    ensures Alive(s, s.running) && s.heap[s.running].Thread? && LiveVals(s, s.mt)
    ensures forall r :: r in s.fixed ==> Alive(s, r) && s.heap[r].Str?
  {
    hide NeverBlack, PhaseOk, RootListOk, StringsOk, OpenOk;
    assert s.running in Roots(s);
    forall i | 0 <= i < |s.mt| ensures LiveVal(s, s.mt[i]) { if s.mt[i].To? { assert s.mt[i].ref in Roots(s); } }
    forall r | r in s.fixed ensures Alive(s, r) { assert r in Roots(s); }
  }

  lemma ThreadVals(s: State, t: Ref)
    requires Safe(s) && Alive(s, t) && s.heap[t].Thread?
    ensures LiveVals(s, s.heap[t].fields) && LiveVals(s, s.heap[t].stack)
  {
    SafeVals(s, t);
    var f, o := Fields(s.heap, t), s.heap[t];
    hide Safe, LiveVal;
    assert forall i :: 0 <= i < |o.fields| ==> f[i] == o.fields[i];
    assert forall i :: 0 <= i < |o.stack| ==> f[|o.fields| + i] == o.stack[i];
  }

  lemma UpvalVal(s: State, u: Ref)
    requires Safe(s) && OpenOk(s.heap, s.uvhead) && Alive(s, u) && s.heap[u].Open?
    ensures s.heap[u].thread in s.heap && s.heap[s.heap[u].thread].Thread?
    ensures s.heap[u].slot < |s.heap[s.heap[u].thread].stack|
    ensures LiveVal(s, s.heap[s.heap[u].thread].stack[s.heap[u].slot])
  {
    SafeVals(s, u);
    assert LiveVal(s, Fields(s.heap, u)[0]);
  }

  lemma OpenSlots(s: State, t: Ref)
    requires Inv(s) && t in s.heap && s.heap[t].Thread?
    ensures forall u :: u in s.heap[t].open ==>
      u in s.heap && s.heap[u].Open? && s.heap[u].thread == t && s.heap[u].slot < |s.heap[t].stack|
  {
    hide Inv, OpenOk;
    InvOpen(s);
    forall u | u in s.heap[t].open
      ensures u in s.heap && s.heap[u].Open? && s.heap[u].thread == t && s.heap[u].slot < |s.heap[t].stack|
    {
      OpenListed(s.heap, s.uvhead, t, u);
    }
  }

  lemma PushLive(s: State, v: Val)
    requires Inv(s) && LiveVal(s, v) && s.running in s.heap && s.heap[s.running].Thread?
    ensures var o := s.heap[s.running];
            && LiveVals(s, o.fields) && LiveVals(s, o.stack + [v])
            && (forall u :: u in o.open && u in s.heap && s.heap[u].Open? ==> s.heap[u].slot < |o.stack + [v]|)
            && (forall u :: u in o.open && Alive(s, u) && s.heap[u].Open? && s.heap[u].slot < |o.stack + [v]| ==>
                  LiveVal(s, (o.stack + [v])[s.heap[u].slot]))
  {
    hide Inv, Lists, Safe, OpenOk, RootListOk, StringsOk, NeverBlack, PhaseOk, LiveVal;
    RootLive(s);
    InvParts(s);
    OpenSlots(s, s.running);
    ThreadVals(s, s.running);
  }

  lemma TopReachable(s: State, r: Ref)
    requires s.running in s.heap && s.heap[s.running].Thread? && To(r) in s.heap[s.running].stack
    ensures Reach(s, r)
  {
    ReachableRoot(s.heap, Roots(s), s.running);
    assert Points(s.heap, s.running, r);
    ReachableStep(s.heap, Roots(s), s.running, r);
  }

  lemma StrVals(s: State, b: nat, r: Ref)
    requires Inv(s) && b < |s.strt| && r in s.strt[b]
    ensures r in s.heap && s.heap[r].Str? && LiveVals(s, Fields(s.heap, r))
    ensures r in s.color && (s.color[r] != OtherWhite(s.white) ==> Alive(s, r))
  {
    hide Safe, NeverBlack, PhaseOk, RootListOk, OpenOk;
    assert InSomeBucket(s.strt, r);
  }

  lemma UpvalWriteOpens(s: State, u: Ref, v: Val)
    requires Inv(s) && u in s.heap && Alive(s, u) && s.heap[u].Open? && LiveVal(s, v)
    requires s.heap[u].thread in s.heap && s.heap[s.heap[u].thread].Thread?
    requires s.heap[u].slot < |s.heap[s.heap[u].thread].stack|
    ensures var t, i := s.heap[u].thread, s.heap[u].slot;
            forall x :: x in s.heap[t].open && Alive(s, x) && s.heap[x].Open? && s.heap[x].slot < |s.heap[t].stack| ==>
              LiveVal(s, s.heap[t].stack[i := v][s.heap[x].slot])
  {
    hide Inv, Lists, Safe, OpenOk, RootListOk, StringsOk, NeverBlack, PhaseOk, LiveVal;
    InvParts(s);
    var t, i := s.heap[u].thread, s.heap[u].slot;
    OpenSlots(s, t);
    var stack := s.heap[t].stack;
    forall x | x in s.heap[t].open && Alive(s, x) && s.heap[x].Open? && s.heap[x].slot < |stack|
      ensures LiveVal(s, stack[i := v][s.heap[x].slot])
    {
      UpvalVal(s, x);
    }
  }

  lemma UpvalWrite(s: State, u: Ref, v: Val)
    requires Inv(s) && Reach(s, u) && u in s.heap && s.heap[u].Open? && (v.To? ==> Reach(s, v.ref))
    ensures Alive(s, u) && LiveVal(s, v)
    ensures var t, i := s.heap[u].thread, s.heap[u].slot;
            && t in s.heap && s.heap[t].Thread? && i < |s.heap[t].stack|
            && (forall x :: x in s.heap[t].open && x in s.heap && s.heap[x].Open? ==>
                  s.heap[x].slot < |s.heap[t].stack|)
            && (Alive(s, t) ==> LiveVals(s, s.heap[t].fields) && LiveVals(s, s.heap[t].stack[i := v]))
  {
    hide Inv, Lists, Safe, OpenOk, RootListOk, StringsOk, NeverBlack, PhaseOk, Reach;
    InvParts(s);
    ReachableAlive(s, u);
    if v.To? { ReachableAlive(s, v.ref); }
    UpvalVal(s, u);
    OpenSlots(s, s.heap[u].thread);
    if Alive(s, s.heap[u].thread) { ThreadVals(s, s.heap[u].thread); }
  }

  lemma OpenBounds(s: State, t: Ref)
    requires Inv(s) && t in s.heap && s.heap[t].Thread?
    ensures forall k :: 0 <= k < |s.heap[t].open| ==>
      s.heap[t].open[k] in s.heap && s.heap[s.heap[t].open[k]].Open? && s.heap[s.heap[t].open[k]].thread == t
  {
    hide Inv;
    forall k | 0 <= k < |s.heap[t].open|
      ensures s.heap[t].open[k] in s.heap && s.heap[s.heap[t].open[k]].Open? && s.heap[s.heap[t].open[k]].thread == t
    {
      OpenEntry(s, t, s.heap[t].open[k]);
    }
  }

  lemma SlotLive(s: State, u: Ref)
    requires Inv(s) && u in s.heap && s.heap[u].Open? && s.heap[u].thread == s.running
    ensures LiveVals(s, Fields(s.heap, u)) && u in s.color && (s.color[u] != OtherWhite(s.white) ==> Alive(s, u))
  {
    hide Lists, Safe, NeverBlack, PhaseOk, OpenOk, RootListOk, StringsOk, LiveVal;
    RootLive(s);
    InvParts(s);
    OpenSlot(s.heap, s.uvhead, u);
    ThreadVals(s, s.running);
  }

  lemma FitsHere(s: State, t: Ref, i: nat, j: nat)
    requires Inv(s) && t in s.heap && s.heap[t].Thread? && j <= |s.heap[t].open|
    requires forall k :: 0 <= k < |s.heap[t].open| ==> s.heap[t].open[k] in s.heap && s.heap[s.heap[t].open[k]].Open?
    requires forall k :: 0 <= k < j ==> s.heap[s.heap[t].open[k]].slot > i
    requires j < |s.heap[t].open| ==> s.heap[s.heap[t].open[j]].slot < i
    ensures FitsAt(s.heap, s.heap[t].open, i, j)
  {
    hide Inv, OpenOk, Descending, FitsAt;
    InvParts(s);
    ListDescends(s.heap, s.uvhead, t);
    BelowToo(s.heap, s.heap[t].open, i, j);
  }

  lemma ListDescends(h: Heap, uvhead: set<Ref>, t: Ref)
    requires OpenOk(h, uvhead) && t in h && h[t].Thread?
    ensures Descending(h, h[t].open)
  {
  }

  /** In a descending list, what comes after an entry below i is below i too. */
  lemma BelowToo(h: Heap, open: seq<Ref>, i: nat, j: nat)
    requires Descending(h, open) && j <= |open| && forall k :: 0 <= k < |open| ==> open[k] in h && h[open[k]].Open?
    requires (forall k :: 0 <= k < j ==> h[open[k]].slot > i) && (j < |open| ==> h[open[j]].slot < i)
    ensures FitsAt(h, open, i, j)
  {
  }

  lemma ClosureStore(m: State, f: Ref, u: Ref)
    requires Inv(m) && Alive(m, f) && Alive(m, u) && f in m.heap && m.heap[f].Func? && f in m.color
    requires IsWhite(m.color[f])
    ensures LiveVals(m, m.heap[f].fields + [To(u)])
    ensures Barriered(m, f, m.heap[f].fields + [To(u)], m.color[f], m.grayagain)
  {
    hide Lists, NeverBlack, PhaseOk;
    SafeVals(m, f);
    var g := m.heap[f].fields + [To(u)];
    forall i | 0 <= i < |g| ensures LiveVal(m, g[i]) {
      if i < |m.heap[f].fields| { assert LiveVal(m, Fields(m.heap, f)[i]); }
    }
  }

  lemma HeldLive(s: State, vals: seq<Val>)
    requires Inv(s) && forall i :: 0 <= i < |vals| && vals[i].To? ==> Reach(s, vals[i].ref)
    ensures LiveVals(s, vals)
  {
    hide Lists, Safe, NeverBlack, PhaseOk;
    forall i | 0 <= i < |vals| ensures LiveVal(s, vals[i]) {
      if vals[i].To? { ReachableAlive(s, vals[i].ref); }
    }
  }

  lemma StoreLive(s: State, o: Ref, fields: seq<Val>, v: Val)
    requires Inv(s) && Reach(s, o) && o in s.heap && HasFields(s.heap[o]) && (v.To? ==> Reach(s, v.ref))
    requires forall i :: 0 <= i < |fields| ==> fields[i] == v || fields[i] in Fields(s.heap, o)
    ensures Alive(s, o) && LiveVals(s, fields) && LiveVal(s, v) && o in s.color
    ensures v.To? ==> v.ref in s.color && v.ref in s.heap
  {
    hide NeverBlack, PhaseOk, RootListOk, StringsOk, OpenOk;
    ReachableAlive(s, o);
    SafeVals(s, o);
    if v.To? { ReachableAlive(s, v.ref); }
    forall i | 0 <= i < |fields| ensures LiveVal(s, fields[i]) {
      if fields[i] != v {
        var k :| 0 <= k < |Fields(s.heap, o)| && Fields(s.heap, o)[k] == fields[i];
        assert LiveVal(s, Fields(s.heap, o)[k]);
      }
    }
  }

  lemma BackBarrier(s: State, o: Ref, fields: seq<Val>)
    requires o in s.heap && o in s.color && s.heap[o].Table? && s.color[o] == Black
    ensures Barriered(s, o, fields, Gray, [o] + s.grayagain)
  {
  }

  lemma WhiteBarrier(s: State, o: Ref, fields: seq<Val>)
    requires Inv(s) && o in s.heap && o in s.color && s.color[o] == Black && !s.phase.Propagate?
    ensures Barriered(s, o, fields, s.white, s.grayagain)
  {
    hide Safe, NeverBlack, RootListOk, StringsOk, OpenOk;
  }

  /** With v marked, or o not black, the store needs no barrier. */
  lemma NoBarrier(s: State, o: Ref, fields: seq<Val>, v: Val)
    requires Inv(s) && o in s.heap && o in s.color
    requires s.color[o] == Black && v.To? ==> v.ref in s.color && !IsWhite(s.color[v.ref])
    requires forall i :: 0 <= i < |fields| ==> fields[i] == v || fields[i] in Fields(s.heap, o)
    ensures Barriered(s, o, fields, s.color[o], s.grayagain)
  {
    hide Safe, NeverBlack, RootListOk, StringsOk, OpenOk;
    if s.phase.Propagate? && s.color[o] == Black {
      assert Scanned(s.heap, s.color, o);
      forall i | 0 <= i < |fields| ensures Marked(s.color, fields[i]) {
        if fields[i] != v && fields[i].To? { assert Points(s.heap, o, fields[i].ref); }
      }
    }
  }

  lemma ForwardBarrier(s: State, m: State, o: Ref, fields: seq<Val>, v: Val)
    requires Inv(m) && m == s.(color := m.color, gray := m.gray) && Survives(s, m)
    requires Alive(s, o) && o in s.heap && LiveVals(s, fields) && Marked(m.color, v)
    requires forall i :: 0 <= i < |fields| ==> fields[i] == v || fields[i] in Fields(s.heap, o)
    ensures Alive(m, o) && o in m.color && LiveVals(m, fields) && Barriered(m, o, fields, m.color[o], m.grayagain)
  {
    NoBarrier(m, o, fields, v);
    LiveMore(s, m, fields);
  }

  lemma SweepStrBound(s: State)
    requires Inv(s) && s.phase == SweepString
    ensures s.sweepStr < |s.strt|
  {
    hide Lists, Safe, NeverBlack;
  }

  lemma PauseParts(s: State)
    requires Inv(s) && s.phase == Pause
    ensures Lists(s) && Safe(s) && AllWhite(s)
  {
    hide Lists, Safe, NeverBlack;
  }

  lemma FinalizeWhite(s: State)
    requires Inv(s) && s.phase == Finalize
    ensures AllWhite(s)
  {
    hide Lists, Safe, NeverBlack;
  }

  lemma FinalizeParts(s: State)
    requires Inv(s) && s.phase.Finalize?
    ensures Lists(s) && Safe(s) && AllWhite(s)
  {
    hide Lists, Safe, NeverBlack;
  }

  lemma SweepPosBound(s: State)
    requires Inv(s) && s.phase == Sweep
    ensures s.sweepPos <= |s.rootgc|
  {
    hide Lists, Safe, NeverBlack;
  }

  lemma KeptSame(s: State, t: State)
    requires Inv(s) && t.heap == s.heap
    requires t.mainthread == s.mainthread && t.running == s.running && t.registry == s.registry && t.mt == s.mt
    requires t.fixed == s.fixed
    ensures Kept(s, t)
  {
    hide Roots, Fields, Lists, Reach, NeverBlack, PhaseOk, Safe;
    RootsFrame(s, t);
    forall r | Reach(s, r) ensures r in s.heap { ReachableAlive(s, r); }
  }

  lemma KeptSurvives(s: State, t: State)
    requires Inv(s) && Survives(s, t)
    ensures Kept(s, t)
  {
    hide Roots, Fields, Lists, Reach, NeverBlack, PhaseOk, Safe;
    forall r | Reach(s, r) ensures r in s.heap && r in t.heap && Fields(t.heap, r) == Fields(s.heap, r) {
      ReachableAlive(s, r);
    }
  }

  lemma WhiteListIs(s: State, list: seq<Ref>)
    requires forall r :: r in list ==> r in s.color && s.color[r] == s.white
    ensures WhiteList(s, list)
  {
  }

  lemma WhitenList(s: State, m: State, list: seq<Ref>, r: Ref)
    requires WhiteList(s, list) && m.white == s.white && m.color == s.color[r := s.white]
    ensures WhiteList(m, list)
  {
  }

  lemma RootColor(s: State, r: Ref)
    requires Inv(s) && r in s.rootgc
    ensures r in s.heap && InRootList(s.heap[r]) && r in s.color
  {
    hide Safe, NeverBlack, PhaseOk, StringsOk, OpenOk;
  }

  /** A closed or freed upvalue leaves its thread with one open upvalue less. */
  lemma CloseThread(s: State, u: Ref)
    requires Inv(s) && u in s.heap && s.heap[u].Open? && s.heap[u].thread in s.heap && s.heap[s.heap[u].thread].Thread?
    ensures var t := s.heap[u].thread; var o := s.heap[t];
            && t in CloseHeap(s.heap, u) && CloseHeap(s.heap, u)[t] == o.(open := Without(o.open, u))
            && t in UnlinkUpval(s.heap, u) && UnlinkUpval(s.heap, u)[t] == o.(open := Without(o.open, u))
    ensures s.color.Keys == s.heap.Keys && CloseHeap(s.heap, u).Keys == s.heap.Keys
  {
    OpenApart(s, u);
    hide Inv, Without, Fields;
  }

  lemma OpenApart(s: State, u: Ref)
    requires Inv(s) && u in s.heap && s.heap[u].Open?
    ensures s.heap[u].thread != u && s.color.Keys == s.heap.Keys
  {
    hide Inv, OpenOk;
    InvOpen(s);
    InvKeys(s);
    OpenSlot(s.heap, s.uvhead, u);
  }

  lemma DeadSweeping(s: State, u: Ref)
    requires Inv(s) && u in s.color && s.color[u] == OtherWhite(s.white)
    ensures Sweeping(s)
  {
    hide Safe, NeverBlack, RootListOk, StringsOk, OpenOk;
  }

  lemma NotDeadAlive(s: State, u: Ref)
    requires u in s.heap && u in s.color && !(s.color[u] == OtherWhite(s.white) && u !in s.fixed)
    ensures Alive(s, u)
  {
  }

  lemma StillAlive(s: State, m: State, u: Ref)
    requires Alive(s, u) && Survives(s, m)
    ensures u in m.color && Alive(m, u)
  {
  }

  lemma HeapVals(s: State, u: Ref)
    requires Inv(s) && s.phase == Propagate && u in s.heap
    ensures forall i :: 0 <= i < |Fields(s.heap, u)| && Fields(s.heap, u)[i].To? ==> Fields(s.heap, u)[i].ref in s.heap
  {
    hide RootListOk, StringsOk, OpenOk;
    NoDeadSound(s);
    forall i | 0 <= i < |Fields(s.heap, u)| && Fields(s.heap, u)[i].To? ensures Fields(s.heap, u)[i].ref in s.heap {
      assert Points(s.heap, u, Fields(s.heap, u)[i].ref);
    }
  }

  lemma OpenEntry(s: State, t: Ref, u: Ref)
    requires Inv(s) && t in s.heap && s.heap[t].Thread? && u in s.heap[t].open
    ensures u in s.heap && s.heap[u].Open? && s.heap[u].thread == t
  {
    hide Inv, OpenOk;
    InvOpen(s);
    OpenListed(s.heap, s.uvhead, t, u);
  }

  lemma WithoutHead(open: seq<Ref>)
    requires open != []
    ensures |Without(open, open[0])| < |open|
  {
    WithoutLen(open[1..], open[0]);
  }

  lemma {:induction false} WithoutLen(s: seq<Ref>, r: Ref)
    ensures |Without(s, r)| <= |s|
  {
    if s != [] { WithoutLen(s[1..], r); }
  }

  lemma HeadBound(s: State, t: Ref, level: nat)
    requires Inv(s) && t in s.heap && s.heap[t].Thread?
    requires var open := s.heap[t].open;
             open != [] && open[0] in s.heap && s.heap[open[0]].Open? ==> s.heap[open[0]].slot < level
    ensures forall u :: u in s.heap[t].open ==> u in s.heap && s.heap[u].Open? && s.heap[u].slot < level
  {
    hide Inv, OpenOk;
    InvOpen(s);
    var open := s.heap[t].open;
    assert Descending(s.heap, open) by { ListDescends(s.heap, s.uvhead, t); }
    forall u | u in open ensures u in s.heap && s.heap[u].Open? && s.heap[u].slot < level {
      var i :| 0 <= i < |open| && open[i] == u;
      OpenListed(s.heap, s.uvhead, t, u);
      OpenListed(s.heap, s.uvhead, t, open[0]);
    }
  }

  lemma PendingAll(h: Heap, c: Colors, gray: seq<Ref>)
    requires c.Keys == h.Keys
    ensures Pending(h, c, gray, h.Keys)
  {
  }

  lemma MarkSurvives(s: State, t: State)
    requires Darkens(s.color, t.color) && NoDead(s)
    requires t == s.(color := t.color, gray := t.gray)
    ensures Survives(s, t)
  {
    RootsFrame(s, t);
  }

  lemma SurvivesRefl(s: State)
    ensures Survives(s, s)
  {
  }

  lemma SurvivesProgress(s: State, t: State)
    requires t == s.(sweepPos := t.sweepPos, sweepStr := t.sweepStr, phase := t.phase,
                   gray := t.gray, grayagain := t.grayagain)
    ensures Survives(s, t)
  {
    RootsFrame(s, t);
  }

  lemma BucketColor(s: State, b: nat, r: Ref)
    requires Inv(s) && b < |s.strt| && r in s.strt[b]
    ensures r in s.heap && r in s.color
  {
    hide Safe, NeverBlack, PhaseOk, RootListOk, OpenOk;
    assert InSomeBucket(s.strt, r);
  }

  lemma AllWhiteStart(s: State)
    requires Lists(s) && Safe(s) && AllWhite(s)
    ensures NoDead(s) && Tri(s.heap, s.color, [], []) && Pending(s.heap, s.color, [], {})
    ensures s.mainthread in s.heap && s.heap[s.mainthread].Thread?
  {
    NoDeadSound(s);
    TriStart(s.heap, s.color);
  }

  lemma InvPropagate(s: State)
    requires Inv(s) && s.phase == Propagate
    ensures Lists(s) && Safe(s) && TriColor(s)
  {
    hide Lists, Safe, NeverBlack;
  }

  lemma AtomicRoots(s: State)
    requires Lists(s) && Safe(s) && TriColor(s)
    ensures OpenOk(s.heap, s.uvhead) && s.running in s.heap
    ensures Marked(s.color, To(s.mainthread)) && Marked(s.color, s.registry)
  {
  }

  /** What marking for a barrier starts from. */
  lemma BarrierReady(s: State)
    requires Inv(s) && s.phase == Propagate
    ensures Tri(s.heap, s.color, s.gray, s.grayagain) && Pending(s.heap, s.color, s.gray, s.heap.Keys)
  {
    InvPropagate(s);
    InvKeys(s);
    hide Inv, Lists, Safe, TriColor, Tri, Pending, NoDead;
    TriColorTri(s);
    PendingAll(s.heap, s.color, s.gray);
  }

  /** And what it leaves. */
  lemma BarrierDone(s: State, t: State)
    requires Inv(s) && s.phase == Propagate && t == s.(color := t.color, gray := t.gray)
    requires Tri(t.heap, t.color, t.gray, t.grayagain) && Darkens(s.color, t.color)
    ensures Inv(t) && Survives(s, t)
  {
    InvPropagate(s);
    hide Inv, Lists, Safe, TriColor, Tri, NoDead, Marked, Survives, Darkens, OpenOk;
    TriColorTri(s);
    AtomicRoots(s);
    MarkedStays(s.color, t.color, To(s.mainthread));
    MarkedStays(s.color, t.color, s.registry);
    TriInv(s, t);
    MarkSurvives(s, t);
  }

  /** What one step of the propagation starts from. */
  lemma PropagateReady(s: State)
    requires Inv(s) && s.phase == Propagate
    ensures Tri(s.heap, s.color, s.gray, s.grayagain) && Pending(s.heap, s.color, s.gray, s.heap.Keys)
    ensures Inside(s.heap, s.color, MarkSet(s))
  {
    hide Inv, Lists, Safe, Tri, TriColor, Pending, NoDead, Inside, ValsIn, MarkSet;
    InvPropagate(s);
    TriColorTri(s);
    InvKeys(s);
    PendingAll(s.heap, s.color, s.gray);
    MarkSetInside(s);
  }

  /** What one step of the propagation ends with. */
  lemma PropagateOutcome(s: State, t: State)
    requires Inv(s) && s.phase == Propagate && t == s.(color := t.color, gray := t.gray, grayagain := t.grayagain)
    requires Tri(t.heap, t.color, t.gray, t.grayagain) && Darkens(s.color, t.color)
    requires Inside(t.heap, t.color, MarkSet(s))
    ensures Inv(t) && (Precise(s) ==> Precise(t))
  {
    hide Inv, Lists, Safe, Tri, TriColor, NoDead, Marked, Darkens, Inside, Precise, MarkSet, SameGraph;
    InvPropagate(s);
    TriColorTri(s);
    AtomicRoots(s);
    MarkedStays(s.color, t.color, To(s.mainthread));
    MarkedStays(s.color, t.color, s.registry);
    TriInv(s, t);
    MarkingSame(s, t);
    MarkSetPrecise(s, t);
  }

  /** What the marking of the atomic step starts from. */
  lemma AtomicReady(s: State)
    requires Inv(s) && s.phase == Propagate
    ensures Tri(s.heap, s.color, s.gray, s.grayagain) && OpenOk(s.heap, s.uvhead) && s.running in s.heap
    ensures forall i :: 0 <= i < |s.mt| && s.mt[i].To? ==> s.mt[i].ref in s.heap
    ensures Inside(s.heap, s.color, MarkSet(s)) && ValsIn([To(s.running)], MarkSet(s)) && ValsIn(s.mt, MarkSet(s))
  {
    hide Inv, Lists, Safe, Tri, TriColor, OpenOk, NoDead, NeverBlack, Inside, ValsIn, MarkSet, Roots;
    InvPropagate(s);
    TriColorTri(s);
    AtomicRoots(s);
    RootVals(s, s.mt);
    MarkSetInside(s);
  }

  /** Complete marking, then the flip of white: the sweep may begin. */
  lemma AtomicOutcome(s: State, m: State, t: State)
    requires Inv(s) && s.phase == Propagate && m == s.(color := m.color, gray := m.gray, grayagain := m.grayagain)
    requires Tri(m.heap, m.color, m.gray, m.grayagain) && Pending(m.heap, m.color, [], {}) && Darkens(s.color, m.color)
    requires Marked(m.color, To(m.running)) && forall i :: 0 <= i < |m.mt| ==> Marked(m.color, m.mt[i])
    requires Inside(m.heap, m.color, MarkSet(s))
    requires t == m.(white := OtherWhite(m.white), phase := SweepString, sweepStr := 0, sweepPos := 0)
    ensures Inv(t) && (Precise(s) ==> Tight(t))
  {
    hide Inv, Lists, Safe, Tri, Pending, TriColor, Darkens, Marked;
    hide NoDead, NeverBlack, MarkedRoots, Inside, Precise, Tight, MarkSet;
    InvPropagate(s);
    TriColorTri(s);
    AtomicRoots(s);
    MarkedStays(s.color, m.color, To(s.mainthread));
    MarkedStays(s.color, m.color, s.registry);
    AtomicEnd(s, m);
    FlipInv(m, t);
    FlipTight(s, m, t);
  }

  lemma AtomicEnd(s: State, m: State)
    requires Lists(s) && Safe(s) && NoDead(s) && Darkens(s.color, m.color)
    requires m == s.(color := m.color, gray := m.gray, grayagain := m.grayagain)
    requires Tri(m.heap, m.color, m.gray, m.grayagain)
    requires Marked(m.color, To(m.mainthread)) && Marked(m.color, m.registry) && Marked(m.color, To(m.running))
    requires forall i :: 0 <= i < |m.mt| ==> Marked(m.color, m.mt[i])
    ensures Lists(m) && NoDead(m) && NeverBlack(m)
    ensures forall r :: r in MarkedRoots(m) ==> r in m.heap && !IsWhite(m.color[r])
  {
    assert Lists(m) && NoDead(m) && NeverBlack(m);
    RootsMarked(m);
  }

  lemma RootsMarked(m: State)
    requires m.color.Keys == m.heap.Keys
    requires Marked(m.color, To(m.mainthread)) && Marked(m.color, m.registry) && Marked(m.color, To(m.running))
    requires forall i :: 0 <= i < |m.mt| ==> Marked(m.color, m.mt[i])
    ensures forall r :: r in MarkedRoots(m) ==> r in m.heap && !IsWhite(m.color[r])
  {
    forall r | r in MarkedRoots(m) ensures r in m.heap && !IsWhite(m.color[r]) {
      if To(r) in m.mt {
        var i :| 0 <= i < |m.mt| && m.mt[i] == To(r);
        assert Marked(m.color, m.mt[i]);
      }
    }
  }

  lemma NotBlackScanned(h: Heap, c: Colors, gray: seq<Ref>, again: seq<Ref>, u: Ref)
    requires Tri(h, c, gray, again) && u in h && (c[u] == Gray ==> Scanned(h, c, u))
    ensures IsWhite(c[u]) || Scanned(h, c, u)
  {
  }

  lemma PopFacts(h: Heap, c: Colors, gray: seq<Ref>, again: seq<Ref>)
    requires Tri(h, c, gray, again) && gray != []
    ensures gray[0] in h && c.Keys == h.Keys && c[gray[0]] == Gray
    ensures Ready(h, if h[gray[0]].Thread? then c else c[gray[0] := Black], gray[1..])
  {
    assert (gray + again)[0] == gray[0];
    assert forall i :: 0 <= i < |gray| - 1 ==> gray[1..][i] == (gray + again)[i + 1];
  }

  lemma PopProgress(h: Heap, c: Colors, gray: seq<Ref>, c1: Colors, c2: Colors, gray2: seq<Ref>)
    requires gray != [] && gray[0] in c && !IsWhite(c[gray[0]]) && (c1 == c || c1 == c[gray[0] := Black])
    requires Marks(h, c1, gray[1..], c2, gray2) && Ready(h, c2, gray2)
    ensures Darkens(c, c2)
    ensures Whites(c2) < Whites(c) || (Whites(c2) == Whites(c) && |gray2| < |gray|)
  {
    MarksWhites(h, c1, gray[1..], c2, gray2);
    assert Whites(c1) == Whites(c);
    if |gray2| > |gray| - 1 {
      assert gray2[0] in Whites(c1) && gray2[0] !in Whites(c2);
    }
  }

  lemma ReadyKeys(h: Heap, c: Colors, gray: seq<Ref>)
    requires Ready(h, c, gray)
    ensures c.Keys == h.Keys
    ensures forall r, i :: r in h && 0 <= i < |Fields(h, r)| && Fields(h, r)[i].To? ==> Fields(h, r)[i].ref in h
  {
    forall r, i | r in h && 0 <= i < |Fields(h, r)| && Fields(h, r)[i].To? ensures Fields(h, r)[i].ref in h {
      assert Points(h, r, Fields(h, r)[i].ref);
    }
  }

  lemma FieldSettled(h: Heap, c: Colors, g: seq<Ref>, x: Ref, k: Color, c2: Colors, g2: seq<Ref>, k2: Color)
    requires x in h && x in c && !Container(h[x]) && k == (if h[x].Udata? then Black else Gray)
    requires k2 == (if h[x].Closed? then Black else k)
    requires Marks(h, c[x := k], g, c2, g2) && Scanned(h, c2, x)
    ensures c2[x] == k && Settled(h, c2[x := k2], g2, x)
  {
  }
}
