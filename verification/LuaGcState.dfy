/** The collector's global state and its invariant. */
module LuaGcState {
  import opened LuaHeap
  import opened LuaMark

  datatype Phase = Pause | Propagate | SweepString | Sweep | Finalize

  datatype State = State(
    heap: Heap, color: Colors, white: Color, phase: Phase,
    gray: seq<Ref>, grayagain: seq<Ref>,
    rootgc: seq<Ref>, strt: seq<seq<Ref>>, uvhead: set<Ref>, sweepStr: nat, sweepPos: nat,
    mainthread: Ref, running: Ref, registry: Val, mt: seq<Val>, fixed: set<Ref>)

  ghost function MarkedRoots(s: State): set<Ref> {
    {s.mainthread, s.running} + (if s.registry.To? then {s.registry.ref} else {}) + set v | v in s.mt && v.To? :: v.ref
  }

  /** What the program can always reach: the marked roots and the fixed strings. */
  ghost function Roots(s: State): set<Ref> {
    MarkedRoots(s) + s.fixed
  }

  /** In the heap, and not to be freed by the sweep. */
  ghost predicate Alive(s: State, r: Ref) {
    r in s.heap && r in s.color && (s.color[r] != OtherWhite(s.white) || r in s.fixed)
  }

  // ---------------------------------------------------------------- lists

  predicate InRootList(o: Obj) { !o.Str? && !o.Open? }

  ghost predicate InSomeBucket(strt: seq<seq<Ref>>, r: Ref) {
    exists b :: 0 <= b < |strt| && r in strt[b]
  }

  ghost predicate RootListOk(h: Heap, rootgc: seq<Ref>) {
    NoDup(rootgc) && (forall r :: r in rootgc <==> r in h && InRootList(h[r]))
  }

  ghost predicate StringsOk(h: Heap, strt: seq<seq<Ref>>) {
    && (forall b :: 0 <= b < |strt| ==> NoDup(strt[b]))
    && (forall b, c, r :: 0 <= b < c < |strt| && r in strt[b] ==> r !in strt[c])
    && (forall r :: InSomeBucket(strt, r) <==> r in h && h[r].Str?)
  }

  /** The list of a thread's open upvalues runs down the stack, one per slot. */
  ghost predicate Descending(h: Heap, open: seq<Ref>) {
    forall i, j :: 0 <= i < j < |open| && open[i] in h && open[j] in h && h[open[i]].Open? && h[open[j]].Open? ==>
      h[open[i]].slot > h[open[j]].slot
  }

  /** Open upvalues and the lists that hold them: one list per thread, and the global list. */
  ghost predicate OpenOk(h: Heap, uvhead: set<Ref>) {
    && (forall u :: u in uvhead <==> u in h && h[u].Open?)
    && (forall u :: u in h && h[u].Open? ==>
          h[u].thread in h && h[h[u].thread].Thread? && h[u].slot < |h[h[u].thread].stack| && u in h[h[u].thread].open)
    && (forall t, u :: t in h && h[t].Thread? && u in h[t].open ==> u in h && h[u].Open? && h[u].thread == t)
    && (forall t :: t in h && h[t].Thread? ==> Descending(h, h[t].open))
  }

  ghost predicate Lists(s: State) {
    && s.color.Keys == s.heap.Keys && IsWhite(s.white) && |s.strt| > 0
    && RootListOk(s.heap, s.rootgc) && StringsOk(s.heap, s.strt) && OpenOk(s.heap, s.uvhead)
    && s.mainthread in s.heap && s.heap[s.mainthread].Thread?
    && s.running in s.heap && s.heap[s.running].Thread?
    && (forall r :: r in s.fixed ==> r in s.heap && s.heap[r].Str?)
  }

  // ---------------------------------------------------------------- safety

  /** The roots are alive, and an object that is alive points only to objects that are alive. */
  ghost predicate Safe(s: State) {
    && (forall r :: r in Roots(s) ==> Alive(s, r))
    && (forall r, c :: Alive(s, r) && Points(s.heap, r, c) ==> Alive(s, c))
  }

  ghost predicate Reach(s: State, r: Ref) {
    Reachable(s.heap, Roots(s), r)
  }

  /** Reachable objects are in the heap and are not awaiting the sweep. */
  lemma ReachableAlive(s: State, r: Ref)
    requires Safe(s) && Reach(s, r)
    ensures Alive(s, r)
  {
    ReachableInClosed(s.heap, Roots(s), (iset x | Alive(s, x)), r);
  }

  // ---------------------------------------------------------------- phases

  ghost predicate AllWhite(s: State) {
    forall r :: r in s.color ==> s.color[r] == s.white
  }

  /** The tri-colour invariant of the propagation phase. */
  ghost predicate TriColor(s: State) {
    && (forall r :: r in s.color ==> s.color[r] != OtherWhite(s.white))
    && GrayOk(s.heap, s.color, s.gray + s.grayagain)
    && (forall r :: r in s.heap && r in s.color && s.color[r] == Black ==>
          Scanned(s.heap, s.color, r) && !s.heap[r].Thread? && !s.heap[r].Open?)
    && (forall r :: r in s.heap && r in s.color && s.color[r] == Gray ==>
          s.heap[r].Str? || s.heap[r].Open? || r in s.gray || r in s.grayagain)
    && s.mainthread in s.color && !IsWhite(s.color[s.mainthread])
    && (s.registry.To? ==> s.registry.ref in s.color && !IsWhite(s.color[s.registry.ref]))
  }

  ghost predicate WhiteList(s: State, list: seq<Ref>) {
    forall r :: r in list ==> r in s.color && s.color[r] == s.white
  }

  /** The buckets already swept hold only current-white strings. */
  ghost predicate SweptStrings(s: State, n: nat) {
    n <= |s.strt| && forall b :: 0 <= b < n ==> WhiteList(s, s.strt[b])
  }

  /** The swept part of the object list, with the open upvalues of its threads, is current white. */
  ghost predicate SweptRoots(s: State) {
    && s.sweepPos <= |s.rootgc|
    && WhiteList(s, s.rootgc[..s.sweepPos])
    && forall i :: 0 <= i < s.sweepPos && s.rootgc[i] in s.heap && s.heap[s.rootgc[i]].Thread? ==>
         WhiteList(s, s.heap[s.rootgc[i]].open)
  }

  /** Threads are never black, nor are open upvalues. */
  ghost predicate NeverBlack(s: State) {
    forall r :: r in s.heap && r in s.color && (s.heap[r].Thread? || s.heap[r].Open?) ==> s.color[r] != Black
  }

  ghost predicate PhaseOk(s: State) {
    match s.phase
    case Pause => AllWhite(s)
    case Finalize => AllWhite(s)
    case Propagate => TriColor(s)
    case SweepString => s.sweepStr < |s.strt| && SweptStrings(s, s.sweepStr) && SweptRoots(s)
    case Sweep => SweptStrings(s, |s.strt|) && SweptRoots(s)
  }

  ghost predicate Inv(s: State) {
    Lists(s) && Safe(s) && NeverBlack(s) && PhaseOk(s)
  }

  lemma InvParts(s: State)
    requires Inv(s)
    ensures Lists(s) && Safe(s) && NeverBlack(s) && PhaseOk(s)
    ensures s.color.Keys == s.heap.Keys && RootListOk(s.heap, s.rootgc) && StringsOk(s.heap, s.strt)
    ensures OpenOk(s.heap, s.uvhead)
  {
  }

  lemma InvIntro(s: State)
    requires Lists(s) && Safe(s) && NeverBlack(s) && PhaseOk(s)
    ensures Inv(s)
  {
  }

  lemma InvOpen(s: State)
    requires Inv(s)
    ensures OpenOk(s.heap, s.uvhead)
  {
    hide Safe, NeverBlack, PhaseOk, RootListOk, StringsOk, OpenOk;
  }

  /** An upvalue on the list of a thread is open, and stands for a slot of that thread. */
  lemma OpenListed(h: Heap, uvhead: set<Ref>, t: Ref, u: Ref)
    requires OpenOk(h, uvhead) && t in h && h[t].Thread? && u in h[t].open
    ensures u in h && h[u].Open? && h[u].thread == t && h[u].slot < |h[t].stack|
  {
    hide Descending;
  }

  /** An open upvalue stands for a slot of a thread. */
  lemma OpenSlot(h: Heap, uvhead: set<Ref>, u: Ref)
    requires OpenOk(h, uvhead) && u in h && h[u].Open?
    ensures h[u].thread in h && h[h[u].thread].Thread? && h[u].slot < |h[h[u].thread].stack| && h[u].thread != u
  {
    hide Descending;
  }

  lemma InvKeys(s: State)
    requires Inv(s)
    ensures s.color.Keys == s.heap.Keys
  {
    hide Safe, NeverBlack, PhaseOk, RootListOk, StringsOk, OpenOk;
  }
}
