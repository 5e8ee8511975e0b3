/** The objects of the Lua heap as the collector sees them, their colours, and reachability. */
module LuaHeap {

  type Ref = nat

  datatype Val = Nil | To(ref: Ref)

  /** Closed and Open are the two states of an upvalue; an open one lives in a slot of a thread's
      stack and is linked from that thread's list of open upvalues. */
  datatype Obj =
    | Str
    | Udata(fields: seq<Val>)
    | Func(fields: seq<Val>)
    | Table(fields: seq<Val>)
    | Proto(fields: seq<Val>)
    | Thread(fields: seq<Val>, stack: seq<Val>, open: seq<Ref>)
    | Closed(fields: seq<Val>)
    | Open(thread: Ref, slot: nat)

  datatype Color = White0 | White1 | Gray | Black

  type Heap = map<Ref, Obj>
  type Colors = map<Ref, Color>

  predicate IsWhite(c: Color) { c.White0? || c.White1? }

  function OtherWhite(white: Color): (c: Color)
  {
    if white.White0? then White1 else White0
  }

  /** The references an object holds, in traversal order. */
  function Fields(h: Heap, r: Ref): seq<Val>
    requires r in h
  {
    match h[r]
    case Str => []
    case Thread(fields, stack, open) => fields + stack
    case Open(t, i) => if t in h && h[t].Thread? && i < |h[t].stack| then [h[t].stack[i]] else []
    case _ => h[r].fields
  }

  predicate Points(h: Heap, r: Ref, c: Ref)
    requires r in h
  {
    To(c) in Fields(h, r)
  }

  // ---------------------------------------------------------------- reachability

  ghost predicate IsPath(h: Heap, roots: set<Ref>, path: seq<Ref>) {
    && |path| > 0 && path[0] in roots
    && forall i :: 0 <= i < |path| - 1 ==> path[i] in h && Points(h, path[i], path[i + 1])
  }

  ghost predicate Reachable(h: Heap, roots: set<Ref>, r: Ref) {
    exists path :: IsPath(h, roots, path) && path[|path| - 1] == r
  }

  /** A set that holds the roots and everything its members point to. */
  ghost predicate ClosedSet(h: Heap, roots: set<Ref>, s: iset<Ref>) {
    && (forall r :: r in roots ==> r in s)
    && (forall r, c :: r in s && r in h && Points(h, r, c) ==> c in s)
  }

  lemma {:induction false} PathStays(h: Heap, roots: set<Ref>, s: iset<Ref>, path: seq<Ref>)
    requires ClosedSet(h, roots, s) && IsPath(h, roots, path)
    ensures path[|path| - 1] in s
  {
    if |path| > 1 {
      var init := path[..|path| - 1];
      forall i | 0 <= i < |init| - 1 ensures init[i] in h && Points(h, init[i], init[i + 1]) {
        assert init[i] == path[i] && init[i + 1] == path[i + 1];
      }
      PathStays(h, roots, s, init);
      assert Points(h, path[|path| - 2], path[|path| - 1]);
    }
  }

  lemma ReachableInClosed(h: Heap, roots: set<Ref>, s: iset<Ref>, r: Ref)
    requires ClosedSet(h, roots, s) && Reachable(h, roots, r)
    ensures r in s
  {
    var path :| IsPath(h, roots, path) && path[|path| - 1] == r;
    PathStays(h, roots, s, path);
  }

  lemma ReachableStep(h: Heap, roots: set<Ref>, r: Ref, c: Ref)
    requires Reachable(h, roots, r) && r in h && Points(h, r, c)
    ensures Reachable(h, roots, c)
  {
    var path :| IsPath(h, roots, path) && path[|path| - 1] == r;
    var more := path + [c];
    forall i | 0 <= i < |more| - 1 ensures more[i] in h && Points(h, more[i], more[i + 1]) {
      if i < |path| - 1 { assert more[i] == path[i] && more[i + 1] == path[i + 1]; }
    }
    assert IsPath(h, roots, more);
  }

  lemma ReachableRoot(h: Heap, roots: set<Ref>, r: Ref)
    requires r in roots
    ensures Reachable(h, roots, r)
  {
    assert IsPath(h, roots, [r]);
  }
}
