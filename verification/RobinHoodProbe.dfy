/** The three loops of the Robin Hood table over one slot array: insertion with swaps, lookup with
    early stop, and backward-shift deletion. */
module RobinHoodProbe {
  import opened RobinHoodSlots

  /** Placing an entry whose predecessor grades it, over an empty or less displaced bucket. */
  lemma PlaceKeepsWf(s: seq<Entry>, i: nat, e: Entry)
    requires Wf(s, 0) && i < |s| && s[i].psl < e.psl
    requires e.psl == Dist(|s|, Home(e.hash, |s|), i)
    requires e.psl <= s[Prev(|s|, i)].psl + 1
    ensures Wf(s[i := e], 0)
  {
    assert Prev(|s|, Next(|s|, i)) == i;
  }

  lemma PlaceItems(s: seq<Entry>, i: nat, e: Entry)
    requires i < |s| && Live(e)
    ensures Items(s[i := e]) + Item(s[i]) == Items(s) + multiset{RecOf(e)}
  {
    ItemsUpdate(s, i, e);
  }

  method InsertEntry(a: array<Entry>, e0: Entry)
    requires Wf(a[..], 0) && |Items(a[..])| < a.Length
    modifies a
    ensures Wf(a[..], 0)
    ensures Items(a[..]) == old(Items(a[..])) + multiset{RecOf(e0)}
  {
    hide Home, Items;
    var n := a.Length;
    var e := e0;
    var i: nat := Home(e.hash, n);
    var dist: nat := 0;
    ghost var z := Vacancy(a[..]);
    ghost var goal := Items(a[..]) + multiset{RecOf(e0)};
    while a[i].psl >= 0
      invariant 0 <= i < n && dist == Dist(n, Home(e.hash, n), i)
      invariant Wf(a[..], 0) && !Live(a[z])
      invariant Dist(n, Home(e.hash, n), z) >= dist
      invariant dist <= a[Prev(n, i)].psl + 1
      invariant Items(a[..]) + multiset{RecOf(e)} == goal
      decreases Dist(n, i, z)
    {
      if a[i].psl < dist {
        var tmp := a[i];
        ghost var s := a[..];
        PathFull(s, i, z);
        PlaceItems(s, i, e.(psl := dist));
        PlaceKeepsWf(s, i, e.(psl := dist));
        a[i] := e.(psl := dist);
        assert a[..] == s[i := e.(psl := dist)];
        e := tmp;
        dist := e.psl;
      }
      StepToward(n, Home(e.hash, n), i, z);
      i := Next(n, i);
      dist := dist + 1;
    }
    ghost var s := a[..];
    PlaceItems(s, i, e.(psl := dist));
    PlaceKeepsWf(s, i, e.(psl := dist));
    a[i] := e.(psl := dist);
    assert a[..] == s[i := e.(psl := dist)];
  }

  /** Lookup finds a matching entry exactly when one has a probe path clear of the emptied buckets; of several it
      finds the least displaced. */
  method FindIn(a: array<Entry>, hash: nat, key: Bytes, ghost w: nat) returns (r: int)
    requires Wf(a[..], w)
    ensures r == -1 || (0 <= r < a.Length && Matches(a[r], hash, key) && Clean(a[..], w, r))
    ensures r == -1 <==> !HasCleanMatch(a[..], w, hash, key)
    ensures r != -1 ==> forall p :: 0 <= p < a.Length && Matches(a[p], hash, key) ==> a[r].psl <= a[p].psl
  {
    var n := a.Length;
    ghost var h := Home(hash, n);
    var i := Home(hash, n);
    var dist: nat := 0;
    while a[i].psl >= dist && !(a[i].hash == hash && a[i].key == key)
      invariant 0 <= dist <= n && i == At(n, h, dist)
      invariant forall t :: 0 <= t < dist ==> a[At(n, h, t)].psl >= t && !Matches(a[At(n, h, t)], hash, key)
      decreases n - dist
    {
      i := Next(n, i);
      dist := dist + 1;
    }
    if a[i].psl < dist {
      r := -1;
      forall p | 0 <= p < n && Matches(a[p], hash, key) && Clean(a[..], w, p) ensures false {
        var d := a[p].psl;
        assert At(n, h, d) == p;
        if dist <= d { CleanGrade(a[..], w, p, dist); }
      }
    } else {
      r := i;
      forall t | 0 <= t <= a[r].psl ensures At(n, h, t) >= w {
        assert a[At(n, h, t)].psl >= 0;
      }
      forall p | 0 <= p < n && Matches(a[p], hash, key) ensures a[r].psl <= a[p].psl {
        assert At(n, h, a[p].psl) == p;
      }
    }
  }

  /** With bucket j being refilled from its successor, everything but bucket j is graded. */
  ghost predicate Shifting(s: seq<Entry>, w: nat, j: nat) {
    && |s| > 1 && j < |s| && w <= j && Placed(s) && EmptyBelow(s, w) && Live(s[j])
    && (forall i {:trigger Prev(|s|, i)} :: 0 <= i < |s| && i != j && (w == 0 || i != w) ==>
          s[i].psl <= s[Prev(|s|, i)].psl + 1)
    && (w == 0 || j != w ==> s[Next(|s|, j)].psl <= s[Prev(|s|, j)].psl + 2)
  }

  lemma ShiftStart(s: seq<Entry>, w: nat, j: nat)
    requires Wf(s, w) && j < |s| && Live(s[j])
    ensures Shifting(s, w, j)
  {
    assert Prev(|s|, Next(|s|, j)) == j;
    assert Prev(|s|, j) < |s|;
  }

  lemma ShiftStep(s: seq<Entry>, w: nat, j: nat, e: Entry)
    requires Shifting(s, w, j) && s[Next(|s|, j)].psl > 0
    requires e == s[Next(|s|, j)].(psl := s[Next(|s|, j)].psl - 1)
    ensures Shifting(s[j := e], w, Next(|s|, j))
  {
    var k := Next(|s|, j);
    assert Prev(|s|, k) == j && Prev(|s|, Next(|s|, k)) == k;
    assert w <= k;
    assert Placed(s[j := e]);
  }

  lemma ShiftItems(s: seq<Entry>, j: nat, k: nat, e: Entry)
    requires j < |s| && k < |s| && j != k && Live(e) && Live(s[k]) && RecOf(e) == RecOf(s[k])
    ensures Items(s[j := EMPTY]) == Items(s[j := e][k := EMPTY])
  {
    ItemsUpdate(s, j, EMPTY);
    ItemsUpdate(s, j, e);
    ItemsUpdate(s[j := e], k, EMPTY);
  }

  lemma ShiftStop(s: seq<Entry>, w: nat, j: nat, e: Entry)
    requires Shifting(s, w, j) && s[Next(|s|, j)].psl <= 0 && e.psl == -1
    ensures Wf(s[j := e], w)
  {
    assert Prev(|s|, Next(|s|, j)) == j;
    assert Placed(s[j := e]);
  }

  /** The state of a deletion: bucket j is to be refilled, bucket z is empty, and the entries other
      than the one in bucket j are rest. */
  ghost predicate Deleting(s: seq<Entry>, w: nat, j: nat, z: nat, rest: multiset<Rec>) {
    Shifting(s, w, j) && z < |s| && z != j && !Live(s[z]) && Items(s[j := EMPTY]) == rest
  }

  lemma DeletingStep(s: seq<Entry>, w: nat, j: nat, z: nat, rest: multiset<Rec>, e: Entry)
    requires Deleting(s, w, j, z, rest) && s[Next(|s|, j)].psl > 0
    requires e == s[Next(|s|, j)].(psl := s[Next(|s|, j)].psl - 1)
    ensures Deleting(s[j := e], w, Next(|s|, j), z, rest)
    ensures Dist(|s|, Next(|s|, j), z) < Dist(|s|, j, z)
  {
    ShiftStep(s, w, j, e);
    ShiftItems(s, j, Next(|s|, j), e);
    StepToward(|s|, j, j, z);
  }

  lemma DeletingStop(s: seq<Entry>, w: nat, j: nat, z: nat, rest: multiset<Rec>, e: Entry)
    requires Deleting(s, w, j, z, rest) && s[Next(|s|, j)].psl <= 0 && e.psl == -1
    ensures Wf(s[j := e], w) && Items(s[j := e]) == rest
  {
    ShiftStop(s, w, j, e);
    ItemsUpdate(s, j, EMPTY);
    ItemsUpdate(s, j, e);
  }

  method DeleteAt(a: array<Entry>, i: nat, ghost w: nat)
    requires Wf(a[..], w) && i < a.Length && Live(a[i]) && |Items(a[..])| < a.Length
    modifies a
    ensures Wf(a[..], w)
    ensures old(Items(a[..])) == Items(a[..]) + multiset{old(RecOf(a[i]))}
  {
    var n := a.Length;
    var j: nat := i;
    ghost var s := a[..];
    ghost var z := Vacancy(s);
    ghost var rest := Items(s[i := EMPTY]);
    ItemsUpdate(s, i, EMPTY);
    ShiftStart(s, w, i);
    while a[Next(n, j)].psl > 0
      invariant j < n && s == a[..] && Deleting(s, w, j, z, rest)
      decreases Dist(n, j, z)
    {
      var e := a[Next(n, j)].(psl := a[Next(n, j)].psl - 1);
      DeletingStep(s, w, j, z, rest, e);
      a[j] := e;
      s := s[j := e];
      j := Next(n, j);
    }
    var e := a[j].(psl := -1);
    DeletingStop(s, w, j, z, rest, e);
    a[j] := e;
    assert a[..] == s[j := e];
  }
}
