/** Slot arrays of the Robin Hood hash table: the facts about one array, as a sequence of buckets.

    A bucket with psl = -1 is empty; otherwise psl is the cyclic distance of the entry from its
    home bucket.  During an incremental rehash the buckets of the old array below a window
    position w have been emptied, which breaks the grading only at the step into bucket w. */
module RobinHoodSlots {
  import B = Bytes

  type Bytes = seq<bv8>

  datatype Entry = Entry(hash: nat, key: Bytes, val: Bytes, psl: int, meta: nat)

  /** What a live bucket stores, without its position. */
  datatype Rec = Rec(hash: nat, key: Bytes, val: Bytes, meta: nat)

  const EMPTY := Entry(0, [], [], -1, 0)

  predicate Live(e: Entry) { e.psl >= 0 }

  function RecOf(e: Entry): Rec { Rec(e.hash, e.key, e.val, e.meta) }

  predicate Matches(e: Entry, hash: nat, key: Bytes) { Live(e) && e.hash == hash && e.key == key }

  /** The source masks with cap - 1, cap being a power of two. */
  function Home(hash: nat, n: nat): (h: nat)
    requires n > 0
    ensures h < n
    decreases hash
  {
    if hash < n then hash else Home(hash - n, n)
  }

  /** The home bucket is the hash modulo the capacity, which a mask computes when the capacity is a power of two. */
  lemma {:induction false} HomeIsMod(hash: nat, n: nat)
    requires n > 0
    ensures Home(hash, n) == hash % n
    decreases hash
  {
    if hash >= n {
      HomeIsMod(hash - n, n);
      var q, r := (hash - n) / n, (hash - n) % n;
      assert hash == n * (q + 1) + r;
      B.ModUnique(hash, n, q + 1, r);
    }
  }

  function Next(n: nat, i: nat): (j: nat)
    requires i < n
    ensures j < n
  {
    if i + 1 == n then 0 else i + 1
  }

  function Prev(n: nat, i: nat): (j: nat)
    requires i < n
    ensures j < n && Next(n, j) == i
  {
    if i == 0 then n - 1 else i - 1
  }

  /** Cyclic distance from bucket h forward to bucket i. */
  function Dist(n: nat, h: nat, i: nat): (d: nat)
    requires h < n && i < n
    ensures d < n
  {
    if h <= i then i - h else i + n - h
  }

  /** The bucket t steps after bucket h. */
  function At(n: nat, h: nat, t: nat): (i: nat)
    requires h < n && t <= n
    ensures i < n
  {
    if h + t < n then h + t else h + t - n
  }

  /** One step forward, from a bucket other than z that lies before z on the way from h. */
  lemma StepToward(n: nat, h: nat, i: nat, z: nat)
    requires h < n && i < n && z < n && i != z && Dist(n, h, i) <= Dist(n, h, z)
    ensures Dist(n, h, Next(n, i)) == Dist(n, h, i) + 1 <= Dist(n, h, z)
    ensures Dist(n, Next(n, i), z) < Dist(n, i, z)
    ensures Prev(n, Next(n, i)) == i
  {
  }

  ghost predicate Placed(s: seq<Entry>) {
    forall i :: 0 <= i < |s| ==>
      s[i].psl >= -1 && (Live(s[i]) ==> s[i].psl == Dist(|s|, Home(s[i].hash, |s|), i))
  }

  /** Each bucket's psl is at most one more than the previous bucket's, except into bucket w > 0. */
  ghost predicate Graded(s: seq<Entry>, w: nat) {
    forall i {:trigger Prev(|s|, i)} :: 0 <= i < |s| && (w == 0 || i != w) ==>
      s[i].psl <= s[Prev(|s|, i)].psl + 1
  }

  ghost predicate EmptyBelow(s: seq<Entry>, w: nat) {
    w <= |s| && forall i :: 0 <= i < w ==> s[i].psl == -1
  }

  /** The invariant of one slot array whose first w buckets have been migrated away. */
  ghost predicate Wf(s: seq<Entry>, w: nat) {
    |s| > 1 && Placed(s) && Graded(s, w) && EmptyBelow(s, w)
  }

  /** The probe path of the entry in bucket p, home bucket to p, meets no bucket below w. */
  ghost predicate Clean(s: seq<Entry>, w: nat, p: nat)
    requires p < |s| && Placed(s) && Live(s[p])
  {
    forall t :: 0 <= t <= s[p].psl ==> At(|s|, Home(s[p].hash, |s|), t) >= w
  }

  ghost predicate HasMatch(s: seq<Entry>, hash: nat, key: Bytes) {
    exists p :: 0 <= p < |s| && Matches(s[p], hash, key)
  }

  ghost predicate HasCleanMatch(s: seq<Entry>, w: nat, hash: nat, key: Bytes)
    requires Placed(s)
  {
    exists p :: 0 <= p < |s| && Matches(s[p], hash, key) && Clean(s, w, p)
  }

  /** A path is clean exactly when it starts at or after the window and does not wrap around. */
  lemma CleanIff(s: seq<Entry>, w: nat, p: nat)
    requires Placed(s) && w <= p < |s| && Live(s[p])
    ensures Clean(s, w, p) <==> w == 0 || w <= Home(s[p].hash, |s|) <= p
  {
    var h := Home(s[p].hash, |s|);
    assert At(|s|, h, 0) == h;
    if w > 0 && p < h {
      assert At(|s|, h, |s| - h) == 0;
    }
  }

  lemma CleanZero(s: seq<Entry>, hash: nat, key: Bytes)
    requires Placed(s)
    ensures HasCleanMatch(s, 0, hash, key) <==> HasMatch(s, hash, key)
  {
    if HasMatch(s, hash, key) {
      var p :| 0 <= p < |s| && Matches(s[p], hash, key);
      assert Clean(s, 0, p);
    }
  }

  // ---------------------------------------------------------------- contents

  function Item(e: Entry): multiset<Rec> {
    if Live(e) then multiset{RecOf(e)} else multiset{}
  }

  ghost function Items(s: seq<Entry>): multiset<Rec> {
    if s == [] then multiset{} else Items(s[..|s| - 1]) + Item(s[|s| - 1])
  }

  lemma {:induction false} ItemsUpdate(s: seq<Entry>, i: nat, e: Entry)
    requires i < |s|
    ensures Item(s[i]) <= Items(s)
    ensures Items(s[i := e]) == Items(s) - Item(s[i]) + Item(e)
  {
    hide Item;
    var n := |s| - 1;
    var head := s[..n];
    if i < n {
      ItemsUpdate(head, i, e);
      assert s[i := e][..n] == head[i := e];
    } else {
      assert s[i := e][..n] == head;
    }
  }

  lemma {:induction false} ItemsHas(s: seq<Entry>, r: Rec)
    ensures r in Items(s) <==> exists i :: 0 <= i < |s| && Live(s[i]) && RecOf(s[i]) == r
  {
    if s != [] {
      var n := |s| - 1;
      ItemsHas(s[..n], r);
      if r in Items(s[..n]) {
        var i :| 0 <= i < n && Live(s[..n][i]) && RecOf(s[..n][i]) == r;
        assert Live(s[i]);
      }
      if exists i :: 0 <= i < |s| && Live(s[i]) && RecOf(s[i]) == r {
        var i :| 0 <= i < |s| && Live(s[i]) && RecOf(s[i]) == r;
        if i < n { assert Live(s[..n][i]); }
      }
    }
  }

  lemma {:induction false} ItemsNone(s: seq<Entry>)
    requires forall i :: 0 <= i < |s| ==> !Live(s[i])
    ensures Items(s) == multiset{}
  {
    if s != [] {
      ItemsNone(s[..|s| - 1]);
    }
  }

  lemma {:induction false} VacancyExists(s: seq<Entry>)
    requires |Items(s)| < |s|
    ensures exists i :: 0 <= i < |s| && !Live(s[i])
  {
    var n := |s| - 1;
    assert |Items(s)| == |Items(s[..n])| + |Item(s[n])|;
    if Live(s[n]) {
      VacancyExists(s[..n]);
      var i :| 0 <= i < n && !Live(s[..n][i]);
      assert !Live(s[i]);
    }
  }

  /** A non-full array has an empty bucket. */
  ghost function Vacancy(s: seq<Entry>): (z: nat)
    requires |Items(s)| < |s|
    ensures z < |s| && !Live(s[z])
  {
    VacancyExists(s);
    var i :| 0 <= i < |s| && !Live(s[i]);
    i
  }

  // ---------------------------------------------------------------- probe paths

  /** Along a path that does not step into the window boundary, psl never falls below the probe count. */
  lemma {:induction false} PathGrade(s: seq<Entry>, w: nat, p: nat, t: nat)
    requires Wf(s, w) && p < |s| && Live(s[p]) && t <= s[p].psl
    requires w == 0 || forall u :: t < u <= s[p].psl ==> At(|s|, Home(s[p].hash, |s|), u) != w
    ensures s[At(|s|, Home(s[p].hash, |s|), t)].psl >= t
    decreases s[p].psl - t
  {
    var h := Home(s[p].hash, |s|);
    if t < s[p].psl {
      PathGrade(s, w, p, t + 1);
      assert Prev(|s|, At(|s|, h, t + 1)) == At(|s|, h, t);
    }
  }

  lemma CleanGrade(s: seq<Entry>, w: nat, p: nat, t: nat)
    requires Wf(s, w) && p < |s| && Live(s[p]) && t <= s[p].psl && Clean(s, w, p)
    ensures s[At(|s|, Home(s[p].hash, |s|), t)].psl >= t
  {
    var h := Home(s[p].hash, |s|);
    if w > 0 {
      forall u | t < u <= s[p].psl ensures At(|s|, h, u) != w {
        assert At(|s|, h, u - 1) >= w;
      }
    }
    PathGrade(s, w, p, t);
  }

  /** The path of a live entry of a fully graded array passes no empty bucket. */
  lemma PathFull(s: seq<Entry>, p: nat, z: nat)
    requires Wf(s, 0) && p < |s| && Live(s[p]) && z < |s| && !Live(s[z])
    ensures Dist(|s|, Home(s[p].hash, |s|), z) > s[p].psl
  {
    var h := Home(s[p].hash, |s|);
    var t := Dist(|s|, h, z);
    if t <= s[p].psl {
      assert At(|s|, h, t) == z;
      PathGrade(s, 0, p, t);
    }
  }
}
