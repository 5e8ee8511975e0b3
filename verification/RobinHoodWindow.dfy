/** The migration window: which keys a lookup misses while a rehash is in flight, when it misses
    none, and a run of the table that loses one. */
module RobinHoodWindow {
  import opened Basics
  import opened RobinHoodSlots
  import opened RobinHoodView
  import opened RobinHoodTable

  lemma {:induction false} PrefixGrows(s: seq<Entry>, a: nat, b: nat)
    requires a <= b <= |s|
    ensures Items(s[..a]) <= Items(s[..b])
    decreases b - a
  {
    hide Items, Item;
    if a < b {
      PrefixGrows(s, a, b - 1);
      ItemsPrefixStep(s, b - 1);
    }
  }

  /** A batch of k takes k entries, unless it reaches the end of the array. */
  lemma {:induction false} BatchCount(s: seq<Entry>, pos: nat, k: nat)
    requires pos <= |s|
    ensures var end := BatchEnd(s, pos, k);
            && |Items(s[..end])| <= |Items(s[..pos])| + k
            && (end == |s| || |Items(s[..end])| == |Items(s[..pos])| + k)
    decreases |s| - pos
  {
    if k != 0 && pos < |s| {
      ItemsPrefixStep(s, pos);
      BatchCount(s, pos + 1, if Live(s[pos]) then k - 1 else k);
    }
  }

  /** The batch that moves as many entries as there are moves them all. */
  lemma BatchTakesAll(s: seq<Entry>, w: nat)
    requires EmptyBelow(s, w)
    ensures Items(s[..BatchEnd(s, w, |Items(s)|)]) == Items(s)
  {
    var end := BatchEnd(s, w, |Items(s)|);
    ItemsNone(s[..w]);
    BatchCount(s, w, |Items(s)|);
    PrefixGrows(s, end, |s|);
    assert s[..|s|] == s;
    if end < |s| {
      assert |Items(s) - Items(s[..end])| == 0;
    }
  }

  /** The hidden entries, exactly: those of the old array behind the next window position whose
      path from home wraps around or starts before it. */
  ghost predicate Hidden(os: seq<Entry>, end: nat, p: nat) {
    end <= p < |os| && Live(os[p]) && end > 0 && !(end <= Home(os[p].hash, |os|) <= p)
  }

  /** A key in two buckets of one array is a duplicate. */
  lemma TwoBuckets(rest: multiset<Rec>, s: seq<Entry>, p: nat, q: nat)
    requires p < |s| && q < |s| && Live(s[p]) && Live(s[q]) && s[p].key == s[q].key && p != q
    ensures !Unique(rest + Items(s))
  {
    var r, o := RecOf(s[p]), RecOf(s[q]);
    ItemsUpdate(s, p, EMPTY);
    ItemsHas(s[p := EMPTY], o);
    assert Live(s[p := EMPTY][q]);
    assert Items(s)[o] >= (if r == o then 2 else 1) && Items(s)[r] >= 1;
    assert (rest + Items(s))[o] >= Items(s)[o];
    assert r in rest + Items(s) && o in rest + Items(s);
  }

  /** A key in both arrays is a duplicate. */
  lemma TwoArrays(ms: multiset<Rec>, s: seq<Entry>, p: nat)
    requires p < |s| && Live(s[p]) && Has(ms, s[p].key)
    ensures !Unique(ms + Items(s))
  {
    ItemsHas(s, RecOf(s[p]));
    var r :| r in ms && r.key == s[p].key;
    assert (ms + Items(s))[r] == ms[r] + Items(s)[r];
    assert r in ms + Items(s) && RecOf(s[p]) in ms + Items(s);
  }

  lemma StoredSomewhere(t: RhTable, key: Bytes)
    requires t.Valid() && Has(t.All(), key)
    ensures HasMatch(t.slots[..], t.hash(key), key) || HasMatch(t.OldSeq(), t.hash(key), key)
  {
    hide Wf, Items, Matches;
    HasMatchItems(t.slots[..], t.hash(key), key);
    HasMatchItems(t.OldSeq(), t.hash(key), key);
    var r :| r in t.All() && r.key == key;
    assert r in Items(t.slots[..]) || r in Items(t.OldSeq());
  }

  /** Within the last batch nothing is lost: every stored key is found again. */
  lemma NothingLostAtTheEnd(t: RhTable, key: Bytes)
    requires t.Valid() && t.oldLive <= BATCH && Has(t.All(), key)
    ensures t.Sees(key)
  {
    hide Wf, Clean, Items, Matches;
    var ns, os, end, h := t.slots[..], t.OldSeq(), t.WindowAfterBatch(), t.hash(key);
    StoredSomewhere(t, key);
    HasMatchItems(os, h, key);
    HasMatchItems(os[..Min(end, |os|)], h, key);
    if os != [] {
      assert EmptyBelow(os, t.migratePos) by { WindowEmpty(os, t.migratePos); }
      BatchTakesAll(os, t.migratePos);
    }
  }

  /** On a table without duplicates the lost keys are exactly those of the hidden buckets. */
  lemma LostIffHidden(t: RhTable, key: Bytes)
    requires t.Valid() && Unique(t.All())
    ensures t.Lost(key) <==> exists p: nat :: Hidden(t.OldSeq(), t.WindowAfterBatch(), p) && t.OldSeq()[p].key == key
  {
    var os, end, h := t.OldSeq(), t.WindowAfterBatch(), t.hash(key);
    if t.Lost(key) {
      StoredSomewhere(t, key);
      var p :| 0 <= p < |os| && Matches(os[p], h, key);
      LostIsHidden(t, key, p);
    }
    if p: nat :| Hidden(os, end, p) && os[p].key == key {
      HiddenIsLost(t, key, p);
    }
  }

  lemma LostIsHidden(t: RhTable, key: Bytes, p: nat)
    requires t.Valid() && t.Lost(key) && p < |t.OldSeq()| && Matches(t.OldSeq()[p], t.hash(key), key)
    ensures Hidden(t.OldSeq(), t.WindowAfterBatch(), p)
  {
    hide Wf, Items, Clean, BatchEnd;
    var os, end, h := t.OldSeq(), t.WindowAfterBatch(), t.hash(key);
    var moved := os[..Min(end, |os|)];
    assert forall q :: 0 <= q < |moved| ==> moved[q] == os[q];
    OkPlaced(t.hash, t.slots[..], os, t.migratePos, t.size, t.growAt, t.oldLive);
    if p >= end { CleanIff(os, end, p); }
  }

  lemma HiddenIsLost(t: RhTable, key: Bytes, p: nat)
    requires t.Valid() && Unique(t.All()) && Hidden(t.OldSeq(), t.WindowAfterBatch(), p) && t.OldSeq()[p].key == key
    ensures t.Lost(key)
  {
    hide Wf, Items, Clean, BatchEnd, Unique;
    var ns, os, end, h := t.slots[..], t.OldSeq(), t.WindowAfterBatch(), t.hash(key);
    ItemsHas(os, RecOf(os[p]));
    assert RecOf(os[p]) in t.All();
    if Has(Items(ns), key) { TwoArrays(Items(ns), os, p); }
    HasMatchItems(ns, h, key);
    forall q | 0 <= q < |os| && Matches(os[q], h, key) ensures q == p {
      if q != p { TwoBuckets(Items(ns), os, p, q); }
    }
    OkPlaced(t.hash, ns, os, t.migratePos, t.size, t.growAt, t.oldLive);
    CleanIff(os, end, p);
    assert forall q :: 0 <= q < |os[..Min(end, |os|)]| ==> os[..Min(end, |os|)][q] == os[q];
  }

  /** The old array holds the key with that value in a hidden bucket. */
  ghost predicate Hides(os: seq<Entry>, end: nat, key: Bytes, val: Bytes) {
    exists p: nat :: Hidden(os, end, p) && os[p].key == key && os[p].val == val
  }

  lemma LostIffHides(t: RhTable, key: Bytes)
    requires t.Valid() && Unique(t.All()) && key in View(t.All())
    ensures Has(t.All(), key)
    ensures t.Lost(key) <==> Hides(t.OldSeq(), t.WindowAfterBatch(), key, View(t.All())[key])
  {
    LostIffHidden(t, key);
    hide Ok, Wf, Items, BatchEnd, Unique, View, Visible;
    forall p: nat | Hidden(t.OldSeq(), t.WindowAfterBatch(), p) && t.OldSeq()[p].key == key
      ensures t.OldSeq()[p].val == View(t.All())[key]
    {
      ItemsHas(t.OldSeq(), RecOf(t.OldSeq()[p]));
      ViewAt(t.All(), RecOf(t.OldSeq()[p]));
    }
  }

  /** A store and the lookup after it, on a key that is not lost: a key that was not there is found with its new value;
      an overwritten one is lost at once if and only if its copy lies in a bucket of the old array that the batch of
      the lookup hides. */
  method StoreThenLookup(t: RhTable, key: Bytes, val: Bytes)
    returns (rc: int, found: bool, v: Bytes, ghost os: seq<Entry>, ghost end: nat)
    requires t.Valid() && Unique(t.All()) && !t.Lost(key) && |key| <= MAX_LEN && |val| <= MAX_LEN
    modifies t, t.slots, t.oldSlots
    ensures t.Valid() && View(t.All()) == old(View(t.All()))[key := val]
    ensures rc == 0 ==> found
    ensures rc == 1 ==> (!found <==> Hides(os, end, key, val))
    ensures found ==> v == val
  {
    hide Ok, Wf, Items, View, BatchEnd, Visible, Unique, Reached, Hides, ReplacedBy, Has;
    rc := t.Set(key, val);
    os, end := t.OldSeq(), t.WindowAfterBatch();
    LostIffHides(t, key);
    found, v := t.Get(key);
  }

  lemma WindowEmpty(s: seq<Entry>, w: nat)
    requires Wf(s, w)
    ensures EmptyBelow(s, w)
  {
  }

  // ---------------------------------------------------------------- a run that loses a key

  /** With every key at home in bucket 0, a batch that leaves entries behind hides them all. */
  lemma CollidingKeysHidden(t: RhTable) returns (p: nat)
    requires t.Valid() && t.oldSlots != null && t.oldLive > BATCH && t.migratePos == 0
    requires forall r :: r in t.All() ==> Home(r.hash, t.oldSlots.Length) == 0
    ensures Hidden(t.OldSeq(), t.WindowAfterBatch(), p)
    ensures forall q: nat :: p <= q < |t.OldSeq()| && Live(t.OldSeq()[q]) ==>
      Hidden(t.OldSeq(), t.WindowAfterBatch(), q)
  {
    hide Wf, BatchEnd, Items;
    var os, end := t.OldSeq(), t.WindowAfterBatch();
    BatchCount(os, 0, BATCH);
    ItemsNone(os[..0]);
    p := LiveAfter(os, end);
    forall q: nat | p <= q < |os| && Live(os[q]) ensures Hidden(os, end, q) {
      ItemsHas(os, RecOf(os[q]));
      assert RecOf(os[q]) in t.All();
    }
  }

  lemma {:induction false} LiveAfter(s: seq<Entry>, end: nat) returns (p: nat)
    requires end <= |s| && |Items(s[..end])| < |Items(s)|
    ensures end <= p < |s| && Live(s[p])
    decreases |s| - end
  {
    assert s[..|s|] == s;
    if end < |s| {
      ItemsPrefixStep(s, end);
      if Live(s[end]) { p := end; } else { p := LiveAfter(s, end + 1); }
    }
  }

  /** Twenty-eight distinct keys whose hashes are multiples of 64, so that they collide in arrays of 16, 32 and 64. */
  ghost predicate Colliding(hash: Bytes -> nat, keys: seq<Bytes>) {
    && |keys| == 28 && (forall i, j :: 0 <= i < j < 28 ==> keys[i] != keys[j])
    && forall i :: 0 <= i < 28 ==> hash(keys[i]) % 64 == 0 && |keys[i]| <= MAX_LEN
  }

  /** The states of a table filled with the first i keys: when it grows, and when it is migrating. */
  ghost predicate Filled(t: RhTable, keys: seq<Bytes>, i: nat)
    reads t, t.slots, t.oldSlots
  {
    && t.Valid() && t.size == i && i <= |keys| && (forall r :: r in t.All() ==> r.key in keys[..i])
    && t.slots.Length == (if i <= 13 then 16 else if i <= 27 then 32 else 64)
    && (i == 28 ==> t.oldSlots != null && t.oldLive == 27 && t.migratePos == 0)
    && (i == 14 ==> t.oldLive == 13)
    && (i != 14 && i != 28 ==> t.oldLive == 0)
  }

  lemma FilledLimits(t: RhTable, keys: seq<Bytes>, i: nat)
    requires Filled(t, keys, i)
    ensures t.growAt == if i <= 13 then 13 else if i <= 27 then 27 else 54
    ensures t.oldSlots == null ==> t.oldLive == 0
  {
    assert GrowthLimit(16) == 13 && GrowthLimit(32) == 27 && GrowthLimit(64) == 54;
  }

  lemma NextKey(hash: Bytes -> nat, keys: seq<Bytes>, i: nat)
    requires Colliding(hash, keys) && i < 28
    ensures |keys| == 28 && |keys[i]| <= MAX_LEN && keys[i] !in keys[..i] && keys[..i + 1] == keys[..i] + [keys[i]]
  {
  }

  method FillOne(t: RhTable, keys: seq<Bytes>, i: nat)
    requires i < 28 && Colliding(t.hash, keys) && Filled(t, keys, i) && Unique(t.All())
    modifies t, t.slots, t.oldSlots
    ensures Filled(t, keys, i + 1) && Unique(t.All())
    ensures t.slots == old(t.slots) || fresh(t.slots)
    ensures t.oldSlots == null || t.oldSlots == old(t.oldSlots) || t.oldSlots == old(t.slots)
  {
    hide Ok, Wf, Items, Unique, View, BatchEnd, Visible, Colliding;
    FilledLimits(t, keys, i);
    NextKey(t.hash, keys, i);
    var rc := t.Set(keys[i], []);
    assert rc == 0;
    if t.oldSlots == null { OkIdle(t.hash, t.slots[..], t.migratePos, t.size, t.growAt, t.oldLive); }
  }

  /** Inserting such keys ends in a migration with one of them lost. */
  method FillAll(hash: Bytes -> nat, keys: seq<Bytes>) returns (t: RhTable, key: Bytes)
    requires Colliding(hash, keys)
    ensures fresh(t) && fresh(t.slots) && (t.oldSlots != null ==> fresh(t.oldSlots))
    ensures t.Valid() && t.hash == hash && Unique(t.All()) && t.Lost(key) && |key| <= MAX_LEN && t.oldLive == 27
    ensures t.size < t.growAt
  {
    hide Ok, Wf, Items, View, BatchEnd, Filled, Visible, Unique, Colliding;
    t := new RhTable(hash);
    assert Filled(t, keys, 0) && Unique(t.All()) by { FilledStart(t, keys); }
    var i: nat := 0;
    while i < 28
      invariant i <= 28 && fresh(t) && fresh(t.slots) && (t.oldSlots != null ==> fresh(t.oldSlots))
      invariant Filled(t, keys, i) && Unique(t.All())
    {
      FillOne(t, keys, i);
      i := i + 1;
    }
    ghost var p := FilledHides(t, keys);
    var q: nat := t.oldSlots.Length - 1;
    while !Live(t.oldSlots[q])
      invariant p <= q < t.oldSlots.Length
      decreases q
    {
      q := q - 1;
    }
    key := t.oldSlots[q].key;
    HiddenIsLost(t, key, q);
    FilledKey(t, keys, key);
  }

  lemma FilledStart(t: RhTable, keys: seq<Bytes>)
    requires t.Valid() && t.size == 0 && t.slots.Length == 16 && t.All() == multiset{} && t.oldSlots == null
    ensures Filled(t, keys, 0) && Unique(t.All())
  {
  }

  lemma HomeZero(t: RhTable, keys: seq<Bytes>, r: Rec)
    requires Filled(t, keys, 28) && Colliding(t.hash, keys) && r in t.All()
    ensures t.oldSlots != null && t.oldSlots.Length > 0 && Home(r.hash, t.oldSlots.Length) == 0
  {
    hide Wf, Items, BatchEnd, Home;
    assert r.hash == t.hash(r.key) && t.oldSlots.Length == 32;
    HomeIsMod(r.hash, 32);
  }

  lemma FilledHides(t: RhTable, keys: seq<Bytes>) returns (p: nat)
    requires Filled(t, keys, 28) && Colliding(t.hash, keys)
    ensures t.Valid() && t.oldSlots != null
    ensures Hidden(t.OldSeq(), t.WindowAfterBatch(), p)
    ensures forall q: nat :: p <= q < |t.OldSeq()| && Live(t.OldSeq()[q]) ==>
      Hidden(t.OldSeq(), t.WindowAfterBatch(), q)
  {
    hide Ok, Wf, Items, BatchEnd, Home;
    forall r | r in t.All() ensures Home(r.hash, t.oldSlots.Length) == 0 { HomeZero(t, keys, r); }
    p := CollidingKeysHidden(t);
  }

  lemma FilledKey(t: RhTable, keys: seq<Bytes>, key: Bytes)
    requires Filled(t, keys, 28) && Colliding(t.hash, keys) && Has(t.All(), key)
    ensures |key| <= MAX_LEN && t.oldLive == 27 && t.size < t.growAt
  {
    hide Ok;
    FilledLimits(t, keys, 28);
  }

  /** The next lookup of that key fails. */
  method LoseAKey(hash: Bytes -> nat, keys: seq<Bytes>) returns (t: RhTable, key: Bytes, found: bool)
    requires Colliding(hash, keys)
    ensures fresh(t) && t.Valid() && Unique(t.All())
    ensures Has(t.All(), key) && !found
  {
    hide Ok, Wf, Items, View, BatchEnd, Visible, Unique, Colliding, Reached;
    t, key := FillAll(hash, keys);
    var v;
    found, v := t.Get(key);
  }

  /** Of a key that is stored again, one removal leaves a copy. */
  lemma CopyStays(ms: multiset<Rec>, q: Rec, now: multiset<Rec>, r: Rec)
    requires Has(ms, q.key) && ms + multiset{q} == now + multiset{r}
    ensures Has(now, q.key)
  {
    var o :| o in ms && o.key == q.key;
    if r != q { assert (now + multiset{r})[q] == now[q]; }
    else { assert now == now + multiset{r} - multiset{r} == ms; }
  }

  /** Storing a lost key and removing it leaves the first copy: the removed key is found again. */
  method RemovedKeyReturns(hash: Bytes -> nat, keys: seq<Bytes>, val: Bytes)
    returns (stored: int, removed: bool, found: bool)
    requires Colliding(hash, keys) && |val| <= MAX_LEN
    ensures stored == 0 && removed && found
  {
    hide Ok, Wf, Items, View, BatchEnd, Visible, Unique, Colliding, Reached;
    var t, key := FillAll(hash, keys);
    ghost var all := t.All();
    stored := t.Set(key, val);
    assert t.oldLive <= BATCH;
    NothingLostAtTheEnd(t, key);
    ghost var front, two := t.Front(), t.All();
    removed := t.Del(key);
    ghost var r :| Reached(front, two, key, r) && two == t.All() + multiset{r};
    CopyStays(all, Rec(hash(key), key, val, 0), t.All(), r);
    t.SeesIdle(key);
    var v;
    found, v := t.Get(key);
  }
}
