/** The Robin Hood hash table with incremental rehash: two slot arrays while a migration runs, a
    batch of at most 16 entries moved by every operation. */
module RobinHoodTable {
  import opened Basics
  import opened RobinHoodSlots
  import opened RobinHoodProbe
  import opened RobinHoodView

  const INIT_CAP := 16
  const BATCH := 16
  const MAX_LEN := 0xFFFF_FFFF

  // ---------------------------------------------------------------- growth limit

  function GrowthLimit(cap: nat): (limit: nat) {
    (cap / 100) * 85 + ((cap % 100) * 85) / 100
  }

  /** The split arithmetic computes floor(0.85 cap), and doubling leaves room for a whole migration. */
  lemma GrowthLimitIs85Percent(cap: nat)
    ensures GrowthLimit(cap) == cap * 85 / 100
    ensures cap >= INIT_CAP ==> 13 <= GrowthLimit(cap) < cap
    ensures GrowthLimit(2 * cap) >= 2 * GrowthLimit(cap)
  {
    var q, r := cap / 100, cap % 100;
    assert cap == 100 * q + r;
    assert cap * 85 == 100 * (85 * q) + r * 85;
  }

  // ---------------------------------------------------------------- one batch, on sequences

  /** The position after the k-th live bucket at or after pos. */
  function BatchEnd(s: seq<Entry>, pos: nat, k: nat): (end: nat)
    ensures pos <= |s| ==> pos <= end <= |s|
    decreases |s| - pos
  {
    if k == 0 || pos >= |s| then pos
    else BatchEnd(s, pos + 1, if Live(s[pos]) then k - 1 else k)
  }

  /** After the batch that every operation starts with, a lookup of key succeeds: the key is in the
      new array, or in a bucket the batch moves there, or its probe path stays clear of the window. */
  ghost predicate Visible(ns: seq<Entry>, os: seq<Entry>, end: nat, hash: nat, key: Bytes)
    requires Placed(os)
  {
    HasMatch(ns, hash, key) || HasMatch(os[..Min(end, |os|)], hash, key) || HasCleanMatch(os, end, hash, key)
  }

  /** A lookup of key in the arrays as they are succeeds. */
  ghost predicate Finds(ns: seq<Entry>, os: seq<Entry>, w: nat, hash: nat, key: Bytes)
    requires Placed(os)
  {
    HasMatch(ns, hash, key) || HasCleanMatch(os, w, hash, key)
  }

  lemma HasMatchItems(s: seq<Entry>, hash: nat, key: Bytes)
    ensures HasMatch(s, hash, key) <==> exists r :: r in Items(s) && r.hash == hash && r.key == key
  {
    if HasMatch(s, hash, key) {
      var p :| 0 <= p < |s| && Matches(s[p], hash, key);
      ItemsHas(s, RecOf(s[p]));
    }
    if r :| r in Items(s) && r.hash == hash && r.key == key {
      ItemsHas(s, r);
      var p :| 0 <= p < |s| && Live(s[p]) && RecOf(s[p]) == r;
      assert Matches(s[p], hash, key);
    }
  }

  lemma CleanKept(os: seq<Entry>, cur: seq<Entry>, end: nat, hash: nat, key: Bytes)
    requires Placed(os) && Drained(os, cur, end)
    ensures HasCleanMatch(os, end, hash, key) <==> HasCleanMatch(cur, end, hash, key)
  {
    if HasCleanMatch(os, end, hash, key) {
      var p :| 0 <= p < |os| && Matches(os[p], hash, key) && Clean(os, end, p);
      assert At(|os|, Home(os[p].hash, |os|), os[p].psl) == p;
      assert Matches(cur[p], hash, key) && Clean(cur, end, p);
    }
    if HasCleanMatch(cur, end, hash, key) {
      var p :| 0 <= p < |cur| && Matches(cur[p], hash, key) && Clean(cur, end, p);
      assert Matches(os[p], hash, key) && Clean(os, end, p);
    }
  }

  lemma VisibleAfterBatch(ns: seq<Entry>, os: seq<Entry>, ns': seq<Entry>, cur: seq<Entry>, end: nat, hash: nat,
                          key: Bytes)
    requires Placed(os) && Drained(os, cur, end) && Items(ns') == Items(ns) + Items(os[..end])
    ensures Visible(ns, os, end, hash, key) <==> Finds(ns', cur, end, hash, key)
  {
    HasMatchItems(ns, hash, key);
    HasMatchItems(os[..end], hash, key);
    HasMatchItems(ns', hash, key);
    CleanKept(os, cur, end, hash, key);
  }

  lemma ClearBucket(s: seq<Entry>, m: nat, e: Entry)
    requires Wf(s, m) && m < |s| && e.psl == -1
    ensures Wf(s[m := e], m + 1)
  {
    assert Prev(|s|, m) < |s|;
    assert Placed(s[m := e]);
  }

  lemma ItemsPrefixStep(s: seq<Entry>, m: nat)
    requires m < |s|
    ensures Items(s[..m + 1]) == Items(s[..m]) + Item(s[m])
  {
    assert s[..m + 1][..m] == s[..m];
  }

  lemma Overwrite(s: seq<Entry>, w: nat, i: nat, e: Entry)
    requires Wf(s, w) && i < |s| && Live(s[i]) && e.hash == s[i].hash && e.psl == s[i].psl
    ensures Wf(s[i := e], w)
    ensures Items(s[i := e]) == Items(s) - multiset{RecOf(s[i])} + multiset{RecOf(e)}
    ensures RecOf(s[i]) in Items(s) && |Items(s[i := e])| == |Items(s)|
  {
    assert Wf(s[i := e], w);
    hide *;
    ItemsUpdate(s, i, e);
    assert multiset{RecOf(s[i])} <= Items(s);
  }

  /** The state of the batch loop on the old array: buckets below m are empty, the rest untouched. */
  ghost predicate Drained(os: seq<Entry>, cur: seq<Entry>, m: nat) {
    |cur| == |os| && m <= |os| && Wf(cur, m) && forall i :: m <= i < |os| ==> cur[i] == os[i]
  }

  /** The batch loop: os and ns are the two arrays' contents at its start, cur and nw now; moved of
      the want entries have left the old array, which still holds live, and the loop will stop at end. */
  datatype Batch = Batch(os: seq<Entry>, ns: multiset<Rec>, want: nat, end: nat) {
    ghost predicate At(cur: seq<Entry>, nw: multiset<Rec>, m: nat, moved: nat) {
      && Drained(os, cur, m) && moved <= want && want <= moved + |Items(cur)|
      && nw + Items(cur) == ns + Items(os) && nw == ns + Items(os[..m])
      && BatchEnd(os, m, want - moved) == end
    }

    lemma Room(cur: seq<Entry>, nw: multiset<Rec>, m: nat, moved: nat)
      requires At(cur, nw, m, moved) && moved < want
      ensures m < |os| == |cur|
    {
      if m == |os| { ItemsNone(cur); }
    }

    lemma Move(cur: seq<Entry>, nw: multiset<Rec>, m: nat, moved: nat, e: Entry)
      requires At(cur, nw, m, moved) && moved < want && m < |os| && Live(cur[m]) && e.psl == -1
      ensures At(cur[m := e], nw + multiset{RecOf(cur[m])}, m + 1, moved + 1)
      ensures |Items(cur)| == |Items(cur[m := e])| + 1
    {
      hide Wf, Items;
      ClearBucket(cur, m, e);
      ItemsUpdate(cur, m, e);
      ItemsPrefixStep(os, m);
    }

    lemma Skip(cur: seq<Entry>, nw: multiset<Rec>, m: nat, moved: nat)
      requires At(cur, nw, m, moved) && moved < want && m < |os| && !Live(cur[m])
      ensures At(cur, nw, m + 1, moved)
    {
      assert cur[m := cur[m]] == cur;
      ClearBucket(cur, m, cur[m]);
      ItemsPrefixStep(os, m);
    }
  }

  /** One record of the key was exchanged for another, and nothing else changed. */
  ghost predicate ReplacedBy(was: multiset<Rec>, now: multiset<Rec>, key: Bytes, r: Rec, q: Rec) {
    r in was && r.key == key && now == was - multiset{r} + multiset{q}
  }

  /** A record of the key, one of the new array when that holds any; front is what the new array holds. */
  ghost predicate Reached(front: multiset<Rec>, all: multiset<Rec>, key: Bytes, r: Rec) {
    r in all && r.key == key && (Has(front, key) ==> r in front)
  }

  ghost predicate Hashed(hash: Bytes -> nat, ms: multiset<Rec>) {
    forall r :: r in ms ==> r.hash == hash(r.key)
  }

  /** The table invariant on values: ns and os are the two arrays, os empty when no migration is in
      flight, w the migration position.  The last line is the budget that lets a migration finish
      before the new array fills: each insertion pays for one batch. */
  ghost predicate Ok(hash: Bytes -> nat, ns: seq<Entry>, os: seq<Entry>, w: nat, size: nat, growAt: nat, live: nat) {
    && |ns| >= INIT_CAP && Wf(ns, 0)
    && growAt == GrowthLimit(|ns|) && size <= growAt < |ns|
    && size == |Items(ns)| + live && live == |Items(os)|
    && Hashed(hash, Items(ns) + Items(os))
    && if os == [] then w == 0 else
         2 * |os| == |ns| && Wf(os, w) && live < |os| && live <= BATCH * (growAt - size)
  }

  method AllocSlots(cap: nat) returns (a: array<Entry>)
    requires cap > 1
    ensures fresh(a) && a.Length == cap && Wf(a[..], 0) && Items(a[..]) == multiset{}
  {
    a := new Entry[cap](_ => EMPTY);
    ItemsNone(a[..]);
  }

  /** Move entries from the old array until the batch is full or the old array is empty. */
  method Drain(slots: array<Entry>, oldSlots: array<Entry>, pos: nat, live: nat, ghost b: Batch)
    returns (pos': nat, live': nat)
    requires slots != oldSlots && Wf(slots[..], 0) && live == |Items(oldSlots[..])|
    requires b.want == Min(BATCH, live) && b.At(oldSlots[..], Items(slots[..]), pos, 0)
    requires |Items(slots[..])| + live < slots.Length
    modifies slots, oldSlots
    ensures Wf(slots[..], 0) && live' == live - b.want == |Items(oldSlots[..])|
    ensures b.At(oldSlots[..], Items(slots[..]), pos', b.want)
  {
    hide Wf, Items, Drained;
    var moved: nat := 0;
    pos', live' := pos, live;
    ghost var cur := oldSlots[..];
    ghost var nw := Items(slots[..]);
    while moved < BATCH && live' > 0
      invariant cur == oldSlots[..] && nw == Items(slots[..]) && moved + live' == live
      invariant live' == |Items(cur)| && |nw| + live' < slots.Length
      invariant Wf(slots[..], 0) && b.At(cur, nw, pos', moved)
      decreases |b.os| - pos'
    {
      b.Room(cur, nw, pos', moved);
      var e := oldSlots[pos'];
      if Live(e) {
        b.Move(cur, nw, pos', moved, e.(psl := -1));
        InsertEntry(slots, e);
        oldSlots[pos'] := e.(psl := -1);
        cur := cur[pos' := e.(psl := -1)];
        nw := Items(slots[..]);
        live' := live' - 1;
        moved := moved + 1;
      } else {
        b.Skip(cur, nw, pos', moved);
      }
      pos' := pos' + 1;
    }
  }

  ghost function BatchStart(hash: Bytes -> nat, ns: seq<Entry>, os: seq<Entry>, w: nat, size: nat, growAt: nat,
                            live: nat)
    : (b: Batch)
    requires Ok(hash, ns, os, w, size, growAt, live) && os != []
    ensures b == Batch(os, Items(ns), Min(BATCH, live), BatchEnd(os, w, Min(BATCH, live)))
    ensures b.At(os, Items(ns), w, 0) && live == |Items(os)| && Wf(ns, 0) && |Items(ns)| + live < |ns|
  {
    ItemsNone(os[..w]);
    Batch(os, Items(ns), Min(BATCH, live), BatchEnd(os, w, Min(BATCH, live)))
  }

  /** A batch changes no answer but those of Sees: what it leaves findable is what was visible before. */
  lemma BatchSees(hash: Bytes -> nat, ns: seq<Entry>, os: seq<Entry>, end: nat, ns': seq<Entry>, cur: seq<Entry>,
                  os': seq<Entry>, w': nat)
    requires Placed(os) && Drained(os, cur, end) && Items(ns') == Items(ns) + Items(os[..end])
    requires (os' == cur && w' == end) || (os' == [] && Items(cur) == multiset{})
    ensures Placed(os')
    ensures forall key :: Visible(ns, os, end, hash(key), key) <==> Finds(ns', os', w', hash(key), key)
  {
    forall key ensures Visible(ns, os, end, hash(key), key) <==> Finds(ns', os', w', hash(key), key) {
      VisibleAfterBatch(ns, os, ns', cur, end, hash(key), key);
      if os' == [] && HasCleanMatch(cur, end, hash(key), key) {
        var p :| 0 <= p < |cur| && Matches(cur[p], hash(key), key) && Clean(cur, end, p);
        ItemsHas(cur, RecOf(cur[p]));
      }
    }
  }

  lemma OkPlaced(hash: Bytes -> nat, ns: seq<Entry>, os: seq<Entry>, w: nat, size: nat, growAt: nat, live: nat)
    requires Ok(hash, ns, os, w, size, growAt, live)
    ensures Placed(os) && Wf(ns, 0) && |Items(ns)| < |ns|
    ensures os != [] ==> Wf(os, w) && |Items(os)| < |os|
  {
  }

  lemma OkIdle(hash: Bytes -> nat, ns: seq<Entry>, w: nat, size: nat, growAt: nat, live: nat)
    requires Ok(hash, ns, [], w, size, growAt, live)
    ensures live == 0
  {
  }

  lemma BatchDone(hash: Bytes -> nat, ns: seq<Entry>, os: seq<Entry>, w: nat, size: nat, growAt: nat, live: nat,
                  b: Batch, ns': seq<Entry>, cur: seq<Entry>, w': nat, live': nat)
    requires Ok(hash, ns, os, w, size, growAt, live) && os != []
    requires b == Batch(os, Items(ns), Min(BATCH, live), BatchEnd(os, w, Min(BATCH, live)))
    requires |ns'| == |ns| && Wf(ns', 0) && b.At(cur, Items(ns'), w', b.want)
    requires live' == live - b.want == |Items(cur)|
    ensures w' == b.end <= |os| && Items(ns') + Items(cur) == Items(ns) + Items(os)
    ensures Items(ns') == Items(ns) + Items(os[..w'])
    ensures live' == 0 ==> Ok(hash, ns', [], 0, size, growAt, 0) && Items(cur) == multiset{}
    ensures live' > 0 ==>
      && cur != [] && Ok(hash, ns', cur, w', size, growAt, live') && Drained(os, cur, w')
      && live' + BATCH <= BATCH * (growAt - size)
  {
    assert |Items(ns')| + |Items(cur)| == |Items(ns)| + |Items(os)| by {
      assert |Items(ns') + Items(cur)| == |Items(ns) + Items(os)|;
    }
    if live' == 0 {
      assert Items(ns') + Items([]) == Items(ns') + Items(cur);
    }
  }

  lemma OkOverwrite(hash: Bytes -> nat, ns: seq<Entry>, os: seq<Entry>, w: nat, size: nat, growAt: nat, live: nat,
                    inOld: bool, i: nat, e: Entry)
    requires Ok(hash, ns, os, w, size, growAt, live)
    requires var s := if inOld then os else ns;
             i < |s| && Live(s[i]) && e.hash == s[i].hash && e.key == s[i].key && e.psl == s[i].psl
    ensures var s := if inOld then os else ns;
            var ns', os' := if inOld then ns else ns[i := e], if inOld then os[i := e] else os;
            && Ok(hash, ns', os', w, size, growAt, live)
            && RecOf(s[i]) in Items(ns) + Items(os)
            && Items(ns') + Items(os') == Items(ns) + Items(os) - multiset{RecOf(s[i])} + multiset{RecOf(e)}
  {
    hide Wf, Items, GrowthLimit;
    var s := if inOld then os else ns;
    assert RecOf(e).hash == hash(RecOf(e).key) by { ItemsUpdate(s, i, e); assert RecOf(s[i]) in Items(s); }
    Overwrite(s, if inOld then w else 0, i, e);
  }

  lemma OkGrow(hash: Bytes -> nat, ns: seq<Entry>, w: nat, size: nat, growAt: nat, live: nat, nw: seq<Entry>)
    requires Ok(hash, ns, [], w, size, growAt, live) && size + 1 > growAt
    requires |nw| == 2 * |ns| && Wf(nw, 0) && Items(nw) == multiset{}
    ensures Ok(hash, nw, ns, 0, size, GrowthLimit(|nw|), size)
    ensures size <= BATCH * (GrowthLimit(|nw|) - size - 1) && size < GrowthLimit(|nw|)
    ensures Items(nw) + Items(ns) == Items(ns) + Items([])
  {
    hide Wf;
    GrowthLimitIs85Percent(|ns|);
    GrowthLimitIs85Percent(2 * |ns|);
    assert Items(nw) + Items(ns) == Items(ns) + Items([]);
  }

  lemma OkInsert(hash: Bytes -> nat, ns: seq<Entry>, os: seq<Entry>, w: nat, size: nat, growAt: nat, live: nat,
                 ns': seq<Entry>, r: Rec)
    requires Ok(hash, ns, os, w, size, growAt, live) && size < growAt
    requires os != [] ==> live <= BATCH * (growAt - size - 1)
    requires |ns'| == |ns| && Wf(ns', 0) && Items(ns') == Items(ns) + multiset{r} && r.hash == hash(r.key)
    ensures Ok(hash, ns', os, w, size + 1, growAt, live)
    ensures Items(ns') + Items(os) == Items(ns) + Items(os) + multiset{r}
  {
    hide Wf, Items, GrowthLimit;
  }

  lemma OkDelete(hash: Bytes -> nat, ns: seq<Entry>, os: seq<Entry>, w: nat, size: nat, growAt: nat, live: nat,
                 inOld: bool, s': seq<Entry>, r: Rec)
    requires Ok(hash, ns, os, w, size, growAt, live)
    requires var s := if inOld then os else ns;
             |s'| == |s| > 0 && Wf(s', if inOld then w else 0) && Items(s) == Items(s') + multiset{r}
    ensures size > 0 && (inOld ==> live > 0)
    ensures var ns', os' := if inOld then ns else s', if inOld then s' else os;
            && Ok(hash, ns', os', w, size - 1, growAt, if inOld then live - 1 else live)
            && Items(ns) + Items(os) == Items(ns') + Items(os') + multiset{r}
  {
    hide Wf, Items, GrowthLimit;
    var s := if inOld then os else ns;
    assert |Items(s)| == |Items(s')| + 1;
  }

  class RhTable {
    const hash: Bytes -> nat
    var slots: array<Entry>
    var size: nat
    var growAt: nat
    var oldSlots: array?<Entry>
    var oldLive: nat
    var migratePos: nat

    ghost function OldSeq(): seq<Entry>
      reads this, oldSlots
    {
      if oldSlots == null then [] else oldSlots[..]
    }

    /** Every stored record, of both arrays. */
    ghost function All(): multiset<Rec>
      reads this, slots, oldSlots
    {
      Items(slots[..]) + Items(OldSeq())
    }

    ghost predicate Valid()
      reads this, slots, oldSlots
    {
      && (oldSlots != null ==> oldSlots != slots && oldSlots.Length > 0)
      && Ok(hash, slots[..], OldSeq(), migratePos, size, growAt, oldLive)
    }

    /** Where the next batch will stop. */
    ghost function WindowAfterBatch(): nat
      reads this, oldSlots
    {
      BatchEnd(OldSeq(), migratePos, Min(BATCH, oldLive))
    }

    /** What the new array holds after the next batch. */
    ghost function Front(): multiset<Rec>
      reads this, slots, oldSlots
    {
      Items(slots[..]) + Items(OldSeq()[..Min(WindowAfterBatch(), |OldSeq()|)])
    }

    ghost predicate Sees(key: Bytes)
      requires Valid()
      reads this, slots, oldSlots
    {
      Visible(slots[..], OldSeq(), WindowAfterBatch(), hash(key), key)
    }

    ghost predicate FindsNow(key: Bytes)
      requires Valid()
      reads this, slots, oldSlots
    {
      Finds(slots[..], OldSeq(), migratePos, hash(key), key)
    }

    /** With no migration in flight nothing is lost. */
    lemma SeesIdle(key: Bytes)
      requires Valid() && oldSlots == null
      ensures Sees(key) <==> FindsNow(key)
      ensures Sees(key) <==> Has(All(), key)
    {
      hide Wf;
      HasMatchItems(slots[..], hash(key), key);
      assert Has(All(), key) ==> exists r :: r in Items(slots[..]) && r.hash == hash(key) && r.key == key;
    }

    /** The key is stored, but the next operation on it will not find it. */
    ghost predicate Lost(key: Bytes)
      requires Valid()
      reads this, slots, oldSlots
    {
      Has(All(), key) && !Sees(key)
    }

    constructor (hash: Bytes -> nat)
      ensures Valid() && fresh(slots) && All() == multiset{} && oldSlots == null && this.hash == hash
      ensures slots.Length == INIT_CAP && size == 0
    {
      this.hash := hash;
      var a := AllocSlots(INIT_CAP);
      slots, size, growAt := a, 0, GrowthLimit(INIT_CAP);
      oldSlots, oldLive, migratePos := null, 0, 0;
    }

    method MigrateSomeSlow()
      requires Valid() && oldSlots != null
      modifies this, slots, oldSlots
      ensures Valid() && All() == old(All()) && size == old(size) && growAt == old(growAt)
      ensures slots == old(slots) && (oldSlots == null || oldSlots == old(oldSlots))
      ensures old(oldLive) <= BATCH <==> oldSlots == null
      ensures oldSlots == null ==> oldLive == 0
      ensures oldSlots != null ==>
        && oldLive == old(oldLive) - BATCH && migratePos == old(WindowAfterBatch())
        && Drained(old(OldSeq()), oldSlots[..], migratePos)
        && oldLive + BATCH <= BATCH * (growAt - size)
      ensures forall key :: old(Sees(key)) <==> FindsNow(key)
      ensures Items(slots[..]) == old(Front())
    {
      hide Ok, Wf, Items, Drained, BatchEnd, Visible, Finds;
      ghost var os, ns, w, live := oldSlots[..], slots[..], migratePos, oldLive;
      OkPlaced(hash, ns, os, w, size, growAt, live);
      ghost var b := BatchStart(hash, ns, os, w, size, growAt, live);
      migratePos, oldLive := Drain(slots, oldSlots, migratePos, oldLive, b);
      ghost var cur := oldSlots[..];
      BatchDone(hash, ns, os, w, size, growAt, live, b, slots[..], cur, migratePos, oldLive);
      if oldLive == 0 {
        oldSlots := null;
        migratePos := 0;
      }
      BatchSees(hash, ns, os, b.end, slots[..], cur, OldSeq(), migratePos);
    }

    /** The batch, then a probe of the new array and of what is left of the old one. */
    method Locate(key: Bytes) returns (target: array?<Entry>, i: nat)
      requires Valid()
      modifies this, slots, oldSlots
      ensures Valid() && All() == old(All()) && size == old(size) && growAt == old(growAt)
      ensures slots == old(slots) && (oldSlots == null || oldSlots == old(oldSlots))
      ensures oldSlots == null <==> old(oldLive) <= BATCH
      ensures oldSlots != null ==> oldLive + BATCH <= BATCH * (growAt - size)
      ensures oldLive == if old(oldLive) <= BATCH then 0 else old(oldLive) - BATCH
      ensures target != null <==> old(Sees(key))
      ensures target != null ==>
        (target == slots || target == oldSlots) && i < target.Length && Matches(target[i], hash(key), key)
      ensures target != null ==> Reached(old(Front()), All(), key, RecOf(target[i]))
      ensures target != null ==>
        forall p :: 0 <= p < target.Length && Matches(target[p], hash(key), key) ==> target[i].psl <= target[p].psl
    {
      hide Ok, Wf, Items, Drained, BatchEnd, Clean, Visible, Front;
      ghost var seen := Sees(key);
      if oldSlots == null {
        SeesIdle(key);
        IdleFront();
      }
      if oldSlots != null {
        MigrateSomeSlow();
      }
      OkPlaced(hash, slots[..], OldSeq(), migratePos, size, growAt, oldLive);
      CleanZero(slots[..], hash(key), key);
      var h := hash(key);
      i := 0;
      var r := FindIn(slots, h, key, 0);
      if r >= 0 {
        target, i := slots, r;
        StoredIn(key, slots, r);
        ItemsHas(slots[..], RecOf(slots[r]));
      } else {
        target := null;
        if oldSlots != null {
          var q := FindIn(oldSlots, h, key, migratePos);
          if q >= 0 {
            target, i := oldSlots, q;
            StoredIn(key, oldSlots, q);
            assert !Has(Items(slots[..]), key) by { NotInNew(key); }
          }
        }
      }
    }

    method MaybeGrow()
      requires Valid() && (oldSlots != null ==> oldLive + BATCH <= BATCH * (growAt - size))
      modifies this
      ensures Valid() && All() == old(All()) && size == old(size)
      ensures if old(oldSlots) == null && old(size) == old(growAt)
              then fresh(slots) && slots.Length == 2 * old(slots.Length) && oldSlots == old(slots) &&
                   oldLive == size && migratePos == 0
              else unchanged(this)
      ensures size < growAt && (oldSlots != null ==> oldLive <= BATCH * (growAt - size - 1))
    {
      hide Wf, Items, GrowthLimit;
      if oldSlots != null || size + 1 <= growAt {
        return;
      }
      var nw := AllocSlots(slots.Length * 2);
      OkGrow(hash, slots[..], migratePos, size, growAt, oldLive, nw[..]);
      oldSlots, oldLive, migratePos := slots, size, 0;
      slots, growAt := nw, GrowthLimit(nw.Length);
    }

    /** Lookup.  It answers as the map does exactly on the keys that are not Lost. */
    method Get(key: Bytes) returns (found: bool, val: Bytes)
      requires Valid()
      modifies this, slots, oldSlots
      ensures Valid() && All() == old(All())
      ensures found == old(Sees(key))
      ensures found ==> exists r :: Reached(old(Front()), All(), key, r) && r.val == val
      ensures Unique(All()) ==> (!old(Lost(key)) <==> found == (key in View(All())))
      ensures Unique(All()) && found ==> View(All())[key] == val
    {
      hide Ok, Wf, Items, Sees, Unique, View, Reached, Front;
      var target, i := Locate(key);
      found, val := target != null, [];
      if found {
        val := target[i].val;
        StoredIn(key, target, i);
        if Unique(All()) { ViewAt(All(), RecOf(target[i])); }
      }
    }

    /** What is in the new array is found by the next lookup. */
    lemma NewSees(key: Bytes, r: Rec)
      requires Valid() && r in Items(slots[..]) && r.hash == hash(key) && r.key == key
      ensures Sees(key)
    {
      hide Ok, Wf, Items;
      HasMatchItems(slots[..], hash(key), key);
    }

    lemma IdleFront()
      requires Valid() && oldSlots == null
      ensures oldLive == 0 && Items(slots[..]) == Front()
    {
      hide Wf;
    }

    lemma NotInNew(key: Bytes)
      requires Valid() && !HasMatch(slots[..], hash(key), key)
      ensures !Has(Items(slots[..]), key)
    {
      hide Wf, Items;
      HasMatchItems(slots[..], hash(key), key);
      assert forall r :: r in Items(slots[..]) ==> r in All();
    }

    lemma StoredIn(key: Bytes, target: array<Entry>, i: nat)
      requires Valid() && (target == slots || target == oldSlots)
      requires i < target.Length && Matches(target[i], hash(key), key)
      ensures RecOf(target[i]) in All() && Has(All(), key)
    {
      hide Ok;
      ItemsHas(target[..], RecOf(target[i]));
    }

    /** Store val in the located bucket. */
    method Overwrite(target: array<Entry>, i: nat, e: Entry)
      requires Valid() && (target == slots || target == oldSlots) && i < target.Length && Live(target[i])
      requires e.hash == target[i].hash && e.key == target[i].key && e.psl == target[i].psl
      modifies target
      ensures Valid() && old(RecOf(target[i])) in old(All())
      ensures All() == old(All()) - multiset{old(RecOf(target[i]))} + multiset{RecOf(e)}
    {
      hide Ok, Wf, Items;
      ghost var ns, os := slots[..], OldSeq();
      OkOverwrite(hash, ns, os, migratePos, size, growAt, oldLive, target == oldSlots, i, e);
      target[i] := e;
      assert target == oldSlots ==> OldSeq() == os[i := e] && slots[..] == ns;
      assert target == slots ==> OldSeq() == os && slots[..] == ns[i := e];
    }

    method Insert(key: Bytes, val: Bytes, meta: nat)
      requires Valid() && (oldSlots != null ==> oldLive + BATCH <= BATCH * (growAt - size))
      modifies this, slots
      ensures Valid() && All() == old(All()) + multiset{Rec(hash(key), key, val, meta)}
      ensures size == old(size) + 1 && Sees(key)
      ensures if old(oldSlots) == null && old(size) == old(growAt)
              then fresh(slots) && slots.Length == 2 * old(slots.Length) && oldSlots == old(slots) &&
                   oldLive == old(size) && migratePos == 0
              else slots == old(slots) && oldSlots == old(oldSlots) && oldLive == old(oldLive)
    {
      hide Ok, Wf, Items;
      MaybeGrow();
      ghost var ns := slots[..];
      OkPlaced(hash, ns, OldSeq(), migratePos, size, growAt, oldLive);
      var e := Entry(hash(key), key, val, 0, meta);
      InsertEntry(slots, e);
      OkInsert(hash, ns, OldSeq(), migratePos, size, growAt, oldLive, slots[..], RecOf(e));
      size := size + 1;
      NewSees(key, RecOf(e));
    }

    /** Insert or overwrite: 0, 1, or -1 when a length does not fit 32 bits.  On a table without
        duplicates it is map update exactly on the keys that are not Lost; on a Lost key it stores a
        second copy. */
    method Set(key: Bytes, val: Bytes) returns (rc: int)
      requires Valid()
      modifies this, slots, oldSlots
      ensures Valid()
      ensures rc == -1 <==> |key| > MAX_LEN || |val| > MAX_LEN
      ensures rc == -1 ==> All() == old(All())
      ensures rc != -1 ==> rc == if old(Sees(key)) then 1 else 0
      ensures rc == 0 ==> All() == old(All()) + multiset{Rec(hash(key), key, val, 0)} && Sees(key)
      ensures size == if rc == 0 then old(size) + 1 else old(size)
      ensures rc == 0 ==>
        if old(oldLive) <= BATCH && old(size) == old(growAt)
        then fresh(slots) && slots.Length == 2 * old(slots.Length) && oldSlots == old(slots) &&
             oldLive == old(size) && migratePos == 0
        else slots == old(slots) && oldSlots == if old(oldLive) <= BATCH then null else old(oldSlots)
      ensures rc != 0 ==> slots == old(slots) && (oldSlots == null || oldSlots == old(oldSlots))
      ensures rc == 0 && oldSlots == old(oldSlots) ==>
        oldLive == if old(oldLive) <= BATCH then 0 else old(oldLive) - BATCH
      ensures rc == 1 ==> exists r: Rec ::
        Reached(old(Front()), old(All()), key, r) && ReplacedBy(old(All()), All(), key, r, r.(val := val))
      ensures rc != -1 && old(Unique(All())) ==> (!old(Lost(key)) <==> Unique(All()))
      ensures rc != -1 && old(Unique(All())) && !old(Lost(key)) ==> View(All()) == old(View(All()))[key := val]
    {
      hide Ok, Wf, Items, Sees, Unique, View, Reached, Front, Has, BatchEnd;
      if |key| > MAX_LEN || |val| > MAX_LEN {
        return -1;
      }
      ghost var all := All();
      var target, i := Locate(key);
      if target != null {
        ghost var r := RecOf(target[i]);
        StoredIn(key, target, i);
        Overwrite(target, i, target[i].(val := val));
        assert ReplacedBy(all, All(), key, r, r.(val := val));
        if Unique(all) { ViewReplace(all, r, r.(val := val)); }
        return 1;
      }
      Insert(key, val, 0);
      ghost var r := Rec(hash(key), key, val, 0);
      if Has(all, key) { DuplicateBreaksUnique(all, r); } else if Unique(all) { ViewInsert(all, r); }
      return 0;
    }

    /** As Set, storing v1 + v2 and meta, and handing back the value it replaced. */
    method SetEx2(key: Bytes, v1: Bytes, v2: Bytes, meta: nat) returns (rc: int, oldVal: Bytes)
      requires Valid()
      modifies this, slots, oldSlots
      ensures Valid()
      ensures rc == -1 <==> |key| > MAX_LEN || |v1| + |v2| > MAX_LEN
      ensures rc == -1 ==> All() == old(All())
      ensures rc != -1 ==> rc == if old(Sees(key)) then 1 else 0
      ensures rc == 0 ==> oldVal == [] && All() == old(All()) + multiset{Rec(hash(key), key, v1 + v2, meta)}
      ensures rc == 0 ==> Sees(key)
      ensures rc == 1 ==> exists r: Rec ::
        && r.val == oldVal && Reached(old(Front()), old(All()), key, r)
        && ReplacedBy(old(All()), All(), key, r, r.(val := v1 + v2, meta := meta))
      ensures rc != -1 && old(Unique(All())) ==> (!old(Lost(key)) <==> Unique(All()))
      ensures rc != -1 && old(Unique(All())) && !old(Lost(key)) ==> View(All()) == old(View(All()))[key := v1 + v2]
    {
      hide Ok, Wf, Items, Sees, Unique, View, Reached, Front;
      oldVal := [];
      if |key| > MAX_LEN || |v1| > MAX_LEN || |v2| > MAX_LEN || |v1| + |v2| > MAX_LEN {
        return -1, [];
      }
      ghost var all := All();
      var target, i := Locate(key);
      if target != null {
        ghost var r := RecOf(target[i]);
        StoredIn(key, target, i);
        oldVal := target[i].val;
        Overwrite(target, i, target[i].(val := v1 + v2, meta := meta));
        assert ReplacedBy(all, All(), key, r, r.(val := v1 + v2, meta := meta));
        if Unique(all) { ViewReplace(all, r, r.(val := v1 + v2, meta := meta)); }
        return 1, oldVal;
      }
      Insert(key, v1 + v2, meta);
      ghost var r := Rec(hash(key), key, v1 + v2, meta);
      if Has(all, key) { DuplicateBreaksUnique(all, r); } else if Unique(all) { ViewInsert(all, r); }
      return 0, [];
    }

    /** Removal.  It is map removal exactly on the keys that are not Lost. */
    method Del(key: Bytes) returns (removed: bool)
      requires Valid()
      modifies this, slots, oldSlots
      ensures Valid() && removed == old(Sees(key))
      ensures !removed ==> All() == old(All())
      ensures removed ==> exists r :: Reached(old(Front()), old(All()), key, r) && old(All()) == All() + multiset{r}
      ensures oldSlots == null <==> old(oldLive) <= BATCH
      ensures slots == old(slots) && (oldSlots == null || oldSlots == old(oldSlots))
      ensures old(Unique(All())) ==> Unique(All())
      ensures old(Unique(All())) ==> (!old(Lost(key)) <==> View(All()) == old(View(All())) - {key})
    {
      hide Ok, Wf, Items, Sees, Unique, View, Reached, Front;
      ghost var all := All();
      var target, i := Locate(key);
      removed := target != null;
      if removed {
        ghost var r := RecOf(target[i]);
        StoredIn(key, target, i);
        Remove(target, i);
        assert All() == all - multiset{r};
        if Unique(all) { ViewRemove(all, r); }
      }
    }

    method Remove(target: array<Entry>, i: nat)
      requires Valid() && (target == slots || target == oldSlots) && i < target.Length && Live(target[i])
      modifies this, target
      ensures Valid() && old(All()) == All() + multiset{old(RecOf(target[i]))}
      ensures size == old(size) - 1 && slots == old(slots) && oldSlots == old(oldSlots)
    {
      hide Ok, Wf, Items, RecOf;
      ghost var ns, os, inOld := slots[..], OldSeq(), target == oldSlots;
      OkPlaced(hash, ns, os, migratePos, size, growAt, oldLive);
      DeleteAt(target, i, if inOld then migratePos else 0);
      OkDelete(hash, ns, os, migratePos, size, growAt, oldLive, inOld, target[..], old(RecOf(target[i])));
      if target == oldSlots {
        oldLive := oldLive - 1;
      }
      size := size - 1;
    }
  }
}
