/** Reading a multiset of stored records as a finite map from keys to values. */
module RobinHoodView {
  import opened RobinHoodSlots

  ghost predicate Has(ms: multiset<Rec>, key: Bytes) {
    exists r :: r in ms && r.key == key
  }

  /** No key is stored twice. */
  ghost predicate Unique(ms: multiset<Rec>) {
    (forall r :: r in ms ==> ms[r] == 1) &&
    (forall r, q :: r in ms && q in ms && r.key == q.key ==> r == q)
  }

  ghost function Keys(ms: multiset<Rec>): set<Bytes> {
    set r | r in ms :: r.key
  }

  ghost function Lookup(ms: multiset<Rec>, key: Bytes): (r: Rec)
    requires key in Keys(ms)
    ensures r in ms && r.key == key
  {
    var r :| r in ms && r.key == key; r
  }

  ghost function View(ms: multiset<Rec>): (m: map<Bytes, Bytes>)
    ensures forall k :: k in m <==> Has(ms, k)
  {
    map k | k in Keys(ms) :: Lookup(ms, k).val
  }

  lemma ViewAt(ms: multiset<Rec>, r: Rec)
    requires Unique(ms) && r in ms
    ensures r.key in View(ms) && View(ms)[r.key] == r.val
  {
    assert r.key in Keys(ms);
  }

  /** The map of a multiset without duplicates is the one that agrees with every record. */
  lemma ViewIs(ms: multiset<Rec>, m: map<Bytes, Bytes>)
    requires Unique(ms)
    requires forall r :: r in ms ==> r.key in m && m[r.key] == r.val
    requires forall k :: k in m ==> Has(ms, k)
    ensures View(ms) == m
  {
    forall k | k in View(ms) ensures k in m && View(ms)[k] == m[k] {
      hide View;
      var r := Lookup(ms, k);
      ViewAt(ms, r);
    }
  }

  lemma UniqueAfter(ms: multiset<Rec>, r: Rec)
    requires Unique(ms)
    ensures Unique(ms - multiset{r})
    ensures !Has(ms, r.key) ==> Unique(ms + multiset{r})
    ensures r in ms ==> forall q :: q in ms - multiset{r} <==> q in ms && q.key != r.key
  {
  }

  lemma ViewInsert(ms: multiset<Rec>, r: Rec)
    requires Unique(ms) && !Has(ms, r.key)
    ensures Unique(ms + multiset{r}) && View(ms + multiset{r}) == View(ms)[r.key := r.val]
  {
    hide Unique, View;
    UniqueAfter(ms, r);
    var now := ms + multiset{r};
    forall q | q in now ensures q.key in View(ms)[r.key := r.val] && View(ms)[r.key := r.val][q.key] == q.val {
      if q != r { ViewAt(ms, q); }
    }
    forall k | k in View(ms)[r.key := r.val] ensures Has(now, k) {
      if k == r.key { assert r in now; } else { assert Lookup(ms, k) in now; }
    }
    ViewIs(now, View(ms)[r.key := r.val]);
  }

  lemma ViewRemove(ms: multiset<Rec>, r: Rec)
    requires Unique(ms) && r in ms
    ensures Unique(ms - multiset{r}) && View(ms - multiset{r}) == View(ms) - {r.key}
    ensures !Has(ms - multiset{r}, r.key)
  {
    hide Unique, View;
    UniqueAfter(ms, r);
    var now := ms - multiset{r};
    forall q | q in now ensures q.key in View(ms) - {r.key} && (View(ms) - {r.key})[q.key] == q.val {
      ViewAt(ms, q);
    }
    forall k | k in View(ms) - {r.key} ensures Has(now, k) {
      assert Lookup(ms, k) in now;
    }
    ViewIs(now, View(ms) - {r.key});
  }

  lemma ViewReplace(ms: multiset<Rec>, r: Rec, q: Rec)
    requires Unique(ms) && r in ms && q.key == r.key
    ensures Unique(ms - multiset{r} + multiset{q})
    ensures View(ms - multiset{r} + multiset{q}) == View(ms)[q.key := q.val]
  {
    hide Unique, View;
    ViewRemove(ms, r);
    ViewInsert(ms - multiset{r}, q);
  }

  /** Storing a record whose key is already there makes the key occur twice. */
  lemma DuplicateBreaksUnique(ms: multiset<Rec>, r: Rec)
    requires Has(ms, r.key)
    ensures !Unique(ms + multiset{r})
  {
    var q :| q in ms && q.key == r.key;
    assert (ms + multiset{r})[r] == ms[r] + 1;
    assert q in ms + multiset{r};
  }
}
