/** Merging claims of distinct nodes in any order gives the same ownership. */
module ClusterOrder {
  import opened SlotBitmap
  import opened ClusterNode
  import opened ClusterClaims

  /** One claim each of distinct nodes, none of which drops a slot it holds. */
  ghost predicate Fair(ns: seq<Node>, claims: seq<Claim>) {
    && (forall k :: 0 <= k < |claims| ==> claims[k].who < |ns|)
    && (forall j, k :: 0 <= j < k < |claims| ==> claims[j].who != claims[k].who)
    && (forall k, s: nat :: 0 <= k < |claims| && Owns(ns, claims[k].who, s) ==> Has(claims[k].slots, s))
  }

  /** The first n claims have one by node i for slot s, or i held the slot before. */
  ghost predicate Candidate(ns: seq<Node>, claims: seq<Claim>, n: nat, i: nat, s: nat) {
    Owns(ns, i, s) || exists k :: 0 <= k < n && k < |claims| && claims[k].who == i && Has(claims[k].slots, s)
  }

  /** The fields other than slots: epochs are raised by the claims done so far. */
  ghost predicate EpochsAfter(ns: seq<Node>, claims: seq<Claim>, n: nat, t: seq<Node>)
    requires n <= |claims|
  {
    && |t| == |ns|
    && (forall i :: 0 <= i < |ns| ==> t[i] == ns[i].(slots := t[i].slots, epoch := t[i].epoch))
    && (forall k :: 0 <= k < n && claims[k].who < |ns| ==>
          t[claims[k].who].epoch == Max(ns[claims[k].who].epoch, claims[k].epoch))
    && (forall i :: 0 <= i < |ns| && (forall k :: 0 <= k < n ==> claims[k].who != i) ==> t[i].epoch == ns[i].epoch)
  }

  /** The holder of a slot beats every other candidate. */
  ghost predicate Ranked(ns: seq<Node>, claims: seq<Claim>, n: nat, t: seq<Node>) {
    forall i: nat, j: nat, s: nat :: Owns(t, i, s) ==>
      Candidate(ns, claims, n, i, s) && (j != i && j < |t| && Candidate(ns, claims, n, j, s) ==> Beats(t[i], t[j]))
  }

  /** A slot with a candidate has a holder. */
  ghost predicate Covered(ns: seq<Node>, claims: seq<Claim>, n: nat, t: seq<Node>) {
    forall i: nat, s: nat :: Candidate(ns, claims, n, i, s) ==> Held(t, s)
  }

  ghost predicate Settled(ns: seq<Node>, claims: seq<Claim>, n: nat, t: seq<Node>)
    requires n <= |claims|
  {
    EpochsAfter(ns, claims, n, t) && Ranked(ns, claims, n, t) && Covered(ns, claims, n, t) && Exclusive(t) && Ids(t)
  }

  lemma CandidateStep(ns: seq<Node>, claims: seq<Claim>, n: nat, i: nat, s: nat)
    requires n < |claims|
    ensures Candidate(ns, claims, n + 1, i, s) <==>
      Candidate(ns, claims, n, i, s) || (claims[n].who == i && Has(claims[n].slots, s))
  {
    hide Has;
  }

  /** A node whose claim comes next has only its old slots as a candidate. */
  lemma NextCandidate(ns: seq<Node>, claims: seq<Claim>, n: nat, s: nat)
    requires Fair(ns, claims) && n < |claims| && Candidate(ns, claims, n, claims[n].who, s)
    ensures Has(claims[n].slots, s)
  {
    hide Has;
  }

  lemma RaisedBeats(t: seq<Node>, c: nat, e: U64, i: nat, j: nat)
    requires c < |t| && i < |t| && j < |t| && i != j
    ensures var up := Raised(t, c, e);
            && (j != c && Beats(t[i], t[j]) ==> Beats(up[i], up[j]))
            && (i != c && Beats(up[i], up[j]) ==> Beats(t[i], t[j]))
            && (i != c && j != c ==> Beats(up[i], up[j]) == Beats(t[i], t[j]))
  {
  }

  /** One claim for one slot, with at most one holder h before it. */
  lemma SlotMerge(t: seq<Node>, claim: Claim, now: seq<Node>, h: nat, s: nat)
    requires Merged(t, claim, now) && Exclusive(t) && Owns(t, h, s)
    ensures var up := Raised(t, claim.who, claim.epoch); var c := Has(claim.slots, s);
            && (h == claim.who ==> forall i: nat :: Owns(now, i, s) <==> c && i == h)
            && (h != claim.who ==> forall i: nat ::
                  Owns(now, i, s) <==> i == if c && Beats(up[claim.who], up[h]) then claim.who else h)
  {
    hide Has, Beats;
    OwnsBound(t, h, s);
    RaisedOwns(t, claim.who, claim.epoch);
    var up := Raised(t, claim.who, claim.epoch);
    forall i: nat ensures Owns(now, i, s) == MergedOwns(up, claim.who, Has(claim.slots, s), i, s) { }
  }

  lemma FreeSlotMerge(t: seq<Node>, claim: Claim, now: seq<Node>, s: nat)
    requires Merged(t, claim, now) && s < SLOTS && !Held(t, s)
    ensures forall i: nat :: Owns(now, i, s) <==> Has(claim.slots, s) && i == claim.who
  {
    hide Has, Beats;
    RaisedOwns(t, claim.who, claim.epoch);
    var up := Raised(t, claim.who, claim.epoch);
    forall i: nat ensures Owns(now, i, s) == (Has(claim.slots, s) && i == claim.who) {
      assert Owns(now, i, s) == MergedOwns(up, claim.who, Has(claim.slots, s), i, s);
    }
  }

  lemma EpochsStep(ns: seq<Node>, claims: seq<Claim>, n: nat, t: seq<Node>, now: seq<Node>)
    requires Fair(ns, claims) && n < |claims| && EpochsAfter(ns, claims, n, t) && Merged(t, claims[n], now)
    ensures EpochsAfter(ns, claims, n + 1, now)
  {
    hide Has, Beats, Owns, MergedOwns;
    var w := claims[n].who;
    assert t[w].epoch == ns[w].epoch;
  }

  lemma IdsStep(t: seq<Node>, claim: Claim, now: seq<Node>)
    requires Ids(t) && Merged(t, claim, now)
    ensures Ids(now)
  {
    hide Has, Beats, Owns, MergedOwns, IdValid;
    assert |now| == |t| && forall i :: 0 <= i < |t| ==> now[i].id == t[i].id;
  }

  lemma CoveredStep(ns: seq<Node>, claims: seq<Claim>, n: nat, t: seq<Node>, now: seq<Node>)
    requires Fair(ns, claims) && n < |claims| && Ranked(ns, claims, n, t) && Covered(ns, claims, n, t) && Exclusive(t)
    requires Merged(t, claims[n], now)
    ensures Covered(ns, claims, n + 1, now)
  {
    hide Has, Beats, Owns, Merged, Fair, Exclusive, Candidate;
    var m := n + 1;
    forall i: nat, s: nat | Candidate(ns, claims, m, i, s) ensures Held(now, s) {
      CoveredAt(ns, claims, n, t, now, i, s);
    }
  }

  lemma CoveredAt(ns: seq<Node>, claims: seq<Claim>, n: nat, t: seq<Node>, now: seq<Node>, i: nat, s: nat)
    requires Fair(ns, claims) && n < |claims| && Ranked(ns, claims, n, t) && Covered(ns, claims, n, t) && Exclusive(t)
    requires Merged(t, claims[n], now) && Candidate(ns, claims, n + 1, i, s)
    ensures Held(now, s)
  {
    hide Beats, Owns, Merged, Fair, Exclusive, Candidate, Has;
    CandidateStep(ns, claims, n, i, s);
    if Held(t, s) {
      var h: nat :| Owns(t, h, s);
      SlotMerge(t, claims[n], now, h, s);
      if h == claims[n].who { NextCandidate(ns, claims, n, s); assert Owns(now, h, s); }
      else { assert Owns(now, h, s) || Owns(now, claims[n].who, s); }
    } else {
      HasBound(claims[n].slots, s);
      FreeSlotMerge(t, claims[n], now, s);
      assert Owns(now, i, s);
    }
  }

  lemma HasBound(bm: Bitmap, s: nat)
    requires Has(bm, s)
    ensures s < SLOTS
  {
  }

  /** What the other fields of the table after a merge are. */
  lemma MergedKeys(t: seq<Node>, claim: Claim, now: seq<Node>, i: nat, j: nat)
    requires Merged(t, claim, now) && i < |t| && j < |t|
    ensures |now| == |t|
    ensures Beats(now[i], now[j]) == Beats(Raised(t, claim.who, claim.epoch)[i], Raised(t, claim.who, claim.epoch)[j])
    ensures now[i].id == t[i].id
  {
    hide Has, Owns, MergedOwns;
  }

  lemma MergedBounds(t: seq<Node>, claim: Claim, now: seq<Node>)
    requires Merged(t, claim, now)
    ensures claim.who < |t| && |now| == |t|
  {
  }

  lemma RankedAt(ns: seq<Node>, claims: seq<Claim>, n: nat, t: seq<Node>, now: seq<Node>, i: nat, j: nat, s: nat)
    requires Fair(ns, claims) && n < |claims| && Ranked(ns, claims, n, t) && Covered(ns, claims, n, t) && Exclusive(t)
    requires Ids(t)
    requires Merged(t, claims[n], now) && Owns(now, i, s)
    ensures Candidate(ns, claims, n + 1, i, s)
    ensures j != i && j < |now| && Candidate(ns, claims, n + 1, j, s) ==> Beats(now[i], now[j])
  {
    MergedBounds(t, claims[n], now);
    hide Owns, Merged, Fair, Exclusive, Candidate, Has, Beats, Ids;
    var w, up := claims[n].who, Raised(t, claims[n].who, claims[n].epoch);
    OwnsBound(now, i, s);
    MergedKeys(t, claims[n], now, w, w);
    CandidateStep(ns, claims, n, i, s);
    CandidateStep(ns, claims, n, j, s);
    if Held(t, s) {
      var h: nat :| Owns(t, h, s);
      OwnsBound(t, h, s);
      SlotMerge(t, claims[n], now, h, s);
      if j < |now| && j != i && Candidate(ns, claims, n + 1, j, s) {
        MergedKeys(t, claims[n], now, i, j);
        if i == h {
          HolderStays(ns, claims, n, t, h, j, s);
        } else {
          assert i == w && Beats(up[w], up[h]);
          if j != h { HolderYields(ns, claims, n, t, h, j, s); }
        }
      }
    } else {
      FreeSlotMerge(t, claims[n], now, s);
    }
  }

  /** The holder h keeps the slot and beats any other candidate j. */
  lemma HolderStays(ns: seq<Node>, claims: seq<Claim>, n: nat, t: seq<Node>, h: nat, j: nat, s: nat)
    requires n < |claims| && Ranked(ns, claims, n, t) && Ids(t) && Owns(t, h, s) && h < |t| && j < |t| && j != h
    requires claims[n].who < |t|
    requires Candidate(ns, claims, n + 1, j, s)
    requires h != claims[n].who ==>
      var up := Raised(t, claims[n].who, claims[n].epoch);
      !(Has(claims[n].slots, s) && Beats(up[claims[n].who], up[h]))
    requires Fair(ns, claims)
    ensures var up := Raised(t, claims[n].who, claims[n].epoch); Beats(up[h], up[j])
  {
    hide Owns, Fair, Candidate, Has, Beats;
    var w, up := claims[n].who, Raised(t, claims[n].who, claims[n].epoch);
    CandidateStep(ns, claims, n, j, s);
    if j == w {
      if Candidate(ns, claims, n, j, s) { NextCandidate(ns, claims, n, s); }
      BeatsTotal(up[w], up[h]);
    } else {
      RaisedBeats(t, w, claims[n].epoch, h, j);
    }
  }

  /** The claimant beats the holder h, and so any candidate j that h beat. */
  lemma HolderYields(ns: seq<Node>, claims: seq<Claim>, n: nat, t: seq<Node>, h: nat, j: nat, s: nat)
    requires n < |claims| && Ranked(ns, claims, n, t) && Ids(t) && Owns(t, h, s) && h < |t| && j < |t| && j != h
    requires claims[n].who < |t|
    requires Candidate(ns, claims, n + 1, j, s) && j != claims[n].who && h != claims[n].who
    requires Beats(Raised(t, claims[n].who, claims[n].epoch)[claims[n].who],
                   Raised(t, claims[n].who, claims[n].epoch)[h])
    ensures var up := Raised(t, claims[n].who, claims[n].epoch); Beats(up[claims[n].who], up[j])
  {
    hide Owns, Candidate, Has, Beats;
    var w, up := claims[n].who, Raised(t, claims[n].who, claims[n].epoch);
    CandidateStep(ns, claims, n, j, s);
    RaisedBeats(t, w, claims[n].epoch, h, j);
    BeatsTrans(up[w], up[h], up[j]);
  }

  lemma RankedStep(ns: seq<Node>, claims: seq<Claim>, n: nat, t: seq<Node>, now: seq<Node>)
    requires Fair(ns, claims) && n < |claims| && Ranked(ns, claims, n, t) && Covered(ns, claims, n, t) && Exclusive(t)
    requires Ids(t)
    requires Merged(t, claims[n], now)
    ensures Ranked(ns, claims, n + 1, now)
  {
    hide Merged, Fair, Exclusive, Candidate, Has, Beats, Ids, Covered;
    forall i: nat, j: nat, s: nat | Owns(now, i, s)
      ensures Candidate(ns, claims, n + 1, i, s)
      ensures j != i && j < |now| && Candidate(ns, claims, n + 1, j, s) ==> Beats(now[i], now[j])
    {
      RankedAt(ns, claims, n, t, now, i, j, s);
    }
  }

  lemma Start(ns: seq<Node>, claims: seq<Claim>)
    requires Ids(ns) && Exclusive(ns)
    ensures Settled(ns, claims, 0, ns)
  {
    hide Has, Beats;
  }

  /** After n merges the holder of each slot is the best of its n claimants and its first holder. */
  lemma {:induction false} RunSettles(claims: seq<Claim>, tables: seq<seq<Node>>, n: nat)
    requires MergeRun(claims, tables) && n <= |claims| && Ids(tables[0]) && Exclusive(tables[0])
    requires Fair(tables[0], claims)
    ensures Settled(tables[0], claims, n, tables[n])
  {
    hide Fair, Merged, EpochsAfter, Ranked, Covered, Exclusive, Ids;
    if n == 0 {
      Start(tables[0], claims);
    } else {
      RunSettles(claims, tables, n - 1);
      var ns, t, now := tables[0], tables[n - 1], tables[n];
      assert Merged(t, claims[n - 1], now);
      EpochsStep(ns, claims, n - 1, t, now);
      RankedStep(ns, claims, n - 1, t, now);
      CoveredStep(ns, claims, n - 1, t, now);
      MergeExclusive(t, claims[n - 1], now);
      IdsStep(t, claims[n - 1], now);
    }
  }

  /** Candidate i beats every other candidate. */
  ghost predicate Best(ns: seq<Node>, claims: seq<Claim>, t: seq<Node>, i: nat, s: nat) {
    && i < |t| && Candidate(ns, claims, |claims|, i, s)
    && forall j: nat :: j < |t| && j != i && Candidate(ns, claims, |claims|, j, s) ==> Beats(t[i], t[j])
  }

  /** A settled table gives each slot to the candidate that beats all others. */
  lemma BestHolds(ns: seq<Node>, claims: seq<Claim>, t: seq<Node>, i: nat, s: nat)
    requires Settled(ns, claims, |claims|, t)
    ensures Owns(t, i, s) <==> Best(ns, claims, t, i, s)
  {
    hide Has, Beats, Candidate, EpochsAfter, Exclusive;
    if Owns(t, i, s) {
      OwnsBound(t, i, s);
    } else if i < |t| && Candidate(ns, claims, |claims|, i, s) {
      assert Held(t, s);
      var h: nat :| Owns(t, h, s);
      OwnsBound(t, h, s);
      assert Beats(t[h], t[i]);
      BeatsTotal(t[h], t[i]);
    }
  }

  lemma SameCandidates(ns: seq<Node>, a: seq<Claim>, b: seq<Claim>, i: nat, s: nat)
    requires forall c :: c in a <==> c in b
    ensures Candidate(ns, a, |a|, i, s) <==> Candidate(ns, b, |b|, i, s)
  {
    hide Has, Owns;
    if Candidate(ns, a, |a|, i, s) && !Owns(ns, i, s) {
      var k :| 0 <= k < |a| && a[k].who == i && Has(a[k].slots, s);
      assert a[k] in b;
    }
    if Candidate(ns, b, |b|, i, s) && !Owns(ns, i, s) {
      var k :| 0 <= k < |b| && b[k].who == i && Has(b[k].slots, s);
      assert b[k] in a;
    }
  }

  lemma SameEpoch(ns: seq<Node>, a: seq<Claim>, b: seq<Claim>, ta: seq<Node>, tb: seq<Node>, i: nat)
    requires EpochsAfter(ns, a, |a|, ta) && EpochsAfter(ns, b, |b|, tb) && i < |ns|
    requires forall c :: c in a <==> c in b
    ensures ta[i].epoch == tb[i].epoch
  {
    if k :| 0 <= k < |a| && a[k].who == i {
      assert a[k] in b;
      var l :| 0 <= l < |b| && b[l] == a[k];
    } else {
      forall l | 0 <= l < |b| ensures b[l].who != i { assert b[l] in a; }
    }
  }

  /** The same claims in two orders lead to the same table. */
  lemma OrderIndependent(a: seq<Claim>, b: seq<Claim>, ta: seq<seq<Node>>, tb: seq<seq<Node>>)
    requires MergeRun(a, ta) && MergeRun(b, tb) && ta[0] == tb[0] && forall c :: c in a <==> c in b
    requires Ids(ta[0]) && Exclusive(ta[0]) && Fair(ta[0], a) && Fair(ta[0], b)
    ensures ta[|a|] == tb[|b|]
  {
    hide Fair, Ranked, Covered, Exclusive, Ids, Merged, Owns, Candidate, Beats;
    var ns := ta[0];
    RunSettles(a, ta, |a|);
    RunSettles(b, tb, |b|);
    var fa, fb := ta[|a|], tb[|b|];
    forall i: nat | i < |ns| ensures fa[i].epoch == fb[i].epoch { SameEpoch(ns, a, b, fa, fb, i); }
    SameButSlots(ns, fa, fb);
    forall i: nat, s: nat ensures Owns(fa, i, s) == Owns(fb, i, s) {
      BestHolds(ns, a, fa, i, s);
      BestHolds(ns, b, fb, i, s);
      forall j: nat ensures Candidate(ns, a, |a|, j, s) <==> Candidate(ns, b, |b|, j, s) {
        SameCandidates(ns, a, b, j, s);
      }
      forall j: nat, k: nat | j < |fa| && k < |fa| ensures Beats(fa[j], fa[k]) == Beats(fb[j], fb[k]) {
        SameBeats(fa[j], fa[k], fb[j], fb[k]);
      }
    }
    SameTable(fa, fb);
  }

  lemma SameButSlots(ns: seq<Node>, fa: seq<Node>, fb: seq<Node>)
    requires |fa| == |ns| == |fb|
    requires forall i :: 0 <= i < |ns| ==> fa[i] == ns[i].(slots := fa[i].slots, epoch := fa[i].epoch)
    requires forall i :: 0 <= i < |ns| ==> fb[i] == ns[i].(slots := fb[i].slots, epoch := fb[i].epoch)
    requires forall i: nat :: i < |ns| ==> fa[i].epoch == fb[i].epoch
    ensures SlotsOnly(fa, fb)
  {
  }
}
