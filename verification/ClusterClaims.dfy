/** Slot claims: what merging, adopting and promotion do to ownership, for every table. */
module ClusterClaims {
  import opened SlotBitmap
  import opened ClusterNode

  function Max(a: U64, b: U64): U64 { if a > b then a else b }

  datatype Claim = Claim(who: nat, slots: Bitmap, epoch: U64)

  /** The table with the claimant's epoch raised to the claim's. */
  function Raised(ns: seq<Node>, c: nat, epoch: U64): seq<Node>
    requires c < |ns|
  {
    ns[c := ns[c].(epoch := Max(ns[c].epoch, epoch))]
  }

  /** The claimant beats every other holder of the slot. */
  ghost predicate Wins(ns: seq<Node>, c: nat, s: nat)
    requires c < |ns|
  {
    forall o: nat :: Owns(ns, o, s) && o != c ==> Beats(ns[c], ns[o])
  }

  /** Who holds a slot after a claim: the claimant when it claims and wins, others unless they yield to it. */
  ghost predicate MergedOwns(ns: seq<Node>, c: nat, claims: bool, i: nat, s: nat)
    requires c < |ns|
  {
    if i == c then claims && Wins(ns, c, s)
    else Owns(ns, i, s) && !(claims && Beats(ns[c], ns[i]))
  }

  /** The outcome of merging a claim of another node. */
  ghost predicate Merged(ns: seq<Node>, claim: Claim, now: seq<Node>) {
    && claim.who < |ns|
    && var up := Raised(ns, claim.who, claim.epoch);
       && SlotsOnly(up, now)
       && forall i: nat, s: nat :: s < SLOTS ==> Owns(now, i, s) == MergedOwns(up, claim.who, Has(claim.slots, s), i, s)
  }

  /** The outcome of adopting a claim: the claimant gets the slots, nobody else keeps them. */
  ghost predicate Adopted(ns: seq<Node>, claim: Claim, now: seq<Node>) {
    && claim.who < |ns|
    && var up := Raised(ns, claim.who, claim.epoch);
       SlotsOnly(up, now) && forall i: nat, s: nat :: s < SLOTS ==>
         Owns(now, i, s) == if Has(claim.slots, s) then i == claim.who else Owns(ns, i, s)
  }

  /** Node me takes all slots of node m. */
  ghost predicate TakenOver(ns: seq<Node>, me: nat, m: nat, now: seq<Node>) {
    me < |ns| && m < |ns| && SlotsOnly(ns, now) && forall i: nat, s: nat ::
      Owns(now, i, s) == if i == me then Owns(ns, me, s) || Owns(ns, m, s) else i != m && Owns(ns, i, s)
  }

  lemma RaisedOwns(ns: seq<Node>, c: nat, epoch: U64)
    requires c < |ns|
    ensures forall i: nat, s: nat :: Owns(Raised(ns, c, epoch), i, s) == Owns(ns, i, s)
  {
  }

  // ---------------------------------------------------------------- at most one holder

  lemma MergeExclusive(ns: seq<Node>, claim: Claim, now: seq<Node>)
    requires Exclusive(ns) && Merged(ns, claim, now)
    ensures Exclusive(now)
  {
    hide Has, Beats;
    RaisedOwns(ns, claim.who, claim.epoch);
    var up := Raised(ns, claim.who, claim.epoch);
    forall i: nat, j: nat, s: nat | Owns(now, i, s) && Owns(now, j, s) ensures i == j {
      OwnsBound(now, i, s);
      assert Owns(now, i, s) == MergedOwns(up, claim.who, Has(claim.slots, s), i, s);
      assert Owns(now, j, s) == MergedOwns(up, claim.who, Has(claim.slots, s), j, s);
    }
  }

  lemma OwnsBound(ns: seq<Node>, i: nat, s: nat)
    requires Owns(ns, i, s)
    ensures i < |ns| && s < SLOTS
  {
  }

  lemma AdoptExclusive(ns: seq<Node>, claim: Claim, now: seq<Node>)
    requires Exclusive(ns) && Adopted(ns, claim, now)
    ensures Exclusive(now)
  {
    hide Has;
    forall i: nat, j: nat, s: nat | Owns(now, i, s) && Owns(now, j, s) ensures i == j { OwnsBound(now, i, s); }
  }

  lemma TakeOverExclusive(ns: seq<Node>, me: nat, m: nat, now: seq<Node>)
    requires Exclusive(ns) && TakenOver(ns, me, m, now)
    ensures Exclusive(now)
  {
  }

  // ---------------------------------------------------------------- epochs

  /** Every node but m has an epoch below m's. */
  ghost predicate Dominates(ns: seq<Node>, m: nat) {
    m < |ns| && forall i :: 0 <= i < |ns| && i != m ==> ns[i].epoch < ns[m].epoch
  }

  lemma MergeKeeps(ns: seq<Node>, claim: Claim, now: seq<Node>, m: nat)
    requires Merged(ns, claim, now) && Dominates(ns, m) && claim.who != m && claim.epoch < ns[m].epoch
    ensures Dominates(now, m) && now[m].epoch == ns[m].epoch && forall s: nat :: Owns(now, m, s) == Owns(ns, m, s)
  {
    hide Has, Above;
    RaisedOwns(ns, claim.who, claim.epoch);
    forall s: nat ensures Owns(now, m, s) == Owns(ns, m, s) {
      if s < SLOTS {
        assert Owns(now, m, s) == MergedOwns(Raised(ns, claim.who, claim.epoch), claim.who, Has(claim.slots, s), m, s);
      }
      else { NoSlot(ns, m, s); NoSlot(now, m, s); }
    }
  }

  lemma NoSlot(ns: seq<Node>, i: nat, s: nat)
    requires s >= SLOTS
    ensures !Owns(ns, i, s)
  {
  }

  ghost predicate MergeRun(claims: seq<Claim>, tables: seq<seq<Node>>) {
    |tables| == |claims| + 1 && forall k :: 0 <= k < |claims| ==> Merged(tables[k], claims[k], tables[k + 1])
  }

  /** A node that dominates keeps its slots through any run of lower claims of other nodes. */
  lemma {:induction false} DominantKeeps(claims: seq<Claim>, tables: seq<seq<Node>>, m: nat, n: nat)
    requires MergeRun(claims, tables) && n <= |claims| && Dominates(tables[0], m)
    requires forall k :: 0 <= k < |claims| ==> claims[k].who != m && claims[k].epoch < tables[0][m].epoch
    ensures Dominates(tables[n], m) && tables[n][m].epoch == tables[0][m].epoch
    ensures forall s: nat :: Owns(tables[n], m, s) == Owns(tables[0], m, s)
  {
    hide Merged, Owns, Dominates;
    if n > 0 {
      DominantKeeps(claims, tables, m, n - 1);
      MergeKeeps(tables[n - 1], claims[n - 1], tables[n], m);
    }
  }
}
