/** The cluster part of a server's database: node table, epochs, votes and the cached verdict. */
module ClusterDb {
  import opened Bytes
  import opened SlotBitmap
  import opened ClusterNode
  import opened ClusterClaims
  import opened ClusterVerdict
  import opened ClusterReports
  import opened ClusterSignature

  const DASH: seq<Byte> := [45]

  /** The copy of the cluster metadata that is carried to other workers. */
  datatype ClusterState = ClusterState(
    enabled: bool, nodes: seq<Node>, dirty: bool, changes: nat, currentEpoch: U64, timeout: U64,
    lastVote: U64, reqEpoch: U64, ackMask: set<nat>, ackCount: nat, failBroadcast: seq<Byte>)

  ghost predicate TableOk(ns: seq<Node>) {
    |ns| <= MAX_NODES && Ids(ns) && Exclusive(ns) && forall i :: 0 <= i < |ns| ==> ReportsOk(ns[i].reports)
  }

  lemma TableIds(ns: seq<Node>)
    requires TableOk(ns)
    ensures Ids(ns)
  {
  }

  ghost predicate AcksOk(mask: set<nat>, count: nat, n: nat) {
    count == |mask| && forall i :: i in mask ==> i < n
  }

  ghost predicate CacheOk(valid: bool, at: nat, changes: nat, cache: Verdict, ok: bool, ns: seq<Node>) {
    valid ==> at <= changes && (at == changes ==> cache == Fresh(ns) && ok == Ok(cache))
  }

  // ---------------------------------------------------------------- tables that the steps build

  function FreshNode(id: seq<Byte>): Node {
    Node(id, [], 0, 0, {Master}, 0, 0, 0, DASH, Empty(), [], 0)
  }

  lemma AddOk(ns: seq<Node>, id: seq<Byte>)
    requires TableOk(ns) && IdValid(id) && |ns| < MAX_NODES && forall i :: 0 <= i < |ns| ==> ns[i].id != id
    ensures TableOk(ns + [FreshNode(id)]) && Fresh(ns + [FreshNode(id)]) == Fresh(ns)
    ensures forall i: nat, s: nat :: Owns(ns + [FreshNode(id)], i, s) == Owns(ns, i, s)
  {
    hide Has, IdValid, Fresh;
    AddedVerdict(ns, FreshNode(id));
    var now := ns + [FreshNode(id)];
    forall i: nat, s: nat ensures Owns(now, i, s) == Owns(ns, i, s) { }
  }

  /** Changing fields other than id and slots, with good reports, keeps the table well formed. */
  lemma UpdateOk(ns: seq<Node>, i: nat, n: Node)
    requires TableOk(ns) && i < |ns| && n.id == ns[i].id && n.slots == ns[i].slots && ReportsOk(n.reports)
    ensures TableOk(ns[i := n]) && forall k: nat, s: nat :: Owns(ns[i := n], k, s) == Owns(ns, k, s)
  {
    hide Has, IdValid, ReportsOk;
    var now := ns[i := n];
    forall k: nat, s: nat ensures Owns(now, k, s) == Owns(ns, k, s) { }
    assert forall k :: 0 <= k < |ns| ==> now[k].id == ns[k].id;
  }

  /** Only slots changed, with at most one holder each: the table stays well formed. */
  lemma SlotsOk(ns: seq<Node>, now: seq<Node>)
    requires TableOk(ns) && SlotsOnly(ns, now) && Exclusive(now)
    ensures TableOk(now)
  {
    hide Has, IdValid, ReportsOk, Exclusive;
    assert forall k :: 0 <= k < |ns| ==> now[k].id == ns[k].id && now[k].reports == ns[k].reports;
  }

  lemma RaisedOk(ns: seq<Node>, c: nat, epoch: U64)
    requires TableOk(ns) && c < |ns|
    ensures TableOk(Raised(ns, c, epoch)) && Fresh(Raised(ns, c, epoch)) == Fresh(ns)
  {
    hide Has, IdValid, ReportsOk, Exclusive, Fresh, Ids;
    var n := ns[c].(epoch := Max(ns[c].epoch, epoch));
    UpdateOk(ns, c, n);
    SameVerdict(ns, ns[c := n]);
  }

  lemma RaisedBounded(ns: seq<Node>, c: nat, epoch: U64, current: U64)
    requires Bounded(ns, current) && c < |ns|
    ensures Bounded(Raised(ns, c, epoch), Max(current, epoch))
  {
  }

  lemma SlotsBounded(ns: seq<Node>, now: seq<Node>, current: U64)
    requires Bounded(ns, current) && SlotsOnly(ns, now)
    ensures Bounded(now, current)
  {
  }

  lemma MergedOk(ns: seq<Node>, claim: Claim, now: seq<Node>)
    requires TableOk(ns) && Merged(ns, claim, now)
    ensures TableOk(now)
  {
    MergeExclusive(ns, claim, now);
    hide Has, IdValid, ReportsOk, Exclusive, Ids, Fresh, MergedOwns;
    RaisedOk(ns, claim.who, claim.epoch);
    SlotsOk(Raised(ns, claim.who, claim.epoch), now);
  }

  lemma AdoptedOk(ns: seq<Node>, claim: Claim, now: seq<Node>)
    requires TableOk(ns) && Adopted(ns, claim, now)
    ensures TableOk(now)
  {
    AdoptExclusive(ns, claim, now);
    hide Has, IdValid, ReportsOk, Exclusive, Ids, Fresh, Owns;
    RaisedOk(ns, claim.who, claim.epoch);
    SlotsOk(Raised(ns, claim.who, claim.epoch), now);
  }

  /** The node of a replica that becomes a master. */
  function Promoted(n: Node, epoch: U64): Node {
    n.(flags := n.flags + {Master} - {Slave}, masterId := DASH, epoch := epoch)
  }

  /** Node me is promoted and takes the slots of its master, when that is known. */
  ghost predicate Succeeded(ns: seq<Node>, me: nat, epoch: U64, now: seq<Node>) {
    && me < |ns|
    && exists m ::
      && Found(ns, ns[me].masterId, m)
      && var base := ns[me := Promoted(ns[me], epoch)]; if m == -1 then now == base else TakenOver(base, me, m, now)
  }

  function Next(epoch: U64): U64 { if epoch == MAX_U64 then 0 else epoch + 1 }

  ghost predicate IsMyself(ns: seq<Node>, i: int) {
    if i == -1 then forall k :: 0 <= k < |ns| ==> Myself !in ns[k].flags
    else 0 <= i < |ns| && Myself in ns[i].flags && forall k :: 0 <= k < i ==> Myself !in ns[k].flags
  }

  ghost predicate Found(ns: seq<Node>, id: seq<Byte>, i: int) {
    if i == -1 then !IdValid(id) || forall k :: 0 <= k < |ns| ==> ns[k].id != id
    else 0 <= i < |ns| && IdValid(id) && ns[i].id == id
  }

  class Db {
    var enabled: bool
    var nodes: seq<Node>
    var dirty: bool
    var changes: nat
    var currentEpoch: U64
    var timeout: U64
    var lastVote: U64
    var reqEpoch: U64
    var ackMask: set<nat>
    var ackCount: nat
    var failBroadcast: seq<Byte>
    var cacheValid: bool
    var cacheChanges: nat
    var cacheSig: U64
    var cache: Verdict
    var cacheOk: bool

    /** All but the cached verdict. */
    ghost predicate Core()
      reads this
    {
      TableOk(nodes) && AcksOk(ackMask, ackCount, |nodes|) && (cacheValid ==> cacheChanges <= changes)
    }

    ghost predicate Valid()
      reads this
    {
      && TableOk(nodes) && AcksOk(ackMask, ackCount, |nodes|)
      && CacheOk(cacheValid, cacheChanges, changes, cache, cacheOk, nodes)
    }

    /** The cached verdict is out of date and will not be used. */
    ghost predicate Stale()
      reads this
    {
      cacheValid ==> cacheChanges < changes
    }

    /** The cached verdict was computed, or found good, for just this table. */
    ghost predicate Synced()
      reads this
    {
      cacheValid && cacheChanges == changes && cacheSig == Signature(nodes, dirty)
    }

    /** Where the next evaluation would use the cached verdict, it is right. */
    ghost predicate Trusty()
      reads this
    {
      Core() && (Synced() ==> cache == Fresh(nodes) && cacheOk == Ok(cache))
    }

    /** No node epoch and no vote is above the current epoch. */
    ghost predicate EpochsOk()
      reads this
    {
      Bounded(nodes, currentEpoch) && lastVote <= currentEpoch
    }

    constructor (enabled: bool, timeout: U64)
      ensures Valid() && EpochsOk() && nodes == [] && this.enabled == enabled && this.timeout == timeout
      ensures currentEpoch == lastVote == reqEpoch == 0 && ackMask == {} && !cacheValid
    {
      this.enabled, this.timeout := enabled, timeout;
      nodes, dirty, changes := [], true, 0;
      currentEpoch, lastVote, reqEpoch, ackMask, ackCount, failBroadcast := 0, 0, 0, {}, 0, [];
      cacheValid, cacheChanges, cacheSig, cache, cacheOk := false, 0, 0, Verdict(0, 0, 0, false), false;
    }

    // ---------------------------------------------------------------- nodes

    /** cluster_node_find */
    method NodeFind(id: seq<Byte>) returns (r: int)
      ensures Found(nodes, id, r)
    {
      if !IdValid(id) { return -1; }
      for i := 0 to |nodes|
        invariant forall k :: 0 <= k < i ==> nodes[k].id != id
      {
        if nodes[i].id == id { return i; }
      }
      return -1;
    }

    /** cluster_myself */
    method FindMyself() returns (r: int)
      ensures IsMyself(nodes, r)
    {
      for i := 0 to |nodes|
        invariant forall k :: 0 <= k < i ==> Myself !in nodes[k].flags
      {
        if Myself in nodes[i].flags { return i; }
      }
      return -1;
    }

    /** cluster_node_add: the node of that id, new when it was not known and there is room. */
    method NodeAdd(id: seq<Byte>) returns (r: int)
      requires Valid()
      modifies this`nodes
      ensures Valid() && (old(EpochsOk()) ==> EpochsOk()) && Found(nodes, id, r)
      ensures Found(old(nodes), id, r) && r != -1 ==> nodes == old(nodes)
      ensures r == -1 ==> nodes == old(nodes) && (!IdValid(id) || |nodes| == MAX_NODES)
      ensures r >= 0 && nodes != old(nodes) ==> r == |old(nodes)| && nodes == old(nodes) + [FreshNode(id)]
      ensures r >= 0 || nodes == old(nodes)
    {
      hide Ids, Exclusive, Fresh, IdValid, ReportsOk;
      r := NodeFind(id);
      if r >= 0 || !IdValid(id) { return; }
      if |nodes| >= MAX_NODES { return -1; }
      AddOk(nodes, id);
      r := |nodes|;
      nodes := nodes + [FreshNode(id)];
    }

    // ---------------------------------------------------------------- claims

    /** One slot of a claim: every other holder yields or defends. */
    method MergeSlot(c: nat, claims: bool, s: nat)
      requires c < |nodes| && s < SLOTS
      modifies this`nodes
      ensures SlotsOnly(old(nodes), nodes)
      ensures forall i: nat, t: nat ::
        Owns(nodes, i, t) == if t == s then MergedOwns(old(nodes), c, claims, i, s) else Owns(old(nodes), i, t)
    {
      hide Has, Beats, With, Owns;
      var has := Owns(nodes, c, s);
      if !claims {
        if has {
          SetSlotOwns(nodes, c, s, false);
          nodes := SetSlot(nodes, c, s, false);
        }
        return;
      }
      var wins := true;
      for i := 0 to |nodes|
        invariant SlotsOnly(old(nodes), nodes)
        invariant forall k: nat, t: nat ::
          Owns(nodes, k, t) == (Owns(old(nodes), k, t)
            && !(t == s && k < i && k != c && Beats(old(nodes)[c], old(nodes)[k])))
        invariant wins <==> forall o: nat :: o < i && o != c && Owns(old(nodes), o, s) ==>
          Beats(old(nodes)[c], old(nodes)[o])
      {
        if i != c && Owns(nodes, i, s) {
          SameBeats(nodes[c], nodes[i], old(nodes)[c], old(nodes)[i]);
          if Beats(nodes[c], nodes[i]) {
            SetSlotOwns(nodes, i, s, false);
            nodes := SetSlot(nodes, i, s, false);
          } else {
            wins := false;
          }
        }
      }
      MergedWins(old(nodes), c, s, wins);
      if wins {
        if !has {
          SetSlotOwns(nodes, c, s, true);
          nodes := SetSlot(nodes, c, s, true);
        }
      } else if has {
        SetSlotOwns(nodes, c, s, false);
        nodes := SetSlot(nodes, c, s, false);
      }
    }

    /** cluster_merge_claims: claims of another node, slot by slot. */
    method MergeClaims(c: int, bm: Bitmap, epoch: U64)
      requires Core()
      modifies this`nodes, this`currentEpoch, this`dirty, this`changes
      ensures Core() && (old(Valid()) ==> Valid()) && (old(EpochsOk()) ==> EpochsOk()) && old(changes) <= changes
      ensures !(0 <= c < |old(nodes)|) ==>
        nodes == old(nodes) && currentEpoch == old(currentEpoch) && changes == old(changes) && dirty == old(dirty)
      ensures 0 <= c < |old(nodes)| ==> currentEpoch == Max(old(currentEpoch), epoch)
      ensures 0 <= c < |old(nodes)| && IsMyself(Raised(old(nodes), c, epoch), c) ==>
        nodes == Raised(old(nodes), c, epoch) && changes == old(changes)
      ensures 0 <= c < |old(nodes)| && !IsMyself(Raised(old(nodes), c, epoch), c) ==>
        Merged(old(nodes), Claim(c, bm, epoch), nodes) && changes == old(changes) + 1 && dirty
    {
      hide Has, Beats, Owns, MergedOwns, Fresh, Exclusive, Ids, ReportsOk;
      if !(0 <= c < |nodes|) { return; }
      RaisedOk(nodes, c, epoch);
      if Bounded(nodes, currentEpoch) { RaisedBounded(nodes, c, epoch, currentEpoch); }
      nodes := Raised(nodes, c, epoch);
      currentEpoch := Max(currentEpoch, epoch);
      var me := FindMyself();
      if c == me { return; }
      MyselfUnique(nodes, me, c);
      ghost var up := nodes;
      for s := 0 to SLOTS
        modifies this`nodes
        invariant SlotsOnly(up, nodes)
        invariant forall i: nat, t: nat ::
          Owns(nodes, i, t) == if t < s then MergedOwns(up, c, Has(bm, t), i, t) else Owns(up, i, t)
      {
        ghost var was := nodes;
        MergeSlot(c, Has(bm, s), s);
        forall i: nat ensures MergedOwns(was, c, Has(bm, s), i, s) == MergedOwns(up, c, Has(bm, s), i, s) {
          MergedOwnsSame(up, was, c, Has(bm, s), i, s);
        }
      }
      dirty, changes := true, changes + 1;
      MergedOk(old(nodes), Claim(c, bm, epoch), nodes);
      if Bounded(up, currentEpoch) { SlotsBounded(up, nodes, currentEpoch); }
    }

    /** cluster_adopt_claims: the claimant gets the claimed slots. */
    method AdoptClaims(c: int, bm: Bitmap, epoch: U64)
      requires Valid()
      modifies this`nodes, this`currentEpoch, this`dirty, this`changes
      ensures Valid() && (old(EpochsOk()) ==> EpochsOk()) && old(changes) <= changes
      ensures !(0 <= c < |old(nodes)|) ==>
        nodes == old(nodes) && currentEpoch == old(currentEpoch) && changes == old(changes) && dirty == old(dirty)
      ensures 0 <= c < |old(nodes)| ==>
        && currentEpoch == Max(old(currentEpoch), epoch) && Adopted(old(nodes), Claim(c, bm, epoch), nodes)
        && changes == old(changes) + 1 && dirty
    {
      hide Has, Owns, Fresh, Exclusive, Ids, ReportsOk;
      if !(0 <= c < |nodes|) { return; }
      if Bounded(nodes, currentEpoch) { RaisedBounded(nodes, c, epoch, currentEpoch); }
      RaisedOwns(nodes, c, epoch);
      nodes := Raised(nodes, c, epoch);
      currentEpoch := Max(currentEpoch, epoch);
      ghost var up := nodes;
      for s := 0 to SLOTS
        modifies this`nodes
        invariant SlotsOnly(up, nodes)
        invariant forall i: nat, t: nat ::
          Owns(nodes, i, t) == if t < s && Has(bm, t) then i == c else Owns(up, i, t)
      {
        if Has(bm, s) { AdoptSlot(c, s); }
      }
      dirty, changes := true, changes + 1;
      AdoptedOk(old(nodes), Claim(c, bm, epoch), nodes);
      if Bounded(up, currentEpoch) { SlotsBounded(up, nodes, currentEpoch); }
    }

    method AdoptSlot(c: nat, s: nat)
      requires c < |nodes| && s < SLOTS
      modifies this`nodes
      ensures SlotsOnly(old(nodes), nodes)
      ensures forall i: nat, t: nat :: Owns(nodes, i, t) == if t == s then i == c else Owns(old(nodes), i, t)
    {
      hide Has, With;
      for i := 0 to |nodes|
        invariant SlotsOnly(old(nodes), nodes)
        invariant forall k: nat, t: nat ::
          Owns(nodes, k, t) == (Owns(old(nodes), k, t) && !(t == s && k < i && k != c))
      {
        if i != c {
          SetSlotOwns(nodes, i, s, false);
          nodes := SetSlot(nodes, i, s, false);
        }
      }
      SetSlotOwns(nodes, c, s, true);
      nodes := SetSlot(nodes, c, s, true);
    }

    /** cluster_next_epoch */
    method NextEpoch() returns (e: U64)
      modifies this`currentEpoch
      ensures e == currentEpoch == Next(old(currentEpoch))
      ensures old(currentEpoch) < MAX_U64 ==> e > old(currentEpoch)
    {
      currentEpoch := if currentEpoch == MAX_U64 then 0 else currentEpoch + 1;
      e := currentEpoch;
    }

    /** cluster_failover_promote: a replica takes over its master's slots with a new epoch. */
    method FailoverPromote() returns (me: int)
      requires Valid()
      modifies this`nodes, this`currentEpoch, this`dirty, this`changes
      ensures Valid() && old(changes) <= changes
      ensures me == -1 ==>
        nodes == old(nodes) && currentEpoch == old(currentEpoch) && changes == old(changes) && dirty == old(dirty)
      ensures me == -1 <==> forall i :: IsMyself(old(nodes), i) && i >= 0 ==> Slave !in old(nodes)[i].flags
      ensures me != -1 ==>
        && 0 <= me < |old(nodes)| == |nodes| && IsMyself(old(nodes), me) && Slave in old(nodes)[me].flags
        && changes == old(changes) + 1
      ensures me != -1 ==> currentEpoch == Next(old(currentEpoch))
      ensures me != -1 ==> Succeeded(old(nodes), me, Next(old(currentEpoch)), nodes)
      ensures me != -1 && old(EpochsOk()) && old(currentEpoch) < MAX_U64 ==> EpochsOk() && Dominates(nodes, me)
      ensures me != -1 && old(EpochsOk()) && old(currentEpoch) == MAX_U64 && |nodes| > 1 ==> !Dominates(nodes, me)
    {
      hide Has, Owns, Fresh, Exclusive, Ids, ReportsOk, IdValid;
      me := FindMyself();
      if me == -1 || Slave !in nodes[me].flags {
        if me >= 0 { MyselfOnly(nodes, me); }
        return -1;
      }
      MyselfOnly(nodes, me);
      var m := NodeFind(nodes[me].masterId);
      var e := NextEpoch();
      var n := Promoted(nodes[me], e);
      UpdateOk(nodes, me, n);
      nodes := nodes[me := n];
      ghost var base := nodes;
      if m >= 0 {
        TakeOver(me, m);
        TakeOverExclusive(base, me, m, nodes);
        SlotsOk(base, nodes);
      }
      dirty, changes := true, changes + 1;
      assert |nodes| == |base| && forall i :: 0 <= i < |nodes| ==> nodes[i].epoch == base[i].epoch;
      PromotedTop(old(nodes), me, old(currentEpoch), nodes);
    }

    /** The slots of node m move to node me, one by one. */
    method TakeOver(me: nat, m: nat)
      requires me < |nodes| && m < |nodes|
      modifies this`nodes
      ensures TakenOver(old(nodes), me, m, nodes)
    {
      hide Has, With;
      for s := 0 to SLOTS
        invariant SlotsOnly(old(nodes), nodes)
        invariant forall i: nat, t: nat ::
          Owns(nodes, i, t) == if t >= s then Owns(old(nodes), i, t)
                               else if i == me then Owns(old(nodes), me, t) || Owns(old(nodes), m, t)
                               else i != m && Owns(old(nodes), i, t)
      {
        if Owns(nodes, m, s) {
          SetSlotOwns(nodes, m, s, false);
          nodes := SetSlot(nodes, m, s, false);
          SetSlotOwns(nodes, me, s, true);
          nodes := SetSlot(nodes, me, s, true);
        }
      }
      forall i: nat, t: nat | t >= SLOTS ensures !Owns(nodes, i, t) && !Owns(old(nodes), i, t) {
        NoSlot(nodes, i, t);
        NoSlot(old(nodes), i, t);
      }
    }

    // ---------------------------------------------------------------- failure detection

    ghost predicate FlagsOnlyChange(was: seq<Node>)
      reads this
    {
      |nodes| == |was| && forall i :: 0 <= i < |was| ==>
        nodes[i].epoch == was[i].epoch && nodes[i].slots == was[i].slots && nodes[i].id == was[i].id
    }

    /** cluster_report_failure */
    method ReportFailure(i: nat, reporter: seq<Byte>, now: U64)
      requires Valid() && i < |nodes|
      modifies this`nodes
      ensures Valid() && (old(EpochsOk()) ==> EpochsOk())
      ensures |nodes| == |old(nodes)| && nodes == old(nodes)[i := old(nodes)[i].(reports := nodes[i].reports)]
      ensures Added(old(nodes)[i].reports, nodes[i].reports, reporter, now)
    {
      hide Ids, Exclusive, Fresh, IdValid, ReportsOk, Added;
      var rs := AddReport(nodes[i].reports, reporter, now);
      SetReports(i, rs);
    }

    /** cluster_report_heal */
    method ReportHeal(i: nat, reporter: seq<Byte>)
      requires Valid() && i < |nodes|
      modifies this`nodes
      ensures Valid() && (old(EpochsOk()) ==> EpochsOk())
      ensures |nodes| == |old(nodes)| && nodes == old(nodes)[i := old(nodes)[i].(reports := nodes[i].reports)]
      ensures forall r ::
        r in nodes[i].reports <==> r in old(nodes)[i].reports && !(IdValid(reporter) && r.reporter == reporter)
    {
      hide Ids, Exclusive, Fresh, IdValid, ReportsOk;
      var rs := RemoveReport(nodes[i].reports, reporter);
      SetReports(i, rs);
    }

    /** cluster_report_count: how many reporters still stand by their report. */
    method ReportCount(i: nat, now: U64) returns (count: nat)
      requires Valid() && i < |nodes|
      modifies this`nodes
      ensures Valid() && (old(EpochsOk()) ==> EpochsOk())
      ensures |nodes| == |old(nodes)| && nodes == old(nodes)[i := old(nodes)[i].(reports := nodes[i].reports)]
      ensures count == |nodes[i].reports|
      ensures forall r :: r in nodes[i].reports <==> r in old(nodes)[i].reports && !Expired(r, now, Window(timeout))
    {
      hide Ids, Exclusive, Fresh, IdValid, ReportsOk;
      var rs := DropExpired(nodes[i].reports, now, Window(timeout));
      SetReports(i, rs);
      return |rs|;
    }

    method SetReports(i: nat, rs: seq<Report>)
      requires Valid() && i < |nodes| && ReportsOk(rs)
      modifies this`nodes
      ensures Valid() && (old(EpochsOk()) ==> EpochsOk())
      ensures nodes == old(nodes)[i := old(nodes)[i].(reports := rs)]
    {
      hide Ids, Exclusive, Fresh, IdValid, ReportsOk, Owns;
      var n := nodes[i].(reports := rs);
      UpdateOk(nodes, i, n);
      SameVerdict(nodes, nodes[i := n]);
      nodes := nodes[i := n];
    }

    /** cluster_mark_fail: FAIL replaces suspicion; not for myself, not twice. */
    method MarkFail(i: nat, now: U64)
      requires Valid() && i < |nodes|
      modifies this`nodes, this`changes
      ensures Valid() && (old(EpochsOk()) ==> EpochsOk()) && old(changes) <= changes
      ensures var n := old(nodes)[i];
              if Fail in n.flags || Myself in n.flags then nodes == old(nodes) && changes == old(changes)
              else nodes == old(nodes)[i := n.(flags := n.flags - {Pfail} + {Fail}, failTime := now)]
                   && changes == old(changes) + 1
    {
      hide Ids, Exclusive, Fresh, IdValid, ReportsOk;
      if Fail in nodes[i].flags || Myself in nodes[i].flags { return; }
      var n := nodes[i].(flags := nodes[i].flags - {Pfail} + {Fail}, failTime := now);
      UpdateOk(nodes, i, n);
      nodes, changes := nodes[i := n], changes + 1;
    }

    /** Whether node i serves a slot. */
    method IsServing(i: nat) returns (b: bool)
      requires i < |nodes|
      ensures b == Serves(nodes, i)
    {
      hide Has;
      for s := 0 to SLOTS
        invariant forall t: nat :: t < s ==> !Owns(nodes, i, t)
      {
        if Owns(nodes, i, s) { return true; }
      }
      forall t: nat ensures !Owns(nodes, i, t) { if t >= SLOTS { NoSlot(nodes, i, t); } }
      return false;
    }

    /** The size of the cluster: masters that serve a slot. */
    method CountMasters() returns (m: nat)
      ensures m == |ServingMasters(nodes, |nodes|)|
    {
      hide ServingMasters, Serves;
      m := 0;
      NothingYet(nodes);
      for i := 0 to |nodes|
        invariant m == |ServingMasters(nodes, i)|
      {
        MastersStep(nodes, i);
        if IsMaster(nodes[i]) {
          var b := IsServing(i);
          if b { m := m + 1; }
        }
      }
    }

    /** cluster_mark_fail_if_quorum: a suspected node fails when a majority of serving masters reports it. */
    method MarkFailIfQuorum(i: nat, now: U64) returns (failed: bool)
      requires Valid() && i < |nodes|
      modifies this`nodes, this`changes, this`failBroadcast
      ensures Valid() && (old(EpochsOk()) ==> EpochsOk())
      ensures FlagsOnlyChange(old(nodes)) && forall k :: 0 <= k < |nodes| && k != i ==> nodes[k] == old(nodes)[k]
      ensures Judged(old(nodes)[i], nodes[i], SelfVote(old(nodes)),
                     |ServingMasters(old(nodes), |nodes|)|, now, Window(timeout))
      ensures var n, votes := old(nodes)[i], |nodes[i].reports| + SelfVote(old(nodes));
              failed <==> Pfail in n.flags && Fail !in n.flags && votes > |ServingMasters(old(nodes), |nodes|)| / 2
      ensures failBroadcast == if failed then nodes[i].id else old(failBroadcast)
      ensures changes == old(changes) + if nodes[i].flags != old(nodes)[i].flags then 1 else 0
    {
      hide Ids, Exclusive, Fresh, IdValid, ReportsOk, ServingMasters;
      if Pfail !in nodes[i].flags || Fail in nodes[i].flags { return false; }
      var me := FindMyself();
      SelfFound(nodes, me);
      var masters := CountMasters();
      var failures := ReportCount(i, now);
      if me >= 0 && IsMaster(nodes[me]) { failures := failures + 1; }
      if failures < masters / 2 + 1 { return false; }
      MarkFail(i, now);
      failBroadcast := nodes[i].id;
      return true;
    }

    // ---------------------------------------------------------------- the verdict

    /** cluster_state_is_ok: the cached verdict is the one a recomputation would give. */
    method StateIsOk() returns (ok: bool)
      requires Valid() || Trusty()
      modifies this`cacheValid, this`cacheChanges, this`cacheSig, this`cache, this`cacheOk
      ensures (old(Valid()) || enabled ==> Valid()) && ok == (!enabled || Ok(Fresh(nodes)))
      ensures enabled ==> Synced() && cache == Fresh(nodes)
    {
      hide TableOk, Fresh, Signature;
      if !enabled { return true; }
      var sig := Signature(nodes, dirty);
      if cacheValid && cacheChanges == changes && cacheSig == sig { return cacheOk; }
      var v := Recompute(nodes);
      cacheChanges, cacheSig, cacheValid, cache, cacheOk := changes, sig, true, v, Ok(v);
      return cacheOk;
    }

    /** cluster_state_is_minority */
    method StateIsMinority() returns (minority: bool)
      requires Valid() || Trusty()
      modifies this`cacheValid, this`cacheChanges, this`cacheSig, this`cache, this`cacheOk
      ensures (old(Valid()) || enabled ==> Valid()) && minority == (enabled && Minority(Fresh(nodes)))
    {
      hide TableOk, Fresh, Signature;
      var _ := StateIsOk();
      return enabled && Minority(cache);
    }

    /** One node of cluster_fail_check: a silent node is suspected and its link counts as lost.  No change is counted,
        so that the cached verdict is told apart by the signature alone. */
    method Suspect(i: nat, now: U64, timeout: U64) returns (suspected: bool)
      requires Core() && i < |nodes|
      modifies this`nodes
      ensures Core() && (old(EpochsOk()) ==> EpochsOk())
      ensures suspected == Silent(old(nodes)[i], now, timeout)
      ensures var n := old(nodes)[i];
              nodes == if suspected then old(nodes)[i := n.(flags := n.flags + {Disconnected, Pfail})] else old(nodes)
      ensures !suspected && old(Valid()) ==> Valid()
      ensures suspected && (cacheValid && cacheChanges == changes ==> old(Synced())) ==> Trusty()
    {
      hide Fresh, Signature, Ids, Exclusive, ReportsOk, Ok;
      suspected := Silent(nodes[i], now, timeout);
      if !suspected { return; }
      var n := nodes[i].(flags := nodes[i].flags + {Disconnected, Pfail});
      UpdateOk(nodes, i, n);
      assert Disconnected in n.flags && Disconnected !in nodes[i].flags;
      SignatureSees(nodes, i, n, dirty);
      nodes := nodes[i := n];
    }

    // ---------------------------------------------------------------- forgetting a node

    /** CLUSTER FORGET: a known node, not myself and without slots, leaves the table; those behind it move up, and the
        acks of an election under way, which are kept by position, do not move with them. */
    method Forget(id: seq<Byte>) returns (r: Forgetting)
      requires Valid()
      modifies this`nodes, this`changes
      ensures TableOk(nodes) && (old(EpochsOk()) ==> EpochsOk())
      ensures r.Unknown? <==> Found(old(nodes), id, -1)
      ensures !r.Unknown? ==> exists i: nat :: Found(old(nodes), id, i) && var n := old(nodes)[i];
        && (r.Oneself? <==> Myself in n.flags) && (r.HasSlots? <==> Myself !in n.flags && Serves(old(nodes), i))
        && (r.Forgotten? ==> nodes == WithoutNode(old(nodes), i) && changes == old(changes) + 1)
      ensures !r.Forgotten? ==> nodes == old(nodes) && changes == old(changes) && Valid()
      ensures r.Forgotten? ==> (Valid() <==> |nodes| !in ackMask)
    {
      hide Ids, Exclusive, Fresh, IdValid, ReportsOk, Serves, Ok;
      var i := NodeFind(id);
      if i == -1 { return Unknown; }
      if Myself in nodes[i].flags { return Oneself; }
      var serves := IsServing(i);
      if serves { return HasSlots; }
      WithoutOk(nodes, i);
      nodes, changes := WithoutNode(nodes, i), changes + 1;
      return Forgotten;
    }

    // ---------------------------------------------------------------- carrying the state over

    /** cluster_state_snapshot */
    function Snapshot(): ClusterState
      reads this
    {
      ClusterState(enabled, nodes, dirty, changes, currentEpoch, timeout,
                   lastVote, reqEpoch, ackMask, ackCount, failBroadcast)
    }

    /** cluster_state_restore: the carried state replaces this one and the cached verdict is dropped. */
    method Restore(s: ClusterState)
      modifies this
      ensures Snapshot() == if CountsFit(s.nodes) then s else old(Snapshot())
      ensures old(Valid()) && TableOk(s.nodes) && AcksOk(s.ackMask, s.ackCount, |s.nodes|) ==>
        Valid() && Snapshot() == s
    {
      hide TableOk, Fresh, Ok;
      if TableOk(s.nodes) { TableFits(s.nodes); }
      var fit := CheckCounts(s.nodes);
      if !fit { return; }
      enabled, nodes, dirty, changes, cacheValid := s.enabled, s.nodes, s.dirty, s.changes, false;
      currentEpoch, timeout, lastVote, reqEpoch := s.currentEpoch, s.timeout, s.lastVote, s.reqEpoch;
      ackMask, ackCount, failBroadcast := s.ackMask, s.ackCount, s.failBroadcast;
    }
  }

  /** Nothing was heard of another node, whose link is up, for longer than the timeout. */
  predicate Silent(n: Node, now: U64, timeout: U64) {
    && Myself !in n.flags && Disconnected !in n.flags
    && n.lastSeen > 0 && now >= n.lastSeen && now - n.lastSeen > timeout
  }

  datatype Forgetting = Forgotten | Unknown | Oneself | HasSlots

  function WithoutNode(ns: seq<Node>, i: nat): seq<Node>
    requires i < |ns|
  {
    ns[..i] + ns[i + 1..]
  }

  lemma WithoutAt(ns: seq<Node>, i: nat)
    requires i < |ns|
    ensures var now := WithoutNode(ns, i);
            |now| == |ns| - 1 && forall k :: 0 <= k < |now| ==> now[k] == ns[if k < i then k else k + 1]
  {
  }

  lemma WithoutOk(ns: seq<Node>, i: nat)
    requires TableOk(ns) && i < |ns|
    ensures TableOk(WithoutNode(ns, i)) && forall c :: Bounded(ns, c) ==> Bounded(WithoutNode(ns, i), c)
  {
    hide Has, IdValid, ReportsOk;
    var now := WithoutNode(ns, i);
    WithoutAt(ns, i);
    hide WithoutNode;
    forall j: nat, k: nat, s: nat | Owns(now, j, s) && Owns(now, k, s) ensures j == k {
      assert Owns(ns, if j < i then j else j + 1, s) && Owns(ns, if k < i then k else k + 1, s);
    }
  }

  ghost predicate CountsFit(ns: seq<Node>) {
    |ns| <= MAX_NODES && forall i :: 0 <= i < |ns| ==> |ns[i].reports| <= MAX_NODES
  }

  lemma TableFits(ns: seq<Node>)
    requires TableOk(ns)
    ensures CountsFit(ns)
  {
  }

  method CheckCounts(ns: seq<Node>) returns (fit: bool)
    ensures fit == CountsFit(ns)
  {
    if |ns| > MAX_NODES { return false; }
    for i := 0 to |ns|
      invariant forall k :: 0 <= k < i ==> |ns[k].reports| <= MAX_NODES
    {
      if |ns[i].reports| > MAX_NODES { return false; }
    }
    return true;
  }

  ghost predicate SelfIsMaster(ns: seq<Node>) {
    exists i :: i >= 0 && IsMyself(ns, i) && IsMaster(ns[i])
  }

  /** This server's own vote about a node that it suspects. */
  ghost function SelfVote(ns: seq<Node>): nat { if SelfIsMaster(ns) then 1 else 0 }

  /** Reports take no part in who votes. */
  lemma ReportsApart(ns: seq<Node>, i: nat, rs: seq<Report>)
    requires i < |ns|
    ensures var now := ns[i := ns[i].(reports := rs)];
            SelfVote(now) == SelfVote(ns) && ServingMasters(now, |now|) == ServingMasters(ns, |ns|)
  {
    hide Has;
    var now := ns[i := ns[i].(reports := rs)];
    assert forall k :: 0 <= k < |ns| ==> now[k].flags == ns[k].flags && now[k].slots == ns[k].slots;
    forall k: int ensures IsMyself(now, k) <==> IsMyself(ns, k) { }
    forall k: nat ensures Serves(now, k) <==> Serves(ns, k) {
      forall s: nat ensures Owns(now, k, s) == Owns(ns, k, s) { }
    }
  }

  lemma SelfFound(ns: seq<Node>, me: int)
    requires IsMyself(ns, me)
    ensures SelfIsMaster(ns) <==> me >= 0 && IsMaster(ns[me])
  {
    MyselfOnly(ns, me);
  }

  lemma MergedOwnsSame(up: seq<Node>, t: seq<Node>, c: nat, claims: bool, i: nat, s: nat)
    requires c < |up| && SlotsOnly(up, t) && forall k: nat :: Owns(t, k, s) == Owns(up, k, s)
    ensures MergedOwns(t, c, claims, i, s) == MergedOwns(up, c, claims, i, s)
  {
    hide Has, Above;
  }

  lemma MyselfUnique(ns: seq<Node>, me: int, c: nat)
    requires IsMyself(ns, me) && me != c && c < |ns|
    ensures !IsMyself(ns, c)
  {
  }

  lemma MyselfOnly(ns: seq<Node>, me: int)
    requires IsMyself(ns, me)
    ensures forall i :: IsMyself(ns, i) ==> i == me
  {
  }

  lemma PromotedTop(ns: seq<Node>, me: nat, current: U64, now: seq<Node>)
    requires me < |ns| == |now| && now[me].epoch == Next(current)
    requires forall i :: 0 <= i < |ns| && i != me ==> now[i].epoch == ns[i].epoch
    ensures Bounded(ns, current) && current < MAX_U64 ==> Bounded(now, current + 1) && Dominates(now, me)
    ensures current == MAX_U64 && |now| > 1 ==> !Dominates(now, me)
  {
    if current == MAX_U64 && |now| > 1 {
      var other := if me == 0 then 1 else 0;
      assert now[other].epoch >= now[me].epoch;
    }
  }

  lemma MergedWins(ns: seq<Node>, c: nat, s: nat, wins: bool)
    requires c < |ns| && (wins <==> forall o: nat :: o < |ns| && o != c && Owns(ns, o, s) ==> Beats(ns[c], ns[o]))
    ensures wins == Wins(ns, c, s)
    ensures forall i: nat :: Owns(ns, i, s) ==> i < |ns|
  {
  }
}
