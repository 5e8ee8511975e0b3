/** The server's election steps are steps of the election protocol. */
module ElectionSteps {
  import opened Basics
  import opened Bytes
  import opened ClusterNode
  import opened ClusterClaims
  import opened ClusterVerdict
  import opened ClusterDb
  import opened RedbusCodec
  import opened Redbus
  import opened RedbusFrames
  import opened Election

  /** The ids of the nodes whose acks are in the mask. */
  ghost function Voters(ns: seq<Node>, mask: set<nat>): set<Id> {
    set i | i in mask && i < |ns| :: ns[i].id
  }

  /** A server as a member of the election protocol. */
  ghost function View(d: Db): Member
    reads d
  {
    Member(d.currentEpoch, d.lastVote, d.reqEpoch, Voters(d.nodes, d.ackMask))
  }

  lemma {:induction false} VotersSize(ns: seq<Node>, mask: set<nat>)
    requires Ids(ns) && forall i :: i in mask ==> i < |ns|
    ensures |Voters(ns, mask)| == |mask|
  {
    hide IdValid;
    if mask == {} {
      assert Voters(ns, mask) == {};
    } else {
      var i :| i in mask;
      VotersSize(ns, mask - {i});
      assert Voters(ns, mask) == Voters(ns, mask - {i}) + {ns[i].id};
    }
  }

  lemma VotersAdd(ns: seq<Node>, mask: set<nat>, i: nat)
    requires i < |ns|
    ensures Voters(ns, mask + {i}) == Voters(ns, mask) + {ns[i].id}
  {
  }

  /** failover_ack_count is the number of distinct masters whose acks counted. */
  lemma CountIsVoters(d: Db)
    requires d.Valid()
    ensures d.ackCount == |View(d).acks|
  {
    hide Exclusive, IdValid, Fresh;
    VotersSize(d.nodes, d.ackMask);
  }

  /** An election starts: a fresh epoch, no acks. */
  method StartElection(d: Db)
    requires d.Valid()
    modifies d`currentEpoch, d`reqEpoch, d`ackMask, d`ackCount
    ensures d.Valid() && (old(d.currentEpoch) < MAX_U64 ==> StartStep(old(View(d)), View(d)))
    ensures old(d.EpochsOk()) && old(d.currentEpoch) < MAX_U64 ==> d.EpochsOk()
  {
    hide TableOk, Fresh;
    var e := d.NextEpoch();
    d.reqEpoch, d.ackMask, d.ackCount := e, {}, 0;
    assert Voters(d.nodes, {}) == {};
  }

  /** redbus_build_auth_request: the replica announces its master's claim with the election epoch. */
  method BuildAuthRequest(d: Db, epoch: U64, grow: bool) returns (ok: bool, f: seq<Byte>)
    requires d.Valid()
    ensures ok == (grow && d.nodes != [])
    ensures ok ==> |f| == HDR && Field(f, 12, 2) == Put(AUTH_REQUEST, 2) && Field(f, 16, 8) == Put(epoch, 8)
    ensures ok ==> forall me: nat :: me < |d.nodes| && IsMyself(d.nodes, me) ==>
      && Field(f, 40, 40) == Name(d.nodes[me].id)
      && forall m: nat :: Found(d.nodes, d.nodes[me].masterId, m) ==>
         Field(f, 24, 8) == Put(d.nodes[m].epoch, 8) && Field(f, 80, 2048) == d.nodes[m].slots
  {
    hide Exclusive, Ids, Fresh, IdValid, Put, Name, IpField, ToWire, RecordsOf;
    var me := d.FindMyself();
    MyselfOnly(d.nodes, me);
    var m := -1;
    if me != -1 { m := d.NodeFind(d.nodes[me].masterId); FoundOnly2(d.nodes, d.nodes[me].masterId, m); }
    var sn; ghost var listed;
    ok, f, sn, listed := BuildFrame(d.nodes, d.currentEpoch, AUTH_REQUEST, grow);
    if !ok { return; }
    EmptyPayload(d.nodes, listed, f);
    if me != -1 { SenderIsMyself(d.nodes, sn, me); }
    ghost var built := f;
    assert |f| == HDR && Field(f, 12, 2) == Put(AUTH_REQUEST, 2);
    assert me != -1 ==> Field(f, 40, 40) == Name(d.nodes[me].id);
    hide FrameOf, SenderOf;
    PatchAround(f, 16, Put(epoch, 8));
    f := Patch(f, 16, Put(epoch, 8));
    if m != -1 {
      PatchAround(f, 24, Put(d.nodes[m].epoch, 8));
      f := Patch(f, 24, Put(d.nodes[m].epoch, 8));
      PatchAround(f, 80, d.nodes[m].slots);
      f := Patch(f, 80, d.nodes[m].slots);
    }
  }

  lemma SenderIsMyself(ns: seq<Node>, sn: nat, me: nat)
    requires IsSender(ns, sn) && IsMyself(ns, me)
    ensures sn == me
  {
  }

  /** What a patch of the request leaves as it was. */
  lemma PatchAround(b: seq<Byte>, o: nat, x: seq<Byte>)
    requires |b| == HDR && (o == 16 || o == 24 || o == 80)
    requires o + |x| <= (if o == 16 then 24 else if o == 24 then 32 else 2128)
    ensures |Patch(b, o, x)| == HDR && Field(Patch(b, o, x), o, |x|) == x
    ensures Field(Patch(b, o, x), 12, 2) == Field(b, 12, 2) && Field(Patch(b, o, x), 40, 40) == Field(b, 40, 40)
    ensures o != 16 ==> Field(Patch(b, o, x), 16, 8) == Field(b, 16, 8)
    ensures o != 24 ==> Field(Patch(b, o, x), 24, 8) == Field(b, 24, 8)
  {
    hide Patch, Field;
    PatchedField(b, o, x);
    OtherField(b, o, x, 12, 2);
    OtherField(b, o, x, 40, 40);
    if o != 16 { OtherField(b, o, x, 16, 8); }
    if o != 24 { OtherField(b, o, x, 24, 8); }
  }

  /** A vote request, as a step of the protocol. */
  method CastVote(d: Db, f: seq<Byte>, grow: bool) returns (rc: int, reply: seq<Byte>, ghost granted: bool)
    requires d.Valid() && |f| >= HDR
    modifies d`currentEpoch, d`lastVote
    ensures d.Valid() && VoteStep(old(View(d)), View(d), Epoch(f, 16), granted)
    ensures granted ==>
      exists sn: nat :: sn < |d.nodes| && IsSender(d.nodes, sn) &&
        FrameOf(d.nodes[sn], Epoch(f, 16), AUTH_ACK, [], 0, reply)
  {
    hide TableOk, Fresh, Voter, Orphan, NoNewerOwner, FrameOf, Field, Get, IsSender;
    rc, reply, granted := HandleAuthRequest(d, f, grow);
  }

  /** An arriving ack, as a step of the protocol. */
  method TakeAck(d: Db, f: seq<Byte>)
    requires d.Valid() && |f| >= HDR
    modifies d`ackMask, d`ackCount
    ensures d.Valid() && AckStep(old(View(d)), View(d), Field(f, 40, 40), Epoch(f, 16))
  {
    hide TableOk, Fresh, Field, Get, Serves, IdValid;
    ghost var counted := HandleAuthAck(d, f);
    if counted {
      var i: nat :| i < |d.nodes| && Found(d.nodes, Field(f, 40, 40), i) && d.ackMask == old(d.ackMask) + {i};
      VotersAdd(d.nodes, old(d.ackMask), i);
    }
  }

  lemma {:induction false} KeptVoters(ns: seq<Node>, now: seq<Node>, mask: set<nat>)
    requires IdsKept(ns, now) && forall i :: i in mask ==> i < |ns|
    ensures Voters(now, mask) == Voters(ns, mask)
  {
    forall id ensures id in Voters(now, mask) <==> id in Voters(ns, mask) {
      if id in Voters(now, mask) { var i :| i in mask && i < |now| && now[i].id == id; assert ns[i].id == id; }
      if id in Voters(ns, mask) { var i :| i in mask && i < |ns| && ns[i].id == id; assert now[i].id == id; }
    }
  }

  /** Every other frame, taken or not, only raises the current epoch as far as elections are concerned. */
  method OtherFrame(d: Db, f: seq<Byte>, grow: bool, now: U64, src: seq<Byte>) returns (rc: int, reply: seq<Byte>)
    requires d.Valid() && !(WellFormed(f) && (Num16(f, 12) == AUTH_REQUEST || Num16(f, 12) == AUTH_ACK))
    modifies d`nodes, d`currentEpoch, d`dirty, d`changes, d`failBroadcast, d`lastVote, d`ackMask, d`ackCount
    ensures d.Valid() && RaiseStep(old(View(d)), View(d))
  {
    hide TableOk, Fresh, Voters, Taken, Greeted, IdsKept;
    ghost var sender;
    rc, reply, sender := HandleFrame(d, f, grow, now, src);
    KeptVoters(old(d.nodes), d.nodes, d.ackMask);
  }

  /** The other masters that serve slots. */
  ghost function OtherMasters(ns: seq<Node>, k: nat): set<nat> {
    set i: nat | i < k && i < |ns| && IsMaster(ns[i]) && Myself !in ns[i].flags && Serves(ns, i)
  }

  lemma OtherStep(ns: seq<Node>, i: nat)
    requires i < |ns|
    ensures |OtherMasters(ns, i + 1)| ==
      |OtherMasters(ns, i)| + if IsMaster(ns[i]) && Myself !in ns[i].flags && Serves(ns, i) then 1 else 0
  {
    hide Serves, IsMaster;
    var was, now := OtherMasters(ns, i), OtherMasters(ns, i + 1);
    assert now == if IsMaster(ns[i]) && Myself !in ns[i].flags && Serves(ns, i) then was + {i} else was;
  }

  method CountOthers(d: Db) returns (m: nat)
    ensures m == |OtherMasters(d.nodes, |d.nodes|)|
  {
    hide Serves, OtherMasters;
    m := 0;
    assert OtherMasters(d.nodes, 0) == {} by { NoOthers(d.nodes); }
    for i := 0 to |d.nodes|
      invariant m == |OtherMasters(d.nodes, i)|
    {
      OtherStep(d.nodes, i);
      if IsMaster(d.nodes[i]) && Myself !in d.nodes[i].flags {
        var b := d.IsServing(i);
        if b { m := m + 1; }
      }
    }
  }

  lemma NoOthers(ns: seq<Node>)
    ensures OtherMasters(ns, 0) == {}
  {
  }

  lemma SameVoters(ns: seq<Node>, now: seq<Node>, mask: set<nat>)
    requires |now| == |ns| && forall i :: 0 <= i < |ns| ==> now[i].id == ns[i].id
    ensures Voters(now, mask) == Voters(ns, mask)
  {
    assert forall i: nat :: i < |ns| ==> now[i].id == ns[i].id;
  }

  lemma SucceededIds(ns: seq<Node>, me: nat, e: U64, now: seq<Node>)
    requires Succeeded(ns, me, e, now)
    ensures |now| == |ns| && forall i :: 0 <= i < |ns| ==> now[i].id == ns[i].id
  {
    hide Owns, IdValid;
  }

  // ---------------------------------------------------------------- the count against the masters

  /** The ids of the other masters that serve slots. */
  ghost function MasterIds(ns: seq<Node>): set<Id> { Voters(ns, OtherMasters(ns, |ns|)) }

  lemma VotersMeet(ns: seq<Node>, a: set<nat>, b: set<nat>)
    requires Ids(ns)
    ensures Voters(ns, a) * Voters(ns, b) == Voters(ns, a * b)
    ensures a <= b ==> Voters(ns, a) <= Voters(ns, b)
  {
    hide IdValid;
  }

  /** Acks of the masters that still serve are what a majority takes; with no other ack the two counts agree. */
  lemma CountedMajority(ns: seq<Node>, mask: set<nat>)
    requires Ids(ns) && forall i :: i in mask ==> i < |ns|
    ensures var others := OtherMasters(ns, |ns|);
            && (Majority(Voters(ns, mask), MasterIds(ns)) <==> |mask * others| > |others| / 2)
            && (Majority(Voters(ns, mask), MasterIds(ns)) ==> |mask| > |others| / 2)
            && (mask <= others ==>
                  Voters(ns, mask) <= MasterIds(ns)
                  && (Majority(Voters(ns, mask), MasterIds(ns)) <==> |mask| > |others| / 2))
  {
    hide Ids, Voters;
    var others := OtherMasters(ns, |ns|);
    assert forall i :: i in others ==> i < |ns|;
    hide OtherMasters;
    VotersMeet(ns, mask, others);
    VotersSize(ns, mask * others);
    VotersSize(ns, others);
    SubsetSize(mask * others, mask);
    if mask <= others { assert mask * others == mask; }
  }

  /** Two servers that promote themselves in one epoch, with acks of masters that still serve, over the same
      masters, are one. */
  lemma ServersElectOne(states: seq<System>, steps: seq<Step>, k: nat, a: Win, b: Win, ns: seq<Node>, p: set<nat>,
                        ms: seq<Node>, q: set<nat>)
    requires Run(states, steps) && k <= |steps| && a in states[k].wins && b in states[k].wins && a.epoch == b.epoch
    requires Ids(ns) && p <= OtherMasters(ns, |ns|) && a.voters == Voters(ns, p) && |p| > |OtherMasters(ns, |ns|)| / 2
    requires Ids(ms) && q <= OtherMasters(ms, |ms|) && b.voters == Voters(ms, q) && |q| > |OtherMasters(ms, |ms|)| / 2
    requires MasterIds(ns) == MasterIds(ms)
    ensures a.who == b.who
  {
    hide Run, Ids, Voters;
    CountedMajority(ns, p);
    CountedMajority(ms, q);
    OneWinner(states, steps, k, a, b, MasterIds(ns));
  }

  /** The election window closes: acks of more than half as many masters as serve now promote this replica. */
  method CloseElection(d: Db) returns (won: bool, me: int)
    requires d.Valid()
    modifies d`nodes, d`currentEpoch, d`dirty, d`changes, d`reqEpoch
    ensures d.Valid()
    ensures old(d.reqEpoch) != 0 && (me != -1 ==> old(d.currentEpoch) < MAX_U64) ==>
      EndStep(old(View(d)), View(d), me != -1)
    ensures won == (old(d.ackCount) > |OtherMasters(old(d.nodes), |old(d.nodes)|)| / 2)
    ensures Majority(old(View(d)).acks, MasterIds(old(d.nodes))) ==> won
    ensures old(d.ackMask) <= OtherMasters(old(d.nodes), |old(d.nodes)|) ==>
      (won <==> Majority(old(View(d)).acks, MasterIds(old(d.nodes))))
    ensures me != -1 <==>
      won && exists i: nat :: i < |old(d.nodes)| && IsMyself(old(d.nodes), i) && Slave in old(d.nodes)[i].flags
    ensures me != -1 ==>
      0 <= me < |d.nodes| && Succeeded(old(d.nodes), me, ClusterDb.Next(old(d.currentEpoch)), d.nodes)
    ensures me == -1 ==> d.nodes == old(d.nodes) && d.currentEpoch == old(d.currentEpoch)
    ensures me != -1 && old(d.EpochsOk()) && old(d.currentEpoch) < MAX_U64 ==> d.EpochsOk() && Dominates(d.nodes, me)
  {
    hide TableOk, Fresh, OtherMasters, Voters, Found, Dominates, Bounded, Succeeded, Majority, MasterIds;
    me := -1;
    TableIds(d.nodes);
    CountedMajority(d.nodes, d.ackMask);
    var masters := CountOthers(d);
    won := d.ackCount > masters / 2;
    d.reqEpoch := 0;
    if won {
      me := d.FailoverPromote();
      if me != -1 {
        SucceededIds(old(d.nodes), me, ClusterDb.Next(old(d.currentEpoch)), d.nodes);
        SameVoters(old(d.nodes), d.nodes, d.ackMask);
      }
    }
  }

  // ---------------------------------------------------------------- nodes that are forgotten

  /** The acks keep standing for the same masters, when a node leaves the table, if and only if none is of the node or
      of one behind it. */
  lemma ForgottenVoters(ns: seq<Node>, mask: set<nat>, i: nat)
    requires Ids(ns) && i < |ns| && forall j :: j in mask ==> j < |ns|
    ensures Voters(WithoutNode(ns, i), mask) == Voters(ns, mask) <==> forall j :: j in mask ==> j < i
  {
    hide IdValid;
    var now := WithoutNode(ns, i);
    WithoutAt(ns, i);
    hide WithoutNode;
    if j :| j in mask && j >= i {
      var m := LeastFrom(mask, i, j);
      assert ns[m].id in Voters(ns, mask);
      forall k | k in mask && k < |now| ensures now[k].id != ns[m].id { }
      assert ns[m].id !in Voters(now, mask);
    } else {
      forall id ensures id in Voters(now, mask) <==> id in Voters(ns, mask) {
        if id in Voters(now, mask) { var k :| k in mask && k < |now| && now[k].id == id; assert ns[k].id == id; }
        if id in Voters(ns, mask) { var k :| k in mask && k < |ns| && ns[k].id == id; assert now[k].id == id; }
      }
    }
  }

  lemma {:induction false} LeastFrom(mask: set<nat>, i: nat, j: nat) returns (m: nat)
    requires j in mask && j >= i
    ensures i <= m <= j && m in mask && forall k :: k in mask && i <= k ==> m <= k
    decreases j
  {
    m := j;
    if k :| k in mask && i <= k < j { m := LeastFrom(mask, i, k); }
  }

  /** A forgotten node, as a step of the protocol: nothing happens to the election, if and only if no ack is of the
      node or of one behind it. */
  method ForgetNode(d: Db, id: seq<Byte>) returns (r: Forgetting, ghost i: int)
    requires d.Valid()
    modifies d`nodes, d`changes
    ensures !r.Forgotten? ==> View(d) == old(View(d))
    ensures r.Forgotten? ==> 0 <= i < |old(d.nodes)| && Found(old(d.nodes), id, i)
    ensures r.Forgotten? ==> (View(d) == old(View(d)) <==> forall j :: j in d.ackMask ==> j < i)
    ensures r.Forgotten? ==> (d.ackCount == |View(d).acks| <==> |d.nodes| !in d.ackMask)
  {
    hide TableOk, Fresh, Voters, IdValid, Serves, Bounded;
    i := -1;
    ghost var ns := d.nodes;
    r := d.Forget(id);
    if r.Forgotten? {
      i :| 0 <= i && Found(ns, id, i) && d.nodes == WithoutNode(ns, i);
      TableIds(ns);
      TableIds(d.nodes);
      WithoutAt(ns, i);
      ForgottenVoters(ns, d.ackMask, i);
      ForgottenCount(d.nodes, d.ackMask);
    }
  }

  /** Acks beyond the table stand for nobody. */
  lemma ForgottenCount(now: seq<Node>, mask: set<nat>)
    requires Ids(now) && forall j :: j in mask ==> j <= |now|
    ensures |mask| == |Voters(now, mask)| <==> |now| !in mask
  {
    hide Ids;
    var rest := mask - {|now|};
    assert Voters(now, mask) == Voters(now, rest);
    VotersSize(now, rest);
  }

  // ---------------------------------------------------------------- the failover timer

  datatype Outcome = NotDue | Dropped | Started | Lost | Promoted

  /** deadline_after */
  function After(now: U64, delay: U64): U64 { if delay > MAX_U64 - now then MAX_U64 else now + delay }

  /** This server is a replica of a known master that has failed. */
  ghost predicate Eligible(ns: seq<Node>) {
    exists me: nat, m: nat ::
      && me < |ns| && m < |ns| && IsMyself(ns, me) && Slave in ns[me].flags
      && Found(ns, ns[me].masterId, m) && Fail in ns[m].flags
  }

  method IsEligible(d: Db) returns (b: bool)
    requires d.Valid()
    ensures b <==> Eligible(d.nodes)
  {
    hide Fresh, Exclusive, Ids;
    var me := d.FindMyself();
    MyselfOnly(d.nodes, me);
    if me == -1 || Slave !in d.nodes[me].flags { return false; }
    var m := d.NodeFind(d.nodes[me].masterId);
    FoundOnly2(d.nodes, d.nodes[me].masterId, m);
    b := m != -1 && Fail in d.nodes[m].flags;
  }

  /** The outcome of the check, from the state before it. */
  ghost predicate Decided(o: Outcome, due: bool, eligible: bool, bus: bool, req: U64, enough: bool) {
    && (o.NotDue? <==> !due)
    && (o.Dropped? <==> due && !eligible)
    && (o.Started? <==> due && eligible && bus && req == 0)
    && (o.Lost? <==> due && eligible && bus && req != 0 && !enough)
    && (o.Promoted? <==> due && eligible && (bus ==> req != 0 && enough))
  }

  /** cluster_failover_check: on the bus an expired timer first starts an election and then closes it. */
  method FailoverCheck(d: Db, bus: bool, deadline: U64, now: U64, timeout: U64)
    returns (o: Outcome, next: U64, ghost me: int)
    requires d.Valid()
    modifies d`nodes, d`currentEpoch, d`dirty, d`changes, d`reqEpoch, d`ackMask, d`ackCount
    ensures d.Valid()
    ensures var others := OtherMasters(old(d.nodes), |old(d.nodes)|);
            Decided(o, deadline != 0 && now >= deadline, Eligible(old(d.nodes)), bus,
                    old(d.reqEpoch), old(d.ackCount) > |others| / 2)
    ensures next == match o
      case NotDue => deadline
      case Started => After(now, timeout)
      case Lost => After(now, 500)
      case _ => 0
    ensures o.NotDue? ==> View(d) == old(View(d))
    ensures o.Dropped? || o.Lost? ==> EndStep(old(View(d)), View(d), false)
    ensures o.Started? && old(d.currentEpoch) < MAX_U64 ==> StartStep(old(View(d)), View(d))
    ensures o.Promoted? && bus && old(d.currentEpoch) < MAX_U64 ==> EndStep(old(View(d)), View(d), true)
    ensures !o.Promoted? ==> d.nodes == old(d.nodes)
    ensures o.Promoted? ==>
      0 <= me < |d.nodes| && Succeeded(old(d.nodes), me, ClusterDb.Next(old(d.currentEpoch)), d.nodes)
    ensures o.Promoted? && old(d.EpochsOk()) && old(d.currentEpoch) < MAX_U64 ==> Dominates(d.nodes, me)
    ensures old(d.EpochsOk()) && old(d.currentEpoch) < MAX_U64 ==> d.EpochsOk()
    ensures bus && old(d.ackMask) <= OtherMasters(old(d.nodes), |old(d.nodes)|) && o.Promoted? ==>
      Majority(old(View(d)).acks, MasterIds(old(d.nodes)))
  {
    hide TableOk, Fresh, OtherMasters, Voters, Found, Dominates, Bounded, Succeeded, Majority, MasterIds;
    me := -1;
    if deadline == 0 || now < deadline { return NotDue, deadline, -1; }
    var e := IsEligible(d);
    if !e {
      d.reqEpoch := 0;
      return Dropped, 0, -1;
    }
    if bus && d.reqEpoch == 0 {
      StartElection(d);
      return Started, After(now, timeout), -1;
    }
    if !bus {
      me := d.FailoverPromote();
      return Promoted, 0, me;
    }
    var won, who := CloseElection(d);
    if won { return Promoted, 0, who; }
    return Lost, After(now, 500), -1;
  }
}
