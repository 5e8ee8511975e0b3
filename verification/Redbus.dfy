/** Handling the frames of the cluster bus. */
module Redbus {
  import opened Bytes
  import opened SlotBitmap
  import opened ClusterNode
  import opened ClusterClaims
  import opened ClusterVerdict
  import opened ClusterReports
  import opened ClusterDb
  import opened RedbusCodec

  // ---------------------------------------------------------------- node records

  /** What a record received on the bus says about a node; a missing master field leaves the master as it is. */
  datatype Record = Record(ip: seq<Byte>, port: U16, busPort: U16, flags: set<Flag>, master: seq<Byte>, hasMaster: bool,
    epoch: U64)

  function Apply(n: Node, r: Record): Node {
    n.(ip := if r.ip == [] then n.ip else r.ip, port := r.port, busPort := r.busPort, flags := r.flags,
       masterId := if !r.hasMaster then n.masterId else if NameZero(r.master) then DASH else r.master,
       epoch := Max(n.epoch, r.epoch))
  }

  predicate MasterOk(r: Record) { !r.hasMaster || NameZero(r.master) || IdValid(r.master) }

  ghost predicate Known(ns: seq<Node>, id: seq<Byte>) {
    exists i :: 0 <= i < |ns| && ns[i].id == id
  }

  /** The id is in the table or there is room for it. */
  ghost predicate RoomFor(ns: seq<Node>, id: seq<Byte>) {
    Known(ns, id) || |ns| < MAX_NODES
  }

  /** Replacing a node's fields other than id, slots and reports. */
  method SetNode(d: Db, i: nat, n: Node)
    requires d.Core() && i < |d.nodes| && n.id == d.nodes[i].id && n.slots == d.nodes[i].slots
    requires n.reports == d.nodes[i].reports
    modifies d`nodes
    ensures d.Core() && d.nodes == old(d.nodes)[i := n]
    ensures old(d.EpochsOk()) && n.epoch <= d.currentEpoch ==> d.EpochsOk()
    ensures old(d.Stale()) ==> d.Valid()
  {
    hide Ids, Exclusive, Fresh, IdValid, ReportsOk, Owns;
    UpdateOk(d.nodes, i, n);
    d.nodes := d.nodes[i := n];
  }

  /** apply_node: the node of that id takes over the record. */
  method ApplyNode(d: Db, id: seq<Byte>, r: Record) returns (i: int)
    requires d.Valid()
    modifies d`nodes, d`currentEpoch
    ensures d.Core() && (old(d.EpochsOk()) ==> d.EpochsOk()) && (old(d.Stale()) ==> d.Valid())
    ensures i == -1 <==> !IdValid(id) || !MasterOk(r) || !RoomFor(old(d.nodes), id)
    ensures i == -1 ==> d.nodes == old(d.nodes) && d.currentEpoch == old(d.currentEpoch)
    ensures i != -1 ==>
      0 <= i < |d.nodes| == |Base(old(d.nodes), id)| && d.currentEpoch == Max(old(d.currentEpoch), r.epoch)
    ensures i != -1 ==>
      d.nodes == Base(old(d.nodes), id)[i := Apply(Base(old(d.nodes), id)[i], r)] && d.nodes[i].id == id
  {
    hide Ids, Exclusive, Fresh, IdValid, ReportsOk, Owns, NameZero;
    if !IdValid(id) || !MasterOk(r) { return -1; }
    i := d.NodeAdd(id);
    AddedBase(old(d.nodes), id, d.nodes, i);
    if i == -1 { return; }
    d.currentEpoch := Max(d.currentEpoch, r.epoch);
    SetNode(d, i, Apply(d.nodes[i], r));
  }

  /** The table in which a record for id is applied. */
  ghost function Base(ns: seq<Node>, id: seq<Byte>): seq<Node> {
    if Known(ns, id) then ns else ns + [FreshNode(id)]
  }

  lemma AddedBase(ns: seq<Node>, id: seq<Byte>, now: seq<Node>, i: int)
    requires Found(now, id, i) && (i >= 0 || now == ns) && (i == -1 ==> !IdValid(id) || |now| == MAX_NODES)
    requires i >= 0 && now != ns ==> i == |ns| && now == ns + [FreshNode(id)]
    requires IdValid(id) && Ids(now) && |now| <= MAX_NODES
    ensures i == -1 <==> !RoomFor(ns, id)
    ensures i >= 0 ==> now == Base(ns, id)
  {
    hide IdValid;
    if i >= 0 && now != ns {
      assert now[|ns|].id == id;
      forall k | 0 <= k < |ns| ensures ns[k].id != id { assert now[k] == ns[k]; }
    }
  }

  // ---------------------------------------------------------------- votes

  /** Nobody but the requester holds a claimed slot under a newer epoch. */
  ghost predicate NoNewerOwner(ns: seq<Node>, sender: nat, claimed: seq<Byte>, cfg: U64)
    requires |claimed| == 2048
  {
    forall o: nat, s: nat :: Has(claimed, s) && o != sender && Owns(ns, o, s) ==> ns[o].epoch <= cfg
  }

  method CheckOwners(ns: seq<Node>, sender: nat, claimed: seq<Byte>, cfg: U64) returns (ok: bool)
    requires |claimed| == 2048
    ensures ok == NoNewerOwner(ns, sender, claimed, cfg)
  {
    hide Has;
    for s := 0 to SLOTS
      invariant forall o: nat, t: nat :: t < s && Has(claimed, t) && o != sender && Owns(ns, o, t) ==>
        ns[o].epoch <= cfg
    {
      if Has(claimed, s) {
        for j := 0 to |ns|
          invariant forall o: nat :: o < j && o != sender && Owns(ns, o, s) ==> ns[o].epoch <= cfg
        {
          if j != sender && Owns(ns, j, s) && ns[j].epoch > cfg { return false; }
        }
      }
    }
    forall t: nat | Has(claimed, t) ensures t < SLOTS { HasSlot(claimed, t); }
    return true;
  }

  /** This node may vote: it is a master that serves slots. */
  ghost predicate Voter(ns: seq<Node>) {
    exists i :: i >= 0 && IsMyself(ns, i) && IsMaster(ns[i]) && Serves(ns, i)
  }

  /** The requester is a known replica whose master has failed. */
  ghost predicate Orphan(ns: seq<Node>, id: seq<Byte>) {
    exists i, m ::
      && i >= 0 && m >= 0 && Found(ns, id, i) && Slave in ns[i].flags
      && Found(ns, ns[i].masterId, m) && Fail in ns[m].flags
  }

  /** The conditions of a vote for a request with given epochs, sender and claimed slots. */
  ghost predicate Grants(ns: seq<Node>, current: U64, lastVote: U64, req: U64, cfg: U64, id: seq<Byte>,
                         claimed: seq<Byte>)
    requires |claimed| == 2048
  {
    && Voter(ns) && req >= current && lastVote != req && Orphan(ns, id)
    && exists i: nat :: Found(ns, id, i) && NoNewerOwner(ns, i, claimed, cfg)
  }

  method IsVoter(d: Db) returns (b: bool, me: int)
    ensures IsMyself(d.nodes, me) && b == Voter(d.nodes) && (b ==> me >= 0)
  {
    hide Serves;
    me := d.FindMyself();
    MyselfOnly(d.nodes, me);
    if me == -1 || !IsMaster(d.nodes[me]) { return false, me; }
    b := d.IsServing(me);
  }

  method IsOrphan(d: Db, id: seq<Byte>) returns (b: bool, sender: int)
    requires d.Valid()
    ensures Found(d.nodes, id, sender) && b == Orphan(d.nodes, id) && (b ==> sender >= 0)
  {
    hide Exclusive, Fresh, IdValid, ReportsOk;
    sender := d.NodeFind(id);
    FoundOnly(d.nodes, id, sender);
    if sender == -1 || Slave !in d.nodes[sender].flags { return false, sender; }
    var m := d.NodeFind(d.nodes[sender].masterId);
    FoundOnly(d.nodes, d.nodes[sender].masterId, m);
    return m != -1 && Fail in d.nodes[m].flags, sender;
  }

  lemma FoundOnly(ns: seq<Node>, id: seq<Byte>, i: int)
    requires Ids(ns) && Found(ns, id, i)
    ensures forall j :: Found(ns, id, j) ==> j == i
  {
    hide IdValid;
  }

  /** handle_auth_request: at most one vote per epoch, for a failed master's replica. */
  method HandleAuthRequest(d: Db, f: seq<Byte>, grow: bool) returns (rc: int, reply: seq<Byte>, ghost granted: bool)
    requires d.Valid() && |f| >= HDR
    modifies d`currentEpoch, d`lastVote
    ensures d.Valid() && (old(d.EpochsOk()) ==> d.EpochsOk())
    ensures var req := Epoch(f, 16);
            && d.currentEpoch == (if Voter(d.nodes) then Max(old(d.currentEpoch), req) else old(d.currentEpoch))
            && (granted ==> d.lastVote == d.currentEpoch == req && (old(d.EpochsOk()) ==> old(d.lastVote) < d.lastVote))
            && (!granted ==> d.lastVote == old(d.lastVote) && reply == [])
    ensures rc == 0 || rc == -1
    ensures var grants := Grants(d.nodes, old(d.currentEpoch), old(d.lastVote),
                                 Epoch(f, 16), Epoch(f, 24), Field(f, 40, 40), Field(f, 80, 2048));
            granted == (grow && grants) && (rc == -1 <==> !grow && grants)
    ensures rc == -1 ==> d.currentEpoch == Epoch(f, 16) >= old(d.currentEpoch) && reply == []
    ensures granted ==>
      exists sn: nat :: sn < |d.nodes| && IsSender(d.nodes, sn) &&
        FrameOf(d.nodes[sn], d.currentEpoch, AUTH_ACK, [], 0, reply)
  {
    hide Has, Exclusive, Ids, Fresh, IdValid, ReportsOk, SenderOf, Voter, Orphan, NoNewerOwner, Field, Get, RecordsOf;
    reply, granted := [], false;
    var req := ReadEpoch(f, 16);
    var cfg := ReadEpoch(f, 24);
    var b, me := IsVoter(d);
    if !b { return 0, [], false; }
    d.currentEpoch := Max(d.currentEpoch, req);
    if req < d.currentEpoch { return 0, [], false; }
    if d.lastVote == d.currentEpoch { return 0, [], false; }
    var o, sender := IsOrphan(d, Field(f, 40, 40));
    if !o { return 0, [], false; }
    FoundOnly2(d.nodes, Field(f, 40, 40), sender);
    var ok := CheckOwners(d.nodes, sender, Field(f, 80, 2048), cfg);
    if !ok { return 0, [], false; }
    var built, frame, sn, listed := BuildFrame(d.nodes, d.currentEpoch, AUTH_ACK, grow);
    if !built { return -1, [], false; }
    d.lastVote := d.currentEpoch;
    EmptyPayload(d.nodes, listed, frame);
    return 0, frame, true;
  }

  lemma EmptyPayload(ns: seq<Node>, listed: seq<nat>, f: seq<Byte>)
    requires |f| >= HDR && RecordsOf(ns, listed, f[HDR..]) && listed == []
    ensures f[HDR..] == []
  {
  }

  lemma FoundOnly2(ns: seq<Node>, id: seq<Byte>, i: int)
    requires TableOk(ns) && Found(ns, id, i)
    ensures forall j :: Found(ns, id, j) ==> j == i
  {
    FoundOnly(ns, id, i);
  }

  /** The epoch field at an offset. */
  function Epoch(f: seq<Byte>, o: nat): U64
    requires o + 8 <= |f|
  {
    GetBound(Field(f, o, 8));
    PowersOf256();
    Num(f, o, 8)
  }

  lemma PowersOf256()
    ensures Pow256(2) == 0x1_0000 && Pow256(4) == 0x1_0000_0000 && Pow256(8) == 0x1_0000_0000_0000_0000
  {
    assert Pow256(2) == 256 * Pow256(1) && Pow256(1) == 256;
    assert Pow256(4) == 256 * Pow256(3) && Pow256(3) == 256 * Pow256(2);
    assert Pow256(6) == 256 * Pow256(5) && Pow256(5) == 256 * Pow256(4);
    assert Pow256(8) == 256 * Pow256(7) && Pow256(7) == 256 * Pow256(6);
  }

  method ReadEpoch(f: seq<Byte>, o: nat) returns (e: U64)
    requires o + 8 <= |f|
    ensures e == Epoch(f, o)
  {
    PowersOf256();
    e := ReadBE(Field(f, o, 8));
  }

  /** The id is that of a known master that serves slots. */
  ghost predicate Counts(ns: seq<Node>, id: seq<Byte>) {
    exists i: nat :: i < |ns| && Found(ns, id, i) && IsMaster(ns[i]) && Serves(ns, i)
  }

  /** handle_auth_ack: a serving master counts once, and only for the election under way. */
  method HandleAuthAck(d: Db, f: seq<Byte>) returns (ghost counted: bool)
    requires d.Valid() && |f| >= HDR
    modifies d`ackMask, d`ackCount
    ensures d.Valid() && old(d.ackMask) <= d.ackMask
    ensures counted == (d.reqEpoch != 0 && Epoch(f, 16) >= d.reqEpoch && Counts(d.nodes, Field(f, 40, 40)))
    ensures if !counted then d.ackMask == old(d.ackMask) && d.ackCount == old(d.ackCount)
            else exists i: nat :: i < |d.nodes| &&
                   Found(d.nodes, Field(f, 40, 40), i) && d.ackMask == old(d.ackMask) + {i}
    ensures d.ackCount == |d.ackMask|
  {
    hide Has, Exclusive, Fresh, IdValid, ReportsOk, Serves, Field, Get;
    counted := false;
    var e := ReadEpoch(f, 16);
    if d.reqEpoch == 0 || e < d.reqEpoch { return; }
    var i := d.NodeFind(Field(f, 40, 40));
    FoundOnly(d.nodes, Field(f, 40, 40), i);
    if i == -1 || !IsMaster(d.nodes[i]) { return; }
    var serves := d.IsServing(i);
    if !serves { return; }
    counted := true;
    if i < 32 && i !in d.ackMask {
      d.ackMask, d.ackCount := d.ackMask + {i}, d.ackCount + 1;
    }
    assert d.ackMask == old(d.ackMask) + {i};
  }
}
