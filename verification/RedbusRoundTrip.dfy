/** A greeting that one member builds is taken by another, which then knows the sender. */
module RedbusRoundTrip {
  import opened Bytes
  import opened ClusterNode
  import opened ClusterDb
  import opened RedbusCodec
  import opened Redbus
  import opened RedbusFrames

  lemma ReadsBack(f: seq<Byte>, o: nat, v: nat, n: nat)
    requires o + n <= |f| && Field(f, o, n) == Put(v, n) && v < Pow256(n)
    ensures Num(f, o, n) == v
  {
    hide Get, Put, Pow256, Field;
    GetPut(v, n);
    SmallMod(v, Pow256(n));
  }

  lemma SmallMod(v: nat, m: nat)
    requires v < m
    ensures v % m == v
  {
  }

  /** totlen and count match the bytes written, and the numbers of the header are the sender's. */
  lemma HeaderNumbers(sn: Node, current: U64, typ: U16, payload: seq<Byte>, gc: nat, f: seq<Byte>)
    requires FrameOf(sn, current, typ, payload, gc, f) && |f| < 0x1_0000_0000 && gc < 0x1_0000
    ensures Num32(f, 4) == |f| && Num16(f, 14) == gc && Num16(f, 12) == typ
    ensures Num16(f, 10) == sn.port && Num16(f, 2248) == sn.busPort && Num16(f, 2250) == ToWire(sn.flags)
    ensures Epoch(f, 16) == current && Epoch(f, 24) == sn.epoch
  {
    hide Put, Get, Field, Name, IpField, ToWire;
    PowersOf256();
    ReadsBack(f, 4, |f|, 4);
    ReadsBack(f, 14, gc, 2);
    ReadsBack(f, 12, typ, 2);
    ReadsBack(f, 10, sn.port, 2);
    ReadsBack(f, 2248, sn.busPort, 2);
    ReadsBack(f, 2250, ToWire(sn.flags), 2);
    ReadsBack(f, 16, current, 8);
    ReadsBack(f, 24, sn.epoch, 8);
  }

  lemma NameOfId(id: seq<Byte>)
    requires IdValid(id)
    ensures Name(id) == id && !NameZero(id)
  {
    assert IsHex(id[0]);
    assert id[..40] == id;
  }

  /** A node's master is missing or a valid id. */
  predicate MasterText(m: seq<Byte>) { m == DASH || m == [] || IdValid(m) }

  lemma NameOfMaster(m: seq<Byte>)
    requires MasterText(m)
    ensures NameZero(Name(m)) <==> !IdValid(m)
    ensures IdValid(m) ==> Name(m) == m
  {
    if IdValid(m) { NameOfId(m); }
  }

  lemma {:induction false} CStrStops(x: seq<Byte>, rest: seq<Byte>)
    requires 0 !in x && (rest == [] || rest[0] == 0)
    ensures CStr(x + rest) == x
  {
    if x == [] {
      assert x + rest == rest;
    } else {
      CStrStops(x[1..], rest);
      assert (x + rest)[1..] == x[1..] + rest;
      assert x == [x[0]] + x[1..];
    }
  }

  lemma IpBack(ip: seq<Byte>)
    requires 0 !in ip && |ip| <= 45
    ensures CStr(IpField(ip)) == ip
  {
    CStrStops(ip, Zeros(46 - |ip|));
  }

  lemma GossipIdAt(ns: seq<Node>, listed: seq<nat>, f: seq<Byte>, j: nat)
    requires Ids(ns) && |f| >= HDR && RecordsOf(ns, listed, f[HDR..]) && j < |listed|
    ensures HDR + (j + 1) * GOSSIP <= |f| && GossipId(f, j) == ns[listed[j]].id
  {
    hide Name, IpField, Put, ToWire;
    var p := f[HDR..];
    var n := ns[listed[j]];
    assert GossipOf(n, Field(p, GOSSIP * j, GOSSIP));
    NameOfId(n.id);
    assert GossipId(f, j) == Field(Field(p, GOSSIP * j, GOSSIP), 0, 40);
  }

  lemma HelloTaken(ns: seq<Node>, sn: nat, current: U64, typ: U16, listed: seq<nat>, f: seq<Byte>, to: seq<Node>)
    requires Ids(ns) && sn < |ns| && MasterText(ns[sn].masterId) && Hello(typ) && |f| >= HDR && |listed| <= GOSSIP_MAX
    requires sn !in listed
    requires FrameOf(ns[sn], current, typ, f[HDR..], |listed|, f) && RecordsOf(ns, listed, f[HDR..])
    requires RoomFor(to, ns[sn].id)
    ensures Taken(f, to) && Num16(f, 12) == typ && Num16(f, 14) == |listed|
    ensures Field(f, 40, 40) == ns[sn].id && Field(f, 2128, 40) == Name(ns[sn].masterId)
    ensures !SpokenOf(f, |listed|, ns[sn].id)
  {
    hide Name, IpField, Put, ToWire, Get, GossipOf, IdValid, RoomFor, GossipId;
    HeaderNumbers(ns[sn], current, typ, f[HDR..], |listed|, f);
    assert IdValid(ns[sn].id);
    NameOfId(ns[sn].id);
    NameOfMaster(ns[sn].masterId);
    forall j | 0 <= j < |listed| ensures IdValid(GossipId(f, j)) && GossipId(f, j) != ns[sn].id {
      GossipIdAt(ns, listed, f, j);
      assert listed[j] in listed;
    }
  }

  /** A record says what the sender's node says. */
  ghost predicate Describes(r: Record, n: Node) {
    && r.port == n.port && r.busPort == n.busPort && r.epoch == n.epoch && r.flags == n.flags * SHARED
    && r.hasMaster && r.master == Name(n.masterId)
    && (0 !in n.ip && 0 < |n.ip| <= 45 ==> r.ip == n.ip)
  }

  lemma Described(n: Node, current: U64, typ: U16, listed: seq<nat>, f: seq<Byte>, src: seq<Byte>)
    requires |f| >= HDR && FrameOf(n, current, typ, f[HDR..], |listed|, f) && |listed| <= GOSSIP_MAX
    requires |f| < 0x1_0000_0000
    ensures Describes(SenderRecord(f, src), n) && Epoch(f, 16) == current
  {
    hide Name, Put, ToWire, Get, FromWire, IpField, CStr;
    HeaderNumbers(n, current, typ, f[HDR..], |listed|, f);
    FlagsRoundTrip(n.flags);
    if 0 !in n.ip && 0 < |n.ip| <= 45 { IpBack(n.ip); }
  }

  lemma Introduced(was: seq<Node>, now: seq<Node>, i: nat, f: seq<Byte>, src: seq<Byte>, time: U64, n: Node, typ: U16,
                   count: nat)
    requires |f| >= HDR && |f| >= HDR + Num16(f, 14) * GOSSIP && Num16(f, 14) == count && Num16(f, 12) == typ
    requires Field(f, 40, 40) == n.id
    requires Greeted(was, now, i, f, src, time) && Describes(SenderRecord(f, src), n) && !SpokenOf(f, count, n.id)
    requires MasterText(n.masterId)
    ensures i < |now| && now[i].id == n.id && now[i].port == n.port && now[i].busPort == n.busPort
    ensures now[i].epoch >= n.epoch && now[i].lastSeen == time
    ensures now[i].masterId == if IdValid(n.masterId) then n.masterId else DASH
    ensures now[i].flags == if typ == MEET then n.flags * SHARED - {Handshake} else n.flags * SHARED
    ensures 0 !in n.ip && 0 < |n.ip| <= 45 ==> now[i].ip == n.ip
  {
    hide Field, Get, Base, ClaimsMerged, SenderRecord, Name, IdValid, NameZero, SpokenOf;
    NameOfMaster(n.masterId);
  }

  /** The receiver knows id, ports, address, master, shared flags and an epoch at least the sender's; so it does when it
      rejects the greeting because it cannot build the answer. */
  method Greet(s: Db, d: Db, typ: U16, grow: bool, now: U64, src: seq<Byte>) returns (rc: int, sn: int, ghost i: int)
    requires s.Valid() && d.Valid() && s.nodes != [] && Hello(typ)
    requires forall k :: 0 <= k < |s.nodes| ==> MasterText(s.nodes[k].masterId)
    requires forall k :: 0 <= k < |s.nodes| && IsSender(s.nodes, k) ==> RoomFor(d.nodes, s.nodes[k].id)
    modifies d`nodes, d`currentEpoch, d`dirty, d`changes, d`failBroadcast, d`lastVote, d`ackMask, d`ackCount
    ensures rc == (if grow || typ == PONG then 0 else -1) && d.changes > old(d.changes)
    ensures d.Valid() && 0 <= sn < |old(s.nodes)| && IsSender(old(s.nodes), sn) && 0 <= i < |d.nodes|
    ensures var n, m := old(s.nodes)[sn], d.nodes[i];
            && m.id == n.id && m.port == n.port && m.busPort == n.busPort && m.epoch >= n.epoch && m.lastSeen == now
            && m.masterId == (if IdValid(n.masterId) then n.masterId else DASH)
            && m.flags == (if typ == MEET then n.flags * SHARED - {Handshake} else n.flags * SHARED)
            && (0 !in n.ip && 0 < |n.ip| <= 45 ==> m.ip == n.ip)
    ensures d.currentEpoch >= old(s.currentEpoch)
  {
    hide TableOk, FrameOf, RecordsOf, Taken, IsSender, RoomFor, Field, Get, NameZero, Name, FromWire, ToWire;
    ghost var listed;
    var ok, f;
    ok, f, sn, listed := BuildFrame(s.nodes, s.currentEpoch, typ, true);
    ghost var ns, cur := s.nodes, s.currentEpoch;
    assert Ids(ns) by { TableIds(ns); }
    HelloTaken(ns, sn, cur, typ, listed, f, d.nodes);
    FrameSize(ns, listed, f);
    Described(ns[sn], cur, typ, listed, f, src);
    var reply;
    rc, reply, i := HandleFrame(d, f, grow, now, src);
    Introduced(old(d.nodes), d.nodes, i, f, src, now, ns[sn], typ, |listed|);
  }

  lemma FrameSize(ns: seq<Node>, listed: seq<nat>, f: seq<Byte>)
    requires |f| >= HDR && RecordsOf(ns, listed, f[HDR..]) && |listed| <= GOSSIP_MAX
    ensures |f| == HDR + GOSSIP * |listed| < 0x1_0000_0000
  {
  }
}
