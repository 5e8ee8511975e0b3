/** redbus_handle_frame: what every frame, well formed or not, does to the node table. */
module RedbusFrames {
  import opened Bytes
  import opened SlotBitmap
  import opened ClusterNode
  import opened ClusterClaims
  import opened ClusterVerdict
  import opened ClusterReports
  import opened ClusterDb
  import opened RedbusCodec
  import opened Redbus

  function Num16(f: seq<Byte>, o: nat): U16
    requires o + 2 <= |f|
  {
    GetBound(Field(f, o, 2));
    PowersOf256();
    Num(f, o, 2)
  }

  function Num32(f: seq<Byte>, o: nat): U32
    requires o + 4 <= |f|
  {
    GetBound(Field(f, o, 4));
    PowersOf256();
    Num(f, o, 4)
  }

  predicate Hello(typ: nat) { typ == PING || typ == PONG || typ == MEET }

  /** The lengths of a frame agree with its type, its counts and its bytes. */
  predicate WellFormed(f: seq<Byte>) {
    && |f| >= HDR && Field(f, 0, 4) == MAGIC && Num32(f, 4) == |f|
    && var typ, count := Num16(f, 12), Num16(f, 14);
       && |f| >= HDR + count * GOSSIP
       && (Hello(typ) ==> |f| == HDR + count * GOSSIP)
       && (typ == UPDATE ==> count == 0 && |f| == HDR + 8 + 40 + 2048)
       && (typ == FAIL_MSG ==> count == 0 && |f| == HDR + 40)
       && (typ == AUTH_REQUEST || typ == AUTH_ACK ==> count == 0 && |f| == HDR)
       && (typ == PUBLISH || typ == PUBLISHSHARD ==>
         count == 0 && |f| >= HDR + 8 && |f| == HDR + 8 + Num32(f, HDR) + Num32(f, HDR + 4))
  }

  /** The id of gossip record j. */
  function GossipId(f: seq<Byte>, j: nat): seq<Byte>
    requires HDR + (j + 1) * GOSSIP <= |f|
  {
    Field(f, HDR + j * GOSSIP, 40)
  }

  ghost predicate GossipIdsOk(f: seq<Byte>, n: nat)
    requires HDR + n * GOSSIP <= |f|
  {
    forall j :: 0 <= j < n ==> IdValid(GossipId(f, j))
  }

  /** All ids of a greeting are valid. */
  ghost predicate HelloIds(f: seq<Byte>)
    requires |f| >= HDR && |f| >= HDR + Num16(f, 14) * GOSSIP
  {
    && IdValid(Field(f, 40, 40)) && (NameZero(Field(f, 2128, 40)) || IdValid(Field(f, 2128, 40)))
    && GossipIdsOk(f, Num16(f, 14))
  }

  /** A greeting that is taken: valid ids everywhere, and the sender is known or there is room for it. */
  ghost predicate Welcome(f: seq<Byte>, ns: seq<Node>)
    requires |f| >= HDR && |f| >= HDR + Num16(f, 14) * GOSSIP
  {
    HelloIds(f) && RoomFor(ns, Field(f, 40, 40))
  }

  /** The frames that are not rejected. */
  ghost predicate Taken(f: seq<Byte>, ns: seq<Node>) {
    && WellFormed(f)
    && var typ := Num16(f, 12);
       && (Hello(typ) ==> Welcome(f, ns))
       && (typ == UPDATE ==> IdValid(Field(f, HDR + 8, 40)))
       && (typ == FAIL_MSG ==> IdValid(Field(f, HDR, 40)))
  }

  /** The record that a greeting carries about its sender. */
  function SenderRecord(f: seq<Byte>, src: seq<Byte>): Record
    requires |f| >= HDR
  {
    var ip := CStr(Field(f, 2168, 46));
    Record(Truncate(if ip == [] then CStr(src) else ip), Num16(f, 10), Num16(f, 2248),
           FromWire(Num16(f, 2250)), Field(f, 2128, 40), true, Epoch(f, 24))
  }

  /** snprintf into the 64-byte address of a node. */
  function Truncate(s: seq<Byte>): seq<Byte> { if |s| > 63 then s[..63] else s }

  function GossipRecord(f: seq<Byte>, j: nat, src: seq<Byte>): Record
    requires HDR + (j + 1) * GOSSIP <= |f|
  {
    var p := HDR + j * GOSSIP;
    var ip := CStr(Field(f, p + 48, 46));
    Record(Truncate(if ip == [] then CStr(src) else ip), Num16(f, p + 94), Num16(f, p + 96),
           FromWire(Num16(f, p + 98)) + {Handshake}, [], false, 0)
  }

  method CheckGossipIds(f: seq<Byte>, count: nat) returns (ok: bool)
    requires HDR + count * GOSSIP <= |f|
    ensures ok == GossipIdsOk(f, count)
  {
    hide IdValid, Field;
    for j := 0 to count
      invariant GossipIdsOk(f, j)
    {
      if !IdValid(GossipId(f, j)) { return false; }
    }
    return true;
  }

  method CheckHello(f: seq<Byte>) returns (ok: bool)
    requires |f| >= HDR && |f| >= HDR + Num16(f, 14) * GOSSIP
    ensures ok == HelloIds(f)
  {
    hide IdValid, Field, NameZero, GossipIdsOk, Get;
    var master := Field(f, 2128, 40);
    if !IdValid(Field(f, 40, 40)) || (!NameZero(master) && !IdValid(master)) { return false; }
    ok := CheckGossipIds(f, Num16(f, 14));
  }

  lemma HelloMaster(f: seq<Byte>, src: seq<Byte>)
    requires |f| >= HDR && |f| >= HDR + Num16(f, 14) * GOSSIP && HelloIds(f)
    ensures IdValid(Field(f, 40, 40)) && MasterOk(SenderRecord(f, src)) && GossipIdsOk(f, Num16(f, 14))
  {
    hide IdValid, Field, NameZero, GossipIdsOk, Get;
  }

  // ---------------------------------------------------------------- gossip

  /** Nodes that came since hold no slots. */
  ghost predicate NewEmpty(was: seq<Node>, now: seq<Node>) {
    forall k: nat, s: nat :: |was| <= k ==> !Owns(now, k, s)
  }

  /** Nodes that were there keep all but flags, reports and the time of failure;
      flags change only where a record speaks of the node. */
  ghost predicate Gossiped(was: seq<Node>, now: seq<Node>, f: seq<Byte>, n: nat)
    requires HDR + n * GOSSIP <= |f|
  {
    && |was| <= |now| && NewEmpty(was, now)
    && forall k :: 0 <= k < |was| ==>
      && now[k] == was[k].(flags := now[k].flags, reports := now[k].reports, failTime := now[k].failTime)
      && (now[k] == was[k] || SpokenOf(f, n, was[k].id))
  }

  ghost predicate SpokenOf(f: seq<Byte>, n: nat, id: seq<Byte>)
    requires HDR + n * GOSSIP <= |f|
  {
    exists j :: 0 <= j < n && GossipId(f, j) == id
  }

  /** Only node g may differ, and only in flags, reports and the time of failure. */
  ghost predicate Touched(was: seq<Node>, now: seq<Node>, g: nat, id: seq<Byte>) {
    && |was| <= |now| && NewEmpty(was, now)
    && (forall k :: 0 <= k < |was| && k != g ==> now[k] == was[k])
    && (g < |was| ==>
      && was[g].id == id
      && now[g] == was[g].(flags := now[g].flags, reports := now[g].reports, failTime := now[g].failTime))
  }

  lemma GossipStep(was: seq<Node>, mid: seq<Node>, now: seq<Node>, f: seq<Byte>, n: nat, g: nat)
    requires HDR + (n + 1) * GOSSIP <= |f| && Gossiped(was, mid, f, n) && Touched(mid, now, g, GossipId(f, n))
    ensures Gossiped(was, now, f, n + 1)
  {
    hide Field, GossipId, Has;
    forall k: nat, s: nat | |was| <= k ensures !Owns(now, k, s) {
      if k < |mid| { assert !Owns(mid, k, s); assert now[k].slots == mid[k].slots; }
    }
    forall k | 0 <= k < |was|
      ensures now[k] == was[k].(flags := now[k].flags, reports := now[k].reports, failTime := now[k].failTime)
      ensures now[k] == was[k] || SpokenOf(f, n + 1, was[k].id)
    {
      assert mid[k].id == was[k].id;
      if SpokenOf(f, n, was[k].id) {
        var j :| 0 <= j < n && GossipId(f, j) == was[k].id;
        assert SpokenOf(f, n + 1, was[k].id);
      }
    }
  }

  /** The flags of gossip record j report the node as failing. */
  predicate Suspects(f: seq<Byte>, j: nat)
    requires HDR + (j + 1) * GOSSIP <= |f|
  {
    var w := Num16(f, HDR + j * GOSSIP + 98);
    Test(w, 4) || Test(w, 8)
  }

  /** What a record about a known node does: a master's suspicion is put on record and the quorum judges, its all-clear
      takes the report back, and nothing else changes. */
  ghost predicate Heard(was: Node, now: Node, sender: Node, suspects: bool, self: nat, masters: nat, time: U64,
                        window: U64) {
    if Myself in was.flags || !IsMaster(sender) then now == was
    else if suspects then exists rs ::
      Added(was.reports, rs, sender.id, time) && Judged(was.(reports := rs), now, self, masters, time, window)
    else
      && now == was.(reports := now.reports)
      && forall r :: r in now.reports <==> r in was.reports && r.reporter != sender.id
  }

  /** What gossip record j does to the table: an unseen node is appended while there is room, a known one heard of. */
  ghost predicate RecordTaken(was: seq<Node>, now: seq<Node>, g: nat, f: seq<Byte>, j: nat, sender: nat, time: U64,
                              window: U64, src: seq<Byte>)
    requires HDR + (j + 1) * GOSSIP <= |f|
  {
    var id := GossipId(f, j);
    if !Known(was, id) then
      now == was + if |was| < MAX_NODES then [Apply(FreshNode(id), GossipRecord(f, j, src))] else []
    else
      && g < |was| == |now| && sender < |was| && was[g].id == id && now == was[g := now[g]]
      && Heard(was[g], now[g], was[sender], Suspects(f, j), SelfVote(was), |ServingMasters(was, |was|)|, time, window)
  }

  ghost predicate StepTaken(was: seq<Node>, now: seq<Node>, f: seq<Byte>, j: nat, sender: nat, time: U64,
                            window: U64, src: seq<Byte>)
    requires HDR + (j + 1) * GOSSIP <= |f|
  {
    exists g: nat :: RecordTaken(was, now, g, f, j, sender, time, window, src)
  }

  /** The records are taken one after the other. */
  ghost predicate RecordRun(tables: seq<seq<Node>>, f: seq<Byte>, n: nat, sender: nat, time: U64, window: U64,
                            src: seq<Byte>)
    requires HDR + n * GOSSIP <= |f|
  {
    && |tables| == n + 1
    && forall j :: 0 <= j < n ==> StepTaken(tables[j], tables[j + 1], f, j, sender, time, window, src)
  }

  lemma RecordRunStep(tables: seq<seq<Node>>, now: seq<Node>, f: seq<Byte>, n: nat, g: nat, sender: nat, time: U64,
                      window: U64, src: seq<Byte>)
    requires HDR + (n + 1) * GOSSIP <= |f| && RecordRun(tables, f, n, sender, time, window, src)
    requires RecordTaken(tables[n], now, g, f, n, sender, time, window, src)
    ensures RecordRun(tables + [now], f, n + 1, sender, time, window, src)
  {
    var more := tables + [now];
    assert StepTaken(tables[n], now, f, n, sender, time, window, src);
    hide StepTaken, RecordTaken;
    forall j | 0 <= j < n + 1 ensures StepTaken(more[j], more[j + 1], f, j, sender, time, window, src) {
      assert j < n ==> more[j] == tables[j] && more[j + 1] == tables[j + 1];
    }
  }

  /** One gossip record: an unseen node is added, a master's word about a known one is a report. */
  method HandleGossip(d: Db, f: seq<Byte>, j: nat, sender: nat, now: U64, src: seq<Byte>) returns (ghost g: nat)
    requires d.Core() && d.Stale() && HDR + (j + 1) * GOSSIP <= |f| && IdValid(GossipId(f, j)) && sender < |d.nodes|
    modifies d`nodes, d`currentEpoch, d`changes, d`failBroadcast
    ensures d.Core() && d.Stale() && (old(d.EpochsOk()) ==> d.EpochsOk())
    ensures d.currentEpoch == old(d.currentEpoch) && d.changes >= old(d.changes)
    ensures Touched(old(d.nodes), d.nodes, g, GossipId(f, j))
    ensures RecordTaken(old(d.nodes), d.nodes, g, f, j, sender, now, Window(d.timeout), src)
  {
    hide Ids, Exclusive, Fresh, IdValid, ReportsOk, Has, Field, Ok, Added, Judged, SelfVote, ServingMasters;
    var i := d.NodeFind(GossipId(f, j));
    g := if i == -1 then |d.nodes| else i;
    SenderValid(d.nodes, sender);
    if i == -1 {
      var n := ApplyNode(d, GossipId(f, j), GossipRecord(f, j, src));
      NoneNew(old(d.nodes), GossipId(f, j), d.nodes, n, GossipRecord(f, j, src));
    } else if Myself !in d.nodes[i].flags && IsMaster(d.nodes[sender]) {
      if Suspects(f, j) {
        d.ReportFailure(i, d.nodes[sender].id, now);
        ReportsApart(old(d.nodes), i, d.nodes[i].reports);
        ghost var n := d.nodes[i];
        var _ := d.MarkFailIfQuorum(i, now);
        JudgedFields(n, d.nodes[i], SelfVote(old(d.nodes)),
                     |ServingMasters(old(d.nodes), |d.nodes|)|, now, Window(d.timeout));
      } else {
        d.ReportHeal(i, d.nodes[sender].id);
      }
    }
  }

  lemma SenderValid(ns: seq<Node>, i: nat)
    requires TableOk(ns) && i < |ns|
    ensures IdValid(ns[i].id)
  {
  }

  lemma NoneNew(ns: seq<Node>, id: seq<Byte>, now: seq<Node>, n: int, r: Record)
    requires !Known(ns, id)
    requires if n == -1 then now == ns
             else n >= 0 && n < |now| == |ns| + 1 &&
                  now == Base(ns, id)[n := Apply(Base(ns, id)[n], r)] && now[n].id == id
    ensures NewEmpty(ns, now) && forall k :: 0 <= k < |ns| ==> now[k] == ns[k]
    ensures n != -1 ==> now == ns + [Apply(FreshNode(id), r)]
  {
    hide Has, NameZero;
    assert forall k :: 0 <= k < |ns| ==> ns[k].id != id;
  }

  /** The gossip section of a greeting. */
  method HandleAllGossip(d: Db, f: seq<Byte>, count: nat, sender: nat, now: U64, src: seq<Byte>)
    returns (ghost tables: seq<seq<Node>>)
    requires d.Core() && d.Stale() && HDR + count * GOSSIP <= |f| && GossipIdsOk(f, count) && sender < |d.nodes|
    modifies d`nodes, d`currentEpoch, d`changes, d`failBroadcast
    ensures d.Core() && d.Stale() && (old(d.EpochsOk()) ==> d.EpochsOk())
    ensures d.currentEpoch == old(d.currentEpoch) && d.changes >= old(d.changes)
    ensures Gossiped(old(d.nodes), d.nodes, f, count)
    ensures |d.nodes| >= |old(d.nodes)| && IdsKept(old(d.nodes), d.nodes)
    ensures RecordRun(tables, f, count, sender, now, Window(d.timeout), src)
    ensures tables[0] == old(d.nodes) && tables[count] == d.nodes
  {
    hide TableOk, AcksOk, Bounded, IdValid, GossipId, Touched, RecordTaken;
    tables := [d.nodes];
    for j := 0 to count
      invariant d.Core() && d.Stale() && (old(d.EpochsOk()) ==> d.EpochsOk())
      invariant d.currentEpoch == old(d.currentEpoch) && d.changes >= old(d.changes)
      invariant Gossiped(old(d.nodes), d.nodes, f, j)
      invariant RecordRun(tables, f, j, sender, now, Window(d.timeout), src)
      invariant tables[0] == old(d.nodes) && tables[j] == d.nodes
    {
      ghost var mid := d.nodes;
      ghost var g := HandleGossip(d, f, j, sender, now, src);
      GossipStep(old(d.nodes), mid, d.nodes, f, j, g);
      RecordRunStep(tables, d.nodes, f, j, g, sender, now, Window(d.timeout), src);
      tables := tables + [d.nodes];
    }
  }

  // ---------------------------------------------------------------- greetings

  /** The slots of the greeting are merged as claims of node i. */
  ghost predicate ClaimsMerged(base: seq<Node>, i: nat, f: seq<Byte>, now: seq<Node>)
    requires |f| >= HDR && i < |base|
  {
    forall k: nat, s: nat :: s < SLOTS ==> Owns(now, k, s) == MergedOwns(base, i, Has(Field(f, 80, 2048), s), k, s)
  }

  /** What a greeting leaves in the sender's node. */
  ghost predicate Greeted(was: seq<Node>, now: seq<Node>, i: nat, f: seq<Byte>, src: seq<Byte>, time: U64)
    requires |f| >= HDR && |f| >= HDR + Num16(f, 14) * GOSSIP
  {
    var id, r := Field(f, 40, 40), SenderRecord(f, src);
    var base := Base(was, id);
    && i < |base| <= |now| && base[i].id == id && now[i].id == id
    && now[i] == Apply(base[i], r).(slots := now[i].slots, lastSeen := time,
          flags := now[i].flags, reports := now[i].reports, failTime := now[i].failTime)
    && (!SpokenOf(f, Num16(f, 14), id) ==> now[i].flags == HelloFlags(f, r.flags))
    && ClaimsMerged(base[i := Apply(base[i], r)], i, f, now)
  }

  lemma NotMyself(w: U16)
    ensures Myself !in FromWire(w)
  {
  }

  function HelloFlags(f: seq<Byte>, flags: set<Flag>): set<Flag>
    requires |f| >= HDR
  {
    if Num16(f, 12) == MEET then flags - {Handshake} else flags
  }

  /** The sender's node once its claims are merged. */
  ghost predicate Merging(base: seq<Node>, mid: seq<Node>, i: nat, f: seq<Byte>, time: U64)
    requires |f| >= HDR
  {
    && i < |base| == |mid|
    && ClaimsMerged(Raised(base, i, Epoch(f, 24)), i, f, mid)
    && mid[i] == base[i].(slots := mid[i].slots, lastSeen := time,
          flags := HelloFlags(f, base[i].flags), epoch := Max(base[i].epoch, Epoch(f, 24)))
  }

  /** The claims and the current epoch of a greeting. */
  method MergeHello(d: Db, f: seq<Byte>, i: nat, now: U64)
    requires d.Core() && |f| >= HDR && i < |d.nodes| && Myself !in d.nodes[i].flags
    modifies d`nodes, d`currentEpoch, d`dirty, d`changes
    ensures d.Core() && d.Stale() && (old(d.EpochsOk()) ==> d.EpochsOk()) && d.changes == old(d.changes) + 1
    ensures Merging(old(d.nodes), d.nodes, i, f, now) && |d.nodes| == |old(d.nodes)| && IdsKept(old(d.nodes), d.nodes)
    ensures d.currentEpoch == Max(Max(old(d.currentEpoch), Epoch(f, 24)), Epoch(f, 16))
  {
    hide TableOk, AcksOk, Field, MergedOwns, Owns, Fresh, Get, Has;
    if Num16(f, 12) == MEET {
      SetNode(d, i, d.nodes[i].(flags := d.nodes[i].flags - {Handshake}));
    }
    ghost var was := d.nodes;
    d.MergeClaims(i, Field(f, 80, 2048), Epoch(f, 24));
    ghost var mid := d.nodes;
    SetNode(d, i, d.nodes[i].(lastSeen := now));
    d.currentEpoch := Max(d.currentEpoch, Epoch(f, 16));
    MergedSince(old(d.nodes), was, i, f, mid, d.nodes);
    assert IdsKept(was, mid);
  }

  /** Flags and times play no part in a merge. */
  lemma MergedSince(base: seq<Node>, was: seq<Node>, i: nat, f: seq<Byte>, mid: seq<Node>, now: seq<Node>)
    requires |f| >= HDR && i < |base| == |was| && |now| == |mid|
    requires Merged(was, Claim(i, Field(f, 80, 2048), Epoch(f, 24)), mid)
    requires was == base[i := base[i].(flags := was[i].flags)]
    requires forall k :: 0 <= k < |mid| ==> now[k].slots == mid[k].slots
    ensures ClaimsMerged(Raised(base, i, Epoch(f, 24)), i, f, now)
  {
    hide Has, Field, Above;
    var a, b := Raised(base, i, Epoch(f, 24)), Raised(was, i, Epoch(f, 24));
    forall k: nat, s: nat | s < SLOTS ensures Owns(now, k, s) == MergedOwns(a, i, Has(Field(f, 80, 2048), s), k, s) {
      assert Owns(mid, k, s) == MergedOwns(b, i, Has(Field(f, 80, 2048), s), k, s);
      SameMerge(a, b, i, Has(Field(f, 80, 2048), s), k, s);
    }
  }

  lemma SameMerge(a: seq<Node>, b: seq<Node>, c: nat, claims: bool, k: nat, s: nat)
    requires c < |a| == |b|
    requires forall j :: 0 <= j < |a| ==> a[j].id == b[j].id && a[j].epoch == b[j].epoch && a[j].slots == b[j].slots
    ensures MergedOwns(a, c, claims, k, s) == MergedOwns(b, c, claims, k, s)
  {
    hide Has, Above;
    assert forall o: nat :: Owns(a, o, s) == Owns(b, o, s);
  }

  lemma SlotsStay(base: seq<Node>, i: nat, f: seq<Byte>, mid: seq<Node>, now: seq<Node>)
    requires |f| >= HDR && i < |base| == |mid| <= |now| && ClaimsMerged(base, i, f, mid) && NewEmpty(mid, now)
    requires forall k :: 0 <= k < |mid| ==> now[k].slots == mid[k].slots
    ensures ClaimsMerged(base, i, f, now)
  {
    hide Has, Field, MergedOwns;
    forall k: nat, s: nat | s < SLOTS ensures Owns(now, k, s) == Owns(mid, k, s) { }
  }

  lemma AfterGossip(was: seq<Node>, base: seq<Node>, mid: seq<Node>, now: seq<Node>, i: nat, f: seq<Byte>,
                    src: seq<Byte>, time: U64)
    requires |f| >= HDR && |f| >= HDR + Num16(f, 14) * GOSSIP
    requires i < |base| == |Base(was, Field(f, 40, 40))| && base[i].id == Field(f, 40, 40)
    requires base == Base(was, Field(f, 40, 40))[i := Apply(Base(was, Field(f, 40, 40))[i], SenderRecord(f, src))]
    requires Merging(base, mid, i, f, time) && Gossiped(mid, now, f, Num16(f, 14))
    ensures Greeted(was, now, i, f, src, time)
  {
    hide Field, Base, NameZero, Known, ClaimsMerged;
    assert Raised(base, i, Epoch(f, 24)) == base;
    SlotsStay(base, i, f, mid, now);
  }

  lemma SameIds(ns: seq<Node>)
    ensures IdsKept(ns, ns)
  {
  }

  lemma AllIdsKept(was: seq<Node>, id: seq<Byte>, base: seq<Node>, i: nat, r: Record, mid: seq<Node>, now: seq<Node>)
    requires i < |base| == |Base(was, id)| && base == Base(was, id)[i := Apply(Base(was, id)[i], r)]
    requires IdsKept(base, mid) && IdsKept(mid, now)
    ensures IdsKept(was, now)
  {
    hide NameZero, Known;
    forall k | 0 <= k < |was| ensures now[k].id == was[k].id {
      assert base[k].id == was[k].id;
      assert mid[k].id == base[k].id;
    }
  }

  /** The PONG that answers a greeting. */
  method Answer(d: Db, grow: bool) returns (built: bool, reply: seq<Byte>)
    ensures built == (grow && d.nodes != []) && (built ==> |reply| >= HDR && Field(reply, 12, 2) == Put(PONG, 2))
    ensures !built ==> reply == []
  {
    hide Put, Field, RecordsOf, IsSender, Increasing;
    var sn; ghost var listed;
    built, reply, sn, listed := BuildFrame(d.nodes, d.currentEpoch, PONG, grow);
  }

  /** A PING, PONG or MEET frame. */
  method HandleHello(d: Db, f: seq<Byte>, grow: bool, now: U64, src: seq<Byte>)
    returns (rc: int, reply: seq<Byte>, ghost i: int)
    requires d.Valid() && |f| >= HDR && |f| >= HDR + Num16(f, 14) * GOSSIP && Hello(Num16(f, 12))
    modifies d`nodes, d`currentEpoch, d`dirty, d`changes, d`failBroadcast
    ensures d.Valid() && (old(d.EpochsOk()) ==> d.EpochsOk())
    ensures i == -1 <==> !Welcome(f, old(d.nodes))
    ensures i == -1 ==> rc == -1 && reply == [] && d.Snapshot() == old(d.Snapshot())
    ensures i != -1 ==> i >= 0 && Greeted(old(d.nodes), d.nodes, i, f, src, now) && d.changes > old(d.changes)
    ensures i != -1 ==> d.currentEpoch == Max(Max(old(d.currentEpoch), Epoch(f, 24)), Epoch(f, 16))
    ensures i != -1 ==> rc == if Num16(f, 12) == PONG || grow then 0 else -1
    ensures rc == -1 || Num16(f, 12) == PONG ==> reply == []
    ensures IdsKept(old(d.nodes), d.nodes)
    ensures rc == 0 && Num16(f, 12) != PONG ==> |reply| >= HDR && Field(reply, 12, 2) == Put(PONG, 2)
  {
    hide TableOk, AcksOk, Bounded, IdValid, GossipId, Field, NameZero, GossipIdsOk, Fresh, Ok, RoomFor, Known;
    hide Greeted, Gossiped, Merging, Base, Get, Put, FromWire, MasterOk, HelloIds, IdsKept;
    rc, reply, i := -1, [], -1;
    SameIds(d.nodes);
    var ok := CheckHello(f);
    if !ok { return; }
    HelloMaster(f, src);
    var n := ApplyNode(d, Field(f, 40, 40), SenderRecord(f, src));
    if n == -1 { return; }
    i := n;
    ghost var base := d.nodes;
    NotMyself(Num16(f, 2250));
    MergeHello(d, f, n, now);
    ghost var mid := d.nodes;
    ghost var tables := HandleAllGossip(d, f, Num16(f, 14), n, now, src);
    AllIdsKept(old(d.nodes), Field(f, 40, 40), base, n, SenderRecord(f, src), mid, d.nodes);
    AfterGossip(old(d.nodes), base, mid, d.nodes, n, f, src, now);
    if Num16(f, 12) != PONG {
      var built;
      built, reply := Answer(d, grow);
      if !built { return; }
    }
    d.changes, d.dirty := d.changes + 1, true;
    rc := 0;
  }

  // ---------------------------------------------------------------- all frames

  /** An UPDATE frame: newer slot claims of a known node. */
  method HandleUpdate(d: Db, f: seq<Byte>) returns (rc: int)
    requires d.Valid() && |f| == HDR + 2096
    modifies d`nodes, d`currentEpoch, d`dirty, d`changes
    ensures d.Valid() && (old(d.EpochsOk()) ==> d.EpochsOk())
    ensures rc == if IdValid(Field(f, HDR + 8, 40)) then 0 else -1
    ensures rc == -1 ==> d.Snapshot() == old(d.Snapshot())
    ensures rc == 0 ==> d.currentEpoch == Max(old(d.currentEpoch), Epoch(f, HDR))
    ensures rc == 0 && !Known(old(d.nodes), Field(f, HDR + 8, 40)) ==> d.nodes == old(d.nodes)
    ensures IdsKept(old(d.nodes), d.nodes)
    ensures rc == 0 ==> forall i: nat :: i < |old(d.nodes)| && old(d.nodes)[i].id == Field(f, HDR + 8, 40) ==>
      var claim := Claim(i, Field(f, HDR + 48, 2048), Epoch(f, HDR));
      if Myself in old(d.nodes)[i].flags then Adopted(old(d.nodes), claim, d.nodes)
      else Merged(old(d.nodes), claim, d.nodes)
  {
    hide TableOk, AcksOk, IdValid, Field, Get, Fresh, Ok, Merged, Adopted, Raised;
    var id, e := Field(f, HDR + 8, 40), Epoch(f, HDR);
    if !IdValid(id) { return -1; }
    var i := d.NodeFind(id);
    OnlyOne(d.nodes, id, i);
    if i != -1 {
      if Myself in d.nodes[i].flags {
        d.AdoptClaims(i, Field(f, HDR + 48, 2048), e);
        AdoptedIds(old(d.nodes), Claim(i, Field(f, HDR + 48, 2048), e), d.nodes);
      } else {
        NotSelf(d.nodes, i, e);
        d.MergeClaims(i, Field(f, HDR + 48, 2048), e);
        MergedIds(old(d.nodes), Claim(i, Field(f, HDR + 48, 2048), e), d.nodes);
      }
    }
    d.currentEpoch := Max(d.currentEpoch, e);
    return 0;
  }

  lemma AdoptedIds(ns: seq<Node>, claim: Claim, now: seq<Node>)
    requires Adopted(ns, claim, now)
    ensures IdsKept(ns, now)
  {
    hide Owns, Has;
  }

  lemma MergedIds(ns: seq<Node>, claim: Claim, now: seq<Node>)
    requires Merged(ns, claim, now)
    ensures IdsKept(ns, now)
  {
    hide Owns, Has, MergedOwns;
  }

  lemma OnlyOne(ns: seq<Node>, id: seq<Byte>, i: int)
    requires TableOk(ns) && IdValid(id) && Found(ns, id, i)
    ensures i == -1 ==> !Known(ns, id)
    ensures forall k: nat :: k < |ns| && ns[k].id == id ==> k == i
  {
    FoundOnly(ns, id, i);
  }

  lemma NotSelf(ns: seq<Node>, i: nat, e: U64)
    requires i < |ns| && Myself !in ns[i].flags
    ensures !IsMyself(Raised(ns, i, e), i)
  {
  }

  /** A FAIL frame: the quorum's word about one node. */
  method HandleFail(d: Db, f: seq<Byte>, now: U64) returns (rc: int)
    requires d.Valid() && |f| == HDR + 40
    modifies d`nodes, d`changes
    ensures d.Valid() && (old(d.EpochsOk()) ==> d.EpochsOk())
    ensures rc == if IdValid(Field(f, HDR, 40)) then 0 else -1
    ensures rc == -1 ==> d.Snapshot() == old(d.Snapshot())
    ensures IdsKept(old(d.nodes), d.nodes)
    ensures rc == 0 ==> |d.nodes| == |old(d.nodes)| && forall i :: 0 <= i < |d.nodes| ==> var n := old(d.nodes)[i];
      d.nodes[i] == if n.id != Field(f, HDR, 40) || Fail in n.flags || Myself in n.flags then n
                    else n.(flags := n.flags - {Pfail} + {Fail}, failTime := now)
  {
    hide TableOk, AcksOk, IdValid, Field, Get, Fresh, Ok;
    var id := Field(f, HDR, 40);
    if !IdValid(id) { return -1; }
    var i := d.NodeFind(id);
    OnlyOne(d.nodes, id, i);
    if i != -1 { d.MarkFail(i, now); }
    return 0;
  }

  /** A frame that is taken and must be answered: a PING, a MEET, or a request that a vote is granted to. */
  ghost predicate Answered(f: seq<Byte>, s: ClusterState) {
    && Taken(f, s.nodes)
    && var typ := Num16(f, 12);
       || typ == PING || typ == MEET
       || (typ == AUTH_REQUEST &&
           Grants(s.nodes, s.currentEpoch, s.lastVote, Epoch(f, 16), Epoch(f, 24),
                  Field(f, 40, 40), Field(f, 80, 2048)))
  }

  /** Every frame is taken as a whole or leaves no trace, except where a needed answer cannot be built. */
  method HandleFrame(d: Db, f: seq<Byte>, grow: bool, now: U64, src: seq<Byte>)
    returns (rc: int, reply: seq<Byte>, ghost sender: int)
    requires d.Valid()
    modifies d`nodes, d`currentEpoch, d`dirty, d`changes, d`failBroadcast, d`lastVote, d`ackMask, d`ackCount
    ensures d.Valid() && (old(d.EpochsOk()) ==> d.EpochsOk())
    ensures rc == 0 || rc == -1
    ensures rc == -1 <==> !Taken(f, old(d.nodes)) || (!grow && Answered(f, old(d.Snapshot())))
    ensures rc == -1 ==> reply == []
    ensures !Taken(f, old(d.nodes)) ==> d.Snapshot() == old(d.Snapshot())
    ensures rc == -1 && Taken(f, old(d.nodes)) ==>
      (d.Snapshot() == old(d.Snapshot()) <==> Num16(f, 12) == AUTH_REQUEST && Epoch(f, 16) <= old(d.currentEpoch))
    ensures Taken(f, old(d.nodes)) && Hello(Num16(f, 12)) ==>
      sender >= 0 && Greeted(old(d.nodes), d.nodes, sender, f, src, now)
    ensures Taken(f, old(d.nodes)) && Hello(Num16(f, 12)) ==>
      d.currentEpoch == Max(Max(old(d.currentEpoch), Epoch(f, 24)), Epoch(f, 16))
    ensures Taken(f, old(d.nodes)) && Hello(Num16(f, 12)) ==>
      d.changes > old(d.changes) && (rc == -1 <==> !grow && Num16(f, 12) != PONG)
    ensures d.ackCount == |d.ackMask| && IdsKept(old(d.nodes), d.nodes) && d.currentEpoch >= old(d.currentEpoch)
    ensures !(WellFormed(f) && Num16(f, 12) == AUTH_REQUEST) ==> d.lastVote == old(d.lastVote)
    ensures !(WellFormed(f) && Num16(f, 12) == AUTH_ACK) ==> d.ackMask == old(d.ackMask)
  {
    hide TableOk, IdValid, Field, Get, Fresh, Ok, Greeted, Welcome, Grants, FrameOf, Bounded;
    reply, sender := [], -1;
    if !WellFormed(f) { return -1, [], -1; }
    var typ := Num16(f, 12);
    if typ == UPDATE {
      rc := HandleUpdate(d, f);
    } else if typ == FAIL_MSG {
      rc := HandleFail(d, f, now);
    } else if typ == AUTH_REQUEST {
      ghost var granted;
      rc, reply, granted := HandleAuthRequest(d, f, grow);
    } else if typ == AUTH_ACK {
      ghost var counted := HandleAuthAck(d, f);
      rc := 0;
    } else if !Hello(typ) {
      rc := 0;
    } else {
      rc, reply, sender := HandleHello(d, f, grow, now, src);
    }
  }
}
