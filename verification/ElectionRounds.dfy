/** Elections between servers: a vote from request to count, and a promotion that stale acks decide. */
module ElectionRounds {
  import opened Bytes
  import opened SlotBitmap
  import opened ClusterNode
  import opened ClusterClaims
  import opened ClusterVerdict
  import opened ClusterDb
  import opened RedbusCodec
  import opened Redbus
  import opened RedbusRoundTrip
  import opened Election
  import opened ElectionSteps

  lemma AckReads(n: Node, epoch: U64, f: seq<Byte>)
    requires IdValid(n.id) && FrameOf(n, epoch, AUTH_ACK, [], 0, f)
    ensures |f| == HDR && Epoch(f, 16) == epoch && Field(f, 40, 40) == n.id
  {
    hide Put, Get, Field, Name, IpField, ToWire, IdValid;
    HeaderNumbers(n, epoch, AUTH_ACK, [], 0, f);
    NameOfId(n.id);
  }

  lemma EpochReads(f: seq<Byte>, o: nat, e: U64)
    requires o + 8 <= |f| && Field(f, o, 8) == Put(e, 8)
    ensures Epoch(f, o) == e
  {
    hide Put, Get, Field;
    PowersOf256();
    ReadsBack(f, o, e, 8);
  }

  /** Candidate c asks v and takes its answer: v's rule decides on what c's table says, and one vote counts once. */
  method VoteRound(c: Db, v: Db, ghost me: nat, ghost m: nat) returns (ghost granted: bool, ghost sn: nat)
    requires c.Valid() && v.Valid() && c != v && c.reqEpoch != 0
    requires me < |c.nodes| && m < |c.nodes| && IsMyself(c.nodes, me) && Found(c.nodes, c.nodes[me].masterId, m)
    modifies v`currentEpoch, v`lastVote, c`ackMask, c`ackCount
    ensures c.Valid() && v.Valid() && VoteStep(old(View(v)), View(v), c.reqEpoch, granted)
    ensures var n := c.nodes[m];
            granted == Grants(v.nodes, old(v.currentEpoch), old(v.lastVote), c.reqEpoch,
                              n.epoch, c.nodes[me].id, n.slots)
    ensures !granted ==> View(c) == old(View(c))
    ensures granted ==>
      sn < |v.nodes| && IsSender(v.nodes, sn) && AckStep(old(View(c)), View(c), v.nodes[sn].id, c.reqEpoch)
    ensures granted && Counts(c.nodes, v.nodes[sn].id) ==> View(c).acks == old(View(c)).acks + {v.nodes[sn].id}
  {
    hide TableOk, Fresh, Voter, Orphan, NoNewerOwner, FrameOf, Field;
    hide Get, Put, IsSender, Serves, IdValid, Name, IsMyself;
    sn := 0;
    ghost var id := c.nodes[me].id;
    assert IdValid(id) && Name(id) == id by { TableIds(c.nodes); NameOfId(id); }
    var ok, f := BuildAuthRequest(c, c.reqEpoch, true);
    EpochReads(f, 16, c.reqEpoch);
    EpochReads(f, 24, c.nodes[m].epoch);
    var rc, reply;
    rc, reply, granted := HandleAuthRequest(v, f, true);
    if granted {
      sn :| sn < |v.nodes| && IsSender(v.nodes, sn) && FrameOf(v.nodes[sn], v.currentEpoch, AUTH_ACK, [], 0, reply);
      assert IdValid(v.nodes[sn].id) by { TableIds(v.nodes); }
      AckReads(v.nodes[sn], v.currentEpoch, reply);
    }
    if reply == [] { return; }
    ghost var counted := HandleAuthAck(c, reply);
    if counted {
      var i: nat :| i < |c.nodes| && Found(c.nodes, v.nodes[sn].id, i) && c.ackMask == old(c.ackMask) + {i};
      VotersAdd(c.nodes, old(c.ackMask), i);
    }
  }

  // ---------------------------------------------------------------- stale acks

  /** An id of forty equal digits. */
  function DigitId(k: nat): (id: seq<Byte>)
    requires k < 10
    ensures IdValid(id)
  {
    seq(40, _ => 48 + k)
  }

  lemma DigitIdsDiffer(j: nat, k: nat)
    requires j < k < 10
    ensures DigitId(j) != DigitId(k)
  {
    assert DigitId(j)[0] != DigitId(k)[0];
  }

  function Plain(k: nat, flags: set<Flag>, masterId: seq<Byte>, slots: Bitmap): Node
    requires k < 10
  {
    Node(DigitId(k), [], 0, 0, flags, 0, 0, 0, masterId, slots, [], 0)
  }

  /** A replica, its failed master with slot 1, a master with slot 0, and a master without slots. */
  function StaleTable(): (ns: seq<Node>) {
    [Plain(0, {Myself, Slave}, DigitId(1), Empty()), Plain(1, {Master, Fail}, DASH, With(Empty(), 1, true)),
     Plain(2, {Master}, DASH, With(Empty(), 0, true)), Plain(3, {Master}, DASH, Empty())]
  }

  lemma StaleOwns()
    ensures forall i: nat, s: nat :: Owns(StaleTable(), i, s) <==> (i == 1 && s == 1) || (i == 2 && s == 0)
  {
    hide Has, With;
    forall s: nat ensures Has(With(Empty(), 0, true), s) == (s == 0) && Has(With(Empty(), 1, true), s) == (s == 1) {
      HasWith(Empty(), 0, true, s);
      HasWith(Empty(), 1, true, s);
    }
  }

  lemma StaleTableOk()
    ensures var ns := StaleTable();
            && |ns| == 4 && TableOk(ns) && Eligible(ns) && !IsMyself(Raised(ns, 3, 2), 3)
            && Found(ns, DigitId(2), 2) && IsMaster(ns[2]) && Serves(ns, 2)
  {
    hide Has, With, IdValid, DigitId, Empty;
    StaleOwns();
    forall i, j | 0 <= i < j < 4 ensures StaleTable()[i].id != StaleTable()[j].id { DigitIdsDiffer(i, j); }
    assert IsMyself(StaleTable(), 0) && Found(StaleTable(), DigitId(1), 1);
    assert Owns(StaleTable(), 2, 0);
  }

  /** The claim of the fourth node takes both slots: it alone serves. */
  lemma StaleMasters(now: seq<Node>)
    requires Merged(StaleTable(), Claim(3, With(With(Empty(), 0, true), 1, true), 2), now)
    ensures OtherMasters(now, |now|) == {3} && Eligible(now) && MasterIds(now) == {DigitId(3)}
    ensures now[2].id == DigitId(2)
  {
    hide Has, With, IdValid, DigitId;
    var ns, bm := StaleTable(), With(With(Empty(), 0, true), 1, true);
    var up := Raised(ns, 3, 2);
    StaleOwns();
    RaisedOwns(ns, 3, 2);
    forall s: nat ensures Has(bm, s) == (s < 2) {
      HasWith(With(Empty(), 0, true), 1, true, s);
      HasWith(Empty(), 0, true, s);
    }
    forall i: nat, s: nat ensures Owns(now, i, s) <==> i == 3 && s < 2 {
      if s < SLOTS { assert Owns(now, i, s) == MergedOwns(up, 3, Has(bm, s), i, s); } else { NoSlot(now, i, s); }
    }
    assert Owns(now, 3, 0);
    assert IsMyself(now, 0) && Found(now, DigitId(1), 1);
  }

  /** The ack of the master with slot 0, as it sends it. */
  method AckOfTwo() returns (f: seq<Byte>)
    ensures |f| == HDR && Epoch(f, 16) == 1 && Field(f, 40, 40) == DigitId(2)
  {
    hide FrameOf, Field, Get, IdValid, DigitId;
    var ns := [Plain(2, {Myself, Master}, DASH, Empty())];
    var ok, sn; ghost var listed;
    ok, f, sn, listed := BuildFrame(ns, 1, AUTH_ACK, true);
    EmptyPayload(ns, listed, f);
    AckReads(ns[0], 1, f);
  }

  /** The replica starts an election and counts that ack. */
  method OneAck() returns (d: Db)
    ensures fresh(d) && d.Valid() && d.nodes == StaleTable() && d.reqEpoch == 1 && d.ackMask == {2}
  {
    hide TableOk, Fresh, Field, Get, Serves, IdValid, StaleTable;
    hide Eligible, OtherMasters, DigitId, Found, Succeeded, Dominates, Bounded;
    d := new Db(true, 0);
    StaleTableOk();
    d.nodes := StaleTable();
    var o, next; ghost var me;
    o, next, me := FailoverCheck(d, true, 1, 1, 0);
    CountIsVoters(d);
    assert View(d).acks == {} && |d.ackMask| == 0;
    assert d.ackMask == {};
    var f := AckOfTwo();
    ghost var counted := HandleAuthAck(d, f);
    FoundOnly2(d.nodes, DigitId(2), 2);
  }

  /** Witness: a master acks, another takes its slots, and the replica is promoted with no vote of a serving master. */
  method StaleWin() returns (o: Outcome, ghost voters: set<Id>, ghost masters: set<Id>)
    ensures o.Promoted? && voters == {DigitId(2)} && masters == {DigitId(3)} && !Majority(voters, masters)
  {
    hide TableOk, Fresh, IdValid, Merged, StaleTable, Eligible, OtherMasters;
    hide With, DigitId, Found, Dominates, Succeeded, Bounded;
    var d := OneAck();
    StaleTableOk();
    d.MergeClaims(3, With(With(Empty(), 0, true), 1, true), 2);
    StaleMasters(d.nodes);
    voters, masters := View(d).acks, MasterIds(d.nodes);
    CountIsVoters(d);
    VotersAdd(d.nodes, {}, 2);
    DigitIdsDiffer(2, 3);
    var next; ghost var me;
    o, next, me := FailoverCheck(d, true, 1, 1, 0);
  }
}
