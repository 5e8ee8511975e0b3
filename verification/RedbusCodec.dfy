/** The wire format of the cluster bus: fields at fixed offsets, numbers big-endian. */
module RedbusCodec {
  import opened Bytes
  import opened ClusterNode

  const HDR := 2256
  const GOSSIP := 104
  const GOSSIP_MAX := 10

  const PING := 0
  const PONG := 1
  const MEET := 2
  const FAIL_MSG := 3
  const PUBLISH := 4
  const AUTH_REQUEST := 5
  const AUTH_ACK := 6
  const UPDATE := 7
  const PUBLISHSHARD := 10

  const MAGIC: seq<Byte> := [82, 67, 109, 98]

  // ---------------------------------------------------------------- flags

  function Weight(flags: set<Flag>, f: Flag, mask: nat): nat { if f in flags then mask else 0 }

  /** flags_to_wire: the link state is never sent. */
  function ToWire(flags: set<Flag>): U16 {
    Weight(flags, Master, 1) + Weight(flags, Slave, 2) + Weight(flags, Pfail, 4) + Weight(flags, Fail, 8)
    + Weight(flags, Myself, 16) + Weight(flags, Handshake, 32) + Weight(flags, NoAddr, 64)
  }

  predicate Test(w: nat, mask: nat)
    requires mask > 0
  {
    w / mask % 2 == 1
  }

  function When(b: bool, f: Flag): set<Flag> { if b then {f} else {} }

  /** flags_from_wire: the sender's own MYSELF is not taken over. */
  function FromWire(w: U16): set<Flag> {
    When(Test(w, 1), Master) + When(Test(w, 2), Slave) + When(Test(w, 32), Handshake)
    + When(Test(w, 64), NoAddr) + When(Test(w, 4), Pfail) + When(Test(w, 8), Fail)
  }

  const SHARED: set<Flag> := {Master, Slave, Handshake, NoAddr, Pfail, Fail}

  lemma Halve(a: nat, w: nat)
    requires a <= 1
    ensures (a + 2 * w) % 2 == a && (a + 2 * w) / 2 == w
  {
  }

  lemma HalveAgain(w: nat)
    ensures w / 4 == w / 2 / 2 && w / 8 == w / 2 / 2 / 2 && w / 32 == w / 2 / 2 / 2 / 2 / 2
    ensures w / 64 == w / 2 / 2 / 2 / 2 / 2 / 2
  {
  }

  lemma WireBits(a: nat, b: nat, c: nat, d: nat, e: nat, f: nat, g: nat)
    requires a <= 1 && b <= 1 && c <= 1 && d <= 1 && e <= 1 && f <= 1 && g <= 1
    ensures var w := a + 2 * b + 4 * c + 8 * d + 16 * e + 32 * f + 64 * g;
            w % 2 == a && w / 2 % 2 == b && w / 4 % 2 == c && w / 8 % 2 == d && w / 32 % 2 == f && w / 64 % 2 == g
  {
    var w := a + 2 * b + 4 * c + 8 * d + 16 * e + 32 * f + 64 * g;
    HalveAgain(w);
    Halve(a, b + 2 * c + 4 * d + 8 * e + 16 * f + 32 * g);
    Halve(b, c + 2 * d + 4 * e + 8 * f + 16 * g);
    Halve(c, d + 2 * e + 4 * f + 8 * g);
    Halve(d, e + 2 * f + 4 * g);
    Halve(e, f + 2 * g);
    Halve(f, g);
  }

  function Unit(flags: set<Flag>, f: Flag): nat { Weight(flags, f, 1) }

  lemma WireSum(flags: set<Flag>)
    ensures ToWire(flags) ==
      Unit(flags, Master) + 2 * Unit(flags, Slave) + 4 * Unit(flags, Pfail) + 8 * Unit(flags, Fail)
                             + 16 * Unit(flags, Myself) + 32 * Unit(flags, Handshake) + 64 * Unit(flags, NoAddr)
    ensures forall f :: Unit(flags, f) == if f in flags then 1 else 0
  {
  }

  lemma WireTests(flags: set<Flag>)
    ensures var w := ToWire(flags);
            && Test(w, 1) == (Master in flags) && Test(w, 2) == (Slave in flags) && Test(w, 4) == (Pfail in flags)
            && Test(w, 8) == (Fail in flags) && Test(w, 32) == (Handshake in flags) && Test(w, 64) == (NoAddr in flags)
  {
    hide ToWire, Unit;
    WireSum(flags);
    WireBits(Unit(flags, Master), Unit(flags, Slave), Unit(flags, Pfail), Unit(flags, Fail),
             Unit(flags, Myself), Unit(flags, Handshake), Unit(flags, NoAddr));
  }

  /** The shared flags survive the wire. */
  lemma FlagsRoundTrip(flags: set<Flag>)
    ensures FromWire(ToWire(flags)) == flags * SHARED
  {
    hide ToWire, Test;
    WireTests(flags);
    forall f ensures f in FromWire(ToWire(flags)) <==> f in flags * SHARED { }
  }

  // ---------------------------------------------------------------- fields

  function Zeros(n: nat): (r: seq<Byte>)
    ensures |r| == n && forall i :: 0 <= i < n ==> r[i] == 0
  {
    seq(n, _ => 0)
  }

  /** b with x written at offset o. */
  function Patch(b: seq<Byte>, o: nat, x: seq<Byte>): (r: seq<Byte>)
    requires o + |x| <= |b|
    ensures |r| == |b| && forall i :: 0 <= i < |b| ==> r[i] == if o <= i < o + |x| then x[i - o] else b[i]
  {
    b[..o] + x + b[o + |x|..]
  }

  function Field(b: seq<Byte>, o: nat, n: nat): (r: seq<Byte>)
    requires o + n <= |b|
    ensures |r| == n && forall i :: 0 <= i < n ==> r[i] == b[o + i]
  {
    b[o..o + n]
  }

  function Num(b: seq<Byte>, o: nat, n: nat): nat
    requires o + n <= |b|
  {
    Get(Field(b, o, n))
  }

  /** A field that was just written is read back. */
  lemma PatchedField(b: seq<Byte>, o: nat, x: seq<Byte>)
    requires o + |x| <= |b|
    ensures Field(Patch(b, o, x), o, |x|) == x
  {
    hide Patch, Field;
    assert forall i :: 0 <= i < |x| ==> Field(Patch(b, o, x), o, |x|)[i] == Patch(b, o, x)[o + i] == x[i];
  }

  /** A field elsewhere is not touched. */
  lemma OtherField(b: seq<Byte>, o: nat, x: seq<Byte>, p: nat, n: nat)
    requires o + |x| <= |b| && p + n <= |b| && (p + n <= o || o + |x| <= p)
    ensures Field(Patch(b, o, x), p, n) == Field(b, p, n)
  {
    hide Patch, Field;
    var now := Patch(b, o, x);
    forall i | 0 <= i < n ensures Field(now, p, n)[i] == Field(b, p, n)[i] { assert now[p + i] == b[p + i]; }
  }

  /** put_name: an id in a fixed field, zeros for a missing one. */
  function Name(id: seq<Byte>): (r: seq<Byte>)
    ensures |r| == 40
  {
    if id == [] || id[0] == 45 then Zeros(40)
    else if |id| >= 40 then id[..40]
    else id + Zeros(40 - |id|)
  }

  /** put_ip */
  function IpField(ip: seq<Byte>): (r: seq<Byte>)
    ensures |r| == 46
  {
    if |ip| > 45 then ip[..45] + [0] else ip + Zeros(46 - |ip|)
  }

  /** A C string in a buffer: the bytes before the first zero. */
  function CStr(b: seq<Byte>): (r: seq<Byte>)
    ensures |r| <= |b| && r == b[..|r|] && 0 !in r && (|r| < |b| ==> b[|r|] == 0)
  {
    if b == [] || b[0] == 0 then [] else [b[0]] + CStr(b[1..])
  }

  predicate NameZero(b: seq<Byte>) { forall i :: 0 <= i < |b| ==> b[i] == 0 }

  /** A node record in the gossip section. */
  method BuildGossipEntry(n: Node) returns (p: seq<Byte>)
    ensures GossipOf(n, p)
  {
    hide Patch, Field, Name, IpField, ToWire, Put;
    p := Zeros(GOSSIP);
    p := Patch(p, 0, Name(n.id));
    p := Patch(p, 40, Put(n.pingSent / 1000, 4));
    p := Patch(p, 44, Put(n.lastSeen / 1000, 4));
    p := Patch(p, 48, IpField(n.ip));
    p := Patch(p, 94, Put(n.port, 2));
    p := Patch(p, 96, Put(n.busPort, 2));
    p := Patch(p, 98, Put(ToWire(n.flags), 2));
  }

  ghost predicate GossipOf(n: Node, p: seq<Byte>) {
    && |p| == GOSSIP
    && Field(p, 0, 40) == Name(n.id)
    && Field(p, 40, 4) == Put(n.pingSent / 1000, 4)
    && Field(p, 44, 4) == Put(n.lastSeen / 1000, 4)
    && Field(p, 48, 46) == IpField(n.ip)
    && Field(p, 94, 2) == Put(n.port, 2)
    && Field(p, 96, 2) == Put(n.busPort, 2)
    && Field(p, 98, 2) == Put(ToWire(n.flags), 2)
  }

  // ---------------------------------------------------------------- building

  /** The header fields that describe the sender. */
  ghost predicate SenderOf(sn: Node, current: U64, typ: U16, h: seq<Byte>) {
    && |h| >= HDR
    && Field(h, 0, 4) == MAGIC && Field(h, 8, 2) == Put(1, 2)
    && Field(h, 10, 2) == Put(sn.port, 2) && Field(h, 12, 2) == Put(typ, 2)
    && Field(h, 16, 8) == Put(current, 8) && Field(h, 24, 8) == Put(sn.epoch, 8) && Field(h, 32, 8) == Put(0, 8)
    && Field(h, 40, 40) == Name(sn.id) && Field(h, 80, 2048) == sn.slots
    && Field(h, 2128, 40) == Name(sn.masterId) && Field(h, 2168, 46) == IpField(sn.ip)
    && Field(h, 2248, 2) == Put(sn.busPort, 2) && Field(h, 2250, 2) == Put(ToWire(sn.flags), 2)
    && h[2252] == 0
  }

  /** write_header */
  method WriteHeader(sn: Node, current: U64, typ: U16) returns (p: seq<Byte>)
    ensures |p| == HDR && SenderOf(sn, current, typ, p) && Field(p, 14, 2) == Zeros(2)
  {
    hide Patch, Field, Name, IpField, ToWire, Put, Zeros;
    p := Zeros(HDR);
    p := Patch(p, 0, MAGIC);
    p := Patch(p, 8, Put(1, 2));
    p := Patch(p, 10, Put(sn.port, 2));
    p := Patch(p, 12, Put(typ, 2));
    p := Patch(p, 16, Put(current, 8));
    p := Patch(p, 24, Put(sn.epoch, 8));
    p := Patch(p, 32, Put(0, 8));
    p := Patch(p, 40, Name(sn.id));
    p := Patch(p, 80, sn.slots);
    p := Patch(p, 2128, Name(sn.masterId));
    p := Patch(p, 2168, IpField(sn.ip));
    p := Patch(p, 2248, Put(sn.busPort, 2));
    p := Patch(p, 2250, Put(ToWire(sn.flags), 2));
    p := p[2252 := 0];
  }

  /** The node that a frame speaks for: myself, or else the first node. */
  ghost predicate IsSender(ns: seq<Node>, i: nat) {
    && i < |ns| && (forall k :: 0 <= k < i ==> Myself !in ns[k].flags)
    && (Myself in ns[i].flags || (i == 0 && forall k :: 0 <= k < |ns| ==> Myself !in ns[k].flags))
  }

  /** find_sender */
  method FindSender(ns: seq<Node>) returns (i: int)
    ensures i == -1 <==> ns == []
    ensures i != -1 ==> 0 <= i && IsSender(ns, i)
  {
    for k := 0 to |ns|
      invariant forall j :: 0 <= j < k ==> Myself !in ns[j].flags
    {
      if Myself in ns[k].flags { return k; }
    }
    if |ns| > 0 { return 0; }
    return -1;
  }

  /** The gossip section: one record for each listed node. */
  ghost predicate RecordsOf(ns: seq<Node>, listed: seq<nat>, payload: seq<Byte>) {
    && |payload| == GOSSIP * |listed|
    && forall k :: 0 <= k < |listed| ==> listed[k] < |ns| && GossipOf(ns[listed[k]], Field(payload, GOSSIP * k, GOSSIP))
  }

  ghost predicate Increasing(listed: seq<nat>) {
    forall j, k :: 0 <= j < k < |listed| ==> listed[j] < listed[k]
  }

  lemma RecordsAdd(ns: seq<Node>, listed: seq<nat>, payload: seq<Byte>, i: nat, entry: seq<Byte>)
    requires RecordsOf(ns, listed, payload) && i < |ns| && GossipOf(ns[i], entry)
    ensures RecordsOf(ns, listed + [i], payload + entry)
  {
    hide GossipOf;
    var p := payload + entry;
    assert |entry| == GOSSIP by { EntrySize(ns[i], entry); }
    forall k | 0 <= k < |listed| + 1 ensures GossipOf(ns[(listed + [i])[k]], Field(p, GOSSIP * k, GOSSIP)) {
      if k < |listed| { assert Field(p, GOSSIP * k, GOSSIP) == Field(payload, GOSSIP * k, GOSSIP); }
      else { assert Field(p, GOSSIP * k, GOSSIP) == entry; }
    }
  }

  lemma EntrySize(n: Node, p: seq<Byte>)
    requires GossipOf(n, p)
    ensures |p| == GOSSIP
  {
  }

  /** The other nodes up to some index, which is the end of the table unless ten are listed. */
  ghost predicate FirstOthers(n: nat, sn: nat, listed: seq<nat>) {
    exists k: nat :: k <= n && (k == n || |listed| == GOSSIP_MAX) && OthersBelow(listed, sn, k)
  }

  ghost predicate OthersBelow(listed: seq<nat>, sn: nat, k: nat) {
    forall i: nat :: i in listed <==> i < k && i != sn
  }

  /** The gossip loop: up to ten of the other nodes, in table order. */
  method BuildGossip(ns: seq<Node>, sn: nat) returns (payload: seq<Byte>, gc: nat, listed: seq<nat>)
    requires sn < |ns|
    ensures RecordsOf(ns, listed, payload) && gc == |listed| <= GOSSIP_MAX && Increasing(listed) && sn !in listed
    ensures FirstOthers(|ns|, sn, listed)
  {
    hide GossipOf, RecordsOf;
    payload, gc, listed := [], 0, [];
    assert RecordsOf(ns, [], []) by { NoRecords(ns); }
    var i := 0;
    while i < |ns| && gc < GOSSIP_MAX
      invariant i <= |ns| && RecordsOf(ns, listed, payload) && gc == |listed| <= GOSSIP_MAX && Increasing(listed)
      invariant sn !in listed
      invariant forall k :: 0 <= k < |listed| ==> listed[k] < i
      invariant OthersBelow(listed, sn, i)
    {
      if i != sn {
        var entry := BuildGossipEntry(ns[i]);
        RecordsAdd(ns, listed, payload, i, entry);
        payload, gc, listed := payload + entry, gc + 1, listed + [i];
      }
      i := i + 1;
    }
  }

  lemma NoRecords(ns: seq<Node>)
    ensures RecordsOf(ns, [], [])
  {
  }

  /** A whole frame: sender, payload, and the two lengths that describe it. */
  ghost predicate FrameOf(sn: Node, current: U64, typ: U16, payload: seq<Byte>, gc: nat, f: seq<Byte>) {
    && |f| == HDR + |payload| && SenderOf(sn, current, typ, f) && f[HDR..] == payload
    && Field(f, 4, 4) == Put(|f|, 4) && Field(f, 14, 2) == Put(gc, 2)
  }

  /** The header with its lengths patched in, followed by the payload. */
  method Assemble(h: seq<Byte>, payload: seq<Byte>, gc: nat, ghost sn: Node, ghost current: U64, ghost typ: U16)
    returns (f: seq<Byte>)
    requires |h| == HDR && SenderOf(sn, current, typ, h)
    ensures FrameOf(sn, current, typ, payload, gc, f)
  {
    hide Patch, Name, IpField, ToWire, Put;
    f := h + payload;
    f := Patch(f, 14, Put(gc, 2));
    f := Patch(f, 4, Put(|f|, 4));
    AssembledFields(h, payload, Put(gc, 2), Put(|f|, 4), f, sn, current, typ);
  }

  lemma AssembledFields(h: seq<Byte>, payload: seq<Byte>, c: seq<Byte>, t: seq<Byte>, f: seq<Byte>, sn: Node,
                        current: U64, typ: U16)
    requires |h| == HDR && SenderOf(sn, current, typ, h) && |c| == 2 && |t| == 4
    requires f == Patch(Patch(h + payload, 14, c), 4, t)
    ensures |f| == HDR + |payload| && SenderOf(sn, current, typ, f) && f[HDR..] == payload && Field(f, 4, 4) == t
    ensures Field(f, 14, 2) == c
  {
    hide Patch, Name, IpField, ToWire, Put;
    assert forall i :: 0 <= i < HDR && !(4 <= i < 8) && !(14 <= i < 16) ==> f[i] == h[i];
    assert forall i :: HDR <= i < |f| ==> f[i] == payload[i - HDR];
    KeepFields(h, f, sn, current, typ);
  }

  lemma KeepFields(h: seq<Byte>, f: seq<Byte>, sn: Node, current: U64, typ: U16)
    requires |f| >= |h| == HDR && SenderOf(sn, current, typ, h)
    requires forall i :: 0 <= i < HDR && !(4 <= i < 8) && !(14 <= i < 16) ==> f[i] == h[i]
    ensures SenderOf(sn, current, typ, f)
  {
    hide Patch, Name, IpField, ToWire, Put;
    forall o: nat, n: nat | o + n <= HDR && (o + n <= 4 || 8 <= o) && (o + n <= 14 || 16 <= o)
      ensures Field(f, o, n) == Field(h, o, n)
    { }
  }

  /** redbus_build_frame: votes travel without gossip. */
  method BuildFrame(ns: seq<Node>, current: U64, typ: U16, grow: bool)
    returns (ok: bool, f: seq<Byte>, sn: int, ghost listed: seq<nat>)
    ensures ok == (grow && ns != [])
    ensures ok ==> 0 <= sn < |ns| && IsSender(ns, sn) && |f| >= HDR
    ensures ok ==> FrameOf(ns[sn], current, typ, f[HDR..], |listed|, f) && RecordsOf(ns, listed, f[HDR..])
    ensures ok ==>
      && |listed| <= GOSSIP_MAX && Increasing(listed) && sn !in listed
      && (typ == AUTH_REQUEST || typ == AUTH_ACK ==> listed == [])
    ensures ok && typ != AUTH_REQUEST && typ != AUTH_ACK ==> FirstOthers(|ns|, sn, listed)
    ensures !ok ==> f == []
  {
    hide RecordsOf, SenderOf, Field, GossipOf, FirstOthers;
    f, listed := [], [];
    sn := FindSender(ns);
    if sn == -1 || !grow { return false, [], sn, []; }
    var h := WriteHeader(ns[sn], current, typ);
    var payload, gc := [], 0;
    NoRecords(ns);
    if typ != AUTH_REQUEST && typ != AUTH_ACK {
      payload, gc, listed := BuildGossip(ns, sn);
    }
    f := Assemble(h, payload, gc, ns[sn], current, typ);
    ok := true;
  }
}
