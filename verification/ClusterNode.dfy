/** The node table of a cluster member: node records, ids, slot ownership. */
module ClusterNode {
  import opened Bytes
  import opened SlotBitmap

  const MAX_NODES := 32

  type U16 = n: nat | n < 0x1_0000
  type U32 = n: nat | n < 0x1_0000_0000
  type U64 = n: nat | n < 0x1_0000_0000_0000_0000

  const MAX_U64: U64 := 0xFFFF_FFFF_FFFF_FFFF

  datatype Flag = Myself | Master | Handshake | NoAddr | Disconnected | Slave | Pfail | Fail

  datatype Report = Report(reporter: seq<Byte>, time: U64)

  datatype Node = Node(
    id: seq<Byte>, ip: seq<Byte>, port: U16, busPort: U16, flags: set<Flag>, lastSeen: U64, pingSent: U64,
    epoch: U64, masterId: seq<Byte>, slots: Bitmap, reports: seq<Report>, failTime: U64)

  // ---------------------------------------------------------------- ids

  predicate IsHex(b: Byte) { 48 <= b <= 57 || 97 <= b <= 102 }

  /** cluster_id_valid: 40 lower-case hexadecimal digits. */
  predicate IdValid(id: seq<Byte>) {
    |id| == 40 && forall i :: 0 <= i < 40 ==> IsHex(id[i])
  }

  /** memcmp(a, b) > 0 */
  predicate Above(a: seq<Byte>, b: seq<Byte>) {
    if a == [] || b == [] then false
    else if a[0] != b[0] then a[0] > b[0]
    else Above(a[1..], b[1..])
  }

  lemma {:induction false} AboveTotal(a: seq<Byte>, b: seq<Byte>)
    requires |a| == |b|
    ensures a == b || Above(a, b) || Above(b, a)
    ensures !(Above(a, b) && Above(b, a)) && !Above(a, a)
  {
    if a != [] {
      AboveTotal(a[1..], b[1..]);
      if a[0] == b[0] && a[1..] == b[1..] { assert a == [a[0]] + a[1..] && b == [b[0]] + b[1..]; }
    }
  }

  lemma {:induction false} AboveTrans(a: seq<Byte>, b: seq<Byte>, c: seq<Byte>)
    requires |a| == |b| == |c| && Above(a, b) && Above(b, c)
    ensures Above(a, c)
  {
    if a[0] == b[0] == c[0] { AboveTrans(a[1..], b[1..], c[1..]); }
  }

  /** The rule for a contested slot: the larger config epoch, then the larger id. */
  predicate Beats(a: Node, b: Node) {
    a.epoch > b.epoch || (a.epoch == b.epoch && Above(a.id, b.id))
  }

  lemma SameBeats(a: Node, b: Node, c: Node, d: Node)
    requires a.id == c.id && b.id == d.id && a.epoch == c.epoch && b.epoch == d.epoch
    ensures Beats(a, b) == Beats(c, d)
  {
  }

  // ---------------------------------------------------------------- the table

  ghost predicate Ids(ns: seq<Node>) {
    && (forall i :: 0 <= i < |ns| ==> IdValid(ns[i].id))
    && (forall i, j :: 0 <= i < j < |ns| ==> ns[i].id != ns[j].id)
  }

  predicate Owns(ns: seq<Node>, i: nat, s: nat) {
    i < |ns| && Has(ns[i].slots, s)
  }

  /** Some node holds the slot. */
  ghost predicate Held(ns: seq<Node>, s: nat) {
    exists h: nat :: Owns(ns, h, s)
  }

  /** Each slot has at most one holder. */
  ghost predicate Exclusive(ns: seq<Node>) {
    forall i: nat, j: nat, s: nat :: Owns(ns, i, s) && Owns(ns, j, s) ==> i == j
  }

  /** No node epoch is above the current epoch. */
  ghost predicate Bounded(ns: seq<Node>, current: nat) {
    forall i :: 0 <= i < |ns| ==> ns[i].epoch <= current
  }

  /** The tables differ in slots only. */
  ghost predicate SlotsOnly(ns: seq<Node>, now: seq<Node>) {
    |now| == |ns| && forall i :: 0 <= i < |ns| ==> now[i] == ns[i].(slots := now[i].slots)
  }

  /** Nodes are only added, and keep their ids. */
  ghost predicate IdsKept(was: seq<Node>, now: seq<Node>) {
    |was| <= |now| && forall i :: 0 <= i < |was| ==> now[i].id == was[i].id
  }

  function SetSlot(ns: seq<Node>, i: nat, s: nat, on: bool): seq<Node>
    requires i < |ns|
  {
    ns[i := ns[i].(slots := With(ns[i].slots, s, on))]
  }

  lemma SetSlotOwns(ns: seq<Node>, i: nat, s: nat, on: bool)
    requires i < |ns| && s < SLOTS
    ensures SlotsOnly(ns, SetSlot(ns, i, s, on))
    ensures forall k: nat, t: nat ::
      Owns(SetSlot(ns, i, s, on), k, t) == if k == i && t == s then on else Owns(ns, k, t)
  {
    hide Has, With;
    forall k: nat, t: nat ensures Owns(SetSlot(ns, i, s, on), k, t) == if k == i && t == s then on else Owns(ns, k, t) {
      if k == i { HasWith(ns[i].slots, s, on, t); }
    }
  }

  lemma BeatsTotal(a: Node, b: Node)
    requires |a.id| == |b.id|
    ensures a.id == b.id || Beats(a, b) || Beats(b, a)
    ensures !(Beats(a, b) && Beats(b, a)) && !Beats(a, a)
  {
    AboveTotal(a.id, b.id);
  }

  lemma BeatsTrans(a: Node, b: Node, c: Node)
    requires |a.id| == |b.id| == |c.id| && Beats(a, b) && Beats(b, c)
    ensures Beats(a, c)
  {
    if a.epoch == b.epoch == c.epoch { AboveTrans(a.id, b.id, c.id); }
  }

  /** Tables with the same owners and the same other fields are equal. */
  lemma SameTable(ns: seq<Node>, now: seq<Node>)
    requires SlotsOnly(ns, now) && forall i: nat, s: nat :: Owns(ns, i, s) == Owns(now, i, s)
    ensures now == ns
  {
    forall i: nat | i < |ns| ensures now[i] == ns[i] {
      forall s | 0 <= s < SLOTS ensures Has(ns[i].slots, s) == Has(now[i].slots, s) {
        assert Owns(ns, i, s) == Owns(now, i, s);
      }
      Extensional(ns[i].slots, now[i].slots);
    }
  }
}
