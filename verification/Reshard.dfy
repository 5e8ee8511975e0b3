/** Moving a slot: batches of keys, then ownership, with every exchange open to failure. */
module Reshard {
  import opened Basics
  import opened Migrate

  /** One batch: whether the listing and the MIGRATE reply arrive, and what happens in between. */
  datatype Round = Round(listed: bool, replied: bool, expired: set<Key>, undumpable: set<Key>, link: Link)

  /** The last two requests: whether each takes effect and whether its reply arrives. */
  datatype Finish = Finish(fromDone: bool, fromReply: bool, toDone: bool, toReply: bool)

  /** Both sides take over and say so. */
  const WELL := Finish(true, true, true, true)

  ghost predicate Empty(table: map<Key, Val>, slotOf: Key -> nat, slot: nat) {
    forall k :: k in table ==> slotOf(k) != slot
  }

  /** Every key of the first table is at the source unchanged or at the target with its value. */
  ghost predicate AllKept(was: map<Key, Val>, source: map<Key, Val>, target: map<Key, Val>, dead: set<Key>) {
    && (forall k :: k !in dead ==> Kept(was, source, target, k))
    && (forall k :: k in source ==> k in was && source[k] == was[k])
  }

  /** The keys of a slot. */
  ghost function SlotKeys(table: map<Key, Val>, slotOf: Key -> nat, slot: nat): set<Key> {
    set k | k in table && slotOf(k) == slot
  }

  ghost predicate Distinct(ks: seq<Key>) {
    forall i, j :: 0 <= i < j < |ks| ==> ks[i] != ks[j]
  }

  /** CLUSTER GETKEYSINSLOT: up to count distinct keys of the slot; none only if there are none. */
  method GetKeysInSlot(source: Store, slotOf: Key -> nat, slot: nat, count: nat) returns (ks: seq<Key>)
    requires count > 0
    ensures forall k :: k in ks ==> k in source.table && slotOf(k) == slot
    ensures ks == [] <==> Empty(source.table, slotOf, slot)
    ensures |ks| <= count && Distinct(ks)
  {
    ks := [];
    var rest := source.table.Keys;
    while rest != {} && |ks| < count
      invariant rest <= source.table.Keys && |ks| <= count && Distinct(ks)
      invariant forall k :: k in ks ==> k in source.table && k !in rest && slotOf(k) == slot
      invariant ks == [] ==> forall k :: k in source.table && k !in rest ==> slotOf(k) != slot
      decreases rest
    {
      var k :| k in rest;
      rest := rest - {k};
      if slotOf(k) == slot { ks := ks + [k]; }
    }
    if ks != [] { assert ks[0] in source.table; }
  }

  /** The keys that expire in the first n rounds. */
  function Dead(rounds: seq<Round>, n: nat): set<Key>
    requires n <= |rounds|
  {
    if n == 0 then {} else Dead(rounds, n - 1) + rounds[n - 1].expired
  }

  lemma {:induction false} DeadHas(rounds: seq<Round>, i: nat, n: nat)
    requires i < n <= |rounds|
    ensures Dead(rounds, n) + rounds[i].expired == Dead(rounds, n)
  {
    if i < n - 1 { DeadHas(rounds, i, n - 1); }
  }

  /** One more transfer keeps every key. */
  lemma RoundKeeps(was: map<Key, Val>, s: map<Key, Val>, t: map<Key, Val>, s1: map<Key, Val>, t1: map<Key, Val>,
                   dead: set<Key>, expired: set<Key>)
    requires AllKept(was, s, t, dead)
    requires forall k :: k !in expired ==> Kept(s, s1, t1, k)
    requires forall k :: k in s1 ==> k in s && s1[k] == s[k]
    requires forall k :: k !in s ==> (k in t1 <==> k in t) && (k in t1 ==> t1[k] == t[k])
    requires forall k :: k in s && k in t && t[k] == s[k] ==> k in t1 && t1[k] == s[k]
    ensures AllKept(was, s1, t1, dead + expired)
  {
    forall k | k !in dead + expired && k in was ensures Kept(was, s1, t1, k) {
      assert Kept(was, s, t, k) && Kept(s, s1, t1, k);
    }
  }

  /** The keys of other slots are as they were. */
  ghost predicate OthersKept(was: map<Key, Val>, now: map<Key, Val>, slotOf: Key -> nat, slot: nat) {
    forall k :: k in was && slotOf(k) != slot ==> k in now && now[k] == was[k]
  }

  // ---------------------------------------------------------------- progress

  /** Every exchange succeeds, nothing expires, and the same keys cannot be dumped in every round. */
  ghost predicate Healthy(rounds: seq<Round>, count: nat) {
    forall i :: 0 <= i < |rounds| ==>
      && rounds[i].listed && rounds[i].replied && rounds[i].expired == {}
      && rounds[i].undumpable == rounds[0].undumpable && Willing(rounds[i].link, count)
  }

  /** The key can be dumped in no round and expires in none. */
  ghost predicate Stuck(rounds: seq<Round>, k: Key) {
    forall i :: 0 <= i < |rounds| ==> k in rounds[i].undumpable && k !in rounds[i].expired
  }

  /** Every key of the set can be dumped in every round, and none expires. */
  ghost predicate Movable(rounds: seq<Round>, keys: set<Key>) {
    forall i :: 0 <= i < |rounds| ==> rounds[i].undumpable !! keys && rounds[i].expired !! keys
  }

  lemma {:induction false} SeqSize(ks: seq<Key>)
    requires Distinct(ks)
    ensures |set k | k in ks| == |ks|
  {
    if ks == [] {
      assert (set k | k in ks) == {};
    } else {
      var init, last := ks[..|ks| - 1], ks[|ks| - 1];
      SeqSize(init);
      assert ks == init + [last];
      assert (set k | k in ks) == (set k | k in init) + {last};
    }
  }

  /** A batch all of whose keys are moved makes the slot smaller by their number. */
  lemma BatchShrinks(was: set<Key>, now: set<Key>, ks: seq<Key>)
    requires Distinct(ks) && (forall k :: k in ks ==> k in was) && forall k :: k in now <==> k in was && k !in ks
    ensures |now| == |was| - |ks|
  {
    var moved := set k | k in ks;
    SeqSize(ks);
    assert was == now + moved;
    assert now !! moved;
  }

  /** What one batch does to the keys of the source: only listed keys go, and what cannot be dumped stays. */
  ghost predicate Batch(s: map<Key, Val>, s1: map<Key, Val>, ks: seq<Key>, round: Round, ok: bool) {
    && s1.Keys <= s.Keys
    && (forall k :: k in s && (k !in ks || (k in round.undumpable && k !in round.expired)) ==> k in s1)
    && (ok ==> forall k :: k in ks && k !in round.undumpable ==> k !in s1)
  }

  /** One batch: the transfer of the listed keys. */
  method MoveBatch(source: Store, target: Store, slotOf: Key -> nat, slot: nat, ks: seq<Key>, round: Round,
                   ghost was: map<Key, Val>, ghost dead: set<Key>) returns (ok: bool)
    requires source != target && AllKept(was, source.table, target.table, dead)
    requires OthersKept(was, source.table, slotOf, slot)
    requires forall k :: k in ks ==> slotOf(k) == slot
    modifies source, target
    ensures AllKept(was, source.table, target.table, dead + round.expired)
    ensures OthersKept(was, source.table, slotOf, slot)
    ensures Batch(old(source.table), source.table, ks, round, ok)
    ensures Willing(round.link, |ks|) ==> ok
  {
    hide AllKept, Kept, Delivers, Willing;
    ghost var s, t := source.table, target.table;
    var r := MigrateRun(source, target, ks, false, true, round.expired, round.undumpable, round.link);
    RoundKeeps(was, s, t, source.table, target.table, dead, round.expired);
    if Willing(round.link, |ks|) { WillingDelivers(round.link, t, r.pipe, |ks|); }
    ok := r.ok;
  }

  lemma MoreWilling(link: Link, n: nat, m: nat)
    requires Willing(link, m) && n <= m
    ensures Willing(link, n)
  {
  }

  /** The state of the batch loop: s keys of the slot were there, now are left after i rounds,
      and total were counted. */
  ghost predicate Progress(rounds: seq<Round>, count: nat, was: set<Key>, now: set<Key>, i: nat, total: nat) {
    && now <= was && (forall k :: k in was && Stuck(rounds, k) ==> k in now)
    && (Movable(rounds, was) ==> total + |now| == |was|)
    && (Healthy(rounds, count) && Movable(rounds, was) ==> i + |now| <= |was|)
  }

  /** What is known of the keys of the slot when the loop is over, left being those still at the source.
      With every exchange healthy and more rounds than keys, the slot is emptied if and
      only if every key can be dumped. */
  ghost predicate Finished(rounds: seq<Round>, count: nat, was: set<Key>, left: set<Key>, emptied: bool, total: nat) {
    && left <= was && (emptied ==> left == {})
    && (forall k :: k in was && Stuck(rounds, k) ==> !emptied && k in left)
    && (Healthy(rounds, count) && |rounds| > |was| ==> (emptied <==> rounds[0].undumpable !! was))
    && (Movable(rounds, was) ==> total + |left| <= |was| && (emptied ==> total == |was|))
  }

  lemma ProgressStep(rounds: seq<Round>, count: nat, was: set<Key>, s: set<Key>, s1: set<Key>, i: nat, total: nat,
                     ks: seq<Key>, ok: bool)
    requires Progress(rounds, count, was, s, i, total) && i < |rounds| && Distinct(ks) && ks != []
    requires SlotBatch(s, s1, ks, rounds[i], ok)
    ensures ok ==> Progress(rounds, count, was, s1, i + 1, total + |ks|)
    ensures !(rounds[i].replied && Willing(rounds[i].link, count)) ==> Finished(rounds, count, was, s1, false, total)
  {
    SubsetSize(s1, s);
    if Movable(rounds, was) {
      assert rounds[i].undumpable !! was && rounds[i].expired !! was;
      if ok { BatchShrinks(s, s1, ks); }
    }
  }

  /** The batch loop: runs until the source reports the slot empty, or a failure. */
  method MoveKeys(source: Store, target: Store, slotOf: Key -> nat, slot: nat, count: nat, rounds: seq<Round>)
    returns (emptied: bool, total: nat)
    requires source != target && count > 0
    modifies source, target
    ensures AllKept(old(source.table), source.table, target.table, Dead(rounds, |rounds|))
    ensures OthersKept(old(source.table), source.table, slotOf, slot)
    ensures emptied ==> Empty(source.table, slotOf, slot)
    ensures Finished(rounds, count, SlotKeys(old(source.table), slotOf, slot),
                     SlotKeys(source.table, slotOf, slot), emptied, total)
  {
    ghost var was := source.table;
    ghost var keys := SlotKeys(was, slotOf, slot);
    ghost var dead := Dead(rounds, |rounds|);
    NothingMoved(was, target.table, dead, slotOf);
    hide Empty, AllKept, OthersKept, SlotKeys, SlotBatch, Willing, Batch, Distinct, Progress, Finished, Dead;
    emptied, total := false, 0;
    ProgressStart(rounds, count, keys);
    for i := 0 to |rounds|
      invariant AllKept(was, source.table, target.table, dead) && OthersKept(was, source.table, slotOf, slot)
      invariant Progress(rounds, count, keys, SlotKeys(source.table, slotOf, slot), i, total)
    {
      ghost var s, left := source.table, SlotKeys(source.table, slotOf, slot);
      EarlyEnd(rounds, count, keys, left, i, total);
      if !rounds[i].listed { return false, total; }
      var ks := GetKeysInSlot(source, slotOf, slot, count);
      if |ks| == 0 {
        NoneLeft(s, slotOf, slot);
        AllGone(rounds, count, keys, i, total);
        return true, total;
      }
      var ok := MoveBatch(source, target, slotOf, slot, ks, rounds[i], was, dead);
      DeadHas(rounds, i, |rounds|);
      BatchKeys(s, source.table, slotOf, slot, ks, rounds[i], ok);
      ProgressStep(rounds, count, keys, left, SlotKeys(source.table, slotOf, slot), i, total, ks, ok);
      if Willing(rounds[i].link, count) { MoreWilling(rounds[i].link, |ks|, count); }
      if !rounds[i].replied || !ok { return false, total; }
      total := total + |ks|;
    }
    OutOfRounds(rounds, count, keys, SlotKeys(source.table, slotOf, slot), total);
  }

  lemma ProgressStart(rounds: seq<Round>, count: nat, keys: set<Key>)
    ensures Progress(rounds, count, keys, keys, 0, 0)
  {
  }

  lemma NoneLeft(table: map<Key, Val>, slotOf: Key -> nat, slot: nat)
    requires Empty(table, slotOf, slot)
    ensures SlotKeys(table, slotOf, slot) == {}
  {
  }

  lemma EarlyEnd(rounds: seq<Round>, count: nat, was: set<Key>, now: set<Key>, i: nat, total: nat)
    requires Progress(rounds, count, was, now, i, total) && i < |rounds|
    ensures !rounds[i].listed ==> Finished(rounds, count, was, now, false, total)
  {
    hide Willing;
  }

  lemma AllGone(rounds: seq<Round>, count: nat, was: set<Key>, i: nat, total: nat)
    requires Progress(rounds, count, was, {}, i, total) && |rounds| > 0
    ensures Finished(rounds, count, was, {}, true, total)
  {
    hide Willing;
    if Healthy(rounds, count) {
      forall k | k in was ensures k !in rounds[0].undumpable {
        assert k in rounds[0].undumpable ==> Stuck(rounds, k);
      }
    }
  }

  lemma OutOfRounds(rounds: seq<Round>, count: nat, was: set<Key>, now: set<Key>, total: nat)
    requires Progress(rounds, count, was, now, |rounds|, total)
    ensures Finished(rounds, count, was, now, false, total)
  {
    hide Willing;
    if Healthy(rounds, count) && |rounds| > |was| {
      assert rounds[0].undumpable !! was ==> Movable(rounds, was);
    }
  }

  /** The effect of a batch, seen on the keys of the slot. */
  ghost predicate SlotBatch(a: set<Key>, b: set<Key>, ks: seq<Key>, round: Round, ok: bool) {
    && b <= a && (forall k :: k in ks ==> k in a)
    && (ok ==> forall k :: k in ks && k !in round.undumpable ==> k !in b)
    && (forall k :: k in a && (k !in ks || (k in round.undumpable && k !in round.expired)) ==> k in b)
  }

  lemma BatchKeys(s: map<Key, Val>, s1: map<Key, Val>, slotOf: Key -> nat, slot: nat, ks: seq<Key>, round: Round,
                  ok: bool)
    requires Batch(s, s1, ks, round, ok) && forall k :: k in ks ==> k in s && slotOf(k) == slot
    ensures SlotBatch(SlotKeys(s, slotOf, slot), SlotKeys(s1, slotOf, slot), ks, round, ok)
  {
  }

  /** reshard_slot: no key is lost, and ownership moves only once the source has no key of the slot. */
  method ReshardSlot(source: Store, target: Store, slotOf: Key -> nat, slot: int, count: int, setup: bool,
                     rounds: seq<Round>, finish: Finish)
    returns (rc: int, fromMoved: bool, toMoved: bool, migrated: nat)
    requires source != target
    modifies source, target
    ensures AllKept(old(source.table), source.table, target.table, Dead(rounds, |rounds|))
    ensures fromMoved || toMoved ==> slot >= 0 && Empty(source.table, slotOf, slot)
    ensures toMoved ==> fromMoved
    ensures fromMoved ==> forall k :: k in old(source.table) && slotOf(k) == slot && k !in Dead(rounds, |rounds|) ==>
      k in target.table && target.table[k] == old(source.table)[k]
    ensures rc == 0 ==> fromMoved && toMoved
    ensures slot >= 0 ==> OthersKept(old(source.table), source.table, slotOf, slot)
    ensures 0 <= slot < 16384 && count > 0 && setup && Healthy(rounds, count) && finish == WELL ==>
      var keys := SlotKeys(old(source.table), slotOf, slot);
      |rounds| > |keys| ==> (rc == 0 <==> rounds[0].undumpable !! keys)
    ensures rc == 0 && Movable(rounds, SlotKeys(old(source.table), slotOf, slot)) ==>
      migrated == |SlotKeys(old(source.table), slotOf, slot)|
  {
    hide AllKept, OthersKept, Empty, Healthy, Movable, SlotKeys, Stuck;
    NothingMoved(source.table, target.table, Dead(rounds, |rounds|), slotOf);
    rc, fromMoved, toMoved, migrated := -1, false, false, 0;
    if slot < 0 || slot >= 16384 || count < 1 || !setup { return; }
    var emptied, total := MoveKeys(source, target, slotOf, slot, count, rounds);
    if !emptied { return; }
    TargetHasKeys(old(source.table), source.table, target.table, Dead(rounds, |rounds|), slotOf, slot);
    fromMoved := finish.fromDone;
    if !(finish.fromDone && finish.fromReply) { return; }
    toMoved := finish.toDone;
    if !(finish.toDone && finish.toReply) { return; }
    migrated := total;
    rc := 0;
  }

  lemma NothingMoved(s: map<Key, Val>, t: map<Key, Val>, dead: set<Key>, slotOf: Key -> nat)
    ensures AllKept(s, s, t, dead) && forall slot: nat :: OthersKept(s, s, slotOf, slot)
  {
  }

  /** Witness: with one key that cannot be dumped and every exchange healthy, no number of rounds ends the loop. */
  method NeverEmpties(n: nat) returns (rounds: seq<Round>, emptied: bool)
    ensures |rounds| == n && Healthy(rounds, 1) && !emptied
  {
    var key: Key := [];
    var source := new Store(map[key := []]);
    var target := new Store(map[]);
    var link := Link(true, true, [Answer(true, true)], 2);
    rounds := seq(n, _ => Round(true, true, {}, {key}, link));
    assert Stuck(rounds, key) && Healthy(rounds, 1);
    var slotOf: Key -> nat := _ => 0;
    assert key in SlotKeys(source.table, slotOf, 0);
    var total;
    emptied, total := MoveKeys(source, target, slotOf, 0, 1, rounds);
  }

  /** An emptied source leaves every key of the slot that has not expired at the target with its value. */
  lemma TargetHasKeys(was: map<Key, Val>, source: map<Key, Val>, target: map<Key, Val>, dead: set<Key>,
                      slotOf: Key -> nat, slot: nat)
    requires AllKept(was, source, target, dead) && Empty(source, slotOf, slot)
    ensures forall k :: k in was && slotOf(k) == slot && k !in dead ==> k in target && target[k] == was[k]
  {
    forall k | k in was && slotOf(k) == slot && k !in dead ensures k in target && target[k] == was[k] {
      assert Kept(was, source, target, k);
    }
  }
}
