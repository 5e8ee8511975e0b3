/** Moving keys between two servers over a connection that may be cut at any point. */
module Migrate {
  import opened Basics
  import opened Bytes

  type Key = seq<Byte>
  type Val = seq<Byte>

  class Store {
    var table: map<Key, Val>

    constructor (table: map<Key, Val>)
      ensures this.table == table
    {
      this.table := table;
    }
  }

  /** A RESTORE in the pipeline, sent with an ASKING before it. */
  datatype Item = Item(key: Key, val: Val)

  /** What the target does with one item: it may refuse either command. */
  datatype Answer = Answer(asking: bool, restore: bool)

  /** The connection: whether it opens, whether all is sent, the items the target executes and
      the reply lines that arrive. */
  datatype Link = Link(connect: bool, sent: bool, answers: seq<Answer>, heard: nat)

  /** The target stores an item unless it refuses it or, without REPLACE, has the key. */
  predicate Stores(table: map<Key, Val>, item: Item, answer: Answer, replace: bool) {
    answer.restore && (replace || item.key !in table)
  }

  /** The target after the first n items. */
  function After(table: map<Key, Val>, pipe: seq<Item>, answers: seq<Answer>, replace: bool, n: nat): map<Key, Val>
    requires n <= |pipe| && n <= |answers|
  {
    if n == 0 then table else
      var was := After(table, pipe, answers, replace, n - 1);
      if Stores(was, pipe[n - 1], answers[n - 1], replace) then was[pipe[n - 1].key := pipe[n - 1].val] else was
  }

  /** The two replies to item j are both positive. */
  predicate Positive(table: map<Key, Val>, pipe: seq<Item>, answers: seq<Answer>, replace: bool, j: nat)
    requires j < |pipe| && j < |answers|
  {
    answers[j].asking && Stores(After(table, pipe, answers, replace, j), pipe[j], answers[j], replace)
  }

  /** All items of a key carry one value. */
  ghost predicate Consistent(pipe: seq<Item>) {
    forall i, j :: 0 <= i < |pipe| && 0 <= j < |pipe| && pipe[i].key == pipe[j].key ==> pipe[i].val == pipe[j].val
  }

  lemma {:induction false} AfterKeeps(table: map<Key, Val>, pipe: seq<Item>, answers: seq<Answer>, replace: bool,
                                      j: nat, n: nat)
    requires j < n <= |pipe| && n <= |answers| && Consistent(pipe) && Positive(table, pipe, answers, replace, j)
    ensures pipe[j].key in After(table, pipe, answers, replace, n)
    ensures After(table, pipe, answers, replace, n)[pipe[j].key] == pipe[j].val
  {
    if n > j + 1 { AfterKeeps(table, pipe, answers, replace, j, n - 1); }
  }

  /** Keys that are not sent are not touched. */
  lemma {:induction false} AfterFrame(table: map<Key, Val>, pipe: seq<Item>, answers: seq<Answer>, replace: bool,
                                      n: nat, k: Key)
    requires n <= |pipe| && n <= |answers|
    ensures var t := After(table, pipe, answers, replace, n);
            (forall j :: 0 <= j < |pipe| ==> pipe[j].key != k) ==>
              (k in t <==> k in table) && (k in table ==> t[k] == table[k])
  {
    if n > 0 { AfterFrame(table, pipe, answers, replace, n - 1, k); }
  }

  /** A key at the target with the value that is sent keeps that value. */
  lemma {:induction false} AfterHolds(table: map<Key, Val>, pipe: seq<Item>, answers: seq<Answer>, replace: bool,
                                      n: nat, k: Key, v: Val)
    requires n <= |pipe| && n <= |answers| && k in table && table[k] == v
    requires forall j :: 0 <= j < |pipe| && pipe[j].key == k ==> pipe[j].val == v
    ensures k in After(table, pipe, answers, replace, n) && After(table, pipe, answers, replace, n)[k] == v
  {
    if n > 0 { AfterHolds(table, pipe, answers, replace, n - 1, k, v); }
  }

  /** The target executes the items that reach it and answers each command with one line. */
  method Execute(target: Store, pipe: seq<Item>, answers: seq<Answer>, replace: bool) returns (lines: seq<bool>)
    requires |answers| <= |pipe|
    modifies target
    ensures target.table == After(old(target.table), pipe, answers, replace, |answers|) && |lines| == 2 * |answers|
    ensures forall j :: 0 <= j < |answers| ==>
      (lines[2 * j] && lines[2 * j + 1] <==> Positive(old(target.table), pipe, answers, replace, j))
  {
    lines := [];
    for j := 0 to |answers|
      invariant target.table == After(old(target.table), pipe, answers, replace, j) && |lines| == 2 * j
      invariant forall i :: 0 <= i < j ==>
        (lines[2 * i] && lines[2 * i + 1] <==> Positive(old(target.table), pipe, answers, replace, i))
    {
      var stores := Stores(target.table, pipe[j], answers[j], replace);
      if stores { target.table := target.table[pipe[j].key := pipe[j].val]; }
      lines := lines + [answers[j].asking, stores];
    }
  }

  /** The reply loop: two positive lines confirm one item; anything else stops it. */
  method ReadReplies(lines: seq<bool>, n: nat) returns (confirmed: nat)
    ensures confirmed <= n && 2 * confirmed <= |lines| && forall i :: 0 <= i < 2 * confirmed ==> lines[i]
    ensures confirmed == n || |lines| < 2 * confirmed + 2 || !lines[2 * confirmed] || !lines[2 * confirmed + 1]
  {
    confirmed := 0;
    while confirmed < n
      invariant confirmed <= n && 2 * confirmed <= |lines| && forall i :: 0 <= i < 2 * confirmed ==> lines[i]
    {
      var p := 2 * confirmed;
      if p >= |lines| || !lines[p] { break; }
      if p + 1 >= |lines| || !lines[p + 1] { break; }
      confirmed := confirmed + 1;
    }
  }

  /** The pipeline: one item for each listed key that is live and can be dumped; expired keys go first. */
  method BuildPipe(source: Store, keys: seq<Key>, expired: set<Key>, undumpable: set<Key>) returns (pipe: seq<Item>)
    modifies source
    ensures source.table == old(source.table) - (set k | k in keys && k in expired)
    ensures forall j :: 0 <= j < |pipe| ==>
      && pipe[j].key in keys && pipe[j].key !in undumpable && pipe[j].key in source.table
      && source.table[pipe[j].key] == pipe[j].val
    ensures forall k :: k in keys && k in source.table && k !in undumpable ==>
      exists j :: 0 <= j < |pipe| && pipe[j].key == k
    ensures |pipe| <= |keys|
  {
    pipe := [];
    ghost var was := source.table;
    assert keys[..0] == [];
    assert source.table == was - (set k | k in keys[..0] && k in expired);
    for i := 0 to |keys|
      invariant source.table == was - (set k | k in keys[..i] && k in expired) && |pipe| <= i
      invariant forall j :: 0 <= j < |pipe| ==>
        && pipe[j].key in keys[..i] && pipe[j].key !in expired && pipe[j].key !in undumpable && pipe[j].key in was
        && was[pipe[j].key] == pipe[j].val
      invariant forall k :: k in keys[..i] && k in was && k !in expired && k !in undumpable ==>
        exists j :: 0 <= j < |pipe| && pipe[j].key == k
    {
      var k := keys[i];
      assert keys[..i + 1] == keys[..i] + [k];
      ghost var before := pipe;
      if k in expired { source.table := source.table - {k}; }
      if k in source.table && k !in undumpable {
        pipe := pipe + [Item(k, source.table[k])];
        assert pipe[|before|].key == k;
        forall x | x in keys[..i] && x in was && x !in expired && x !in undumpable
          ensures exists j :: 0 <= j < |pipe| && pipe[j].key == x
        {
          var j :| 0 <= j < |before| && before[j].key == x;
          assert pipe[j].key == x;
        }
      }
    }
    assert keys[..|keys|] == keys;
  }

  /** The keys of the first n items. */
  function Sent(pipe: seq<Item>, n: nat): set<Key>
    requires n <= |pipe|
  {
    set j | 0 <= j < n :: pipe[j].key
  }

  method DeleteConfirmed(source: Store, pipe: seq<Item>, n: nat)
    requires n <= |pipe|
    modifies source
    ensures source.table == old(source.table) - Sent(pipe, n)
  {
    for i := 0 to n
      invariant source.table == old(source.table) - Sent(pipe, i)
    {
      source.table := source.table - {pipe[i].key};
      assert Sent(pipe, i + 1) == Sent(pipe, i) + {pipe[i].key};
    }
  }

  /** The outcome of a transfer: which items were sent and how many were confirmed. */
  datatype Outcome = Outcome(ok: bool, pipe: seq<Item>, confirmed: nat)

  /** A key of the source is there with its value, or at the target with that value. */
  ghost predicate Kept(was: map<Key, Val>, source: map<Key, Val>, target: map<Key, Val>, k: Key) {
    k in was ==> (k in source && source[k] == was[k]) || (k in target && target[k] == was[k])
  }

  /** All of the pipeline is executed with positive answers, and all of these arrive. */
  predicate Delivers(link: Link, table: map<Key, Val>, pipe: seq<Item>, replace: bool) {
    && link.connect && link.sent && |link.answers| >= |pipe| && link.heard >= 2 * |pipe|
    && forall j :: 0 <= j < |pipe| ==> Positive(table, pipe, link.answers[..|pipe|], replace, j)
  }

  /** A connection and a target that do all they are asked to, for up to n items. */
  predicate Willing(link: Link, n: nat) {
    && link.connect && link.sent && |link.answers| >= n && link.heard >= 2 * n
    && forall j :: 0 <= j < n ==> link.answers[j] == Answer(true, true)
  }

  /** With REPLACE a willing target takes everything. */
  lemma WillingDelivers(link: Link, table: map<Key, Val>, pipe: seq<Item>, n: nat)
    requires Willing(link, n) && |pipe| <= n
    ensures Delivers(link, table, pipe, true)
  {
    hide After;
  }

  /** migrate_run: whatever the connection does, no live key is lost and only confirmed keys are deleted. */
  method MigrateRun(source: Store, target: Store, keys: seq<Key>, copy: bool, replace: bool,
                    expired: set<Key>, undumpable: set<Key>, link: Link) returns (r: Outcome)
    requires source != target
    modifies source, target
    ensures forall k :: k !in expired ==> Kept(old(source.table), source.table, target.table, k)
    ensures r.confirmed <= |r.pipe|
    ensures source.table ==
      old(source.table) - (set k | k in keys && k in expired) - (if copy then {} else Sent(r.pipe, r.confirmed))
    ensures forall j :: 0 <= j < r.confirmed ==>
      r.pipe[j].key in target.table && target.table[r.pipe[j].key] == r.pipe[j].val
    ensures forall j :: 0 <= j < |r.pipe| ==>
      r.pipe[j].key in keys && r.pipe[j].key in old(source.table) && r.pipe[j].val == old(source.table)[r.pipe[j].key]
    ensures forall j :: 0 <= j < |r.pipe| ==> r.pipe[j].key !in undumpable && r.pipe[j].key !in expired
    ensures r.ok <==> r.confirmed == |r.pipe|
    ensures r.ok <==> r.pipe == [] || Delivers(link, old(target.table), r.pipe, replace)
    ensures |r.pipe| <= |keys|
    ensures r.ok && !copy ==> forall k :: k in keys && k !in undumpable ==> k !in source.table
    ensures forall k :: (k !in keys || k !in old(source.table)) ==>
      (k in target.table <==> k in old(target.table)) && (k in target.table ==> target.table[k] == old(target.table)[k])
    ensures forall k ::
      k in old(source.table) && k in old(target.table) && old(target.table)[k] == old(source.table)[k] ==>
        k in target.table && target.table[k] == old(source.table)[k]
  {
    var pipe := BuildPipe(source, keys, expired, undumpable);
    var confirmed := 0;
    ghost var t0 := target.table;
    ghost var answers: seq<Answer> := [];
    if |pipe| > 0 && link.connect {
      answers := link.answers[..Min(|link.answers|, |pipe|)];
      var lines := Execute(target, pipe, link.answers[..Min(|link.answers|, |pipe|)], replace);
      if link.sent {
        var heard := lines[..Min(link.heard, |lines|)];
        confirmed := ReadReplies(heard, |pipe|);
        Confirmed(t0, pipe, answers, replace, lines, heard, confirmed);
        AllConfirmed(t0, pipe, link, replace, lines, confirmed);
        if !copy { DeleteConfirmed(source, pipe, confirmed); }
      }
    }
    Untouched(t0, pipe, answers, replace, old(source.table));
    return Outcome(confirmed == |pipe|, pipe, confirmed);
  }

  /** The reply loop confirms everything exactly when the connection delivers. */
  lemma AllConfirmed(t0: map<Key, Val>, pipe: seq<Item>, link: Link, replace: bool, lines: seq<bool>, n: nat)
    requires link.connect && link.sent && |pipe| > 0
    requires var answers := link.answers[..Min(|link.answers|, |pipe|)];
             && |lines| == 2 * |answers|
             && forall j :: 0 <= j < |answers| ==>
                  (lines[2 * j] && lines[2 * j + 1] <==> Positive(t0, pipe, answers, replace, j))
    requires var heard := lines[..Min(link.heard, |lines|)];
             && n <= |pipe| && 2 * n <= |heard| && (forall i :: 0 <= i < 2 * n ==> heard[i])
             && (n == |pipe| || |heard| < 2 * n + 2 || !heard[2 * n] || !heard[2 * n + 1])
    ensures n == |pipe| <==> Delivers(link, t0, pipe, replace)
  {
    hide After, Positive;
    var answers, heard := link.answers[..Min(|link.answers|, |pipe|)], lines[..Min(link.heard, |lines|)];
    if n == |pipe| {
      assert answers == link.answers[..|pipe|];
      forall j | 0 <= j < |pipe| ensures Positive(t0, pipe, link.answers[..|pipe|], replace, j) {
        assert heard[2 * j] && heard[2 * j + 1];
      }
    }
    if Delivers(link, t0, pipe, replace) {
      assert answers == link.answers[..|pipe|] && |heard| >= 2 * |pipe|;
      forall j | 0 <= j < |pipe| ensures heard[2 * j] && heard[2 * j + 1] {
        assert Positive(t0, pipe, link.answers[..|pipe|], replace, j);
      }
    }
  }

  lemma Confirmed(t0: map<Key, Val>, pipe: seq<Item>, answers: seq<Answer>, replace: bool, lines: seq<bool>,
                  heard: seq<bool>, n: nat)
    requires Consistent(pipe) && |answers| <= |pipe| && |lines| == 2 * |answers| && heard <= lines && n <= |pipe|
    requires forall j :: 0 <= j < |answers| ==>
      (lines[2 * j] && lines[2 * j + 1] <==> Positive(t0, pipe, answers, replace, j))
    requires 2 * n <= |heard| && forall i :: 0 <= i < 2 * n ==> heard[i]
    ensures var t := After(t0, pipe, answers, replace, |answers|);
            forall j :: 0 <= j < n ==> pipe[j].key in t && t[pipe[j].key] == pipe[j].val
  {
    forall j | 0 <= j < n
      ensures var t := After(t0, pipe, answers, replace, |answers|); pipe[j].key in t && t[pipe[j].key] == pipe[j].val
    {
      assert heard[2 * j] && heard[2 * j + 1];
      AfterKeeps(t0, pipe, answers, replace, j, |answers|);
    }
  }

  lemma Untouched(t0: map<Key, Val>, pipe: seq<Item>, answers: seq<Answer>, replace: bool, src: map<Key, Val>)
    requires |answers| <= |pipe|
    requires forall j :: 0 <= j < |pipe| ==> pipe[j].key in src && pipe[j].val == src[pipe[j].key]
    ensures var t := After(t0, pipe, answers, replace, |answers|);
            && (forall k :: (forall j :: 0 <= j < |pipe| ==> pipe[j].key != k) ==>
                  (k in t <==> k in t0) && (k in t ==> t[k] == t0[k]))
            && (forall k :: k in src && k in t0 && t0[k] == src[k] ==> k in t && t[k] == src[k])
  {
    forall k ensures var t := After(t0, pipe, answers, replace, |answers|);
                     (forall j :: 0 <= j < |pipe| ==> pipe[j].key != k) ==>
                       (k in t <==> k in t0) && (k in t ==> t[k] == t0[k])
    {
      AfterFrame(t0, pipe, answers, replace, |answers|, k);
    }
    forall k | k in src && k in t0 && t0[k] == src[k]
      ensures var t := After(t0, pipe, answers, replace, |answers|); k in t && t[k] == src[k]
    {
      AfterHolds(t0, pipe, answers, replace, |answers|, k, src[k]);
    }
  }
}
