/** Election safety: whatever the members do and whichever messages arrive, an epoch has one winner. */
module Election {
  import opened Basics
  import opened Bytes
  import opened ClusterNode

  type Id = seq<Byte>

  /** What a member knows of elections; acks are the masters whose votes it counted. */
  datatype Member = Member(current: U64, lastVote: U64, req: U64, acks: set<Id>)

  datatype Ack = Ack(voter: Id, to: Id, epoch: U64)

  /** A candidate that won the election of an epoch, its current epoch when it was promoted, and the config epoch that
      it was promoted with. */
  datatype Win = Win(who: Id, epoch: U64, voters: set<Id>, at: U64, config: U64)

  /** All members, and everything ever sent; messages may be lost, repeated or late. */
  datatype System = System(members: map<Id, Member>, requests: set<(Id, U64)>, acks: set<Ack>, wins: set<Win>)

  // ---------------------------------------------------------------- steps of one member

  /** The current epoch grows by gossip; nothing else changes. */
  ghost predicate RaiseStep(m: Member, n: Member) {
    n == m.(current := n.current) && n.current >= m.current
  }

  /** An election starts in a fresh epoch. */
  ghost predicate StartStep(m: Member, n: Member) {
    m.current < MAX_U64 && n == m.(current := m.current + 1, req := m.current + 1, acks := {})
  }

  /** A request for epoch e arrives; the vote is granted at most once for e. */
  ghost predicate VoteStep(m: Member, n: Member, e: U64, granted: bool) {
    && n == m.(current := n.current, lastVote := n.lastVote) && n.current >= m.current
    && (if granted then n.lastVote == n.current == e && m.lastVote != e && e >= m.current else n.lastVote == m.lastVote)
  }

  /** An ack arrives; it counts only for the election under way. */
  ghost predicate AckStep(m: Member, n: Member, voter: Id, e: U64) {
    n == m || (m.req != 0 && e >= m.req && n == m.(acks := m.acks + {voter}))
  }

  /** An election ends; a winner is promoted with the epoch after its current one, not with the election's. */
  ghost predicate EndStep(m: Member, n: Member, won: bool) {
    && n == m.(current := n.current, req := 0)
    && (if won then m.req != 0 && m.current < MAX_U64 && n.current == m.current + 1 else n.current == m.current)
  }

  // ---------------------------------------------------------------- runs

  datatype Step =
    | Raise(v: Id)
    | Start(c: Id)
    | Vote(v: Id, c: Id, e: U64, granted: bool)
    | Count(c: Id, ack: Ack)
    | End(c: Id, won: bool)

  /** The member that takes a step. */
  function Actor(step: Step): Id {
    match step
    case Raise(v) => v
    case Start(c) => c
    case Vote(v, _, _, _) => v
    case Count(c, _) => c
    case End(c, _) => c
  }

  ghost predicate Next(s: System, step: Step, t: System) {
    var a := Actor(step);
    && a in s.members && a in t.members && t.members == s.members[a := t.members[a]]
    && var m, n := s.members[a], t.members[a];
    match step
    case Raise(_) => RaiseStep(m, n) && t == s.(members := t.members)
    case Start(c) => StartStep(m, n) && t == s.(members := t.members, requests := s.requests + {(c, n.req)})
    case Vote(v, c, e, granted) =>
      (c, e) in s.requests && VoteStep(m, n, e, granted)
      && t == s.(members := t.members, acks := if granted then s.acks + {Ack(v, c, e)} else s.acks)
    case Count(c, ack) =>
      ack in s.acks && ack.to == c && AckStep(m, n, ack.voter, ack.epoch) && t == s.(members := t.members)
    case End(c, won) =>
      EndStep(m, n, won)
      && t == s.(members := t.members,
                 wins := if won then s.wins + {Win(c, m.req, m.acks, m.current, n.current)} else s.wins)
  }

  /** Nothing sent, nobody elected, no vote above the voter's epoch. */
  ghost predicate Init(s: System) {
    && s.requests == {} && s.acks == {} && s.wins == {}
    && forall v :: v in s.members ==> s.members[v].lastVote <= s.members[v].current && s.members[v].req == 0
  }

  ghost predicate Run(states: seq<System>, steps: seq<Step>) {
    && |states| == |steps| + 1 && Init(states[0])
    && forall k :: 0 <= k < |steps| ==> Next(states[k], steps[k], states[k + 1])
  }

  // ---------------------------------------------------------------- the invariant

  ghost predicate VotesOk(s: System) {
    && (forall v :: v in s.members ==> s.members[v].lastVote <= s.members[v].current)
    && (forall a :: a in s.acks ==> a.voter in s.members && a.epoch <= s.members[a.voter].lastVote)
    && (forall a, b :: a in s.acks && b in s.acks && a.voter == b.voter && a.epoch == b.epoch ==> a.to == b.to)
  }

  ghost predicate RequestsOk(s: System) {
    && (forall r :: r in s.requests ==> r.0 in s.members && r.1 <= s.members[r.0].current)
    && (forall r :: r in s.requests && s.members[r.0].req != 0 ==> r.1 <= s.members[r.0].req)
    && (forall c :: c in s.members ==> s.members[c].req <= s.members[c].current)
    && (forall a :: a in s.acks ==> (a.to, a.epoch) in s.requests)
  }

  /** Every vote that counts was sent, for that epoch. */
  ghost predicate CountsOk(s: System) {
    forall c, v :: c in s.members && s.members[c].req != 0 && v in s.members[c].acks ==>
      Ack(v, c, s.members[c].req) in s.acks
  }

  ghost predicate WinsOk(s: System) {
    && (forall w, v :: w in s.wins && v in w.voters ==> Ack(v, w.who, w.epoch) in s.acks)
    && (forall w :: w in s.wins ==> w.epoch <= w.at < w.config == w.at + 1)
  }

  ghost predicate Inv(s: System) { VotesOk(s) && RequestsOk(s) && CountsOk(s) && WinsOk(s) }

  lemma VotesStep(s: System, step: Step, t: System)
    requires Next(s, step, t) && VotesOk(s)
    ensures VotesOk(t)
  {
  }

  lemma RequestsStep(s: System, step: Step, t: System)
    requires Next(s, step, t) && RequestsOk(s)
    ensures RequestsOk(t)
  {
  }

  lemma CountsStep(s: System, step: Step, t: System)
    requires Next(s, step, t) && RequestsOk(s) && CountsOk(s)
    ensures CountsOk(t)
  {
    forall c, v | c in t.members && t.members[c].req != 0 && v in t.members[c].acks
      ensures Ack(v, c, t.members[c].req) in t.acks
    {
      if step.Count? && step.c == c && v !in s.members[c].acks {
        assert (c, step.ack.epoch) in s.requests;
        assert step.ack == Ack(v, c, t.members[c].req);
      }
    }
  }

  lemma WinsStep(s: System, step: Step, t: System)
    requires Next(s, step, t) && RequestsOk(s) && CountsOk(s) && WinsOk(s)
    ensures WinsOk(t)
  {
  }

  lemma {:induction false} RunKeepsInv(states: seq<System>, steps: seq<Step>, k: nat)
    requires Run(states, steps) && k <= |steps|
    ensures Inv(states[k])
  {
    hide Next, VotesOk, RequestsOk, CountsOk, WinsOk;
    if k == 0 {
      StartInv(states[0]);
    } else {
      RunKeepsInv(states, steps, k - 1);
      VotesStep(states[k - 1], steps[k - 1], states[k]);
      RequestsStep(states[k - 1], steps[k - 1], states[k]);
      CountsStep(states[k - 1], steps[k - 1], states[k]);
      WinsStep(states[k - 1], steps[k - 1], states[k]);
    }
  }

  lemma StartInv(s: System)
    requires Init(s)
    ensures Inv(s)
  {
  }

  // ---------------------------------------------------------------- safety

  /** Two winners of one epoch share no voter. */
  lemma NoCommonVoter(s: System, a: Win, b: Win, v: Id)
    requires Inv(s) && a in s.wins && b in s.wins && a.epoch == b.epoch && v in a.voters && v in b.voters
    ensures a.who == b.who
  {
    assert Ack(v, a.who, a.epoch) in s.acks && Ack(v, b.who, b.epoch) in s.acks;
  }

  /** More than half of the masters are among the voters. */
  ghost predicate Majority<T>(voters: set<T>, masters: set<T>) { 2 * |voters * masters| > |masters| }

  /** Two majorities of the same masters meet. */
  lemma MajoritiesMeet<T>(masters: set<T>, a: set<T>, b: set<T>)
    requires Majority(a, masters) && Majority(b, masters)
    ensures exists v :: v in masters && v in a && v in b
  {
    var p, q := a * masters, b * masters;
    if p * q == {} {
      assert |p + q| == |p| + |q|;
      SubsetSize(p + q, masters);
    } else {
      var v :| v in p * q;
    }
  }

  /** In every run, the candidates that win an epoch with a majority of the same masters are one. */
  lemma OneWinner(states: seq<System>, steps: seq<Step>, k: nat, a: Win, b: Win, masters: set<Id>)
    requires Run(states, steps) && k <= |steps| && a in states[k].wins && b in states[k].wins && a.epoch == b.epoch
    requires Majority(a.voters, masters) && Majority(b.voters, masters)
    ensures a.who == b.who
  {
    hide Next, Init, Inv;
    assert Inv(states[k]) by { RunKeepsInv(states, steps, k); }
    MajoritiesMeet(masters, a.voters, b.voters);
    var v :| v in masters && v in a.voters && v in b.voters;
    NoCommonVoter(states[k], a, b, v);
  }

  // ---------------------------------------------------------------- config epochs of winners

  /** The later winner's config epoch is the larger, if the earlier one was promoted before it heard of the later
      election. */
  lemma ConfigOrder(states: seq<System>, steps: seq<Step>, k: nat, a: Win, b: Win)
    requires Run(states, steps) && k <= |steps| && a in states[k].wins && b in states[k].wins && a.epoch < b.epoch
    requires a.at < b.epoch
    ensures a.config < b.config
  {
    hide Next, Init, VotesOk, RequestsOk, CountsOk;
    RunKeepsInv(states, steps, k);
  }

  /** Winners that are promoted in the epoch of their election, with majorities of the same masters, get distinct
      config epochs. */
  lemma PromotedInTime(states: seq<System>, steps: seq<Step>, k: nat, a: Win, b: Win, masters: set<Id>)
    requires Run(states, steps) && k <= |steps| && a in states[k].wins && b in states[k].wins
    requires Majority(a.voters, masters) && Majority(b.voters, masters)
    requires a.at == a.epoch && b.at == b.epoch
    ensures a.config == b.config ==> a.who == b.who
  {
    hide Next, Init, VotesOk, RequestsOk, CountsOk, Majority;
    RunKeepsInv(states, steps, k);
    if a.epoch == b.epoch { OneWinner(states, steps, k, a, b, masters); }
  }

  /** Two candidates, a and b, and one voter v. */
  datatype Trio = Trio(a: Id, b: Id, v: Id) {
    ghost predicate Distinct() { a != b && a != v && b != v }
    ghost function State(ma: Member, mb: Member, mv: Member, requests: set<(Id, U64)>, acks: set<Ack>,
                         wins: set<Win>): System {
      System(map[a := ma, b := mb, v := mv], requests, acks, wins)
    }
  }

  /** A run and the states between its steps: a is elected in epoch r, b in the later epoch c, then a hears of c. */
  ghost function StoryStep(ids: Trio, r: U64, c: U64, k: nat): Step {
    match k
    case 0 => Start(ids.a)
    case 1 => Vote(ids.v, ids.a, r, true)
    case 2 => Count(ids.a, Ack(ids.v, ids.a, r))
    case 3 => Start(ids.b)
    case 4 => Vote(ids.v, ids.b, c, true)
    case 5 => Count(ids.b, Ack(ids.v, ids.b, c))
    case 6 => Raise(ids.a)
    case 7 => End(ids.a, true)
    case _ => End(ids.b, true)
  }

  ghost function Story(ids: Trio, r: U64, c: U64, k: nat): System
    requires 0 < r < c < MAX_U64
  {
    var a0, b0, v0 := Member(r - 1, 0, 0, {}), Member(c - 1, 0, 0, {}), Member(0, 0, 0, {});
    var a1, b1 := Member(r, 0, r, {}), Member(c, 0, c, {});
    var a2, b2 := Member(r, 0, r, {ids.v}), Member(c, 0, c, {ids.v});
    var v1, v2, done := Member(r, r, 0, {}), Member(c, c, 0, {}), Member(c + 1, 0, 0, {ids.v});
    var ask1, ask2 := {(ids.a, r)}, {(ids.a, r), (ids.b, c)};
    var ack1, ack2 := {Ack(ids.v, ids.a, r)}, {Ack(ids.v, ids.a, r), Ack(ids.v, ids.b, c)};
    var winA, winB := Win(ids.a, r, {ids.v}, c, c + 1), Win(ids.b, c, {ids.v}, c, c + 1);
    match k
    case 0 => ids.State(a0, b0, v0, {}, {}, {})
    case 1 => ids.State(a1, b0, v0, ask1, {}, {})
    case 2 => ids.State(a1, b0, v1, ask1, ack1, {})
    case 3 => ids.State(a2, b0, v1, ask1, ack1, {})
    case 4 => ids.State(a2, b1, v1, ask2, ack1, {})
    case 5 => ids.State(a2, b1, v2, ask2, ack2, {})
    case 6 => ids.State(a2, b2, v2, ask2, ack2, {})
    case 7 => ids.State(a2.(current := c), b2, v2, ask2, ack2, {})
    case 8 => ids.State(done, b2, v2, ask2, ack2, {winA})
    case _ => ids.State(done, done, v2, ask2, ack2, {winA, winB})
  }

  lemma StoryFirst(ids: Trio, r: U64, c: U64, k: nat)
    requires ids.Distinct() && 0 < r < c < MAX_U64 && k < 3
    ensures Next(Story(ids, r, c, k), StoryStep(ids, r, c, k), Story(ids, r, c, k + 1))
  {
  }

  lemma StorySecond(ids: Trio, r: U64, c: U64, k: nat)
    requires ids.Distinct() && 0 < r < c < MAX_U64 && 3 <= k < 6
    ensures Next(Story(ids, r, c, k), StoryStep(ids, r, c, k), Story(ids, r, c, k + 1))
  {
  }

  lemma StoryEnd(ids: Trio, r: U64, c: U64, k: nat)
    requires ids.Distinct() && 0 < r < c < MAX_U64 && 6 <= k < 9
    ensures Next(Story(ids, r, c, k), StoryStep(ids, r, c, k), Story(ids, r, c, k + 1))
  {
  }

  /** A winner of election r, promoted at current epoch c, and another one, promoted in the epoch of its own election,
      share a config epoch; both had majorities of the same masters. */
  ghost predicate Collides(states: seq<System>, steps: seq<Step>, a: Win, b: Win, masters: set<Id>, r: U64, c: U64) {
    && Run(states, steps) && a in states[|steps|].wins && b in states[|steps|].wins && a.who != b.who
    && Majority(a.voters, masters) && Majority(b.voters, masters)
    && a.epoch == r && a.at == c && b.at == b.epoch && a.config == b.config
  }

  /** For any election epoch and any later current epoch there is a run with such a collision. */
  lemma ConfigsCollide(ids: Trio, r: U64, c: U64) returns (states: seq<System>, steps: seq<Step>, a: Win, b: Win)
    requires ids.Distinct() && 0 < r < c < MAX_U64
    ensures Collides(states, steps, a, b, {ids.v}, r, c)
  {
    a, b := Win(ids.a, r, {ids.v}, c, c + 1), Win(ids.b, c, {ids.v}, c, c + 1);
    assert Init(Story(ids, r, c, 0)) && a in Story(ids, r, c, 9).wins && b in Story(ids, r, c, 9).wins;
    assert {ids.v} * {ids.v} == {ids.v};
    hide Next, Story, StoryStep, Init;
    states := seq(10, k requires 0 <= k => Story(ids, r, c, k));
    steps := seq(9, k requires 0 <= k => StoryStep(ids, r, c, k));
    forall k | 0 <= k < |steps| ensures Next(states[k], steps[k], states[k + 1]) {
      if k < 3 {
        StoryFirst(ids, r, c, k);
      } else if k < 6 {
        StorySecond(ids, r, c, k);
      } else {
        StoryEnd(ids, r, c, k);
      }
    }
  }

  /** The exact condition.  A winner of election r that is promoted at current epoch c is safe from sharing its config
      epoch with a winner promoted in time, in every run, if and only if it is promoted in time itself. */
  lemma ConfigsDistinct(r: U64, c: U64)
    requires 0 < r <= c < MAX_U64
    ensures r == c <==>
      !exists states, steps, a, b, masters :: Collides(states, steps, a, b, masters, r, c)
  {
    hide Run, Majority;
    if r < c {
      var ids := Trio([1], [2], [3]);
      assert ids.a[0] == 1 && ids.b[0] == 2 && ids.v[0] == 3;
      var states, steps, a, b := ConfigsCollide(ids, r, c);
    } else if states, steps, a, b, masters :| Collides(states, steps, a, b, masters, r, c) {
      PromotedInTime(states, steps, |steps|, a, b, masters);
    }
  }

  /** A voter's granted epochs strictly increase along a run. */
  lemma VotesIncrease(s: System, step: Step, t: System)
    requires Next(s, step, t) && VotesOk(s) && step.Vote? && step.granted
    ensures s.members[step.v].lastVote < t.members[step.v].lastVote == step.e
    ensures forall a :: a in s.acks && a.voter == step.v ==> a.epoch < step.e
  {
  }
}
