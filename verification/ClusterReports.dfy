/** Failure reports against a node: one entry per reporter, each valid for twice the node timeout. */
module ClusterReports {
  import opened Bytes
  import opened ClusterNode

  ghost predicate ReportsOk(rs: seq<Report>) {
    && |rs| <= MAX_NODES && (forall i :: 0 <= i < |rs| ==> IdValid(rs[i].reporter))
    && (forall i, j :: 0 <= i < j < |rs| ==> rs[i].reporter != rs[j].reporter)
  }

  function Window(timeout: U64): U64 { if timeout > MAX_U64 / 2 then MAX_U64 else timeout * 2 }

  predicate Expired(r: Report, now: U64, window: U64) { now >= r.time && now - r.time > window }

  ghost predicate Reported(rs: seq<Report>, who: seq<Byte>) {
    exists i :: 0 <= i < |rs| && rs[i].reporter == who
  }

  method IndexOf(rs: seq<Report>, who: seq<Byte>) returns (i: int)
    ensures -1 <= i < |rs| && (i >= 0 ==> rs[i].reporter == who) && (i == -1 ==> !Reported(rs, who))
  {
    for k := 0 to |rs|
      invariant forall j :: 0 <= j < k ==> rs[j].reporter != who
    {
      if rs[k].reporter == who { return k; }
    }
    return -1;
  }

  /** The reporter's entry is refreshed or added; nothing happens without a valid id or without room. */
  ghost predicate Added(rs: seq<Report>, out: seq<Report>, who: seq<Byte>, now: U64) {
    if IdValid(who) && (|rs| < MAX_NODES || Reported(rs, who))
    then forall r :: r in out <==> r == Report(who, now) || (r in rs && r.reporter != who)
    else out == rs
  }

  /** cluster_report_failure: refreshes the reporter's entry or adds one, up to the cap. */
  method AddReport(rs: seq<Report>, who: seq<Byte>, now: U64) returns (out: seq<Report>)
    requires ReportsOk(rs)
    ensures ReportsOk(out) && Added(rs, out, who, now)
  {
    if !IdValid(who) { return rs; }
    var i := IndexOf(rs, who);
    if i >= 0 {
      out := rs[i := Report(who, now)];
      forall r ensures r in out <==> r == Report(who, now) || (r in rs && r.reporter != who) {
        if r in rs && r.reporter != who { var k :| 0 <= k < |rs| && rs[k] == r; assert out[k] == r; }
        assert out[i] == Report(who, now);
      }
    } else if |rs| < MAX_NODES {
      out := rs + [Report(who, now)];
    } else {
      out := rs;
    }
  }

  /** What the quorum makes of a suspected node: only standing reports count, and FAIL replaces the suspicion. */
  ghost predicate Judged(was: Node, now: Node, self: nat, masters: nat, time: U64, window: U64) {
    if Pfail !in was.flags || Fail in was.flags then now == was else
      var fails := |now.reports| + self > masters / 2 && Myself !in was.flags;
      && (forall r :: r in now.reports <==> r in was.reports && !Expired(r, time, window))
      && now == if fails then was.(reports := now.reports, flags := was.flags - {Pfail} + {Fail}, failTime := time)
                else was.(reports := now.reports)
  }

  lemma JudgedFields(was: Node, now: Node, self: nat, masters: nat, time: U64, window: U64)
    requires Judged(was, now, self, masters, time, window)
    ensures now == was.(reports := now.reports, flags := now.flags, failTime := now.failTime)
    ensures now.flags == was.flags || now.flags == was.flags - {Pfail} + {Fail}
  {
  }

  /** rs without entry i, the last entry taking its place. */
  function Removed(rs: seq<Report>, i: nat): seq<Report>
    requires i < |rs|
  {
    rs[i := rs[|rs| - 1]][..|rs| - 1]
  }

  lemma RemovedOk(rs: seq<Report>, i: nat)
    requires ReportsOk(rs) && i < |rs|
    ensures ReportsOk(Removed(rs, i))
    ensures forall r :: r in Removed(rs, i) <==> r in rs && r != rs[i]
  {
    hide IdValid;
    var out := Removed(rs, i);
    assert forall k :: 0 <= k < |out| ==> out[k] == if k == i then rs[|rs| - 1] else rs[k];
    forall r | r in rs && r != rs[i] ensures r in out {
      var k :| 0 <= k < |rs| && rs[k] == r;
      if k < |rs| - 1 { assert out[k] == r; } else { assert out[i] == r; }
    }
  }

  /** cluster_report_heal: the reporter takes its report back. */
  method RemoveReport(rs: seq<Report>, who: seq<Byte>) returns (out: seq<Report>)
    requires ReportsOk(rs)
    ensures ReportsOk(out)
    ensures forall r :: r in out <==> r in rs && !(IdValid(who) && r.reporter == who)
  {
    if !IdValid(who) { return rs; }
    hide IdValid;
    var i := IndexOf(rs, who);
    if i == -1 { return rs; }
    RemovedOk(rs, i);
    return Removed(rs, i);
  }

  /** cluster_report_count drops the expired entries in place. */
  method DropExpired(rs: seq<Report>, now: U64, window: U64) returns (out: seq<Report>)
    requires ReportsOk(rs)
    ensures ReportsOk(out) && forall r :: r in out <==> r in rs && !Expired(r, now, window)
  {
    hide ReportsOk;
    out := rs;
    var i := 0;
    while i < |out|
      invariant i <= |out| && ReportsOk(out)
      invariant forall k :: 0 <= k < i ==> !Expired(out[k], now, window)
      invariant forall r :: r in out ==> r in rs
      invariant forall r :: r in rs && !Expired(r, now, window) ==> r in out
      decreases |out| - i
    {
      if Expired(out[i], now, window) {
        RemovedOk(out, i);
        out := Removed(out, i);
      } else {
        i := i + 1;
      }
    }
  }
}
