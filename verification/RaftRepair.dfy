/** Log repair ends: a leader that exchanges heartbeats and replies with one follower brings that follower's log,
    whatever it was, to its own. */
module RaftRepair {
  import opened RaftTypes
  import opened RaftStep
  import opened RaftHistory
  import opened RaftInvariant
  import opened RaftMerge
  import opened RaftSystem
  import opened RaftSafety
  import opened RaftTheorems
  import opened RaftLocal
  import opened RaftDuties
  import opened Bytes

  // ---- what an append and its reply do ----

  /** The consistency check an append passes. */
  predicate Fitting(log: Log, m: Msg)
    requires m.Append?
  {
    (m.prevIndex == 0 && m.prevTerm == 0) || (0 < m.prevIndex <= |log| && log[m.prevIndex - 1].term == m.prevTerm)
  }

  /** The answer to an append: exactly one, to the leader named.  One of an older term is refused and changes nothing;
      otherwise the node follows that leader and restarts its timeout, and succeeds exactly when the entry before
      fits. */
  lemma AppendExact(n: Node, src: Id, m: Msg)
    requires m.Append?
    ensures var r, ok := Recv(n, src, m), m.term >= n.term && Fitting(n.log, m);
      && r.term == (if m.term > n.term then m.term else n.term)
      && r.sent == n.sent + [Packet(m.leader, AppendResp(r.term, ok, if ok then m.prevIndex + |m.entries| else 0))]
      && (m.term < n.term ==> r == n.(sent := r.sent))
      && (m.term >= n.term ==> r.role == Follower && r.leader == m.leader && r.electionElapsed == 0 && !r.inPreVote)
      && (!ok ==> r.log == n.log && r.commit == n.commit)
      && (ok ==> r.commit == if m.leaderCommit <= n.commit then n.commit
                             else if m.leaderCommit < |r.log| then m.leaderCommit
                             else |r.log|)
  {
    hide PlaceEntries, Commands;
  }

  /** A success raises the member's match index, never lowers it, lets its next index follow and commits what is ripe;
      a refusal steps the next index back by one and sends the append from there, unless it is at the first entry. */
  lemma ReplyExact(n: Node, k: nat, m: Msg)
    requires n.role == Leader && DistinctIds(n.members) && OwnLog(n) && k < |n.members|
    requires m.AppendResp? && m.term <= n.term
    ensures var row := n.members[k];
      var r := Recv(n, row.id, m);
      var high := if m.matchIndex > row.matchIndex then m.matchIndex else row.matchIndex;
      if m.success then
        && r.members == n.members[k := row.(matchIndex := high, nextIndex := high + 1)]
        && r.sent == n.sent && Settled(r) && r.role == Leader && r.term == n.term && r.log == n.log
      else if row.nextIndex > 1 then
        && r == n.(members := n.members[k := row.(nextIndex := row.nextIndex - 1)], sent := r.sent)
        && |r.sent| == |n.sent| + 1 && n.sent <= r.sent && IsAppend(r, r.members[k], r.sent[|n.sent|])
      else r == n
  {
    hide Recv, OwnLog, DistinctIds, Settled, IsAppend;
    RowFound(n.members, k);
    if m.success { Succeeds(n, k, m); } else { Refuses(n, k, m); }
  }

  lemma Succeeds(n: Node, k: nat, m: Msg)
    requires n.role == Leader && DistinctIds(n.members) && OwnLog(n) && k < |n.members|
    requires m.AppendResp? && m.term <= n.term && m.success && Find(n.members, n.members[k].id) == k
    ensures var row := n.members[k];
      var r := Recv(n, row.id, m);
      var high := if m.matchIndex > row.matchIndex then m.matchIndex else row.matchIndex;
      && r.members == n.members[k := row.(matchIndex := high, nextIndex := high + 1)]
      && r.sent == n.sent && Settled(r) && r.role == Leader && r.term == n.term && r.log == n.log
  {
    var n1 := n.(members := RecordMatch(n.members, n.members[k].id, m.matchIndex));
    RowOnly(n.members, n1.members, k);
    assert DistinctIds(n1.members);
    hide RecordMatch, DistinctIds, Find;
    AdvanceSettles(n1);
    hide AdvanceCommit, Settled, OwnLog;
  }

  lemma Refuses(n: Node, k: nat, m: Msg)
    requires n.role == Leader && DistinctIds(n.members) && k < |n.members|
    requires m.AppendResp? && m.term <= n.term && !m.success && Find(n.members, n.members[k].id) == k
    ensures var row := n.members[k];
      var r := Recv(n, row.id, m);
      if row.nextIndex > 1 then
        && r == n.(members := n.members[k := row.(nextIndex := row.nextIndex - 1)], sent := r.sent)
        && |r.sent| == |n.sent| + 1 && n.sent <= r.sent && IsAppend(r, r.members[k], r.sent[|n.sent|])
      else r == n
  {
    var row := n.members[k];
    if row.nextIndex > 1 {
      var n1 := n.(members := BackOff(n.members, row.id));
      RowOnly(n.members, n1.members, k);
      hide BackOff, DistinctIds, Find;
      AppendToIs(n1, n1.members[k]);
      SentAside(n1, row.id, AppendTo(n1, n1.members[k]));
      hide AppendTo, IsAppend;
    }
  }

  lemma SentAside(n: Node, dst: Id, msg: Msg)
    ensures forall m: Member, p :: IsAppend(n, m, p) ==> IsAppend(Send(n, dst, msg), m, p)
  {
  }

  lemma RowFound(ms: seq<Member>, k: nat)
    requires DistinctIds(ms) && k < |ms|
    ensures Find(ms, ms[k].id) == k
  {
  }

  lemma RowOnly(ms: seq<Member>, ms': seq<Member>, k: nat)
    requires DistinctIds(ms) && k < |ms| == |ms'|
    requires forall x :: 0 <= x < |ms| && ms[x].id != ms[k].id ==> ms'[x] == ms[x]
    ensures ms' == ms[k := ms'[k]]
  {
  }

  // ---- one exchange ----

  /** A leader and the member in row `k` of its table: logs as log matching leaves them, and the member holds what the
      leader believes it holds. */
  ghost predicate Paired(l: Node, f: Node, k: nat) {
    && l.role == Leader && DistinctIds(l.members) && OwnLog(l) && |l.log| <= MAX_LOG && Indexed(l.log)
    && k < |l.members| && l.members[k].id == f.self && f.self != l.self
    && f.term <= l.term && TermsDecide(f.log, l.log)
    && l.members[k].nextIndex <= |l.log| + 1
    && Agrees(f.log, l.log, l.members[k].matchIndex)
  }

  /** The last message for `dst` among packets. */
  ghost function For(ps: seq<Packet>, dst: Id): Option<Msg> {
    if ps == [] then None
    else if ps[|ps| - 1].dst == dst then Some(ps[|ps| - 1].msg)
    else For(ps[..|ps| - 1], dst)
  }

  /** The leader's next heartbeat reaches the member, and the answer to it the leader. */
  ghost function Round(l: Node, f: Node): (Node, Node) {
    var l1 := Tick(l, l.now + l.cfg.heartbeat);
    match For(l1.sent, f.self)
    case None => (l1, f)
    case Some(a) =>
      var f1 := Recv(f, l.self, a);
      match For(f1.sent, l.self)
      case None => (l1, f1)
      case Some(b) => (Recv(l1, f.self, b), f1)
  }

  lemma {:induction false} ForAppends(before: seq<Packet>, n: Node, ms: seq<Member>, k: nat)
    requires DistinctIds(ms) && k < |ms| && ms[k].id != n.self
    ensures For(before + AppendsTo(n, ms), ms[k].id) == Some(AppendTo(n, ms[k]))
  {
    hide AppendTo;
    var front, last := ms[..|ms| - 1], ms[|ms| - 1];
    var ps := AppendsTo(n, front);
    if last.id == n.self {
      assert ps + [] == ps;
      ForAppends(before, n, front, k);
    } else {
      var all := before + AppendsTo(n, ms);
      assert all[..|all| - 1] == before + ps && all[|all| - 1] == Packet(last.id, AppendTo(n, last));
      if k < |ms| - 1 { ForAppends(before, n, front, k); }
    }
  }

  lemma ForLast(before: seq<Packet>, p: Packet)
    ensures For(before + [p], p.dst) == Some(p.msg)
  {
  }

  /** The heartbeat is what is due to the member. */
  lemma HeartbeatFor(l: Node, f: Node, k: nat)
    requires Paired(l, f, k)
    ensures var l1 := Tick(l, l.now + l.cfg.heartbeat);
      && For(l1.sent, f.self) == Some(AppendTo(l, l.members[k]))
      && l1 == l.(now := l1.now, electionElapsed := 0, heartbeatElapsed := 0, sent := l1.sent)
  {
    var l2 := AdvanceClock(l, l.now + l.cfg.heartbeat).(electionElapsed := 0, heartbeatElapsed := 0);
    ForAppends(l.sent, l2, l.members, k);
    hide AppendsTo;
  }

  /** What one round does, by whether the entry before the member's next one fits. */
  ghost predicate Rounded(l: Node, f: Node, k: nat, l2: Node, f2: Node)
    requires k < |l.members| && k < |l2.members|
  {
    var row, row2 := l.members[k], l2.members[k];
    var a := AppendTo(l, row);
    && Paired(l2, f2, k) && l2.log == l.log && l2.term == l.term && l2.self == l.self
    && (if Fitting(f.log, a)
        then row2.matchIndex >= row.nextIndex - 1 + |a.entries| && row2.nextIndex == row2.matchIndex + 1
        else row2.nextIndex == row.nextIndex - 1 && row2.matchIndex == row.matchIndex)
  }

  lemma Filled(l: Node, f: Node, k: nat)
    requires Paired(l, f, k) && Fitting(f.log, AppendTo(l, l.members[k]))
    ensures var a := AppendTo(l, l.members[k]);
      var end := a.prevIndex + |a.entries|;
      Merged(f.log, l.log, end, PlaceEntries(f.log, a.prevIndex + 1, a.entries)) && end <= |l.log|
  {
    var a := AppendTo(l, l.members[k]);
    var prev, end := a.prevIndex, a.prevIndex + |a.entries|;
    assert a.entries == l.log[prev..end];
    if prev > 0 { assert f.log[prev - 1].term == l.log[prev - 1].term; }
    assert Agrees(f.log, l.log, prev);
    PlaceEntriesMerge(f.log, l.log, prev, end);
  }

  lemma MergedDecides(g: Log, l: Log, k: nat, r: Log)
    requires Merged(g, l, k, r) && TermsDecide(g, l) && k <= |l|
    ensures TermsDecide(r, l)
  {
    if r != g {
      forall j | 0 <= j < |r| && j < |l| && r[j].term == l[j].term ensures Agrees(r, l, j + 1) {
        AgreesLess(r, l, k, j + 1);
      }
    }
  }

  /** What the member makes of the heartbeat. */
  lemma Heard(l: Node, f: Node, k: nat)
    requires Paired(l, f, k)
    ensures var a := AppendTo(l, l.members[k]);
      var ok, f1 := Fitting(f.log, a), Recv(f, l.self, a);
      && f1.self == f.self && f1.term == l.term
      && f1.log == (if ok then PlaceEntries(f.log, a.prevIndex + 1, a.entries) else f.log)
      && For(f1.sent, l.self) == Some(AppendResp(l.term, ok, if ok then a.prevIndex + |a.entries| else 0))
  {
    hide Recv, PlaceEntries, Batch, TermsDecide, Indexed, OwnLog, DistinctIds, Agrees, For;
    var a := AppendTo(l, l.members[k]);
    AppendExact(f, l.self, a);
    AppendLog(f, l.self, a);
    var ok := Fitting(f.log, a);
    ForLast(f.sent, Packet(l.self, AppendResp(l.term, ok, if ok then a.prevIndex + |a.entries| else 0)));
  }

  lemma AppendLog(n: Node, src: Id, m: Msg)
    requires m.Append? && m.term >= n.term
    ensures var r := Recv(n, src, m);
      && r.self == n.self
      && r.log == if Fitting(n.log, m) then PlaceEntries(n.log, m.prevIndex + 1, m.entries) else n.log
  {
    hide PlaceEntries, Commands;
  }

  lemma RoundIs(l: Node, f: Node, k: nat)
    requires Paired(l, f, k)
    ensures var a := AppendTo(l, l.members[k]);
      var ok, f1 := Fitting(f.log, a), Recv(f, l.self, a);
      var b := AppendResp(l.term, ok, if ok then a.prevIndex + |a.entries| else 0);
      Round(l, f) == (Recv(Tick(l, l.now + l.cfg.heartbeat), f.self, b), f1)
  {
    assert k < |l.members| && AppendTo(l, l.members[k]).Append?;
    hide Tick, Recv, AppendTo, Paired, Fitting, For, PlaceEntries;
    HeartbeatFor(l, f, k);
    Heard(l, f, k);
  }

  lemma MemberFilled(l: Node, f: Node, k: nat)
    requires Paired(l, f, k) && Fitting(f.log, AppendTo(l, l.members[k]))
    ensures var a := AppendTo(l, l.members[k]);
      var f1, end := Recv(f, l.self, a), a.prevIndex + |a.entries|;
      && f1.self == f.self && f1.term == l.term && end <= |l.log| && TermsDecide(f1.log, l.log)
      && Agrees(f1.log, l.log, end) && Agrees(f1.log, l.log, l.members[k].matchIndex)
  {
    assert AppendTo(l, l.members[k]).Append?;
    hide Recv, PlaceEntries, Merged, Fitting, AppendTo, OwnLog, DistinctIds, Indexed, For, TermsDecide, Agrees;
    var a := AppendTo(l, l.members[k]);
    var f1, end := Recv(f, l.self, a), a.prevIndex + |a.entries|;
    Heard(l, f, k);
    Filled(l, f, k);
    MergedDecides(f.log, l.log, end, f1.log);
    MergedAgrees(f.log, l.log, end, f1.log, l.members[k].matchIndex);
  }

  lemma LeaderCounts(l: Node, f: Node, k: nat, end: nat)
    requires Paired(l, f, k)
    ensures var row := l.members[k];
      var l2 := Recv(Tick(l, l.now + l.cfg.heartbeat), f.self, AppendResp(l.term, true, end));
      var high := if end > row.matchIndex then end else row.matchIndex;
      && l2.members == l.members[k := row.(matchIndex := high, nextIndex := high + 1)]
      && l2.role == Leader && l2.log == l.log && l2.term == l.term && l2.self == l.self
  {
    HeartbeatFor(l, f, k);
    var l1 := Tick(l, l.now + l.cfg.heartbeat);
    hide Tick, AppendTo, TermsDecide, Agrees, Indexed;
    ReplyExact(l1, k, AppendResp(l.term, true, end));
    RecvSelf(l1, f.self, AppendResp(l.term, true, end));
    hide Recv, Settled, OwnLog;
  }

  lemma RecvSelf(n: Node, src: Id, m: Msg)
    requires m.AppendResp?
    ensures Recv(n, src, m).self == n.self
  {
  }

  lemma StillPaired(l: Node, f: Node, k: nat, l2: Node, f2: Node, high: nat)
    requires Paired(l, f, k) && f2.self == f.self && f2.term == l.term
    requires l2.role == Leader && l2.log == l.log && l2.term == l.term && l2.self == l.self
    requires l2.members == l.members[k := l.members[k].(matchIndex := high, nextIndex := high + 1)]
    requires TermsDecide(f2.log, l.log) && Agrees(f2.log, l.log, high)
    ensures Paired(l2, f2, k)
  {
    hide TermsDecide, Indexed;
  }

  lemma FitsRound(l: Node, f: Node, k: nat)
    requires Paired(l, f, k) && Fitting(f.log, AppendTo(l, l.members[k]))
    ensures var p := Round(l, f); k < |p.0.members| && Rounded(l, f, k, p.0, p.1)
  {
    hide Round, Tick, Recv, Fitting, TermsDecide, Agrees, Indexed, OwnLog, DistinctIds;
    var p, row := Round(l, f), l.members[k];
    var a := AppendTo(l, row);
    var end := a.prevIndex + |a.entries|;
    var high := if end > row.matchIndex then end else row.matchIndex;
    assert a.prevIndex == row.nextIndex - 1;
    assert Paired(p.0, p.1, k) && p.0.log == l.log && p.0.term == l.term && p.0.self == l.self
           && p.0.members == l.members[k := row.(matchIndex := high, nextIndex := high + 1)] by {
      hide AppendTo;
      RoundIs(l, f, k);
      MemberFilled(l, f, k);
      LeaderCounts(l, f, k, end);
      StillPaired(l, f, k, p.0, p.1, high);
    }
    hide AppendTo, Paired;
  }

  lemma MergedAgrees(g: Log, l: Log, k: nat, r: Log, x: nat)
    requires Merged(g, l, k, r) && Agrees(g, l, x)
    ensures Agrees(r, l, k) && Agrees(r, l, x)
  {
  }

  lemma RefusedRound(l: Node, f: Node, k: nat)
    requires Paired(l, f, k) && !Fitting(f.log, AppendTo(l, l.members[k]))
    ensures var p := Round(l, f); k < |p.0.members| && Rounded(l, f, k, p.0, p.1)
  {
    RoundIs(l, f, k);
    HeartbeatFor(l, f, k);
    Heard(l, f, k);
    ReplyExact(Tick(l, l.now + l.cfg.heartbeat), k, AppendResp(l.term, false, 0));
    assert l.members[k].nextIndex > 1 by { hide Round, Tick, Recv; }
    hide Round, Tick, Recv, Settled, IsAppend, TermsDecide, Agrees, Indexed, OwnLog, AppendTo, Fitting;
  }

  // ---- the whole exchange ----

  ghost function Rounds(l: Node, f: Node, r: nat): (Node, Node)
    decreases r
  {
    if r == 0 then (l, f) else var p := Round(l, f); Rounds(p.0, p.1, r - 1)
  }

  /** The member holds the whole log of the leader, and the leader knows it. */
  ghost predicate Repaired(l: Node, f: Node, k: nat) {
    k < |l.members| && l.members[k].matchIndex == |l.log| && l.log <= f.log
  }

  ghost function Distance(l: Node, f: Node, k: nat): nat
    requires Paired(l, f, k)
  {
    var next := l.members[k].nextIndex;
    if Fitting(f.log, AppendTo(l, l.members[k])) then |l.log| + 2 - next else |l.log| + 2 + next
  }

  lemma Nearer(l: Node, f: Node, k: nat)
    requires Paired(l, f, k)
    ensures var p := Round(l, f);
      && Paired(p.0, p.1, k) && p.0.log == l.log && p.0.term == l.term
      && (Repaired(p.0, p.1, k) || Distance(p.0, p.1, k) < Distance(l, f, k))
  {
    hide Round;
    var p, row := Round(l, f), l.members[k];
    if Fitting(f.log, AppendTo(l, row)) {
      FitsRound(l, f, k);
      var row2 := p.0.members[k];
      assert |AppendTo(l, row).entries| == 0 ==> row.nextIndex == |l.log| + 1;
      NextFits(p.0, p.1, k);
      if row2.matchIndex == |l.log| { assert p.1.log[..|l.log|] == l.log[..|l.log|] == l.log; }
    } else {
      RefusedRound(l, f, k);
    }
  }

  /** What a member is known to hold fits behind it. */
  lemma NextFits(l: Node, f: Node, k: nat)
    requires Paired(l, f, k) && l.members[k].nextIndex == l.members[k].matchIndex + 1
    ensures Fitting(f.log, AppendTo(l, l.members[k]))
  {
    var x := l.members[k].matchIndex;
    if x > 0 { AgreesAt(f.log, l.log, x, x - 1); }
  }

  /** Repair ends: within twice the length of the log and a few rounds the member holds it all. */
  lemma {:induction false} Converges(l: Node, f: Node, k: nat) returns (r: nat)
    requires Paired(l, f, k)
    ensures r <= Distance(l, f, k) <= 2 * |l.log| + 3
    ensures var p := Rounds(l, f, r); Repaired(p.0, p.1, k) && p.0.role == Leader && p.0.log == l.log
    decreases Distance(l, f, k)
  {
    hide Round, Fitting, AppendTo;
    var p := Round(l, f);
    Nearer(l, f, k);
    if Repaired(p.0, p.1, k) {
      r := 1;
      assert Rounds(p.0, p.1, 0) == p;
    } else {
      var q := Converges(p.0, p.1, k);
      r := q + 1;
    }
  }
}
