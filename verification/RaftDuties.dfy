/** What a node owes the others: the messages each step sends, said in their fields, and what no step leaves undone. */
module RaftDuties {
  import opened RaftTypes
  import opened RaftStep
  import opened RaftHistory
  import opened RaftInvariant
  import opened RaftMerge
  import opened RaftPreserve
  import opened RaftSystem
  import opened RaftSafety
  import opened RaftTheorems
  import opened RaftLocal
  import opened Bytes

  // ---- what is sent to whom ----

  /** The rows of the table that `p` selects, in order. */
  function Rows(ms: seq<Member>, p: Member -> bool): seq<Member> {
    if ms == [] then []
    else Rows(ms[..|ms| - 1], p) + (if p(ms[|ms| - 1]) then [ms[|ms| - 1]] else [])
  }

  function Others(self: Id): Member -> bool { (m: Member) => m.id != self }

  function OtherVoters(self: Id): Member -> bool { (m: Member) => m.id != self && m.role == Voter }

  /** The append that is due to a member: the entry before its next one, then up to eight entries from there. */
  ghost predicate IsAppend(n: Node, m: Member, p: Packet) {
    && p.dst == m.id
    && p.msg.Append? && p.msg.term == n.term && p.msg.leader == n.self && p.msg.leaderCommit == n.commit
    && p.msg.prevIndex == m.nextIndex - 1
    && p.msg.prevTerm == (if 0 < p.msg.prevIndex <= |n.log| then n.log[p.msg.prevIndex - 1].term else 0)
    && |p.msg.entries| == (if m.nextIndex + 7 <= |n.log| then 8
                           else if m.nextIndex <= |n.log| then |n.log| + 1 - m.nextIndex
                           else 0)
    && forall k :: 0 <= k < |p.msg.entries| ==> p.msg.entries[k] == n.log[m.nextIndex - 1 + k]
  }

  /** One append to every other member, in table order. */
  ghost predicate AppendEach(n: Node, ps: seq<Packet>) {
    var rows := Rows(n.members, Others(n.self));
    |ps| == |rows| && forall k :: 0 <= k < |ps| ==> IsAppend(n, rows[k], ps[k])
  }

  /** One request for a vote to every other voter, in table order. */
  ghost predicate AskEach(n: Node, term: nat, pre: bool, ps: seq<Packet>) {
    var rows := Rows(n.members, OtherVoters(n.self));
    && |ps| == |rows|
    && forall k :: 0 <= k < |ps| ==>
         ps[k] == Packet(rows[k].id, RequestVote(term, pre, n.self, |n.log|, LastTerm(n.log)))
  }

  lemma AppendToIs(n: Node, m: Member)
    ensures IsAppend(n, m, Packet(m.id, AppendTo(n, m)))
  {
  }

  lemma {:induction false} AppendsAre(n: Node, ms: seq<Member>)
    ensures var rows, ps := Rows(ms, Others(n.self)), AppendsTo(n, ms);
      |ps| == |rows| && forall k :: 0 <= k < |ps| ==> IsAppend(n, rows[k], ps[k])
  {
    hide AppendTo, IsAppend;
    if ms != [] {
      AppendsAre(n, ms[..|ms| - 1]);
      AppendToIs(n, ms[|ms| - 1]);
    }
  }

  lemma {:induction false} AsksAre(ms: seq<Member>, self: Id, m: Msg)
    ensures var rows, ps := Rows(ms, OtherVoters(self)), ToVoters(ms, self, m);
      |ps| == |rows| && forall k :: 0 <= k < |ps| ==> ps[k] == Packet(rows[k].id, m)
  {
    if ms != [] { AsksAre(ms[..|ms| - 1], self, m); }
  }

  /** The packets a step adds. */
  ghost function Added(n: Node, r: Node): seq<Packet>
    requires n.sent <= r.sent
  {
    r.sent[|n.sent|..]
  }

  // ---- a leader's clock ----

  /** A leader's tick: once the heartbeat interval has passed it sends one append to every other member, and nothing
      before; nothing else of the node changes but its clocks. */
  lemma HeartbeatExact(n: Node, now: nat)
    requires n.role == Leader
    ensures var r := Tick(n, now);
      var waited := n.heartbeatElapsed + (if now > n.now then now - n.now else 0);
      && n.sent <= r.sent
      && r == n.(now := now, electionElapsed := 0, heartbeatElapsed := r.heartbeatElapsed, sent := r.sent)
      && (if waited >= n.cfg.heartbeat then r.heartbeatElapsed == 0 && AppendEach(n, Added(n, r))
          else r.heartbeatElapsed == waited && Added(n, r) == [])
  {
    var n2 := AdvanceClock(n, now).(electionElapsed := 0, heartbeatElapsed := 0);
    AppendsAre(n2, n2.members);
    hide AppendsTo;
    assert (n.sent + AppendsTo(n2, n2.members))[|n.sent|..] == AppendsTo(n2, n2.members);
  }

  // ---- a leader's commit index ----

  /** The voters of a table, and those known to hold the log up to `k`. */
  ghost function VotersOf(ms: seq<Member>): set<Id> {
    set x | 0 <= x < |ms| && ms[x].role == Voter :: ms[x].id
  }

  ghost function HoldersOf(ms: seq<Member>, k: nat): set<Id> {
    set x | 0 <= x < |ms| && ms[x].role == Voter && ms[x].matchIndex >= k :: ms[x].id
  }

  /** An entry of the current term above the commit index that more than half of the voters hold. */
  ghost predicate Ripe(n: Node, k: nat) {
    && n.commit < k <= |n.log| && n.log[k - 1].term == n.term
    && 2 * |HoldersOf(n.members, k)| > |VotersOf(n.members)|
  }

  /** Nothing that could be committed is left uncommitted. */
  ghost predicate Settled(n: Node) { forall k: nat :: !Ripe(n, k) }

  lemma RipeIs(n: Node, k: nat)
    requires DistinctIds(n.members)
    ensures Ripe(n, k) <==> Committable(n, k)
  {
    CountIsSize(n.members, IsVoter);
    CountIsSize(n.members, HoldsUpTo(k));
    assert VotersOf(n.members) == IdsIf(n.members, IsVoter);
    assert HoldersOf(n.members, k) == IdsIf(n.members, HoldsUpTo(k));
  }

  ghost predicate OwnLog(n: Node) {
    Sorted(n.log) && forall j :: 0 <= j < |n.log| ==> n.log[j].term <= n.term
  }

  lemma CommittableBefore(n: Node, r: Node, k: nat)
    requires r.log == n.log && r.members == n.members && r.term == n.term && n.commit <= r.commit
    ensures Committable(r, k) ==> Committable(n, k)
  {
  }

  /** Advancing takes the commit index to the greatest ripe entry, or leaves it when there is none. */
  lemma AdvanceSettles(n: Node)
    requires DistinctIds(n.members) && OwnLog(n)
    ensures var r := AdvanceCommit(n);
      && Settled(r) && (r.commit == n.commit || Ripe(n, r.commit))
      && r == n.(commit := r.commit, lastApplied := r.lastApplied, applied := r.applied)
  {
    CommitRule(n);
    var r := AdvanceCommit(n);
    hide CommitScan;
    RipeIs(n, r.commit);
    forall k: nat ensures !Ripe(r, k) {
      RipeIs(r, k);
      CommittableBefore(n, r, k);
    }
  }

  /** A command is taken by a leader with room for it: appended, sent to every other member, and the commit index
      moves as far as it can, so that a sole voter commits at once.  Otherwise nothing happens. */
  lemma ProposeExact(n: Node, data: seq<byte>)
    requires DistinctIds(n.members) && OwnLog(n)
    ensures var r := Propose(n, data);
      if n.role != Leader || |data| > ENTRY_MAX || |n.log| >= MAX_LOG then r == n
      else
        && r.log == n.log + [Entry(n.term, |n.log| + 1, Normal, data)]
        && n.sent <= r.sent && AppendEach(n.(log := r.log), Added(n, r))
        && Settled(r) && n.commit <= r.commit
  {
    if CanPropose(n, data) {
      var n1 := LeaderAppend(n, Normal, data);
      var n2 := BroadcastAppend(n1);
      AppendsAre(n1, n1.members);
      SameRowsSame(n.(log := n1.log), n1);
      hide AppendsTo, CommitScan;
      assert (n.sent + AppendsTo(n1, n1.members))[|n.sent|..] == AppendsTo(n1, n1.members);
      AdvanceSettles(n2);
    }
  }

  /** Appends depend on the table only through ids and next indexes. */
  lemma SameRowsSame(n: Node, n': Node)
    requires n'.self == n.self && n'.log == n.log && n'.term == n.term && n'.commit == n.commit
    requires |n'.members| == |n.members|
    requires forall k :: 0 <= k < |n.members| ==>
      n'.members[k].id == n.members[k].id && n'.members[k].nextIndex == n.members[k].nextIndex
    ensures forall ps :: AppendEach(n', ps) ==> AppendEach(n, ps)
  {
    RowsAlike(n.members, n'.members, n.self);
    forall ps | AppendEach(n', ps) ensures AppendEach(n, ps) {
      var rows, rows' := Rows(n.members, Others(n.self)), Rows(n'.members, Others(n.self));
      forall k | 0 <= k < |ps| ensures IsAppend(n, rows[k], ps[k]) { assert IsAppend(n', rows'[k], ps[k]); }
    }
  }

  lemma {:induction false} RowsAlike(ms: seq<Member>, ms': seq<Member>, self: Id)
    requires |ms'| == |ms|
    requires forall k :: 0 <= k < |ms| ==> ms'[k].id == ms[k].id && ms'[k].nextIndex == ms[k].nextIndex
    ensures var rows, rows' := Rows(ms, Others(self)), Rows(ms', Others(self));
      && |rows'| == |rows|
      && forall k :: 0 <= k < |rows| ==> rows'[k].id == rows[k].id && rows'[k].nextIndex == rows[k].nextIndex
  {
    if ms != [] { RowsAlike(ms[..|ms| - 1], ms'[..|ms| - 1], self); }
  }

  // ---- elections ----

  predicate UpToDateWith(log: Log, m: Msg)
    requires m.RequestVote?
  {
    m.lastTerm > LastTerm(log) || (m.lastTerm == LastTerm(log) && m.lastIndex >= |log|)
  }

  /** The answer to a request for a vote: exactly one, to the candidate.  A vote is granted exactly when the term is
      new, or is the node's own and its vote is free or the candidate's, and the candidate's log is up to date. */
  lemma VoteExact(n: Node, src: Id, m: Msg)
    requires m.RequestVote? && !m.preVote
    ensures var r := Recv(n, src, m);
      var free := m.term > n.term || (m.term == n.term && (n.votedFor == NO_NODE || n.votedFor == m.candidate));
      var granted := free && UpToDateWith(n.log, m);
      && r.term == (if m.term > n.term then m.term else n.term)
      && r.sent == n.sent + [Packet(m.candidate, RequestVoteResp(r.term, false, granted))]
      && r.votedFor == (if granted then m.candidate else if m.term > n.term then NO_NODE else n.votedFor)
      && r.role == (if m.term > n.term then Follower else n.role)
      && (granted ==> r.electionElapsed == 0)
  {
  }

  /** The answer to a request for a pre-vote changes nothing else.  It is granted exactly when the term is beyond the
      node's, the log is up to date and the node has heard of no leader for the base timeout. */
  lemma PreVoteExact(n: Node, src: Id, m: Msg)
    requires m.RequestVote? && m.preVote
    ensures var r := Recv(n, src, m);
      var granted := m.term > n.term && UpToDateWith(n.log, m) && n.electionElapsed >= n.cfg.electionBase;
      r == n.(sent := n.sent + [Packet(m.candidate, RequestVoteResp(n.term, true, granted))])
  {
  }

  /** The member's own row makes it an eligible voter. */
  ghost predicate MayStand(n: Node) {
    exists k :: 0 <= k < |n.members| && n.members[k].id == n.self && n.members[k].role == Voter && n.members[k].eligible
  }

  lemma MayStandIs(n: Node)
    requires DistinctIds(n.members)
    ensures MayStand(n) <==> EligibleVoter(n.members, n.self)
  {
    if MayStand(n) {
      var k :| 0 <= k < |n.members| && n.members[k].id == n.self && n.members[k].role == Voter && n.members[k].eligible;
      assert Find(n.members, n.self) == k;
    }
  }

  /** The voters whose flag is set. */
  ghost function FlaggedOf(ms: seq<Member>): set<Id> {
    set x | 0 <= x < |ms| && ms[x].role == Voter && ms[x].voteGranted :: ms[x].id
  }

  lemma {:induction false} VoterRowsAlike(ms: seq<Member>, ms': seq<Member>, self: Id)
    requires SameTable(ms, ms')
    ensures var rows, rows' := Rows(ms, OtherVoters(self)), Rows(ms', OtherVoters(self));
      |rows'| == |rows| && forall k :: 0 <= k < |rows| ==> rows'[k].id == rows[k].id
  {
    if ms != [] { VoterRowsAlike(ms[..|ms| - 1], ms'[..|ms| - 1], self); }
  }

  lemma AsksKept(n: Node, n': Node, term: nat, pre: bool, ps: seq<Packet>)
    requires SameTable(n.members, n'.members) && n'.self == n.self && n'.log == n.log && AskEach(n', term, pre, ps)
    ensures AskEach(n, term, pre, ps)
  {
    VoterRowsAlike(n.members, n'.members, n.self);
  }

  /** The node runs for election: it waits a whole timeout without hearing of a leader, and may stand. */
  ghost predicate TimesOut(n: Node, now: nat) {
    n.electionElapsed + (if now > n.now then now - n.now else 0)
      >= (n.cfg.electionBase + n.self % (n.cfg.electionSpread + 1)) % 0x1_0000_0000
  }

  ghost predicate OnlyFlag(ms: seq<Member>, self: Id) {
    forall k :: 0 <= k < |ms| ==> (ms[k].voteGranted <==> ms[k].id == self)
  }

  ghost predicate Canvasses(n: Node, r: Node) {
    && r.role == Candidate && r.inPreVote && r.term == n.term && r.electionElapsed == 0
    && OnlyFlag(r.members, n.self)
    && n.sent <= r.sent && AskEach(n, n.term + 1, true, Added(n, r))
  }

  lemma VotersCounted(ms: seq<Member>)
    requires DistinctIds(ms)
    ensures |VotersOf(ms)| == CountIf(ms, IsVoter)
  {
    CountIsSize(ms, IsVoter);
    assert VotersOf(ms) == IdsIf(ms, IsVoter);
  }

  lemma StandSends(n: Node)
    requires DistinctIds(n.members)
    ensures var r := StartElection(n);
      if !MayStand(n) then r == n.(electionElapsed := 0)
      else if |VotersOf(n.members)| >= 2 then Canvasses(n, r)
      else r.role == Leader && r.term == n.term + 1
  {
    hide ToVoters, BecomeLeader, CountIf, VotersOf, MayStand, EligibleVoter, Rows;
    MayStandIs(n);
    VotersCounted(n.members);
    var n2 := StandForElection(n);
    SameCount(n.members, n2.members);
    if MayStand(n) {
      if |VotersOf(n.members)| >= 2 {
        CanvassAsks(n);
      } else {
        assert |VotersOf(n.members)| != 0 by { OneVoter(n); }
        LeadsAfter(OpenRealRound(n2));
      }
    }
  }

  lemma CanvassAsks(n: Node)
    ensures Canvasses(n, BroadcastVote(StandForElection(n).(inPreVote := true), true, n.term + 1))
  {
    hide ToVoters, Rows;
    var n2 := StandForElection(n);
    var m := RequestVote(n.term + 1, true, n.self, |n.log|, LastTerm(n.log));
    AsksAre(n2.members, n.self, m);
    var ps := ToVoters(n2.members, n.self, m);
    assert (n.sent + ps)[|n.sent|..] == ps;
    AsksKept(n, n2, n.term + 1, true, ps);
  }

  lemma OneVoter(n: Node)
    requires MayStand(n)
    ensures VotersOf(n.members) != {}
  {
    var k :| 0 <= k < |n.members| && n.members[k].id == n.self && n.members[k].role == Voter && n.members[k].eligible;
    assert n.self in VotersOf(n.members);
  }

  lemma LeadsAfter(n: Node)
    ensures BecomeLeader(n).role == Leader && BecomeLeader(n).term == n.term
  {
  }

  /** The tick of a node that does not lead: before its timeout it sends nothing and keeps its role; at the timeout one
      that may not stand only waits again; with other voters it becomes candidate of a pre-vote round, counting its own
      vote only, and asks every other voter about the next term. */
  lemma StandExact(n: Node, now: nat)
    requires n.role != Leader && DistinctIds(n.members)
    ensures var r := Tick(n, now);
      if !TimesOut(n, now) then r.sent == n.sent && r.role == n.role && r.term == n.term
      else if !MayStand(n) then r.sent == n.sent && r.role == n.role && r.term == n.term && r.electionElapsed == 0
      else if |VotersOf(n.members)| >= 2 then Canvasses(n, r)
      else r.role == Leader && r.term == n.term + 1
  {
    hide StartElection, VotersOf, Canvasses, MayStand, Commands;
    var n1 := AdvanceClock(n, now);
    StandSends(n1);
    SameStand(n, n1);
    CanvassSame(n, n1, StartElection(n1));
  }

  lemma SameStand(n: Node, n1: Node)
    requires n1.members == n.members && n1.self == n.self
    ensures MayStand(n1) == MayStand(n)
  {
  }

  /** Clocks, and applying what is committed, are no part of a canvass. */
  lemma CanvassSame(n: Node, n1: Node, r: Node)
    requires n1.members == n.members && n1.self == n.self && n1.log == n.log && n1.term == n.term && n1.sent == n.sent
    ensures Canvasses(n1, r) ==> Canvasses(n, ApplyCommitted(r))
  {
    hide Rows, Commands;
  }

  lemma FlaggedCounted(ms: seq<Member>)
    requires DistinctIds(ms)
    ensures |FlaggedOf(ms)| == CountIf(ms, IsGranter)
  {
    CountIsSize(ms, IsGranter);
    assert FlaggedOf(ms) == IdsIf(ms, IsGranter);
  }

  /** The candidate opens the real round: next term, its own vote, and a request to every other voter. */
  ghost predicate OpensRound(n: Node, r: Node) {
    && r.role == Candidate && !r.inPreVote && r.term == n.term + 1 && r.votedFor == n.self
    && OnlyFlag(r.members, n.self)
    && n.sent <= r.sent && AskEach(n, n.term + 1, false, Added(n, r))
  }

  /** The candidate takes office: a no-op behind its log when there is room, everybody's next entry behind the old log,
      and an append to every other member. */
  ghost predicate TakesOver(n: Node, r: Node) {
    && r.role == Leader && r.leader == n.self && r.term == n.term && r.commit == n.commit
    && r.log == n.log + (if |n.log| < MAX_LOG then [Entry(n.term, |n.log| + 1, Noop, [])] else [])
    && |r.members| == |n.members|
    && (forall k :: 0 <= k < |r.members| ==>
          && r.members[k].id == n.members[k].id && r.members[k].role == n.members[k].role
          && r.members[k].nextIndex == |n.log| + 1
          && r.members[k].matchIndex == if r.members[k].id == n.self then |r.log| else 0)
    && n.sent <= r.sent && AppendEach(r, Added(n, r))
  }

  lemma OpensRealRound(n: Node)
    ensures var n1 := OpenRealRound(n); OpensRound(n, BroadcastVote(n1, false, n1.term))
  {
    var n1 := OpenRealRound(n);
    var m := RequestVote(n1.term, false, n.self, |n.log|, LastTerm(n.log));
    AsksAre(n1.members, n.self, m);
    hide ToVoters;
    var ps := ToVoters(n1.members, n.self, m);
    assert (n.sent + ps)[|n.sent|..] == ps;
    AsksKept(n, n1, n1.term, false, ps);
  }

  lemma TakesOffice(n: Node)
    ensures TakesOver(n, BecomeLeader(n))
  {
    var n1 := TakeOffice(n);
    var n2 := if |n1.log| < MAX_LOG then LeaderAppend(n1, Noop, []) else n1;
    AppendsAre(n2, n2.members);
    hide AppendsTo;
    var ps, r := AppendsTo(n2, n2.members), BecomeLeader(n);
    assert (n.sent + ps)[|n.sent|..] == ps;
    SameRowsSame(r, n2);
    assert AppendEach(n2, ps);
  }

  /** A granted answer of the round's own kind counts the sender; once more than half of the voters are counted, a
      pre-vote round turns into the real one and the real one into office, and until then nothing is sent. */
  lemma RoundExact(n: Node, src: Id, m: Msg)
    requires n.role == Candidate && DistinctIds(n.members)
    requires m.RequestVoteResp? && m.granted && m.preVote == n.inPreVote && (m.preVote || m.term <= n.term)
    ensures var r, flagged := Recv(n, src, m), FlaggedOf(n.members) + (VotersOf(n.members) * {src});
      if 2 * |flagged| <= |VotersOf(n.members)| then
        r.sent == n.sent && r.role == Candidate && r.term == n.term && FlaggedOf(r.members) == flagged
      else if n.inPreVote then OpensRound(n, r)
      else TakesOver(n, r)
  {
    var n1 := n.(members := GrantVote(n.members, src));
    assert DistinctIds(n1.members) && SameTable(n.members, n1.members);
    FlagsAdd(n.members, src);
    hide GrantVote, FlaggedOf, VotersOf, OpensRound, TakesOver, HandleRequestVoteResp, DistinctIds, SameTable;
    SameRound(n, n1);
    TallyExact(n1, m);
  }

  lemma TallyExact(n: Node, m: Msg)
    requires n.role == Candidate && DistinctIds(n.members)
    requires m.RequestVoteResp? && m.granted && m.preVote == n.inPreVote && (m.preVote || m.term <= n.term)
    ensures var r := HandleRequestVoteResp(n, m);
      if 2 * |FlaggedOf(n.members)| <= |VotersOf(n.members)| then r == n
      else if n.inPreVote then OpensRound(n, r)
      else TakesOver(n, r)
  {
    FlaggedCounted(n.members);
    VotersCounted(n.members);
    OpensRealRound(n);
    TakesOffice(n);
    hide OpenRealRound, BroadcastVote, BecomeLeader, CountIf, FlaggedOf, VotersOf, OpensRound, TakesOver, DistinctIds;
  }

  lemma FlagsAdd(ms: seq<Member>, src: Id)
    ensures FlaggedOf(GrantVote(ms, src)) == FlaggedOf(ms) + (VotersOf(ms) * {src})
    ensures VotersOf(GrantVote(ms, src)) == VotersOf(ms)
  {
    var ms' := GrantVote(ms, src);
    forall id | id in VotersOf(ms) ensures id in VotersOf(ms') {
      var x :| 0 <= x < |ms| && ms[x].role == Voter && ms[x].id == id;
      assert ms'[x].id == id;
    }
    forall id | id in FlaggedOf(ms) ensures id in FlaggedOf(ms') {
      var x :| 0 <= x < |ms| && ms[x].role == Voter && ms[x].voteGranted && ms[x].id == id;
      assert ms'[x].id == id;
    }
    forall id | id in VotersOf(ms) && id == src ensures id in FlaggedOf(ms') {
      var x :| 0 <= x < |ms| && ms[x].role == Voter && ms[x].id == id;
      assert ms'[x].id == id;
    }
    forall id | id in FlaggedOf(ms') ensures id in FlaggedOf(ms) + (VotersOf(ms) * {src}) {
      var x :| 0 <= x < |ms'| && ms'[x].role == Voter && ms'[x].voteGranted && ms'[x].id == id;
      assert ms[x].id == id;
    }
    forall id | id in VotersOf(ms') ensures id in VotersOf(ms) {
      var x :| 0 <= x < |ms'| && ms'[x].role == Voter && ms'[x].id == id;
      assert ms[x].id == id;
    }
  }

  /** Flags do not matter for what a won round does. */
  lemma SameRound(n: Node, n1: Node)
    requires SameTable(n.members, n1.members) && n1 == n.(members := n1.members)
    ensures forall r :: OpensRound(n1, r) ==> OpensRound(n, r)
    ensures forall r :: TakesOver(n1, r) ==> TakesOver(n, r)
  {
    forall r | OpensRound(n1, r) ensures OpensRound(n, r) { AsksKept(n, n1, n.term + 1, false, Added(n, r)); }
  }

  // ---- later terms and idle replies ----

  /** A message of a later term, pre-votes aside, makes any node a follower of that term with a free vote, which only a
      request for it can take. */
  lemma LaterTermWins(n: Node, src: Id, m: Msg)
    requires m.term > n.term && !(m.RequestVote? && m.preVote) && !(m.RequestVoteResp? && m.preVote)
    ensures var r := Recv(n, src, m);
      && r.term == m.term && r.role == Follower && !r.inPreVote && r.electionElapsed == 0
      && (r.votedFor == NO_NODE || (m.RequestVote? && r.votedFor == m.candidate))
      && r.leader == (if m.Append? then m.leader else NO_NODE)
  {
    hide PlaceEntries, Commands, CountIf, BecomeLeader;
  }

  /** A reply that is of no use changes nothing but, if it grants, the sender's flag: a vote that is refused, of the
      other kind of round or not asked for any more, and an append reply to a node that does not lead or from a
      stranger. */
  lemma IdleReply(n: Node, src: Id, m: Msg)
    requires m.term <= n.term || (m.RequestVoteResp? && m.preVote)
    requires || (m.RequestVoteResp? && (!m.granted || n.role != Candidate || m.preVote != n.inPreVote))
             || (m.AppendResp? && (n.role != Leader || forall k :: 0 <= k < |n.members| ==> n.members[k].id != src))
    ensures var r := Recv(n, src, m);
      && r == n.(members := r.members) && |r.members| == |n.members|
      && forall k :: 0 <= k < |n.members| ==>
           r.members[k] == n.members[k].(voteGranted := n.members[k].voteGranted
                                                        || (m.RequestVoteResp? && m.granted && n.members[k].id == src))
  {
    hide CountIf, BecomeLeader, AdvanceCommit;
  }
}
