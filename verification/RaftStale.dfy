/** Why votes must be fresh: runs in which every reply but one is, and two nodes lead one term.  And how the commit
    rule of a follower compares with the paper's. */
module RaftStale {
  import opened Bytes
  import opened RaftTypes
  import opened RaftStep
  import opened RaftHistory
  import opened RaftInvariant
  import opened RaftSystem
  import opened RaftScenario

  // ---- the checks that are missing ----

  /** A vote of an older term is counted like one of this term. */
  lemma VoteTermIgnored(n: Node, src: Id, t: nat, g: bool)
    requires t <= n.term
    ensures Recv(n, src, RequestVoteResp(t, false, g)) == Recv(n, src, RequestVoteResp(n.term, false, g))
  {
  }

  /** A pre-vote granted late is counted in the real round. */
  lemma PreVoteCounted(n: Node, src: Id, t: nat)
    requires n.role == Candidate && !n.inPreVote
    ensures Recv(n, src, RequestVoteResp(t, true, true)) == n.(members := GrantVote(n.members, src))
  {
  }

  /** The commit rule of the paper: clip by the last entry the append has just checked. */
  function PaperCommit(commit: nat, checked: nat, leaderCommit: nat): nat {
    if leaderCommit > commit then (if leaderCommit < checked then leaderCommit else checked) else commit
  }

  /** A follower commits what the paper's rule would exactly when the append carries no news, or the leader's
      commit index, or the follower's log, does not reach past the entries the append has checked. */
  lemma ClipExact(n: Node, m: Msg)
    requires m.Append? && m.term >= n.term && PrevMatches(n.log, m)
    ensures var log := PlaceEntries(n.log, m.prevIndex + 1, m.entries);
      var sent := m.prevIndex + |m.entries|;
      var checked := if sent < |log| then sent else |log|;
      HandleAppend(n, m).commit == PaperCommit(n.commit, checked, m.leaderCommit) <==>
        m.leaderCommit <= n.commit || m.leaderCommit <= checked || |log| <= checked
  {
    hide PlaceEntries;
  }

  // ---- two leaders of one term ----

  ghost predicate TwoLeaders(s: System) {
    exists i, j :: i in s.nodes && j in s.nodes && i != j && s.nodes[i].role == Leader && s.nodes[j].role == Leader
                   && s.nodes[i].term == s.nodes[j].term
  }

  /** Delivering one reply that is not fresh, and going on with fresh ones, makes two leaders of one term. */
  ghost predicate Breaks(c: Cluster, s: System, e: Event, t: System) {
    Enabled(s, e) && !Fresh(s, e) && Reaches(c, Step(s, e), t) && TwoLeaders(t)
  }

  /** The delivery of a message that is on its way, fresh or not. */
  lemma Arrival(s: System, src: Id, dst: Id, m: Msg) returns (e: Event)
    requires src in s.nodes && dst in s.nodes && Packet(dst, m) in s.nodes[src].sent
    ensures Enabled(s, e) && (Fresh(s, e) <==> FreshFor(s.nodes[dst], m))
    ensures Becomes(s, Step(s, e), dst, Recv(s.nodes[dst], src, m))
  {
    hide Recv, FreshFor;
    var at :| 0 <= at < |s.nodes[src].sent| && s.nodes[src].sent[at] == Packet(dst, m);
    e := Delivers(src, at);
  }

  // ---- a vote of an older term ----

  const TRIO: Cluster := Voters(3, InSendOrder)

  const OLD_VOTE: Msg := RequestVoteResp(1, false, true)

  lemma TrioStarts()
    ensures var s := Start(3);
      && Init(TRIO, s) && 1 in s.nodes && 2 in s.nodes && 3 in s.nodes
      && Rests(s.nodes[1], 1, 3, 0, []) && Rests(s.nodes[2], 2, 3, 0, []) && Rests(s.nodes[3], 3, 3, 0, [])
  {
    Starts(3, InSendOrder);
  }

  /** Node 1 stands in term 1, nodes 2 and 3 vote for it, and node 2's vote stays on the way. */
  ghost predicate Tried(s: System) {
    && 1 in s.nodes && 2 in s.nodes && 3 in s.nodes
    && RealCand(s.nodes[1], 1, 3, 1, [], {1}) && Rests(s.nodes[2], 2, 3, 1, []) && Rests(s.nodes[3], 3, 3, 1, [])
    && Packet(1, OLD_VOTE) in s.nodes[2].sent
  }

  lemma FirstTry() returns (t: System)
    ensures Reaches(TRIO, Start(3), t) && Tried(t)
  {
    TrioStarts();
    hide Start, At, Flags, Reaches, Init;
    var s := Start(3);
    var s1 := Canvass(TRIO, s, 1, 3, 0, []);
    var s2 := PreOne(TRIO, s1, 1, 2, 3, 0, [], 0, []);
    var s3 := PreWon(TRIO, s2, 1, 2, 3, 0, [], {1}, 0);
    var s4 := VoteOne(TRIO, s3, 1, 2, 3, 1, [], 0, []);
    t := VoteOne(TRIO, s4, 1, 3, 3, 1, [], 0, []);
    hide ToAll;
    ReachesTrans(TRIO, s, s1, s2);
    ReachesTrans(TRIO, s, s2, s3);
    ReachesTrans(TRIO, s, s3, s4);
    ReachesTrans(TRIO, s, s4, t);
  }

  /** It stands again, in term 2, while node 2's old vote is still on the way. */
  ghost predicate TriedAgain(s: System) {
    && 1 in s.nodes && 2 in s.nodes && 3 in s.nodes
    && RealCand(s.nodes[1], 1, 3, 2, [], {1}) && Waits(s.nodes[2], 2, 3, 1, []) && Rests(s.nodes[3], 3, 3, 1, [])
    && Packet(1, OLD_VOTE) in s.nodes[2].sent
  }

  lemma SecondTry(s: System) returns (t: System)
    requires Tried(s)
    ensures Reaches(TRIO, s, t) && TriedAgain(t)
  {
    hide At, Flags, Reaches;
    var s1 := Canvass(TRIO, s, 1, 3, 1, []);
    var s2 := PreOne(TRIO, s1, 1, 2, 3, 1, [], 1, []);
    t := PreWon(TRIO, s2, 1, 2, 3, 1, [], {1}, 1);
    hide ToAll;
    ReachesTrans(TRIO, s, s1, s2);
    ReachesTrans(TRIO, s, s2, t);
  }

  /** Node 3 is elected in term 2 by node 2. */
  lemma OtherWins(s: System) returns (t: System)
    requires TriedAgain(s)
    ensures Reaches(TRIO, s, t) && 1 in t.nodes && 2 in t.nodes && 3 in t.nodes
    ensures RealCand(t.nodes[1], 1, 3, 2, [], {1}) && Packet(1, OLD_VOTE) in t.nodes[2].sent
    ensures t.nodes[3].role == Leader && t.nodes[3].term == 2
  {
    hide At, Flags, Reaches;
    var s1 := Canvass(TRIO, s, 3, 3, 1, []);
    var s2 := PreAgain(TRIO, s1, 3, 2, 3, 1, [], 1, []);
    var s3 := PreWon(TRIO, s2, 3, 2, 3, 1, [], {3}, 1);
    var s4 := VoteOne(TRIO, s3, 3, 2, 3, 2, [], 1, []);
    t := VotesWon(TRIO, s4, 3, 2, 3, 2, [], {3});
    var none: Log := [];
    LeadsTerm(t.nodes[3], 3, 3, 2, none + [NoopAt(2, none)], 1);
    hide ToAll, Leads;
    ReachesTrans(TRIO, s, s1, s2);
    ReachesTrans(TRIO, s, s2, s3);
    ReachesTrans(TRIO, s, s3, s4);
    ReachesTrans(TRIO, s, s4, t);
  }

  lemma LeadsTerm(x: Node, id: Id, n: nat, term: nat, log: Log, next: pos)
    ensures Leads(x, id, n, term, log, next) ==> x.role == Leader && x.term == term
  {
  }

  lemma OldVoteWins(x: Node)
    requires RealCand(x, 1, 3, 2, [], {1})
    ensures !FreshFor(x, OLD_VOTE) && Recv(x, 2, OLD_VOTE).role == Leader && Recv(x, 2, OLD_VOTE).term == 2
  {
    WinsOffice(x, 1, 3, 2, [], {1}, 2);
    VoteTermIgnored(x, 2, 1, true);
    hide Recv, Flags, Full;
  }

  /** Freshness of votes is needed: with three voters and a network that keeps the sending order, one vote of an older
      term makes two leaders of one term. */
  lemma StaleVoteTwoLeaders()
    ensures Init(TRIO, Start(3)) && exists s, e, t :: Reaches(TRIO, Start(3), s) && Breaks(TRIO, s, e, t)
  {
    TrioStarts();
    hide Reaches, Init, Start, RealCand, Recv, FreshFor;
    var s1 := FirstTry();
    var s2 := SecondTry(s1);
    ReachesTrans(TRIO, Start(3), s1, s2);
    var s := OtherWins(s2);
    ReachesTrans(TRIO, Start(3), s2, s);
    OldVoteWins(s.nodes[1]);
    var e := Arrival(s, 2, 1, OLD_VOTE);
    var t := Step(s, e);
    ReachesSelf(TRIO, t);
    assert t.nodes[1].role == Leader && t.nodes[3].role == Leader && t.nodes[1].term == t.nodes[3].term;
    assert Breaks(TRIO, s, e, t);
  }

  // ---- a pre-vote counted as a vote ----

  const FIVE: Cluster := Voters(5, InSendOrder)

  lemma FiveStarts()
    ensures var s := Start(5);
      && Init(FIVE, s) && (forall i :: 1 <= i <= 5 ==> i in s.nodes && Rests(s.nodes[i], i, 5, 0, []))
  {
    Starts(5, InSendOrder);
  }

  ghost predicate Has5(s: System) { forall i :: 1 <= i <= 5 ==> i in s.nodes }

  /** Node 1 stands for term 1 and all others grant it a pre-vote. */
  lemma AllGrant() returns (t: System)
    ensures Reaches(FIVE, Start(5), t) && Has5(t) && PreCand(t.nodes[1], 1, 5, 0, [], {1})
    ensures forall g :: 2 <= g <= 5 ==>
      Waits(t.nodes[g], g, 5, 0, []) && Packet(1, RequestVoteResp(0, true, true)) in t.nodes[g].sent
  {
    FiveStarts();
    hide Start, At, Flags, Reaches, Init;
    var s := Start(5);
    var s1 := Canvass(FIVE, s, 1, 5, 0, []);
    var s2 := PreOne(FIVE, s1, 1, 2, 5, 0, [], 0, []);
    var s3 := PreOne(FIVE, s2, 1, 3, 5, 0, [], 0, []);
    var s4 := PreOne(FIVE, s3, 1, 4, 5, 0, [], 0, []);
    t := PreOne(FIVE, s4, 1, 5, 5, 0, [], 0, []);
    hide ToAll;
    ReachesTrans(FIVE, s, s1, s2);
    ReachesTrans(FIVE, s, s2, s3);
    ReachesTrans(FIVE, s, s3, s4);
    ReachesTrans(FIVE, s, s4, t);
  }

  /** Node 1 opens term 1 and node 2 votes for it; the pre-votes of nodes 4 and 5 stay on the way. */
  ghost predicate Opened(s: System) {
    && Has5(s) && RealCand(s.nodes[1], 1, 5, 1, [], {1})
    && Packet(1, RequestVoteResp(1, false, true)) in s.nodes[2].sent
    && Waits(s.nodes[3], 3, 5, 0, []) && Waits(s.nodes[4], 4, 5, 0, []) && Waits(s.nodes[5], 5, 5, 0, [])
    && Packet(1, RequestVoteResp(0, true, true)) in s.nodes[4].sent
  }

  lemma OneOpens() returns (t: System)
    ensures Reaches(FIVE, Start(5), t) && Opened(t)
  {
    assert |{1} + {2}| == 2 && |{1} + {2} + {3}| == 3;
    hide Start, At, Flags, Reaches;
    var s1 := AllGrant();
    var s2 := PreHeard(FIVE, s1, 1, 2, 5, 0, [], {1}, 0);
    var s3 := PreWon(FIVE, s2, 1, 3, 5, 0, [], {1} + {2}, 0);
    t := VoteOne(FIVE, s3, 1, 2, 5, 1, [], 0, []);
    hide ToAll;
    ReachesTrans(FIVE, Start(5), s1, s2);
    ReachesTrans(FIVE, Start(5), s2, s3);
    ReachesTrans(FIVE, Start(5), s3, t);
  }

  /** Node 3 opens the same term. */
  lemma ThreeOpens(s: System) returns (t: System)
    requires Opened(s)
    ensures Reaches(FIVE, s, t) && Has5(t) && t.nodes[1] == s.nodes[1] && t.nodes[2] == s.nodes[2]
    ensures RealCand(t.nodes[3], 3, 5, 1, [], {3}) && ToAll(t.nodes[3], 3, 5, Ask(1, false, 3, []))
    ensures Waits(t.nodes[4], 4, 5, 0, []) && Waits(t.nodes[5], 5, 5, 0, [])
    ensures Packet(1, RequestVoteResp(0, true, true)) in t.nodes[4].sent
  {
    assert |{3} + {4}| == 2 && |{3} + {4} + {5}| == 3;
    hide At, Flags, Reaches;
    var s1 := Canvass(FIVE, s, 3, 5, 0, []);
    var s2 := PreAgain(FIVE, s1, 3, 4, 5, 0, [], 0, []);
    var s3 := PreAgain(FIVE, s2, 3, 5, 5, 0, [], 0, []);
    var s4 := PreHeard(FIVE, s3, 3, 4, 5, 0, [], {3}, 0);
    t := PreWon(FIVE, s4, 3, 5, 5, 0, [], {3} + {4}, 0);
    hide ToAll;
    ReachesTrans(FIVE, s, s1, s2);
    ReachesTrans(FIVE, s, s2, s3);
    ReachesTrans(FIVE, s, s3, s4);
    ReachesTrans(FIVE, s, s4, t);
  }

  /** Node 3 leads term 1 by the votes of nodes 4 and 5. */
  lemma ThreeWins(s: System) returns (t: System)
    requires Opened(s)
    ensures Reaches(FIVE, s, t) && Has5(t) && t.nodes[1] == s.nodes[1] && t.nodes[2] == s.nodes[2]
    ensures Packet(1, RequestVoteResp(0, true, true)) in t.nodes[4].sent
    ensures t.nodes[3].role == Leader && t.nodes[3].term == 1
  {
    hide Reaches, Flags, Full;
    var s1 := ThreeOpens(s);
    t := RealRound2(FIVE, s1, 3, 4, 5, 1, [], 0, [], 0, []);
    var none: Log := [];
    LeadsTerm(t.nodes[3], 3, 5, 1, none + [NoopAt(1, none)], 1);
    ReachesTrans(FIVE, s, s1, t);
  }

  lemma PreVoteFlags(x: Node)
    requires RealCand(x, 1, 5, 1, [], {1})
    ensures var m := RequestVoteResp(0, true, true); !FreshFor(x, m) && RealCand(Recv(x, 4, m), 1, 5, 1, [], {1, 4})
  {
    PreVoteCounted(x, 4, 0);
    FlagsGrant(x.members, 5, 4);
    assert {1} + {4} == {1, 4};
    hide Recv, Flags, GrantVote, Full;
  }

  /** Freshness of the kind of round is needed: with five voters and a network that keeps the sending order, one late
      pre-vote makes two leaders of one term. */
  lemma LatePreVoteTwoLeaders()
    ensures Init(FIVE, Start(5)) && exists s, e, t :: Reaches(FIVE, Start(5), s) && Breaks(FIVE, s, e, t)
  {
    FiveStarts();
    assert |{1, 4} + {2}| == 3;
    hide Reaches, Init, Start, RealCand, Waits, Recv, FreshFor;
    var s1 := OneOpens();
    var s := ThreeWins(s1);
    ReachesTrans(FIVE, Start(5), s1, s);
    PreVoteFlags(s.nodes[1]);
    var e := Arrival(s, 4, 1, RequestVoteResp(0, true, true));
    var s2 := Step(s, e);
    var t := VotesWon(FIVE, s2, 1, 2, 5, 1, [], {1, 4});
    var none: Log := [];
    LeadsTerm(t.nodes[1], 1, 5, 1, none + [NoopAt(1, none)], 1);
    assert t.nodes[1].role == Leader && t.nodes[3].role == Leader && t.nodes[1].term == t.nodes[3].term;
    assert Breaks(FIVE, s, e, t);
  }
}
