/** What one node keeps under any inputs at all: one vote per term, quiet PreVotes, eligible candidates. */
module RaftLocal {
  import opened RaftTypes
  import opened RaftStep
  import opened RaftHistory
  import opened RaftPreserve
  import opened RaftSafety
  import opened Bytes

  datatype Input = Clock(now: nat) | Client(data: seq<byte>) | Inbound(src: Id, msg: Msg)

  function Feed(n: Node, x: Input): Node {
    match x
    case Clock(now) => Tick(n, now)
    case Client(data) => Propose(n, data)
    case Inbound(src, msg) => Recv(n, src, msg)
  }

  function FeedAll(n: Node, xs: seq<Input>): Node
    decreases |xs|
  {
    if xs == [] then n else FeedAll(Feed(n, xs[0]), xs[1..])
  }

  // ---- one vote per term ----

  /** A packet that carries a vote of its sender: a granted real vote, or a real request (a vote for oneself). */
  predicate IsBallot(p: Packet) {
    || (p.msg.RequestVoteResp? && p.msg.granted && !p.msg.preVote)
    || (p.msg.RequestVote? && !p.msg.preVote)
  }

  function Choice(self: Id, p: Packet): Id
    requires IsBallot(p)
  {
    if p.msg.RequestVote? then self else p.dst
  }

  ghost predicate BallotOk(n: Node, p: Packet) {
    IsBallot(p) ==> p.msg.term < n.term || (p.msg.term == n.term && n.votedFor == Choice(n.self, p) != NO_NODE)
  }

  ghost predicate OneVotePerTerm(self: Id, sent: seq<Packet>) {
    forall j, k ::
      (0 <= j < |sent| && 0 <= k < |sent| && IsBallot(sent[j]) && IsBallot(sent[k])
       && sent[j].msg.term == sent[k].msg.term) ==>
        Choice(self, sent[j]) == Choice(self, sent[k])
  }

  ghost predicate VotesInv(n: Node) {
    n.self != NO_NODE && (forall k :: 0 <= k < |n.sent| ==> BallotOk(n, n.sent[k])) && OneVotePerTerm(n.self, n.sent)
  }

  /** A member with a real id asks for votes. */
  predicate FromMember(x: Input) {
    x.Inbound? && x.msg.RequestVote? ==> x.msg.candidate != NO_NODE
  }

  /** The term never falls, and within a term a vote once given is never changed. */
  ghost predicate VoteKept(n: Node, n': Node) {
    && n'.self == n.self
    && (n'.term > n.term || (n'.term == n.term && (n.votedFor != NO_NODE ==> n'.votedFor == n.votedFor)))
  }

  lemma VotesGrow(n: Node, n': Node, ps: seq<Packet>)
    requires VotesInv(n) && VoteKept(n, n') && n'.sent == n.sent + ps
    requires forall k :: 0 <= k < |ps| ==> BallotOk(n', ps[k])
    requires forall k :: 0 <= k < |ps| && IsBallot(ps[k]) ==> ps[k].msg.term == n'.term
    ensures VotesInv(n')
  {
    forall k | 0 <= k < |n'.sent| ensures BallotOk(n', n'.sent[k]) {
      if k < |n.sent| { assert BallotOk(n, n.sent[k]); }
    }
  }

  lemma {:induction false} AppendsNoBallots(n: Node, ms: seq<Member>)
    ensures forall k :: 0 <= k < |AppendsTo(n, ms)| ==> !IsBallot(AppendsTo(n, ms)[k])
  {
    if ms != [] { AppendsNoBallots(n, ms[..|ms| - 1]); }
  }

  lemma {:induction false} RequestsUniform(ms: seq<Member>, self: Id, m: Msg)
    ensures forall k :: 0 <= k < |ToVoters(ms, self, m)| ==> ToVoters(ms, self, m)[k].msg == m
  {
    if ms != [] { RequestsUniform(ms[..|ms| - 1], self, m); }
  }

  lemma LeaderVotes(n: Node)
    requires VotesInv(n)
    ensures VotesInv(BecomeLeader(n)) && VoteKept(n, BecomeLeader(n))
  {
    var n1 := TakeOffice(n);
    var n2 := if |n1.log| < MAX_LOG then LeaderAppend(n1, Noop, []) else n1;
    AppendsNoBallots(n2, n2.members);
    VotesGrow(n, BecomeLeader(n), AppendsTo(n2, n2.members));
  }

  lemma RoundVotes(n: Node)
    requires VotesInv(n)
    ensures var n' := BroadcastVote(OpenRealRound(n), false, n.term + 1); VotesInv(n') && VoteKept(n, n')
  {
    var n1 := OpenRealRound(n);
    var m := RequestVote(n1.term, false, n1.self, |n1.log|, LastTerm(n1.log));
    RequestsUniform(n1.members, n1.self, m);
    VotesGrow(n, BroadcastVote(n1, false, n1.term), ToVoters(n1.members, n1.self, m));
  }

  lemma ElectionVotes(n: Node)
    requires VotesInv(n)
    ensures VotesInv(StartElection(n)) && VoteKept(n, StartElection(n))
  {
    hide BecomeLeader;
    var n1 := StandForElection(n);
    var m := RequestVote(n1.term + 1, true, n1.self, |n1.log|, LastTerm(n1.log));
    RequestsUniform(n1.members, n1.self, m);
    if !EligibleVoter(n.members, n.self) {
      VotesGrow(n, StartElection(n), []);
    } else if CountIf(n1.members, IsVoter) == 1 {
      VotesGrow(n, OpenRealRound(n1), []);
      LeaderVotes(OpenRealRound(n1));
    } else {
      VotesGrow(n, StartElection(n), ToVoters(n1.members, n1.self, m));
    }
  }

  lemma TickVotes(n: Node, now: nat)
    requires VotesInv(n)
    ensures VotesInv(Tick(n, now)) && VoteKept(n, Tick(n, now))
  {
    hide StartElection;
    var n1 := AdvanceClock(n, now);
    VotesGrow(n, n1, []);
    if n.role == Leader {
      var n3 := n1.(electionElapsed := 0, heartbeatElapsed := 0);
      AppendsNoBallots(n3, n3.members);
      VotesGrow(n, Tick(n, now), if Tick(n, now).sent == n.sent then [] else AppendsTo(n3, n3.members));
    } else if n1.electionElapsed >= ElectionTimeout(n1) {
      ElectionVotes(n1);
      VotesGrow(StartElection(n1), Tick(n, now), []);
    } else {
      VotesGrow(n, Tick(n, now), []);
    }
  }

  lemma RequestVotes(n: Node, m: Msg)
    requires VotesInv(n) && m.RequestVote? && m.candidate != NO_NODE
    ensures VotesInv(HandleRequestVote(n, m)) && VoteKept(n, HandleRequestVote(n, m))
  {
    var n' := HandleRequestVote(n, m);
    VotesGrow(n, n', [n'.sent[|n.sent|]]);
  }

  lemma RespVotes(n: Node, m: Msg)
    requires VotesInv(n) && m.RequestVoteResp?
    ensures VotesInv(HandleRequestVoteResp(n, m)) && VoteKept(n, HandleRequestVoteResp(n, m))
  {
    hide BecomeLeader;
    LeaderVotes(n);
    RoundVotes(n);
    VotesGrow(n, BecomeFollower(n, m.term, NO_NODE), []);
  }

  lemma AppendVotes(n: Node, m: Msg)
    requires VotesInv(n) && m.Append?
    ensures VotesInv(HandleAppend(n, m)) && VoteKept(n, HandleAppend(n, m))
  {
    var n' := HandleAppend(n, m);
    VotesGrow(n, n', [n'.sent[|n.sent|]]);
  }

  lemma AppendRespVotes(n: Node, src: Id, m: Msg)
    requires VotesInv(n) && m.AppendResp?
    ensures VotesInv(HandleAppendResp(n, src, m)) && VoteKept(n, HandleAppendResp(n, src, m))
  {
    var n' := HandleAppendResp(n, src, m);
    VotesGrow(n, n', if n'.sent == n.sent then [] else [n'.sent[|n.sent|]]);
  }

  lemma ProposeVotes(n: Node, data: seq<byte>)
    requires VotesInv(n)
    ensures VotesInv(Propose(n, data)) && VoteKept(n, Propose(n, data))
  {
    var n1 := LeaderAppend(n, Normal, data);
    AppendsNoBallots(n1, n1.members);
    VotesGrow(n, Propose(n, data), if CanPropose(n, data) then AppendsTo(n1, n1.members) else []);
  }

  lemma FeedVotes(n: Node, x: Input)
    requires VotesInv(n) && FromMember(x)
    ensures VotesInv(Feed(n, x)) && VoteKept(n, Feed(n, x))
  {
    match x
    case Clock(now) => TickVotes(n, now);
    case Client(data) => ProposeVotes(n, data);
    case Inbound(src, m) =>
      match m
      case RequestVote(_, _, _, _, _) => RequestVotes(n, m);
      case RequestVoteResp(_, _, granted) =>
        var n1 := if granted then n.(members := GrantVote(n.members, src)) else n;
        VotesGrow(n, n1, []);
        RespVotes(n1, m);
      case Append(_, _, _, _, _, _) => AppendVotes(n, m);
      case AppendResp(_, _, _) => AppendRespVotes(n, src, m);
  }

  /** Every node votes for at most one candidate per term, itself included, whatever it is fed. */
  lemma {:induction false} VotesOnce(n: Node, xs: seq<Input>)
    requires VotesInv(n) && forall x :: x in xs ==> FromMember(x)
    ensures VotesInv(FeedAll(n, xs)) && FeedAll(n, xs).term >= n.term
    ensures FeedAll(n, xs).term == n.term && n.votedFor != NO_NODE ==> FeedAll(n, xs).votedFor == n.votedFor
    decreases |xs|
  {
    hide Feed, VotesInv, OneVotePerTerm;
    if xs != [] {
      FeedVotes(n, xs[0]);
      VotesOnce(Feed(n, xs[0]), xs[1..]);
    }
  }

  // ---- PreVote ----

  /** Clock ticks, PreVote requests and PreVote refusals. */
  predicate Harmless(x: Input) {
    match x
    case Clock(_) => true
    case Client(_) => false
    case Inbound(_, m) =>
      || (m.RequestVote? && m.preVote)
      || (m.RequestVoteResp? && m.preVote && !m.granted)
  }

  ghost predicate SameStanding(n: Node, n': Node) {
    n'.term == n.term && n'.votedFor == n.votedFor && n'.log == n.log && n'.commit == n.commit
  }

  lemma {:induction false} SameCount(ms: seq<Member>, ms': seq<Member>)
    requires |ms| == |ms'| && forall k :: 0 <= k < |ms| ==> ms'[k].role == ms[k].role
    ensures CountIf(ms', IsVoter) == CountIf(ms, IsVoter)
  {
    if ms != [] { SameCount(ms[..|ms| - 1], ms'[..|ms'| - 1]); }
  }

  lemma HarmlessFeed(n: Node, x: Input)
    requires Harmless(x) && CountIf(n.members, IsVoter) >= 2
    ensures SameStanding(n, Feed(n, x)) && CountIf(Feed(n, x).members, IsVoter) >= 2
  {
    if x.Clock? {
      var n1 := StandForElection(AdvanceClock(n, x.now));
      SameCount(n.members, n1.members);
    }
  }

  /** With two or more voters no number of timeouts, PreVote requests and refusals moves a node's term,
      vote or log: a member that cannot win an election disturbs no one. */
  lemma {:induction false} PreVoteHarmless(n: Node, xs: seq<Input>)
    requires CountIf(n.members, IsVoter) >= 2 && forall x :: x in xs ==> Harmless(x)
    ensures SameStanding(n, FeedAll(n, xs))
    decreases |xs|
  {
    hide Feed;
    if xs != [] {
      HarmlessFeed(n, xs[0]);
      PreVoteHarmless(Feed(n, xs[0]), xs[1..]);
    }
  }

  /** The two-voter bound is exact: with one voter, itself eligible, a timeout alone moves the term. */
  lemma SoleVoterMoves(n: Node, now: nat)
    requires n.role != Leader && EligibleVoter(n.members, n.self) && CountIf(n.members, IsVoter) == 1
    requires var n1 := AdvanceClock(n, now); n1.electionElapsed >= ElectionTimeout(n1)
    ensures Tick(n, now).term == n.term + 1 && Tick(n, now).role == Leader
  {
    SameCount(n.members, StandForElection(AdvanceClock(n, now)).members);
  }

  /** The node leads after each of the inputs. */
  predicate LeadsThrough(n: Node, xs: seq<Input>)
    decreases |xs|
  {
    n.role == Leader && (xs == [] || LeadsThrough(Feed(n, xs[0]), xs[1..]))
  }

  lemma LeaderStaysFresh(n: Node, x: Input)
    requires n.role == Leader && n.electionElapsed == 0 && Feed(n, x).role == Leader
    ensures Feed(n, x).electionElapsed == 0 && Feed(n, x).cfg == n.cfg
  {
  }

  lemma {:induction false} LeaderNeverTimesOut(n: Node, xs: seq<Input>)
    requires LeadsThrough(n, xs) && n.electionElapsed == 0
    ensures FeedAll(n, xs).role == Leader && FeedAll(n, xs).electionElapsed == 0 && FeedAll(n, xs).cfg == n.cfg
    decreases |xs|
  {
    hide Feed;
    if xs != [] {
      LeaderStaysFresh(n, xs[0]);
      LeaderNeverTimesOut(Feed(n, xs[0]), xs[1..]);
    }
  }

  /** From its first tick on, a leader grants no PreVote for as long as it leads. */
  lemma LeaderGrantsNoPreVote(n: Node, now: nat, xs: seq<Input>, m: Msg)
    requires n.role == Leader && n.cfg.electionBase > 0 && LeadsThrough(Tick(n, now), xs)
    requires m.RequestVote? && m.preVote
    ensures var l := FeedAll(Tick(n, now), xs);
      HandleRequestVote(l, m).sent == l.sent + [Packet(m.candidate, RequestVoteResp(l.term, true, false))]
  {
    hide LeadsThrough;
    LeaderNeverTimesOut(Tick(n, now), xs);
  }

  // ---- eligibility ----

  ghost predicate OnlyEligible(n: Node) {
    n.role != Follower ==> EligibleVoter(n.members, n.self)
  }

  /** Same ids, classes and eligibility, row by row. */
  ghost predicate SameTable(ms: seq<Member>, ms': seq<Member>) {
    |ms| == |ms'| && forall k :: 0 <= k < |ms| ==>
      ms'[k].id == ms[k].id && ms'[k].role == ms[k].role && ms'[k].eligible == ms[k].eligible
  }

  lemma EligibleKept(ms: seq<Member>, ms': seq<Member>, id: Id)
    requires SameTable(ms, ms')
    ensures EligibleVoter(ms', id) == EligibleVoter(ms, id)
  {
    var j, k := Find(ms, id), Find(ms', id);
    assert j == k;
  }

  ghost predicate EligibleStep(n: Node, n': Node) {
    && SameTable(n.members, n'.members) && n'.self == n.self
    && (n'.role != Follower && n.role == Follower ==> EligibleVoter(n.members, n.self))
  }

  lemma LeaderTable(n: Node)
    ensures SameTable(n.members, BecomeLeader(n).members) && BecomeLeader(n).self == n.self
  {
  }

  lemma ElectionEligible(n: Node)
    ensures EligibleStep(n, StartElection(n))
  {
    hide BecomeLeader, Find, EligibleVoter;
    LeaderTable(OpenRealRound(StandForElection(n)));
  }

  lemma TickEligible(n: Node, now: nat)
    ensures EligibleStep(n, Tick(n, now))
  {
    hide StartElection, EligibleVoter;
    ElectionEligible(AdvanceClock(n, now));
  }

  lemma RecvEligible(n: Node, src: Id, m: Msg)
    ensures EligibleStep(n, Recv(n, src, m))
  {
    hide BecomeLeader, PlaceEntries, EligibleVoter, HandleAppendResp;
    match m
    case RequestVote(_, _, _, _, _) =>
    case RequestVoteResp(_, _, granted) =>
      LeaderTable(if granted then n.(members := GrantVote(n.members, src)) else n);
    case Append(_, _, _, _, _, _) =>
    case AppendResp(_, _, _) => ReplyEligible(n, src, m);
  }

  lemma ReplyEligible(n: Node, src: Id, m: Msg)
    requires m.AppendResp?
    ensures EligibleStep(n, HandleAppendResp(n, src, m))
  {
    hide CommitScan, EligibleVoter;
  }

  lemma ProposeEligible(n: Node, data: seq<byte>)
    ensures EligibleStep(n, Propose(n, data))
  {
  }

  lemma FeedEligible(n: Node, x: Input)
    requires OnlyEligible(n)
    ensures OnlyEligible(Feed(n, x)) && SameTable(n.members, Feed(n, x).members) && Feed(n, x).self == n.self
  {
    hide Tick, Recv, Propose;
    match x
    case Clock(now) => TickEligible(n, now);
    case Client(data) => ProposeEligible(n, data);
    case Inbound(src, m) => RecvEligible(n, src, m);
    EligibleKept(n.members, Feed(n, x).members, n.self);
  }

  /** Only an eligible voter is ever candidate or leader, whatever the node is fed. */
  lemma {:induction false} CandidatesEligible(n: Node, xs: seq<Input>)
    requires OnlyEligible(n)
    ensures OnlyEligible(FeedAll(n, xs)) && SameTable(n.members, FeedAll(n, xs).members)
    ensures FeedAll(n, xs).self == n.self
    decreases |xs|
  {
    hide Feed;
    if xs != [] {
      FeedEligible(n, xs[0]);
      CandidatesEligible(Feed(n, xs[0]), xs[1..]);
    }
  }

  // ---- the commit rule of a leader ----

  /** `k` is an index of the current term that a quorum of voters is known to hold. */
  ghost predicate Committable(n: Node, k: nat) {
    n.commit < k <= |n.log| && TermAt(n.log, k) == n.term && CountIf(n.members, HoldsUpTo(k)) >= Quorum(n.members)
  }

  lemma {:induction false} ScanGreatest(n: Node, idx: nat, k: nat)
    requires idx <= |n.log| && Sorted(n.log) && forall j :: 0 <= j < |n.log| ==> n.log[j].term <= n.term
    requires Committable(n, k) && k <= idx
    ensures k <= CommitScan(n, idx)
  {
    assert n.log[k - 1].term <= n.log[idx - 1].term;
    if CountIf(n.members, HoldsUpTo(idx)) < Quorum(n.members) { ScanGreatest(n, idx - 1, k); }
  }

  /** A leader advances to the greatest committable index, and stays put exactly when there is none. */
  lemma CommitRule(n: Node)
    requires Sorted(n.log) && forall j :: 0 <= j < |n.log| ==> n.log[j].term <= n.term
    ensures var k := AdvanceCommit(n).commit;
      && (k == n.commit || Committable(n, k))
      && forall x: nat :: Committable(n, x) ==> x <= k
  {
    CommitScanSound(n, |n.log|);
    forall x: nat | Committable(n, x) ensures x <= CommitScan(n, |n.log|) { ScanGreatest(n, |n.log|, x); }
  }
}
