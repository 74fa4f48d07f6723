/** What runs of the core achieve, beside what they never do: repair from every reachable state, prompt commits,
    complete application, and followers that stay quiet while they hear their leader. */
module RaftProgress {
  import opened RaftTypes
  import opened RaftStep
  import opened RaftHistory
  import opened RaftInvariant
  import opened RaftMerge
  import opened RaftPreserve
  import opened RaftSystem
  import opened RaftSafety
  import opened RaftTheorems
  import opened RaftLocal
  import opened RaftDuties
  import opened RaftRepair
  import opened Bytes

  // ---- repair from every reachable state ----

  lemma RunPaired(c: Cluster, s: System, h: History, i: Id, j: Id, k: nat)
    requires SysInv(c, s, h) && i in s.nodes && j in s.nodes && i != j
    requires s.nodes[i].role == Leader && s.nodes[j].term <= s.nodes[i].term
    requires k < |s.nodes[i].members| && s.nodes[i].members[k].id == j
    ensures Paired(s.nodes[i], s.nodes[j], k)
  {
    var l, f := s.nodes[i], s.nodes[j];
    assert MemberInv(c, h, i, l) && MemberInv(c, h, j, f);
    hide SysInv, MemberInv, PacketsInv;
    WellLogIndexed(h, l.log, l.term);
    forall x | 0 <= x < |f.log| && x < |l.log| && f.log[x].term == l.log[x].term ensures Agrees(f.log, l.log, x + 1) {
      LogMatching(h, f.log, f.term, l.log, l.term, x);
    }
    assert ProgressInv(h, l, l.members[k]);
    MatchHeld(h, i, j, l, f, k);
  }

  lemma MatchHeld(h: History, i: Id, j: Id, l: Node, f: Node, k: nat)
    requires LeaderInv(h, i, l) && l.role == Leader && AckInv(h, j, f) && f.term <= l.term
    requires k < |l.members| && l.members[k].id == j && ProgressInv(h, l, l.members[k])
    ensures Agrees(f.log, l.log, l.members[k].matchIndex)
  {
    var x, key := l.members[k].matchIndex, Key(l.term, j);
    if key in h.acks {
      assert Retains(h, f.log, key.term, x, f.term);
    } else {
      assert x == 0;
    }
  }

  /** From every reachable state, a leader and a member that is not ahead of its term need only exchange heartbeats and
      replies for the member to end up with the whole log of the leader, and the leader to know it. */
  lemma RepairsInRuns(c: Cluster, s0: System, es: seq<Event>, i: Id, j: Id) returns (k: nat, r: nat)
    requires Init(c, s0) && RunOk(c, s0, es)
    requires var s := Run(c, s0, es);
      && i in s.nodes && j in s.nodes && i != j
      && s.nodes[i].role == Leader && s.nodes[j].term <= s.nodes[i].term
    ensures var s := Run(c, s0, es);
      var p := Rounds(s.nodes[i], s.nodes[j], r);
      && k < |s.nodes[i].members| && s.nodes[i].members[k].id == j
      && r <= 2 * |s.nodes[i].log| + 3
      && Repaired(p.0, p.1, k) && p.0.role == Leader && p.0.log == s.nodes[i].log
  {
    var s := Run(c, s0, es);
    InitInv(c, s0);
    var h := RunKeeps(c, s0, History(map[], map[], map[], map[]), es);
    k := RowOf(c, s, h, i, j);
    RunPaired(c, s, h, i, j, k);
    hide SysInv, Init, RunOk, Run, Paired, Rounds, Repaired;
    r := Converges(s.nodes[i], s.nodes[j], k);
  }

  lemma RowOf(c: Cluster, s: System, h: History, i: Id, j: Id) returns (k: nat)
    requires SysInv(c, s, h) && i in s.nodes && j in s.nodes
    ensures k < |s.nodes[i].members| && s.nodes[i].members[k].id == j
  {
    assert MemberInv(c, h, i, s.nodes[i]);
    assert j in Ids(s.nodes[i].members);
    k :| 0 <= k < |s.nodes[i].members| && s.nodes[i].members[k].id == j;
  }

  // ---- prompt commits ----

  /** With two or more voters, a leader has nothing ripe left uncommitted. */
  ghost predicate Prompt(n: Node) {
    n.role == Leader && |VotersOf(n.members)| >= 2 ==> Settled(n)
  }

  lemma NewLeaderPrompt(n: Node)
    requires DistinctIds(n.members)
    ensures Prompt(BecomeLeader(n))
  {
    TakesOffice(n);
    var r := BecomeLeader(n);
    hide BecomeLeader;
    if |VotersOf(r.members)| >= 2 {
      forall k: nat ensures !Ripe(r, k) {
        if k > 0 {
          assert HoldersOf(r.members, k) <= {n.self};
          SubsetSize(HoldersOf(r.members, k), {n.self});
        }
      }
    }
  }

  /** A table that changed nothing a commit depends on. */
  ghost predicate SameMatches(ms: seq<Member>, ms': seq<Member>) {
    |ms'| == |ms| && forall k :: 0 <= k < |ms| ==>
      ms'[k].id == ms[k].id && ms'[k].role == ms[k].role && ms'[k].matchIndex == ms[k].matchIndex
  }

  lemma StaysPrompt(n: Node, r: Node)
    requires Prompt(n) && n.role == Leader && SameMatches(n.members, r.members)
    requires r.log == n.log && r.term == n.term && r.commit == n.commit
    ensures Prompt(r)
  {
    SameSets(n.members, r.members);
    hide HoldersOf, VotersOf;
    if |VotersOf(n.members)| >= 2 {
      forall k: nat ensures !Ripe(r, k) { assert !Ripe(n, k); }
    }
  }

  lemma SameSets(ms: seq<Member>, ms': seq<Member>)
    requires SameMatches(ms, ms')
    ensures VotersOf(ms') == VotersOf(ms) && forall k :: HoldersOf(ms', k) == HoldersOf(ms, k)
  {
    forall k ensures HoldersOf(ms', k) == HoldersOf(ms, k) {
      forall id | id in HoldersOf(ms, k) ensures id in HoldersOf(ms', k) {
        var x :| 0 <= x < |ms| && ms[x].role == Voter && ms[x].matchIndex >= k && ms[x].id == id;
        assert ms'[x].id == id;
      }
      forall id | id in HoldersOf(ms', k) ensures id in HoldersOf(ms, k) {
        var x :| 0 <= x < |ms'| && ms'[x].role == Voter && ms'[x].matchIndex >= k && ms'[x].id == id;
        assert ms[x].id == id;
      }
    }
    forall id | id in VotersOf(ms) ensures id in VotersOf(ms') {
      var x :| 0 <= x < |ms| && ms[x].role == Voter && ms[x].id == id;
      assert ms'[x].id == id;
    }
    forall id | id in VotersOf(ms') ensures id in VotersOf(ms) {
      var x :| 0 <= x < |ms'| && ms'[x].role == Voter && ms'[x].id == id;
      assert ms[x].id == id;
    }
  }

  lemma TickPrompt(n: Node, now: nat)
    requires Prompt(n) && DistinctIds(n.members)
    ensures Prompt(Tick(n, now))
  {
    if n.role == Leader {
      HeartbeatExact(n, now);
      StaysPrompt(n, Tick(n, now));
    } else {
      var n1 := AdvanceClock(n, now);
      var n2 := OpenRealRound(StandForElection(n1));
      assert DistinctIds(n2.members);
      NewLeaderPrompt(n2);
      hide BecomeLeader, CountIf, EligibleVoter, Prompt;
      SamePrompt(BecomeLeader(n2));
      NotLeading(ApplyCommitted(n1));
      hide ApplyCommitted;
      TickIs(n, now);
    }
  }

  lemma NotLeading(n: Node)
    ensures n.role != Leader ==> Prompt(n)
  {
  }

  lemma SamePrompt(n: Node)
    requires Prompt(n)
    ensures Prompt(ApplyCommitted(n))
  {
    if n.role == Leader { StaysPrompt(n, ApplyCommitted(n)); }
  }

  /** A tick that makes a leader does so through an election won alone. */
  lemma TickIs(n: Node, now: nat)
    requires n.role != Leader
    ensures var n1 := AdvanceClock(n, now);
      || Tick(n, now).role != Leader
      || Tick(n, now) == ApplyCommitted(BecomeLeader(OpenRealRound(StandForElection(n1))))
  {
    hide BecomeLeader, CountIf, EligibleVoter;
  }

  lemma RecvPrompt(n: Node, src: Id, m: Msg)
    requires Prompt(n) && DistinctIds(n.members) && OwnLog(n)
    ensures Prompt(Recv(n, src, m))
  {
    match m
    case RequestVote(_, _, _, _, _) =>
      hide Settled;
      var r := HandleRequestVote(n, m);
      NotLeading(r);
      if r.role == Leader { StaysPrompt(n, r); }
    case Append(_, _, _, _, _, _) =>
      AppendExact(n, src, m);
      hide HandleAppend, Settled;
      var r := HandleAppend(n, m);
      if m.term < n.term && n.role == Leader { StaysPrompt(n, r); }
    case RequestVoteResp(_, _, granted) => VoteRespPrompt(n, src, m);
    case AppendResp(_, _, _) => AppendRespPrompt(n, src, m);
  }

  lemma VoteRespPrompt(n: Node, src: Id, m: Msg)
    requires Prompt(n) && DistinctIds(n.members) && m.RequestVoteResp?
    ensures Prompt(Recv(n, src, m))
  {
    var n1 := if m.granted then n.(members := GrantVote(n.members, src)) else n;
    assert DistinctIds(n1.members) && SameMatches(n.members, n1.members);
    if n.role == Leader { StaysPrompt(n, n1); }
    NewLeaderPrompt(n1);
    hide GrantVote, BecomeLeader, OpenRealRound, CountIf, Settled, VotersOf;
    OpensRealRound(n1);
    hide BroadcastVote;
  }

  lemma AppendRespPrompt(n: Node, src: Id, m: Msg)
    requires Prompt(n) && DistinctIds(n.members) && OwnLog(n) && m.AppendResp?
    ensures Prompt(Recv(n, src, m))
  {
    var k := Find(n.members, src);
    if n.role == Leader && m.term <= n.term && k < |n.members| {
      ReplyExact(n, k, m);
      hide Recv, Settled, IsAppend, OwnLog;
      var r := Recv(n, src, m);
      if !m.success { StaysPrompt(n, r); }
    } else {
      hide Settled;
    }
  }

  lemma EventPrompt(c: Cluster, s: System, h: History, e: Event)
    requires SysInv(c, s, h) && Enabled(s, e) && Prompt(s.nodes[Actor(s, e)])
    ensures Prompt(NodeAfter(s, e))
  {
    var n := s.nodes[Actor(s, e)];
    assert MemberInv(c, h, Actor(s, e), n);
    assert DistinctIds(n.members) && OwnLog(n);
    hide SysInv, Tick, Recv, Propose, Prompt;
    match e
    case Ticks(_, now) => TickPrompt(n, now);
    case Proposes(_, data) => ProposePrompt(n, data);
    case Delivers(src, at) => RecvPrompt(n, src, s.nodes[src].sent[at].msg);
  }

  lemma ProposePrompt(n: Node, data: seq<byte>)
    requires Prompt(n) && DistinctIds(n.members) && OwnLog(n)
    ensures Prompt(Propose(n, data))
  {
    ProposeExact(n, data);
    hide Propose;
  }

  lemma {:induction false} RunPrompt(c: Cluster, s: System, h: History, es: seq<Event>, i: Id)
    requires SysInv(c, s, h) && RunOk(c, s, es) && i in s.nodes && Prompt(s.nodes[i])
    ensures i in Run(c, s, es).nodes && Prompt(Run(c, s, es).nodes[i])
    decreases |es|
  {
    hide SysInv, Prompt, NodeAfter;
    if es != [] {
      if i == Actor(s, es[0]) { EventPrompt(c, s, h, es[0]); }
      var g := StepKeeps(c, s, h, es[0]);
      RunPrompt(c, Step(s, es[0]), g, es[1..], i);
    }
  }

  /** In every run, with two or more voters, a leader leaves nothing uncommitted that it could commit: no entry of its
      own term above its commit index is known to be held by more than half of the voters. */
  lemma LeadersCommitAtOnce(c: Cluster, s0: System, es: seq<Event>, i: Id)
    requires Init(c, s0) && RunOk(c, s0, es) && i in s0.nodes
    ensures i in Run(c, s0, es).nodes && Prompt(Run(c, s0, es).nodes[i])
  {
    InitInv(c, s0);
    RunPrompt(c, s0, History(map[], map[], map[], map[]), es, i);
  }

  /** A sole voter is the exception: it takes office without committing its own no-op, which waits for a proposal. */
  lemma SoleVoterWaits(n: Node)
    requires DistinctIds(n.members) && VotersOf(n.members) == {n.self} && |n.log| < MAX_LOG && n.commit <= |n.log|
    ensures !Settled(BecomeLeader(n))
  {
    TakesOffice(n);
    var r := BecomeLeader(n);
    hide BecomeLeader;
    assert n.self in VotersOf(n.members);
    var x :| 0 <= x < |n.members| && n.members[x].role == Voter && n.members[x].id == n.self;
    assert r.members[x].id == n.self;
    forall id | id in VotersOf(r.members) ensures id == n.self {
      var y :| 0 <= y < |r.members| && r.members[y].role == Voter && r.members[y].id == id;
      assert n.members[y].id in VotersOf(n.members);
    }
    assert VotersOf(r.members) == {n.self} && HoldersOf(r.members, |r.log|) == {n.self};
    assert Ripe(r, |r.log|);
  }

  // ---- complete application ----

  lemma {:induction false} CommandsAre(log: Log)
    ensures forall e :: e in Commands(log) <==> e in log && e.kind == Normal
  {
    if log != [] {
      CommandsAre(log[..|log| - 1]);
      assert log == log[..|log| - 1] + [log[|log| - 1]];
    }
  }

  lemma LeadKeepsApplied(n: Node)
    ensures BecomeLeader(n).commit == n.commit && BecomeLeader(n).lastApplied == n.lastApplied
  {
  }

  /** A step that does not take the commit index back, or past the log, applies everything up to it. */
  ghost predicate Catches(n: Node, r: Node) {
    n.lastApplied == n.commit <= r.commit <= |r.log| ==> r.lastApplied == r.commit
  }

  lemma TickCatches(n: Node, now: nat)
    ensures Catches(n, Tick(n, now))
  {
    LeadKeepsApplied(OpenRealRound(StandForElection(AdvanceClock(n, now))));
    hide BecomeLeader, CountIf, Commands, AppendsTo, ToVoters, EligibleVoter, ElectionTimeout;
  }

  lemma AdvanceCatches(n: Node)
    ensures Catches(n, AdvanceCommit(n))
  {
    hide CommitScan, Commands;
  }

  lemma AppendCatches(n: Node, m: Msg)
    requires m.Append?
    ensures Catches(n, HandleAppend(n, m))
  {
    hide PlaceEntries, Commands, PrevMatches;
  }

  lemma RecvCatches(n: Node, src: Id, m: Msg)
    ensures Catches(n, Recv(n, src, m))
  {
    match m
    case RequestVote(_, _, _, _, _) =>
    case Append(_, _, _, _, _, _) => AppendCatches(n, m);
    case RequestVoteResp(_, _, granted) =>
      var n1 := if granted then n.(members := GrantVote(n.members, src)) else n;
      LeadKeepsApplied(n1);
      hide GrantVote, BecomeLeader, CountIf, ToVoters;
    case AppendResp(_, _, _) =>
      AdvanceCatches(n.(members := RecordMatch(n.members, src, m.matchIndex)));
      hide AdvanceCommit, AppendTo;
  }

  lemma CaughtUp(s: System, e: Event)
    requires Enabled(s, e)
    ensures Catches(s.nodes[Actor(s, e)], NodeAfter(s, e))
  {
    hide Tick, Propose, Recv, Catches;
    var n := s.nodes[Actor(s, e)];
    match e
    case Ticks(_, now) => TickCatches(n, now);
    case Proposes(_, data) => ProposeCatches(n, data);
    case Delivers(src, at) => RecvCatches(n, src, s.nodes[src].sent[at].msg);
  }

  lemma ProposeCatches(n: Node, data: seq<byte>)
    ensures Catches(n, Propose(n, data))
  {
    AdvanceCatches(BroadcastAppend(LeaderAppend(n, Normal, data)));
    hide AdvanceCommit, AppendsTo;
  }

  lemma {:induction false} RunCaughtUp(c: Cluster, s: System, h: History, es: seq<Event>, i: Id)
    requires SysInv(c, s, h) && c.Commits() && RunOk(c, s, es) && i in s.nodes
    requires s.nodes[i].lastApplied == s.nodes[i].commit
    ensures i in Run(c, s, es).nodes && Run(c, s, es).nodes[i].lastApplied == Run(c, s, es).nodes[i].commit
    decreases |es|
  {
    hide SysInv, NodeAfter;
    if es != [] {
      var s1 := Step(s, es[0]);
      var g := StepKeeps(c, s, h, es[0]);
      AppliedOf(c, s1, g, i);
      StepKeepsCommitted(c, s, h, es[0], i);
      if i == Actor(s, es[0]) { CaughtUp(s, es[0]); }
      RunCaughtUp(c, s1, g, es[1..], i);
    }
  }

  /** In every run each node has applied exactly the commands of its log up to its commit index: all of them, in the
      order of the log, and no no-op. */
  lemma AppliedExactly(c: Cluster, s0: System, es: seq<Event>, i: Id)
    requires c.Commits() && Init(c, s0) && RunOk(c, s0, es) && i in s0.nodes
    ensures i in Run(c, s0, es).nodes
    ensures var n := Run(c, s0, es).nodes[i];
      && AppliedOrdered(n)
      && forall e :: e in n.applied <==> e.kind == Normal && exists k :: 0 <= k < n.commit && n.log[k] == e
  {
    InitInv(c, s0);
    var h0 := History(map[], map[], map[], map[]);
    hide SysInv, Init, Run, RunOk, AppliedOrdered, Commands;
    RunCaughtUp(c, s0, h0, es, i);
    var h := RunKeeps(c, s0, h0, es);
    AppliedInOrder(c, s0, es, i);
    AppliedOf(c, Run(c, s0, es), h, i);
    AppliedSet(Run(c, s0, es).nodes[i]);
  }

  lemma AppliedSet(n: Node)
    requires n.commit <= |n.log| && n.applied == Commands(n.log[..n.commit])
    ensures forall e :: e in n.applied <==> e.kind == Normal && exists k :: 0 <= k < n.commit && n.log[k] == e
  {
    var log := n.log[..n.commit];
    CommandsAre(log);
    hide Commands;
    forall e ensures e in log <==> exists k :: 0 <= k < n.commit && n.log[k] == e {
      if e in log {
        var k :| 0 <= k < |log| && log[k] == e;
        assert n.log[k] == e;
      }
    }
  }

  // ---- quiet followers ----

  /** Clock readings and appends of the node's own term. */
  predicate Heartbeat(x: Input, term: nat) {
    x.Clock? || (x.Inbound? && x.msg.Append? && x.msg.term == term)
  }

  /** The time since the last append never reaches the limit, by the clock readings alone. */
  predicate Attended(now: nat, since: nat, limit: nat, xs: seq<Input>)
    decreases |xs|
  {
    xs == [] ||
    if xs[0].Clock? then
      var t := since + (if xs[0].now > now then xs[0].now - now else 0);
      t < limit && Attended(xs[0].now, t, limit, xs[1..])
    else Attended(now, 0, limit, xs[1..])
  }

  /** Still a follower of the same term with the same vote, having sent nothing but answers to appends. */
  ghost predicate Quiet(n: Node, r: Node) {
    && r.role == Follower && r.term == n.term && r.votedFor == n.votedFor && r.cfg == n.cfg && r.self == n.self
    && n.sent <= r.sent && forall k :: |n.sent| <= k < |r.sent| ==> r.sent[k].msg.AppendResp?
  }

  lemma QuietTrans(a: Node, b: Node, c: Node)
    requires Quiet(a, b) && Quiet(b, c)
    ensures Quiet(a, c)
  {
  }

  /** A follower that hears an append of its term more often than its timeout stays a follower of that term, gives no
      vote and asks for none: whatever it sends is an answer to an append. */
  lemma {:induction false} FollowerStaysQuiet(n: Node, xs: seq<Input>)
    requires n.role == Follower && forall x :: x in xs ==> Heartbeat(x, n.term)
    requires Attended(n.now, n.electionElapsed,
                      (n.cfg.electionBase + n.self % (n.cfg.electionSpread + 1)) % 0x1_0000_0000, xs)
    ensures Quiet(n, FeedAll(n, xs))
    decreases |xs|
  {
    if xs != [] {
      var n1 := Feed(n, xs[0]);
      hide Feed;
      QuietFeed(n, xs[0]);
      FollowerStaysQuiet(n1, xs[1..]);
      QuietTrans(n, n1, FeedAll(n1, xs[1..]));
      hide Quiet;
    }
  }

  lemma QuietFeed(n: Node, x: Input)
    requires n.role == Follower && Heartbeat(x, n.term)
    requires x.Clock? ==> n.electionElapsed + (if x.now > n.now then x.now - n.now else 0)
                            < (n.cfg.electionBase + n.self % (n.cfg.electionSpread + 1)) % 0x1_0000_0000
    ensures var r := Feed(n, x);
      && Quiet(n, r)
      && (if x.Clock? then
            r.now == x.now && r.electionElapsed == n.electionElapsed + (if x.now > n.now then x.now - n.now else 0)
          else r.now == n.now && r.electionElapsed == 0)
  {
    hide PlaceEntries, StartElection, Commands;
  }
}
