/** A cluster of nodes and the messages they have sent, its runs, and the invariant of every run. */
module RaftSystem {
  import opened RaftTypes
  import opened RaftStep
  import opened RaftHistory
  import opened RaftInvariant
  import opened RaftMerge
  import opened RaftPreserve
  import opened RaftHandlers
  import opened Bytes

  /** Packet `pos` of node `src` is `nodes[src].sent[pos]`.  Nothing is ever taken off the network:
      delivery may lose, repeat and reorder.  `delivered` records what has been delivered at least once. */
  datatype System = System(nodes: map<Id, Node>, delivered: set<(Id, nat)>)

  datatype Event =
    | Ticks(id: Id, now: nat)
    | Proposes(id: Id, data: seq<byte>)
    | Delivers(src: Id, at: nat)

  predicate Enabled(s: System, e: Event) {
    match e
    case Ticks(id, _) => id in s.nodes
    case Proposes(id, _) => id in s.nodes
    case Delivers(src, at) =>
      src in s.nodes && at < |s.nodes[src].sent| && s.nodes[src].sent[at].dst in s.nodes
  }

  /** The node an event runs on. */
  function Actor(s: System, e: Event): (i: Id)
    requires Enabled(s, e)
    ensures i in s.nodes
  {
    match e
    case Ticks(id, _) => id
    case Proposes(id, _) => id
    case Delivers(src, at) => s.nodes[src].sent[at].dst
  }

  function NodeAfter(s: System, e: Event): Node
    requires Enabled(s, e)
  {
    var n := s.nodes[Actor(s, e)];
    match e
    case Ticks(_, now) => Tick(n, now)
    case Proposes(_, data) => Propose(n, data)
    case Delivers(src, at) => Recv(n, src, s.nodes[src].sent[at].msg)
  }

  function Step(s: System, e: Event): System
    requires Enabled(s, e)
  {
    System(s.nodes[Actor(s, e) := NodeAfter(s, e)],
           if e.Delivers? then s.delivered + {(e.src, e.at)} else s.delivered)
  }

  // ---- the hypotheses on a run ----

  /** A reply is consumed only in the term and round that asked for it: no granted vote of another
      kind or an older term at a candidate in its real round, no success of an older term at a leader. */
  predicate FreshFor(n: Node, m: Msg) {
    && (m.RequestVoteResp? && m.granted && n.role == Candidate && !n.inPreVote ==> !m.preVote && m.term >= n.term)
    && (m.AppendResp? && m.success && n.role == Leader ==> m.term >= n.term)
  }

  predicate Fresh(s: System, e: Event)
    requires Enabled(s, e)
  {
    e.Delivers? ==> FreshFor(s.nodes[Actor(s, e)], s.nodes[e.src].sent[e.at].msg)
  }

  /** The two packets are appends of one leader, in one term, to one follower. */
  predicate SameChannel(p: Packet, q: Packet) {
    p.msg.Append? && q.msg.Append? && p.dst == q.dst && p.msg.term == q.msg.term
  }

  /** One leader's appends in a term reach a follower in sending order and without gaps
      (a delivered append may come again). */
  predicate InOrder(s: System, e: Event)
    requires Enabled(s, e)
  {
    e.Delivers? ==>
      var sent := s.nodes[e.src].sent;
      forall j :: 0 <= j < e.at && SameChannel(sent[j], sent[e.at]) ==> (e.src, j) in s.delivered
  }

  /** An accepted append commits no further than the entries it has just checked, which is the rule of
      the paper; the code clips by its own last index instead. */
  predicate ClipsAtChecked(s: System, e: Event)
    requires Enabled(s, e)
  {
    e.Delivers? ==>
      var n, m := s.nodes[Actor(s, e)], s.nodes[e.src].sent[e.at].msg;
      m.Append? && m.term >= n.term && PrevMatches(n.log, m) && m.leaderCommit > n.commit ==>
        || m.leaderCommit <= m.prevIndex + |m.entries|
        || |PlaceEntries(n.log, m.prevIndex + 1, m.entries)| <= m.prevIndex + |m.entries|
  }

  /** The assumption on deliveries that the cluster's network makes. */
  predicate NetOk(c: Cluster, s: System, e: Event)
    requires Enabled(s, e)
  {
    match c.net
    case Loose => true
    case Clipped => ClipsAtChecked(s, e)
    case InSendOrder => InOrder(s, e)
  }

  // ---- runs ----

  /** Every event of `es` can happen when its turn comes, replies are fresh and the network is as assumed. */
  ghost predicate RunOk(c: Cluster, s: System, es: seq<Event>)
    decreases |es|
  {
    es == [] || (Enabled(s, es[0]) && Fresh(s, es[0]) && NetOk(c, s, es[0])
                 && RunOk(c, Step(s, es[0]), es[1..]))
  }

  ghost function Run(c: Cluster, s: System, es: seq<Event>): System
    requires RunOk(c, s, es)
    decreases |es|
  {
    if es == [] then s else Run(c, Step(s, es[0]), es[1..])
  }

  ghost predicate FreshNode(n: Node) {
    && n.term == 0 && n.votedFor == NO_NODE && n.log == [] && n.role == Follower
    && n.commit == 0 && n.lastApplied == 0 && n.sent == [] && n.applied == []
  }

  ghost predicate Init(c: Cluster, s: System) {
    && s.nodes.Keys == c.members && s.delivered == {}
    && forall i :: i in s.nodes ==> FreshNode(s.nodes[i]) && TableInv(c, i, s.nodes[i])
  }

  // ---- one node, one event ----

  /** What else is known of a step other than accepting an append: a new leader starts from the log it
      stood with, only a leader acknowledges on its own account, and a leader commits only what a
      quorum holds. */
  ghost predicate OfficeFacts(c: Cluster, h: History, g: History, i: Id, n: Node, n': Node) {
    && (n.role != Leader && n'.role == Leader ==> n'.term in g.ldrs && g.ldrs[n'.term].log0 == n.log)
    && (forall a :: a in g.acks && a !in h.acks ==> a == Key(n'.term, i) && n'.role == Leader)
    && (n.role == Leader && n'.role == Leader && n'.commit > n.commit ==> Cert(c, g, n'.term, n'.commit))
  }

  lemma VoteCounted(c: Cluster, h: History, i: Id, n: Node, src: Id, m: Msg)
    requires LocalInv(c, h, i, n) && m.RequestVoteResp? && m.granted && FreshFor(n, m)
    requires PacketInv(c, h, src, Packet(i, m))
    ensures LocalInv(c, h, i, n.(members := GrantVote(n.members, src)))
  {
    if RealCandidate(n) {
      assert VoteInv(h, Key(m.term, src));
      assert CandInv(h, Key(m.term, i));
    }
    FlagVote(c, h, i, n, src);
  }

  lemma RecvKeeps(c: Cluster, h: History, i: Id, n: Node, src: Id, m: Msg) returns (g: History)
    requires LocalInv(c, h, i, n) && src in c.members && src != i && PacketInv(c, h, src, Packet(i, m))
    requires FreshFor(n, m)
    requires c.Commits() && m.Append? && m.term >= n.term && PrevMatches(n.log, m) ==> Covered(h, n, m)
    ensures Ext(h, g, i) && LocalInv(c, g, i, Recv(n, src, m))
    ensures if m.Append? && m.term >= n.term && PrevMatches(n.log, m)
            then g == WithAck(h, m.term, i, m.prevIndex + |m.entries|)
            else OfficeFacts(c, h, g, i, n, Recv(n, src, m))
  {
    hide LocalInv;
    match m
    case RequestVote(_, _, _, _, _) => g := RequestHandled(c, h, i, n, src, m);
    case RequestVoteResp(_, _, granted) =>
      if granted {
        VoteCounted(c, h, i, n, src, m);
        g := VoteRespHandled(c, h, i, n.(members := GrantVote(n.members, src)), m);
      } else {
        g := VoteRespHandled(c, h, i, n, m);
      }
    case Append(_, _, _, _, _, _) => g := AppendHandled(c, h, i, n, src, m);
    case AppendResp(_, _, _) =>
      AppendRespHandled(c, h, i, n, src, m);
      g := h;
  }

  lemma PreVoteOpened(c: Cluster, h: History, i: Id, n: Node)
    requires LocalInv(c, h, i, n) && n.role != Leader
    ensures LocalInv(c, h, i, BroadcastVote(StandForElection(n).(inPreVote := true), true, n.term + 1))
  {
    OpenPreVote(c, h, i, n);
    var n1 := StandForElection(n).(inPreVote := true);
    var m := RequestVote(n1.term + 1, true, i, |n1.log|, LastTerm(n1.log));
    VotePackets(c, h, i, n1.members, m);
    Sends(c, h, i, n1, ToVoters(n1.members, i, m));
  }

  lemma SoleVoterWins(c: Cluster, h: History, i: Id, n: Node) returns (g: History)
    requires LocalInv(c, h, i, n) && n.role != Leader && EligibleVoter(n.members, i)
    requires CountIf(StandForElection(n).members, IsVoter) == 1
    ensures Ext(h, g, i) && LocalInv(c, g, i, BecomeLeader(OpenRealRound(StandForElection(n))))
    ensures OfficeFacts(c, h, g, i, n, BecomeLeader(OpenRealRound(StandForElection(n))))
  {
    var h1 := OpenRound(c, h, i, n);
    var n1 := OpenRealRound(StandForElection(n));
    assert n1.members == OpenRealRound(n).members;
    Quiet(c, h1, i, OpenRealRound(n), n1);
    SoleVoterQuorum(c, i, n, n1);
    g := BecomesLeader(c, h1, i, n1);
    ExtTrans(h, h1, g, i);
  }

  lemma SoleVoterQuorum(c: Cluster, i: Id, n: Node, n1: Node)
    requires TableInv(c, i, n) && EligibleVoter(n.members, i)
    requires CountIf(StandForElection(n).members, IsVoter) == 1
    requires n1 == OpenRealRound(StandForElection(n))
    ensures CountIf(n1.members, IsGranter) >= Quorum(n1.members)
  {
    var n0 := StandForElection(n);
    TableKept(c, i, n, n0);
    TableKept(c, i, n, n1);
    CountIsSize(n0.members, IsVoter);
    CountIsSize(n1.members, IsVoter);
    CountIsSize(n1.members, IsGranter);
    var k := Find(n.members, i);
    assert IsGranter(n1.members[k]) && n1.members[k].id == i;
    assert i in IdsIf(n1.members, IsGranter);
    assert IdsIf(n1.members, IsGranter) != {};
  }

  lemma ElectionKeeps(c: Cluster, h: History, i: Id, n: Node) returns (g: History)
    requires LocalInv(c, h, i, n) && n.self == i && n.role != Leader
    ensures Ext(h, g, i) && LocalInv(c, g, i, StartElection(n))
    ensures OfficeFacts(c, h, g, i, n, StartElection(n))
  {
    hide LocalInv;
    g := h;
    if !EligibleVoter(n.members, i) {
      Quiet(c, h, i, n, n.(electionElapsed := 0));
    } else if CountIf(StandForElection(n).members, IsVoter) == 1 {
      g := SoleVoterWins(c, h, i, n);
    } else {
      PreVoteOpened(c, h, i, n);
    }
  }

  lemma LeaderTickKeeps(c: Cluster, h: History, i: Id, n: Node, now: nat)
    requires LocalInv(c, h, i, n) && n.role == Leader
    ensures LocalInv(c, h, i, Tick(n, now)) && OfficeFacts(c, h, h, i, n, Tick(n, now))
  {
    hide LocalInv;
    var n2 := AdvanceClock(n, now).(electionElapsed := 0);
    Quiet(c, h, i, n, n2);
    Quiet(c, h, i, n2, n2.(heartbeatElapsed := 0));
    Broadcasts(c, h, i, n2.(heartbeatElapsed := 0));
  }

  lemma TickKeeps(c: Cluster, h: History, i: Id, n: Node, now: nat) returns (g: History)
    requires LocalInv(c, h, i, n) && n.self == i
    ensures Ext(h, g, i) && LocalInv(c, g, i, Tick(n, now))
    ensures OfficeFacts(c, h, g, i, n, Tick(n, now))
    ensures n.role == Leader ==> g == h
  {
    hide LocalInv;
    hide StartElection;
    g := h;
    if n.role == Leader {
      LeaderTickKeeps(c, h, i, n, now);
    } else {
      var n1 := AdvanceClock(n, now);
      Quiet(c, h, i, n, n1);
      if n1.electionElapsed >= ElectionTimeout(n1) {
        g := ElectionKeeps(c, h, i, n1);
        Applies(c, g, i, StartElection(n1));
      } else {
        Applies(c, h, i, n1);
      }
    }
  }

  lemma ProposeKeeps(c: Cluster, h: History, i: Id, n: Node, data: seq<byte>) returns (g: History)
    requires LocalInv(c, h, i, n)
    ensures Ext(h, g, i) && LocalInv(c, g, i, Propose(n, data))
    ensures OfficeFacts(c, h, g, i, n, Propose(n, data))
    ensures CanPropose(n, data) && n.term in h.ldrs ==> g == WithEntry(h, n.term, LeaderAppend(n, Normal, data).log)
  {
    hide LocalInv;
    g := h;
    if CanPropose(n, data) {
      g := LeaderAppends(c, h, i, n, Normal, data);
      var n1 := LeaderAppend(n, Normal, data);
      Broadcasts(c, g, i, n1);
      LeaderCommits(c, g, i, BroadcastAppend(n1));
    }
  }
}
