/** Each elementary change a node makes keeps the invariant, with the history it adds. */
module RaftPreserve {
  import opened RaftTypes
  import opened RaftStep
  import opened RaftHistory
  import opened RaftInvariant
  import opened RaftMerge
  import opened Bytes

  /** Only timers and the known leader differ. */
  ghost predicate SameCore(n: Node, n': Node) {
    n' == n.(cfg := n'.cfg, leader := n'.leader, now := n'.now,
             electionElapsed := n'.electionElapsed, heartbeatElapsed := n'.heartbeatElapsed)
  }

  lemma Quiet(c: Cluster, h: History, i: Id, n: Node, n': Node)
    requires LocalInv(c, h, i, n) && SameCore(n, n')
    ensures LocalInv(c, h, i, n')
  {
    assert CandidateInv(h, i, n');
    assert LeaderInv(h, i, n') by {
      forall x | 0 <= x < |n'.members| && n'.role == Leader ensures ProgressInv(h, n', n'.members[x]) {
        assert ProgressInv(h, n, n.members[x]);
      }
    }
    assert AckInv(h, i, n');
  }

  lemma Sends(c: Cluster, h: History, i: Id, n: Node, ps: seq<Packet>)
    requires LocalInv(c, h, i, n) && PacketsInv(c, h, i, ps)
    ensures LocalInv(c, h, i, n.(sent := n.sent + ps))
  {
    var n' := n.(sent := n.sent + ps);
    assert LeaderInv(h, i, n') by {
      forall x | 0 <= x < |n'.members| && n'.role == Leader ensures ProgressInv(h, n', n'.members[x]) {
        assert ProgressInv(h, n, n.members[x]);
      }
    }
    assert AckInv(h, i, n');
  }

  lemma SendOne(c: Cluster, h: History, i: Id, n: Node, dst: Id, m: Msg)
    requires LocalInv(c, h, i, n) && PacketInv(c, h, i, Packet(dst, m))
    ensures LocalInv(c, h, i, Send(n, dst, m))
  {
    Sends(c, h, i, n, [Packet(dst, m)]);
  }

  lemma RetainsLater(h: History, g: Log, t: nat, k: nat, top: nat, top': nat)
    requires Retains(h, g, t, k, top) && top <= top'
    ensures Retains(h, g, t, k, top')
  {
  }

  /** A node never holds office in a term it has not reached. */
  lemma NoFutureOffice(c: Cluster, h: History, i: Id, n: Node, t: nat)
    requires HistInv(c, h) && BallotInv(h, i, n) && t > n.term
    ensures t in h.ldrs ==> h.ldrs[t].id != i
  {
    assert Key(t, i) in h.cands ==> CandInv(h, Key(t, i));
    assert t in h.ldrs ==> OfficeInv(c, h, t);
  }

  lemma StepDown(c: Cluster, h: History, i: Id, n: Node, t: nat, leader: Id)
    requires LocalInv(c, h, i, n)
    requires t > n.term || (t == n.term && n.role != Leader)
    ensures LocalInv(c, h, i, BecomeFollower(n, t, leader))
  {
    var n' := BecomeFollower(n, t, leader);
    if t > n.term { NoFutureOffice(c, h, i, n, t); }
    assert OfficeHeld(h, i, n');
    AcksKept(h, h, i, n, n');
    CommitKept(c, h, h, i, n, n');
  }

  // ---- carrying the clauses of a node across a change of node and history ----

  /** Acknowledgements stay honoured when the log and the term only grow and every new
      acknowledgement is to a log that the new log agrees with. */
  lemma AcksKept(h: History, g: History, i: Id, n: Node, n': Node)
    requires Ext(h, g, i) && AckInv(h, i, n) && n.log <= n'.log && n.term <= n'.term
    requires forall a :: a in g.acks && a.id == i ==>
      || (a in h.acks && g.acks[a] == h.acks[a])
      || (a.term <= n'.term && a.term in g.ldrs && Agrees(n'.log, g.ldrs[a.term].log, g.acks[a]))
    ensures AckInv(g, i, n')
  {
    forall a, k | a in g.acks && a.id == i && 0 <= k <= g.acks[a] ensures Retains(g, n'.log, a.term, k, n'.term) {
      if a in h.acks && g.acks[a] == h.acks[a] {
        assert Retains(h, n.log, a.term, k, n.term);
        RetainsStable(h, g, i, n.log, a.term, k, n.term);
        RetainsGrown(g, n.log, n'.log, a.term, k, n.term);
        RetainsLater(g, n'.log, a.term, k, n.term, n'.term);
      } else {
        AgreesLess(n'.log, g.ldrs[a.term].log, g.acks[a], k);
      }
    }
  }

  lemma CommitKept(c: Cluster, h: History, g: History, i: Id, n: Node, n': Node)
    requires Ext(h, g, i) && CommitInv(c, h, n) && AppliedInv(c, n)
    requires n.log <= n'.log && n.term <= n'.term
    requires n'.commit == n.commit && n'.lastApplied == n.lastApplied && n'.applied == n.applied
    ensures CommitInv(c, g, n') && AppliedInv(c, n')
  {
    if c.Commits() {
      CommittedStable(c, h, g, i, n.log[..n.commit], n.term);
      CommittedPrefix(c, g, n.log[..n.commit], n.term, n.log[..n.commit], n'.term);
      assert n'.log[..n.commit] == n.log[..n.commit];
      assert n'.log[..n.lastApplied] == n.log[..n.lastApplied];
    }
  }

  lemma RetainsGrown(h: History, g: Log, g': Log, t: nat, k: nat, top: nat)
    requires Retains(h, g, t, k, top) && g <= g'
    ensures Retains(h, g', t, k, top)
  {
    if Agrees(g, h.ldrs[t].log, k) { assert g'[..k] == g[..k]; }
  }

  // ---- voting ----

  ghost function WithVote(h: History, t: nat, v: Id, vote: Vote): History {
    h.(votes := h.votes[Key(t, v) := vote])
  }

  lemma CastVoteHist(c: Cluster, h: History, i: Id, n: Node, cand: Id)
    requires HistInv(c, h) && NodeInv(c, h, i, n) && n.votedFor == NO_NODE
    requires Key(n.term, cand) in h.cands && UpToDate(h.cands[Key(n.term, cand)], n.log)
    ensures Ext(h, WithVote(h, n.term, i, Vote(cand, n.log)), i)
    ensures HistInv(c, WithVote(h, n.term, i, Vote(cand, n.log)))
  {
    var key := Key(n.term, i);
    var g := WithVote(h, n.term, i, Vote(cand, n.log));
    assert key !in h.votes;
    WellLogStable(h, g, i, n.log, n.term);
    assert VoteInv(g, key);
    forall a, k | a in g.acks && a.id == i && a.term < n.term && 0 <= k <= g.acks[a]
      ensures VoteRetains(g, key, a.term, k)
    {
      assert Retains(h, n.log, a.term, k, n.term);
      if !Agrees(n.log, h.ldrs[a.term].log, k) {
        var u :| a.term < u <= n.term && Lost(h, u, a.term, k);
        LostStable(h, g, i, u, a.term, k);
        if u == n.term { assert OfficeInv(c, h, u); }
      }
    }
    HistGrown(c, h, g, i);
  }

  /** Granting a vote of the current term. */
  lemma CastVote(c: Cluster, h: History, i: Id, n: Node, cand: Id) returns (g: History)
    requires LocalInv(c, h, i, n) && n.votedFor == NO_NODE && cand in c.members
    requires Key(n.term, cand) in h.cands && UpToDate(h.cands[Key(n.term, cand)], n.log)
    ensures Ext(h, g, i) && LocalInv(c, g, i, n.(votedFor := cand)) && VotedFor(g, n.term, i, cand)
    ensures g == WithVote(h, n.term, i, Vote(cand, n.log))
  {
    g := WithVote(h, n.term, i, Vote(cand, n.log));
    var n' := n.(votedFor := cand);
    CastVoteHist(c, h, i, n, cand);
    PacketsStable(c, h, g, i, i, n.sent);
    WellLogStable(h, g, i, n.log, n.term);
    CommitKept(c, h, g, i, n, n');
    AcksKept(h, g, i, n, n');
    assert n.role != Leader by {
      assert Key(n.term, i) in h.cands ==> CandInv(h, Key(n.term, i));
      assert n.term in h.ldrs ==> OfficeInv(c, h, n.term);
    }
    assert OfficeHeld(g, i, n');
  }

  // ---- elections ----

  lemma FlagVote(c: Cluster, h: History, i: Id, n: Node, from: Id)
    requires LocalInv(c, h, i, n)
    requires RealCandidate(n) ==> VotedFor(h, n.term, from, i)
    ensures LocalInv(c, h, i, n.(members := GrantVote(n.members, from)))
  {
    var n' := n.(members := GrantVote(n.members, from));
    TableKept(c, i, n, n');
    assert CandidateInv(h, i, n');
    assert LeaderInv(h, i, n') by {
      forall x | 0 <= x < |n'.members| && n'.role == Leader ensures ProgressInv(h, n', n'.members[x]) {
        assert ProgressInv(h, n, n.members[x]);
      }
    }
    assert AckInv(h, i, n');
  }

  lemma OpenPreVote(c: Cluster, h: History, i: Id, n: Node)
    requires LocalInv(c, h, i, n) && n.role != Leader
    ensures LocalInv(c, h, i, StandForElection(n).(inPreVote := true))
  {
    var n' := StandForElection(n).(inPreVote := true);
    TableKept(c, i, n, n');
    assert AckInv(h, i, n');
  }

  ghost function WithRound(h: History, t: nat, i: Id, log: Log): History {
    h.(votes := h.votes[Key(t, i) := Vote(i, log)], cands := h.cands[Key(t, i) := log])
  }

  lemma OpenRoundHist(c: Cluster, h: History, i: Id, n: Node)
    requires HistInv(c, h) && NodeInv(c, h, i, n)
    ensures Ext(h, WithRound(h, n.term + 1, i, n.log), i)
    ensures HistInv(c, WithRound(h, n.term + 1, i, n.log))
  {
    var t := n.term + 1;
    var key := Key(t, i);
    var g := WithRound(h, t, i, n.log);
    assert key !in h.votes;
    assert key in h.cands ==> CandInv(h, key);
    assert Ext(h, g, i);
    WellLogStable(h, g, i, n.log, n.term);
    assert VoteInv(g, key) && CandInv(g, key);
    forall a, k | a in g.acks && a.id == i && a.term < t && 0 <= k <= g.acks[a]
      ensures VoteRetains(g, key, a.term, k)
    {
      assert Retains(h, n.log, a.term, k, n.term);
      if !Agrees(n.log, h.ldrs[a.term].log, k) {
        var u :| a.term < u <= n.term && Lost(h, u, a.term, k);
        LostStable(h, g, i, u, a.term, k);
      }
    }
    HistGrown(c, h, g, i);
  }

  lemma OpenRoundNode(c: Cluster, h: History, g: History, i: Id, n: Node)
    requires NodeInv(c, h, i, n) && g == WithRound(h, n.term + 1, i, n.log) && Ext(h, g, i)
    requires n.term + 1 in h.ldrs ==> h.ldrs[n.term + 1].id != i
    ensures NodeInv(c, g, i, OpenRealRound(n))
  {
    var n' := OpenRealRound(n);
    WellLogStable(h, g, i, n.log, n.term);
    TableKept(c, i, n, n');
    CommitKept(c, h, g, i, n, n');
    AcksKept(h, g, i, n, n');
  }

  /** Opening the real round of the next term, with the vote for oneself. */
  lemma OpenRound(c: Cluster, h: History, i: Id, n: Node) returns (g: History)
    requires LocalInv(c, h, i, n)
    ensures Ext(h, g, i) && LocalInv(c, g, i, OpenRealRound(n))
    ensures Key(n.term + 1, i) in g.cands && g.cands[Key(n.term + 1, i)] == n.log
    ensures g.ldrs == h.ldrs && g.acks == h.acks
  {
    g := WithRound(h, n.term + 1, i, n.log);
    OpenRoundHist(c, h, i, n);
    PacketsStable(c, h, g, i, i, n.sent);
    NoFutureOffice(c, h, i, n, n.term + 1);
    OpenRoundNode(c, h, g, i, n);
  }

  ghost function WithOffice(h: History, t: nat, o: Office): History {
    h.(ldrs := h.ldrs[t := o], acks := h.acks[Key(t, o.id) := |o.log|])
  }

  lemma NoOfficeYet(c: Cluster, h: History, i: Id, n: Node, q: set<Id>)
    requires HistInv(c, h) && NodeInv(c, h, i, n) && RealCandidate(n) && IsQuorum(c, q)
    requires forall v :: v in q ==> VotedFor(h, n.term, v, i)
    ensures n.term !in h.ldrs
  {
    if n.term in h.ldrs {
      OneLeaderPerTerm(c, h, n.term, i, q);
      assert false;
    }
  }

  lemma TakeOfficeHist(c: Cluster, h: History, i: Id, n: Node, q: set<Id>)
    requires HistInv(c, h) && NodeInv(c, h, i, n) && RealCandidate(n) && IsQuorum(c, q)
    requires forall v :: v in q ==> VotedFor(h, n.term, v, i)
    requires n.term !in h.ldrs
    ensures Ext(h, WithOffice(h, n.term, Office(i, q, n.log, n.log)), i)
    ensures HistInv(c, WithOffice(h, n.term, Office(i, q, n.log, n.log)))
  {
    var o := Office(i, q, n.log, n.log);
    var g := WithOffice(h, n.term, o);
    assert Key(n.term, i) !in h.acks;
    assert Ext(h, g, i);
    WellLogStable(h, g, i, n.log, n.term);
    assert OfficeInv(c, g, n.term);
    OfficeGrown(c, h, g, i, n.term);
  }

  lemma WinOfficeNode(c: Cluster, h: History, g: History, i: Id, n: Node, q: set<Id>)
    requires NodeInv(c, h, i, n) && RealCandidate(n)
    requires g == WithOffice(h, n.term, Office(i, q, n.log, n.log)) && Ext(h, g, i)
    ensures NodeInv(c, g, i, TakeOffice(n))
  {
    var n' := TakeOffice(n);
    WellLogStable(h, g, i, n.log, n.term);
    TableKept(c, i, n, n');
    CommitKept(c, h, g, i, n, n');
    AcksKept(h, g, i, n, n');
  }

  lemma GrantersVoted(c: Cluster, h: History, i: Id, n: Node)
    requires TableInv(c, i, n) && CandidateInv(h, i, n) && RealCandidate(n)
    requires CountIf(n.members, IsGranter) >= Quorum(n.members)
    ensures IsQuorum(c, IdsIf(n.members, IsGranter))
    ensures forall v :: v in IdsIf(n.members, IsGranter) ==> VotedFor(h, n.term, v, i)
  {
    CountQuorum(c, i, n, IsGranter);
    forall v | v in IdsIf(n.members, IsGranter) ensures VotedFor(h, n.term, v, i) {
      var x :| 0 <= x < |n.members| && IsGranter(n.members[x]) && n.members[x].id == v;
    }
  }

  /** Winning the election of the current term. */
  lemma WinOffice(c: Cluster, h: History, i: Id, n: Node) returns (g: History)
    requires LocalInv(c, h, i, n) && RealCandidate(n)
    requires CountIf(n.members, IsGranter) >= Quorum(n.members)
    ensures Ext(h, g, i) && LocalInv(c, g, i, TakeOffice(n))
    ensures n.term !in h.ldrs
    ensures g == WithOffice(h, n.term, Office(i, IdsIf(n.members, IsGranter), n.log, n.log))
  {
    GrantersVoted(c, h, i, n);
    var q := IdsIf(n.members, IsGranter);
    NoOfficeYet(c, h, i, n, q);
    TakeOfficeHist(c, h, i, n, q);
    g := WithOffice(h, n.term, Office(i, q, n.log, n.log));
    PacketsStable(c, h, g, i, i, n.sent);
    WinOfficeNode(c, h, g, i, n, q);
  }

  // ---- the leader's log ----

  ghost function WithEntry(h: History, t: nat, log: Log): History
    requires t in h.ldrs
  {
    h.(ldrs := h.ldrs[t := h.ldrs[t].(log := log)], acks := h.acks[Key(t, h.ldrs[t].id) := |log|])
  }

  lemma AppendBacked(h: History, g: History, i: Id, n: Node, e: Entry)
    requires LeaderInv(h, i, n) && WellLog(h, n.log, n.term) && n.role == Leader && |n.log| < MAX_LOG
    requires e.term == n.term && e.index == |n.log| + 1
    requires g == WithEntry(h, n.term, n.log + [e]) && Ext(h, g, i)
    ensures WellLog(g, n.log + [e], n.term)
  {
    WellLogStable(h, g, i, n.log, n.term);
    var log := n.log + [e];
    forall j | 0 <= j < |log| ensures BackedAt(g, log, j) {
      if j < |n.log| {
        assert BackedAt(g, n.log, j);
        assert log[..j + 1] == n.log[..j + 1];
      }
    }
  }

  lemma LeaderAppendHist(c: Cluster, h: History, i: Id, n: Node, e: Entry)
    requires HistInv(c, h) && NodeInv(c, h, i, n) && n.role == Leader && |n.log| < MAX_LOG
    requires e.term == n.term && e.index == |n.log| + 1
    ensures Ext(h, WithEntry(h, n.term, n.log + [e]), i)
    ensures HistInv(c, WithEntry(h, n.term, n.log + [e]))
  {
    var g := WithEntry(h, n.term, n.log + [e]);
    assert Ext(h, g, i);
    AppendBacked(h, g, i, n, e);
    assert OfficeInv(c, h, n.term);
    assert OfficeInv(c, g, n.term);
    OfficeGrown(c, h, g, i, n.term);
  }

  lemma LeaderAppends(c: Cluster, h: History, i: Id, n: Node, kind: EntryKind, data: seq<byte>) returns (g: History)
    requires LocalInv(c, h, i, n) && n.role == Leader && |n.log| < MAX_LOG
    ensures Ext(h, g, i) && LocalInv(c, g, i, LeaderAppend(n, kind, data))
    ensures g == WithEntry(h, n.term, LeaderAppend(n, kind, data).log)
  {
    var e := Entry(n.term, |n.log| + 1, kind, data);
    LeaderAppendHist(c, h, i, n, e);
    g := WithEntry(h, n.term, n.log + [e]);
    PacketsStable(c, h, g, i, i, n.sent);
    LeaderAppendNode(c, h, g, i, n, kind, data);
  }

  lemma LeaderAppendProgress(h: History, g: History, i: Id, n: Node, kind: EntryKind, data: seq<byte>)
    requires LeaderInv(h, i, n) && n.self == i && n.role == Leader
    requires g == WithEntry(h, n.term, LeaderAppend(n, kind, data).log) && AcksExt(h, g, i)
    ensures LeaderInv(g, i, LeaderAppend(n, kind, data))
  {
    var n' := LeaderAppend(n, kind, data);
    forall x | 0 <= x < |n'.members| ensures ProgressInv(g, n', n'.members[x]) {
      assert ProgressInv(h, n, n.members[x]);
    }
  }

  lemma LeaderAppendNode(c: Cluster, h: History, g: History, i: Id, n: Node, kind: EntryKind, data: seq<byte>)
    requires NodeInv(c, h, i, n) && n.role == Leader && |n.log| < MAX_LOG
    requires g == WithEntry(h, n.term, LeaderAppend(n, kind, data).log) && Ext(h, g, i)
    ensures NodeInv(c, g, i, LeaderAppend(n, kind, data))
  {
    var n' := LeaderAppend(n, kind, data);
    AppendBacked(h, g, i, n, Entry(n.term, |n.log| + 1, kind, data));
    TableKept(c, i, n, n');
    CommitKept(c, h, g, i, n, n');
    AcksKept(h, g, i, n, n');
    LeaderAppendProgress(h, g, i, n, kind, data);
  }

  // ---- what a leader sends ----

  lemma AppendPacket(c: Cluster, h: History, i: Id, n: Node, m: Member)
    requires LocalInv(c, h, i, n) && n.role == Leader && m.id != i && m.id in c.members && ProgressInv(h, n, m)
    ensures PacketInv(c, h, i, Packet(m.id, AppendTo(n, m)))
  {
  }

  lemma {:induction false} AppendPackets(c: Cluster, h: History, i: Id, n: Node, k: nat)
    requires LocalInv(c, h, i, n) && n.role == Leader && k <= |n.members|
    ensures PacketsInv(c, h, i, AppendsTo(n, n.members[..k]))
  {
    if k > 0 {
      AppendPackets(c, h, i, n, k - 1);
      assert n.members[..k][..k - 1] == n.members[..k - 1];
      assert ProgressInv(h, n, n.members[k - 1]) && n.members[k - 1].id in Ids(n.members);
      if n.members[k - 1].id != i { AppendPacket(c, h, i, n, n.members[k - 1]); }
    }
  }

  lemma Broadcasts(c: Cluster, h: History, i: Id, n: Node)
    requires LocalInv(c, h, i, n) && n.role == Leader
    ensures LocalInv(c, h, i, BroadcastAppend(n))
  {
    AppendPackets(c, h, i, n, |n.members|);
    assert n.members[..|n.members|] == n.members;
    Sends(c, h, i, n, AppendsTo(n, n.members));
  }

  lemma {:induction false} VotePackets(c: Cluster, h: History, i: Id, ms: seq<Member>, m: Msg)
    requires Ids(ms) <= c.members
    requires m.RequestVote? && forall dst :: dst != i && dst in c.members ==> PacketInv(c, h, i, Packet(dst, m))
    ensures PacketsInv(c, h, i, ToVoters(ms, i, m))
  {
    if ms != [] {
      var k := |ms| - 1;
      assert Ids(ms[..k]) <= Ids(ms) && ms[k].id in Ids(ms);
      VotePackets(c, h, i, ms[..k], m);
    }
  }

  // ---- commit and apply ----

  lemma {:induction false} CommandsConcat(a: Log, b: Log)
    ensures Commands(a + b) == Commands(a) + Commands(b)
  {
    if b == [] {
      assert a + b == a;
    } else {
      var k := |b| - 1;
      CommandsConcat(a, b[..k]);
      assert (a + b)[..|a + b| - 1] == a + b[..k];
    }
  }

  lemma Applies(c: Cluster, h: History, i: Id, n: Node)
    requires LocalInv(c, h, i, n)
    ensures LocalInv(c, h, i, ApplyCommitted(n))
    ensures c.Commits() ==> ApplyCommitted(n).lastApplied == n.commit
  {
    var n' := ApplyCommitted(n);
    if n.lastApplied < n.commit <= |n.log| {
      CommandsConcat(n.log[..n.lastApplied], n.log[n.lastApplied..n.commit]);
      assert n.log[..n.lastApplied] + n.log[n.lastApplied..n.commit] == n.log[..n.commit];
      assert LeaderInv(h, i, n') by {
        forall x | 0 <= x < |n'.members| && n'.role == Leader ensures ProgressInv(h, n', n'.members[x]) {
          assert ProgressInv(h, n, n.members[x]);
        }
      }
      assert AckInv(h, i, n');
    }
  }

  lemma SetsCommit(c: Cluster, h: History, i: Id, n: Node, k: nat)
    requires LocalInv(c, h, i, n)
    requires c.Commits() ==> n.commit <= k <= |n.log| && Committed(c, h, n.log[..k], n.term)
    ensures LocalInv(c, h, i, n.(commit := k))
  {
    var n' := n.(commit := k);
    assert LeaderInv(h, i, n') by {
      forall x | 0 <= x < |n'.members| && n'.role == Leader ensures ProgressInv(h, n', n'.members[x]) {
        assert ProgressInv(h, n, n.members[x]);
      }
    }
    assert AckInv(h, i, n');
  }

  /** The scan returns the old commit index, or an index of the current term held by a quorum. */
  lemma {:induction false} CommitScanSound(n: Node, idx: nat)
    requires idx <= |n.log|
    ensures var k := CommitScan(n, idx);
      k == n.commit ||
      (n.commit < k <= idx && TermAt(n.log, k) == n.term && CountIf(n.members, HoldsUpTo(k)) >= Quorum(n.members))
  {
    if idx > n.commit && TermAt(n.log, idx) == n.term && CountIf(n.members, HoldsUpTo(idx)) < Quorum(n.members) {
      CommitScanSound(n, idx - 1);
    }
  }

  lemma LeaderCommits(c: Cluster, h: History, i: Id, n: Node)
    requires LocalInv(c, h, i, n) && n.role == Leader
    ensures LocalInv(c, h, i, AdvanceCommit(n))
    ensures var k := AdvanceCommit(n).commit; k == n.commit || (n.commit < k && Cert(c, h, n.term, k))
  {
    var k := CommitScan(n, |n.log|);
    CommitScanSound(n, |n.log|);
    if k != n.commit {
      CountQuorum(c, i, n, HoldsUpTo(k));
      var q := IdsIf(n.members, HoldsUpTo(k));
      assert q <= Holders(c, h, n.term, k) by {
        forall v | v in q ensures v in Holders(c, h, n.term, k) {
          var x :| 0 <= x < |n.members| && HoldsUpTo(k)(n.members[x]) && n.members[x].id == v;
          assert ProgressInv(h, n, n.members[x]);
        }
      }
      SubsetSize(q, Holders(c, h, n.term, k));
      assert CertCovers(c, h, n.log[..k], n.term, k);
      SetsCommit(c, h, i, n, k);
    }
    assert k == n.commit ==> n.(commit := k) == n;
    Applies(c, h, i, n.(commit := k));
  }

  // ---- replies to a leader ----

  lemma RecordsMatch(c: Cluster, h: History, i: Id, n: Node, from: Id, index: nat)
    requires LocalInv(c, h, i, n) && n.role == Leader && index <= Ack(h, n.term, from)
    ensures LocalInv(c, h, i, n.(members := RecordMatch(n.members, from, index)))
  {
    var n' := n.(members := RecordMatch(n.members, from, index));
    TableKept(c, i, n, n');
    assert LeaderInv(h, i, n') by {
      forall x | 0 <= x < |n'.members| ensures ProgressInv(h, n', n'.members[x]) {
        assert ProgressInv(h, n, n.members[x]);
        assert Key(n.term, n.members[x].id) in h.acks ==> h.acks[Key(n.term, n.members[x].id)] <= |n.log|;
      }
    }
    assert AckInv(h, i, n');
  }

  lemma BacksOff(c: Cluster, h: History, i: Id, n: Node, from: Id)
    requires LocalInv(c, h, i, n) && n.role == Leader
    ensures LocalInv(c, h, i, n.(members := BackOff(n.members, from)))
  {
    var n' := n.(members := BackOff(n.members, from));
    TableKept(c, i, n, n');
    assert LeaderInv(h, i, n') by {
      forall x | 0 <= x < |n'.members| ensures ProgressInv(h, n', n'.members[x]) {
        assert ProgressInv(h, n, n.members[x]);
      }
    }
    assert AckInv(h, i, n');
  }
}
