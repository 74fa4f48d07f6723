/** Every handler of the Raft core keeps the invariant, for the inputs a run may feed it. */
module RaftHandlers {
  import opened RaftTypes
  import opened RaftStep
  import opened RaftHistory
  import opened RaftInvariant
  import opened RaftMerge
  import opened RaftPreserve
  import opened Bytes

  // ---- AppendEntries at a follower ----

  lemma WellLogPrefix(h: History, g: Log, top: int, k: nat)
    requires WellLog(h, g, top) && k <= |g|
    ensures WellLog(h, g[..k], top)
  {
    forall j | 0 <= j < k ensures BackedAt(h, g[..k], j) {
      assert BackedAt(h, g, j);
      assert g[..k][..j + 1] == g[..j + 1];
    }
  }

  /** The log a follower ends up with after an append that passed the consistency check. */
  ghost function Placed(n: Node, m: Msg): Log
    requires m.Append?
  {
    PlaceEntries(n.log, m.prevIndex + 1, m.entries)
  }

  lemma AppendMerges(c: Cluster, h: History, i: Id, n: Node, src: Id, m: Msg)
    requires HistInv(c, h) && WellLog(h, n.log, n.term)
    requires src in c.members && m.Append? && src != i && AppendInv(c, h, src, m) && PrevMatches(n.log, m)
    ensures Merged(n.log, h.ldrs[m.term].log, m.prevIndex + |m.entries|, Placed(n, m))
  {
    var l := h.ldrs[m.term].log;
    assert OfficeInv(c, h, m.term);
    forall j | 0 <= j < |n.log| && j < |l| && n.log[j].term == l[j].term ensures Agrees(n.log, l, j + 1) {
      LogMatching(h, n.log, n.term, l, m.term, j);
    }
    if m.prevIndex > 0 { assert n.log[m.prevIndex - 1].term == l[m.prevIndex - 1].term; }
    forall j | 0 <= j < |l| ensures l[j].index == j + 1 { assert BackedAt(h, l, j); }
    PlaceEntriesMerge(n.log, l, m.prevIndex, m.prevIndex + |m.entries|);
  }

  ghost function WithAck(h: History, t: nat, i: Id, k: nat): History {
    h.(acks := h.acks[Key(t, i) := if k > Ack(h, t, i) then k else Ack(h, t, i)])
  }

  lemma AckHist(c: Cluster, h: History, i: Id, n: Node, k: nat)
    requires HistInv(c, h) && NodeInv(c, h, i, n)
    requires n.term in h.ldrs && k <= |h.ldrs[n.term].log|
    ensures Ext(h, WithAck(h, n.term, i, k), i) && HistInv(c, WithAck(h, n.term, i, k))
  {
    var g := WithAck(h, n.term, i, k);
    assert Ext(h, g, i);
    assert OfficeInv(c, h, n.term);
    OldOffice(c, h, g, i, n.term);
    OfficeGrown(c, h, g, i, n.term);
  }

  /** Replacing the log by a merge with the leader's log honours all acknowledgements, old and new. */
  lemma MergeAcks(h: History, g: History, i: Id, n: Node, r: Log, k: nat)
    requires AckInv(h, i, n) && n.term in h.ldrs && Merged(n.log, h.ldrs[n.term].log, k, r)
    requires h.ldrs[n.term].log0 <= h.ldrs[n.term].log
    requires g == WithAck(h, n.term, i, k)
    ensures AckInv(g, i, n.(log := r))
  {
    var l := h.ldrs[n.term].log;
    var n' := n.(log := r);
    forall a, x | a in g.acks && a.id == i && 0 <= x <= g.acks[a] ensures Retains(g, r, a.term, x, n.term) {
      if a in h.acks && x <= h.acks[a] {
        assert Retains(h, n.log, a.term, x, n.term);
        if Agrees(n.log, h.ldrs[a.term].log, x) {
          if Agrees(h.ldrs[n.term].log, h.ldrs[a.term].log, x) {
            AgreesTrans(n.log, h.ldrs[a.term].log, l, x);
            AgreesTrans(r, l, h.ldrs[a.term].log, x);
          } else {
            assert Lost(g, n.term, a.term, x);
          }
        } else {
          var u :| a.term < u <= n.term && Lost(h, u, a.term, x);
          assert Lost(g, u, a.term, x);
        }
      } else {
        AgreesLess(r, l, k, x);
      }
    }
  }

  /** A merge with the leader of the current term never touches what was committed. */
  lemma MergeCommit(c: Cluster, h: History, n: Node, r: Log, k: nat)
    requires HistInv(c, h) && CommitInv(c, h, n) && AppliedInv(c, n) && c.Commits()
    requires n.term in h.ldrs && Merged(n.log, h.ldrs[n.term].log, k, r)
    ensures n.commit <= |r| && r[..n.commit] == n.log[..n.commit]
    ensures AppliedInv(c, n.(log := r))
  {
    CommittedInLeader(c, h, n.log[..n.commit], n.term, n.term);
    assert Agrees(n.log, h.ldrs[n.term].log, n.commit);
    assert Agrees(r, h.ldrs[n.term].log, n.commit);
    assert r[..n.lastApplied] == r[..n.commit][..n.lastApplied];
    assert n.log[..n.lastApplied] == n.log[..n.commit][..n.lastApplied];
  }

  lemma MergeNode(c: Cluster, h: History, g: History, i: Id, n: Node, r: Log, k: nat)
    requires HistInv(c, h) && NodeInv(c, h, i, n) && n.role == Follower
    requires n.term in h.ldrs && k <= |h.ldrs[n.term].log| && Merged(n.log, h.ldrs[n.term].log, k, r)
    requires g == WithAck(h, n.term, i, k) && Ext(h, g, i)
    ensures NodeInv(c, g, i, n.(log := r))
  {
    var n' := n.(log := r);
    assert OfficeInv(c, h, n.term);
    MergeAcks(h, g, i, n, r, k);
    if c.Commits() {
      MergeCommit(c, h, n, r, k);
      CommittedStable(c, h, g, i, n.log[..n.commit], n.term);
    }
    if r != n.log { WellLogPrefix(h, h.ldrs[n.term].log, n.term, k); }
    WellLogStable(h, g, i, r, n.term);
  }

  /** The entries an append leaves in the log up to its new commit index are the leader's. */
  ghost predicate Covered(h: History, n: Node, m: Msg)
    requires m.Append?
  {
    m.leaderCommit > n.commit && m.term in h.ldrs ==>
      var r := Placed(n, m);
      Agrees(r, h.ldrs[m.term].log, FollowerCommit(n.commit, |r|, m.leaderCommit))
  }

  lemma FollowerCommits(c: Cluster, h: History, i: Id, n: Node, m: Msg)
    requires LocalInv(c, h, i, n)
    requires m.Append? && m.term == n.term && m.term in h.ldrs
    requires m.leaderCommit > n.commit
    requires c.Commits() ==>
      && m.leaderCommit <= |h.ldrs[m.term].log|
      && Committed(c, h, h.ldrs[m.term].log[..m.leaderCommit], m.term)
      && Agrees(n.log, h.ldrs[m.term].log, FollowerCommit(n.commit, |n.log|, m.leaderCommit))
    ensures LocalInv(c, h, i, ApplyCommitted(n.(commit := FollowerCommit(n.commit, |n.log|, m.leaderCommit))))
  {
    var k := FollowerCommit(n.commit, |n.log|, m.leaderCommit);
    var l := h.ldrs[m.term].log;
    if c.Commits() {
      assert l[..k] == l[..m.leaderCommit][..k];
      CommittedPrefix(c, h, l[..m.leaderCommit], m.term, n.log[..k], n.term);
    }
    SetsCommit(c, h, i, n, k);
    Applies(c, h, i, n.(commit := k));
  }

  lemma AppendNotToLeader(c: Cluster, h: History, i: Id, n: Node, src: Id, m: Msg)
    requires LocalInv(c, h, i, n) && src in c.members && m.Append? && src != i && AppendInv(c, h, src, m)
    requires m.term >= n.term
    ensures LocalInv(c, h, i, BecomeFollower(n, m.term, m.leader))
  {
    StepDown(c, h, i, n, m.term, m.leader);
  }

  /** An append that passes the consistency check. */
  lemma AppendAccepted(c: Cluster, h: History, i: Id, n: Node, src: Id, m: Msg) returns (g: History)
    requires LocalInv(c, h, i, n) && n.role == Follower && !n.inPreVote && n.term == m.term
    requires src in c.members && m.Append? && src != i && AppendInv(c, h, src, m) && PrevMatches(n.log, m)
    requires (c.Commits() ==> Covered(h, n, m))
    ensures g == WithAck(h, m.term, i, m.prevIndex + |m.entries|)
    ensures Ext(h, g, i) && LocalInv(c, g, i, HandleAppend(n, m))
  {
    var k := m.prevIndex + |m.entries|;
    g := WithAck(h, n.term, i, k);
    AppendMerges(c, h, i, n, src, m);
    AckHist(c, h, i, n, k);
    var n2 := n.(log := Placed(n, m));
    MergeNode(c, h, g, i, n, n2.log, k);
    PacketsStable(c, h, g, i, i, n.sent);
    AppendFinish(c, h, g, i, n, src, m);
  }

  lemma AppendFinish(c: Cluster, h: History, g: History, i: Id, n: Node, src: Id, m: Msg)
    requires n.role == Follower && !n.inPreVote && src in c.members && src != i && m.Append? && n.term == m.term
    requires AppendInv(c, h, src, m) && PrevMatches(n.log, m) && (c.Commits() ==> Covered(h, n, m))
    requires g == WithAck(h, m.term, i, m.prevIndex + |m.entries|) && Ext(h, g, i)
    requires LocalInv(c, g, i, n.(log := Placed(n, m)))
    ensures LocalInv(c, g, i, HandleAppend(n, m))
  {
    hide LocalInv;
    var n1 := BecomeFollower(n, m.term, m.leader);
    var n2 := n1.(log := Placed(n, m));
    Quiet(c, g, i, n.(log := Placed(n, m)), n2);
    var n3 := n2.(commit := FollowerCommit(n2.commit, |n2.log|, m.leaderCommit));
    if m.leaderCommit > n2.commit {
      if c.Commits() { CommittedStable(c, h, g, i, h.ldrs[m.term].log[..m.leaderCommit], m.term); }
      FollowerCommits(c, g, i, n2, m);
      SendOne(c, g, i, ApplyCommitted(n3), m.leader, AppendResp(m.term, true, m.prevIndex + |m.entries|));
    } else {
      assert n3 == n2;
      SendOne(c, g, i, n3, m.leader, AppendResp(m.term, true, m.prevIndex + |m.entries|));
    }
  }

  /** Any append from a real leader, given that it covers the commit index it sets. */
  lemma AppendHandled(c: Cluster, h: History, i: Id, n: Node, src: Id, m: Msg) returns (g: History)
    requires LocalInv(c, h, i, n) && src in c.members && m.Append? && src != i && AppendInv(c, h, src, m)
    requires c.Commits() && m.term >= n.term && PrevMatches(n.log, m) ==> Covered(h, n, m)
    ensures Ext(h, g, i) && LocalInv(c, g, i, HandleAppend(n, m))
    ensures g == if m.term >= n.term && PrevMatches(n.log, m)
                 then WithAck(h, m.term, i, m.prevIndex + |m.entries|) else h
  {
    hide LocalInv;
    g := h;
    if m.term < n.term {
      SendOne(c, h, i, n, m.leader, AppendResp(n.term, false, 0));
    } else {
      AppendNotToLeader(c, h, i, n, src, m);
      var n1 := BecomeFollower(n, m.term, m.leader);
      if PrevMatches(n.log, m) {
        g := AppendAccepted(c, h, i, n1, src, m);
        assert HandleAppend(n1, m) == HandleAppend(n, m);
      } else {
        SendOne(c, h, i, n1, m.leader, AppendResp(n1.term, false, 0));
      }
    }
  }

  // ---- votes ----

  lemma RequestHandled(c: Cluster, h: History, i: Id, n: Node, src: Id, m: Msg) returns (g: History)
    requires LocalInv(c, h, i, n) && m.RequestVote? && src in c.members && src != i
    requires PacketInv(c, h, src, Packet(i, m))
    ensures Ext(h, g, i) && LocalInv(c, g, i, HandleRequestVote(n, m))
    ensures g.ldrs == h.ldrs && g.acks == h.acks
  {
    g := h;
    if m.preVote {
      SendOne(c, h, i, n, m.candidate,
              RequestVoteResp(n.term, true, m.term > n.term && LogOk(n.log, m.lastIndex, m.lastTerm)
                                            && n.electionElapsed >= n.cfg.electionBase));
    } else {
      var n1 := if m.term > n.term then BecomeFollower(n, m.term, NO_NODE) else n;
      if m.term > n.term { StepDown(c, h, i, n, m.term, NO_NODE); }
      var grant := m.term >= n1.term && (n1.votedFor == NO_NODE || n1.votedFor == src)
                   && LogOk(n1.log, m.lastIndex, m.lastTerm);
      if grant {
        if n1.votedFor == NO_NODE { g := CastVote(c, h, i, n1, src); }
        var n2 := n1.(votedFor := src);
        Quiet(c, g, i, n2, n2.(electionElapsed := 0));
        SendOne(c, g, i, n2.(electionElapsed := 0), src, RequestVoteResp(n1.term, false, true));
      } else {
        SendOne(c, h, i, n1, src, RequestVoteResp(n1.term, false, false));
      }
    }
  }

  lemma BecomesLeader(c: Cluster, h: History, i: Id, n: Node) returns (g: History)
    requires LocalInv(c, h, i, n) && RealCandidate(n)
    requires CountIf(n.members, IsGranter) >= Quorum(n.members)
    ensures Ext(h, g, i) && LocalInv(c, g, i, BecomeLeader(n))
    ensures n.term !in h.ldrs && n.term in g.ldrs && g.ldrs[n.term].log0 == n.log
    ensures forall a :: a in g.acks && a !in h.acks ==> a == Key(n.term, i)
  {
    hide LocalInv;
    var h1 := WinOffice(c, h, i, n);
    var n1 := TakeOffice(n);
    g := h1;
    var n2 := n1;
    if |n1.log| < MAX_LOG {
      g := LeaderAppends(c, h1, i, n1, Noop, []);
      n2 := LeaderAppend(n1, Noop, []);
      ExtTrans(h, h1, g, i);
    }
    Broadcasts(c, g, i, n2);
  }

  lemma RoundOpened(c: Cluster, h: History, i: Id, n: Node) returns (g: History)
    requires LocalInv(c, h, i, n)
    ensures Ext(h, g, i) && LocalInv(c, g, i, BroadcastVote(OpenRealRound(n), false, n.term + 1))
    ensures g.acks == h.acks
  {
    g := OpenRound(c, h, i, n);
    var n1 := OpenRealRound(n);
    var m := RequestVote(n1.term, false, i, |n.log|, LastTerm(n.log));
    VotePackets(c, g, i, n1.members, m);
    Sends(c, g, i, n1, ToVoters(n1.members, i, m));
  }

  lemma VoteRespHandled(c: Cluster, h: History, i: Id, n: Node, m: Msg) returns (g: History)
    requires LocalInv(c, h, i, n) && m.RequestVoteResp?
    ensures Ext(h, g, i) && LocalInv(c, g, i, HandleRequestVoteResp(n, m))
    ensures var n' := HandleRequestVoteResp(n, m);
      && (n.role != Leader && n'.role == Leader ==> n'.term in g.ldrs && g.ldrs[n'.term].log0 == n.log)
      && (forall a :: a in g.acks && a !in h.acks ==> a == Key(n'.term, i) && n'.role == Leader)
  {
    hide LocalInv;
    g := h;
    if !m.preVote && m.term > n.term {
      StepDown(c, h, i, n, m.term, NO_NODE);
    } else if n.role != Candidate || m.preVote != n.inPreVote || !m.granted {
    } else if CountIf(n.members, IsGranter) < Quorum(n.members) {
    } else if n.inPreVote {
      g := RoundOpened(c, h, i, n);
    } else {
      g := BecomesLeader(c, h, i, n);
    }
  }

  // ---- replies to appends ----

  lemma AppendRespHandled(c: Cluster, h: History, i: Id, n: Node, from: Id, m: Msg)
    requires LocalInv(c, h, i, n) && from in c.members && from != i && m.AppendResp?
    requires PacketInv(c, h, from, Packet(i, m))
    requires m.success && n.role == Leader ==> m.term >= n.term
    ensures LocalInv(c, h, i, HandleAppendResp(n, from, m))
    ensures var n' := HandleAppendResp(n, from, m);
      n'.role == Leader && n'.commit > n.commit ==> Cert(c, h, n'.term, n'.commit)
  {
    if m.term > n.term {
      StepDown(c, h, i, n, m.term, NO_NODE);
    } else if n.role == Leader && Find(n.members, from) < |n.members| {
      var k := Find(n.members, from);
      if m.success {
        RecordsMatch(c, h, i, n, from, m.matchIndex);
        LeaderCommits(c, h, i, n.(members := RecordMatch(n.members, from, m.matchIndex)));
      } else if n.members[k].nextIndex > 1 {
        BacksOff(c, h, i, n, from);
        var n1 := n.(members := BackOff(n.members, from));
        assert ProgressInv(h, n1, n1.members[k]);
        AppendPacket(c, h, i, n1, n1.members[k]);
        SendOne(c, h, i, n1, from, AppendTo(n1, n1.members[k]));
      }
    }
  }
}
