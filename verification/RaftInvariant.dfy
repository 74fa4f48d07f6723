/** What a node and its packets owe to the history, and why later history cannot break it. */
module RaftInvariant {
  import opened RaftTypes
  import opened RaftStep
  import opened RaftHistory

  function Ids(ms: seq<Member>): set<Id> {
    set x | 0 <= x < |ms| :: ms[x].id
  }

  function IdsIf(ms: seq<Member>, p: Member -> bool): set<Id> {
    set x | 0 <= x < |ms| && p(ms[x]) :: ms[x].id
  }

  /** The node's table is the agreed one, in whatever order it was filled. */
  ghost predicate TableInv(c: Cluster, i: Id, n: Node) {
    && NO_NODE !in c.members
    && i in c.members && n.self == i
    && DistinctIds(n.members)
    && Ids(n.members) == c.members
    && IdsIf(n.members, IsVoter) == c.voters
  }

  ghost predicate BallotInv(h: History, i: Id, n: Node) {
    && (n.votedFor != NO_NODE ==> Key(n.term, i) in h.votes && h.votes[Key(n.term, i)].cand == n.votedFor)
    && (n.votedFor == NO_NODE ==> Key(n.term, i) !in h.votes)
    && (forall key :: key in h.votes && key.id == i ==> key.term <= n.term)
  }

  ghost predicate RealCandidate(n: Node) {
    n.role == Candidate && !n.inPreVote
  }

  ghost predicate VotedFor(h: History, t: nat, v: Id, cand: Id) {
    Key(t, v) in h.votes && h.votes[Key(t, v)].cand == cand
  }

  /** Every vote flag of a candidate in its real round stands for a vote of this term. */
  ghost predicate CandidateInv(h: History, i: Id, n: Node) {
    RealCandidate(n) ==>
      && n.votedFor == i
      && Key(n.term, i) in h.cands && h.cands[Key(n.term, i)] == n.log
      && (forall x :: 0 <= x < |n.members| && IsGranter(n.members[x]) ==> VotedFor(h, n.term, n.members[x].id, i))
  }

  ghost predicate ProgressInv(h: History, n: Node, m: Member) {
    m.matchIndex <= Ack(h, n.term, m.id) && m.nextIndex <= |n.log| + 1
  }

  ghost predicate LeaderInv(h: History, i: Id, n: Node) {
    n.role == Leader ==>
      && n.term in h.ldrs && h.ldrs[n.term].id == i && h.ldrs[n.term].log == n.log
      && (forall x :: 0 <= x < |n.members| ==> ProgressInv(h, n, n.members[x]))
  }

  ghost predicate OfficeHeld(h: History, i: Id, n: Node) {
    n.term in h.ldrs && h.ldrs[n.term].id == i ==> n.role == Leader
  }

  ghost predicate AckInv(h: History, i: Id, n: Node) {
    && (forall a :: a in h.acks && a.id == i ==> a.term <= n.term)
    && (forall a, k {:trigger Retains(h, n.log, a.term, k, n.term), a in h.acks} ::
          a in h.acks && a.id == i && 0 <= k <= h.acks[a] ==> Retains(h, n.log, a.term, k, n.term))
  }

  ghost predicate CommitInv(c: Cluster, h: History, n: Node) {
    c.Commits() ==> n.commit <= |n.log| && Committed(c, h, n.log[..n.commit], n.term)
  }

  ghost predicate AppliedInv(c: Cluster, n: Node) {
    c.Commits() ==> n.lastApplied <= n.commit <= |n.log| && n.applied == Commands(n.log[..n.lastApplied])
  }

  ghost predicate NodeInv(c: Cluster, h: History, i: Id, n: Node) {
    && TableInv(c, i, n)
    && BallotInv(h, i, n)
    && CandidateInv(h, i, n)
    && LeaderInv(h, i, n)
    && OfficeHeld(h, i, n)
    && WellLog(h, n.log, n.term)
    && AckInv(h, i, n)
    && CommitInv(c, h, n)
    && AppliedInv(c, n)
  }

  ghost predicate AppendInv(c: Cluster, h: History, i: Id, m: Msg)
    requires m.Append?
  {
    && m.leader == i
    && m.term in h.ldrs && h.ldrs[m.term].id == i
    && var log := h.ldrs[m.term].log;
       && m.prevIndex + |m.entries| <= |log|
       && m.prevTerm == TermAt(log, m.prevIndex)
       && m.entries == log[m.prevIndex..m.prevIndex + |m.entries|]
       && (c.Commits() ==> m.leaderCommit <= |log| && Committed(c, h, log[..m.leaderCommit], m.term))
  }

  /** What a packet sent by `i` says about the history. */
  ghost predicate PacketInv(c: Cluster, h: History, i: Id, p: Packet) {
    && p.dst != i && p.dst in c.members
    && match p.msg
    case RequestVote(term, preVote, candidate, lastIndex, lastTerm) =>
      && candidate == i
      && (!preVote ==>
        && Key(term, i) in h.cands
        && lastIndex == |h.cands[Key(term, i)]| && lastTerm == LastTerm(h.cands[Key(term, i)]))
    case RequestVoteResp(term, preVote, granted) =>
      granted && !preVote ==> VotedFor(h, term, i, p.dst)
    case Append(_, _, _, _, _, _) => AppendInv(c, h, i, p.msg)
    case AppendResp(term, success, matchIndex) =>
      success ==> Key(term, i) in h.acks && matchIndex <= h.acks[Key(term, i)]
  }

  ghost predicate PacketsInv(c: Cluster, h: History, i: Id, sent: seq<Packet>) {
    forall x {:trigger sent[x]} :: 0 <= x < |sent| ==> PacketInv(c, h, i, sent[x])
  }

  ghost predicate LocalInv(c: Cluster, h: History, i: Id, n: Node) {
    HistInv(c, h) && NodeInv(c, h, i, n) && PacketsInv(c, h, i, n.sent)
  }

  // ---- history only grows, and only node `i` adds to it ----

  ghost predicate OfficeExt(o: Office, p: Office) {
    o.id == p.id && o.voters == p.voters && o.log0 == p.log0 && o.log <= p.log
  }

  ghost predicate BallotsExt(h: History, g: History, i: Id) {
    && (forall key :: key in h.votes ==> key in g.votes && g.votes[key] == h.votes[key])
    && (forall key :: key in g.votes && key.id != i ==> key in h.votes)
    && (forall key :: key in h.cands ==> key in g.cands && g.cands[key] == h.cands[key])
  }

  ghost predicate OfficesExt(h: History, g: History, i: Id) {
    && (forall t :: t in h.ldrs ==> t in g.ldrs && OfficeExt(h.ldrs[t], g.ldrs[t]))
    && (forall t :: t in h.ldrs && h.ldrs[t].id != i ==> t in g.ldrs && g.ldrs[t] == h.ldrs[t])
    && (forall t :: t in g.ldrs && t !in h.ldrs ==> g.ldrs[t].id == i)
  }

  ghost predicate AcksExt(h: History, g: History, i: Id) {
    && (forall a :: a in h.acks ==> a in g.acks && h.acks[a] <= g.acks[a])
    && (forall a :: a in g.acks && a.id != i ==> a in h.acks && g.acks[a] == h.acks[a])
  }

  ghost predicate Ext(h: History, g: History, i: Id) {
    BallotsExt(h, g, i) && OfficesExt(h, g, i) && AcksExt(h, g, i)
  }

  lemma OfficesExtTrans(h1: History, h2: History, h3: History, i: Id)
    requires OfficesExt(h1, h2, i) && OfficesExt(h2, h3, i)
    ensures OfficesExt(h1, h3, i)
  {
  }

  lemma ExtTrans(h1: History, h2: History, h3: History, i: Id)
    requires Ext(h1, h2, i) && Ext(h2, h3, i)
    ensures Ext(h1, h3, i)
  {
    OfficesExtTrans(h1, h2, h3, i);
  }

  lemma AgreesStable(h: History, g: History, i: Id, log: Log, t: nat, k: nat)
    requires Ext(h, g, i) && t in h.ldrs
    requires Agrees(log, h.ldrs[t].log, k)
    ensures Agrees(log, g.ldrs[t].log, k)
  {
    assert g.ldrs[t].log[..k] == h.ldrs[t].log[..k];
  }

  lemma WellLogStable(h: History, g: History, i: Id, log: Log, top: int)
    requires Ext(h, g, i) && WellLog(h, log, top)
    ensures WellLog(g, log, top)
  {
    forall j | 0 <= j < |log| ensures BackedAt(g, log, j) {
      assert BackedAt(h, log, j);
      AgreesStable(h, g, i, log, log[j].term, j + 1);
    }
  }

  lemma LostStable(h: History, g: History, i: Id, u: nat, t: nat, k: nat)
    requires Ext(h, g, i) && Lost(h, u, t, k)
    ensures Lost(g, u, t, k)
  {
    assert g.ldrs[t].log[..k] == h.ldrs[t].log[..k];
  }

  lemma RetainsStable(h: History, g: History, i: Id, log: Log, t: nat, k: nat, top: nat)
    requires Ext(h, g, i) && t in h.ldrs && Retains(h, log, t, k, top)
    ensures Retains(g, log, t, k, top)
  {
    if Agrees(log, h.ldrs[t].log, k) {
      AgreesStable(h, g, i, log, t, k);
    } else {
      var u :| t < u <= top && Lost(h, u, t, k);
      LostStable(h, g, i, u, t, k);
    }
  }

  lemma VoteRetainsStable(h: History, g: History, i: Id, key: Key, t: nat, k: nat)
    requires Ext(h, g, i) && t in h.ldrs && key in h.votes && VoteRetains(h, key, t, k)
    ensures VoteRetains(g, key, t, k)
  {
    if Agrees(h.votes[key].log, h.ldrs[t].log, k) {
      AgreesStable(h, g, i, h.votes[key].log, t, k);
    } else {
      var u :| t < u <= key.term && Lost(h, u, t, k) && (u == key.term ==> key.id !in h.ldrs[u].voters);
      LostStable(h, g, i, u, t, k);
    }
  }

  /** The growth of a history, whoever caused it. */
  ghost predicate Grows(h: History, g: History) {
    && (forall key :: key in h.votes ==> key in g.votes && g.votes[key] == h.votes[key])
    && (forall t :: t in h.ldrs ==> t in g.ldrs && OfficeExt(h.ldrs[t], g.ldrs[t]))
    && (forall a :: a in h.acks ==> a in g.acks && h.acks[a] <= g.acks[a])
  }

  lemma GrowsTrans(h1: History, h2: History, h3: History)
    requires Grows(h1, h2) && Grows(h2, h3)
    ensures Grows(h1, h3)
  {
  }

  lemma CertGrows(c: Cluster, h: History, g: History, t: nat, k: nat)
    requires Grows(h, g) && Cert(c, h, t, k)
    ensures Cert(c, g, t, k)
  {
    SubsetSize(Holders(c, h, t, k), Holders(c, g, t, k));
    assert g.ldrs[t].log[k - 1] == h.ldrs[t].log[k - 1];
  }

  lemma CommittedGrows(c: Cluster, h: History, g: History, s: Log, top: nat)
    requires Grows(h, g) && Committed(c, h, s, top)
    ensures Committed(c, g, s, top)
  {
    if s != [] {
      var t: nat, k: nat :| t <= top && CertCovers(c, h, s, t, k);
      CertGrows(c, h, g, t, k);
      assert g.ldrs[t].log[..|s|] == h.ldrs[t].log[..|s|];
      assert CertCovers(c, g, s, t, k);
    }
  }

  lemma CommittedStable(c: Cluster, h: History, g: History, i: Id, s: Log, top: nat)
    requires Ext(h, g, i) && Committed(c, h, s, top)
    ensures Committed(c, g, s, top)
  {
    CommittedGrows(c, h, g, s, top);
  }

  lemma CommittedPrefix(c: Cluster, h: History, s: Log, top: nat, r: Log, top': nat)
    requires Committed(c, h, s, top) && r <= s && top <= top'
    ensures Committed(c, h, r, top')
  {
    if r != [] {
      var t: nat, k: nat :| t <= top && CertCovers(c, h, s, t, k);
      assert CertCovers(c, h, r, t, k);
    }
  }

  lemma PacketStable(c: Cluster, h: History, g: History, i: Id, j: Id, p: Packet)
    requires Ext(h, g, i) && PacketInv(c, h, j, p)
    ensures PacketInv(c, g, j, p)
  {
    match p.msg
    case Append(t, _, prev, _, entries, commit) =>
      var o, o' := h.ldrs[t].log, g.ldrs[t].log;
      assert o'[prev..prev + |entries|] == o[prev..prev + |entries|];
      if c.Commits() {
        assert o'[..commit] == o[..commit];
        CommittedStable(c, h, g, i, o[..commit], t);
      }
    case RequestVote(_, _, _, _, _) =>
    case RequestVoteResp(_, _, _) =>
    case AppendResp(_, _, _) =>
  }

  lemma PacketsStable(c: Cluster, h: History, g: History, i: Id, j: Id, sent: seq<Packet>)
    requires Ext(h, g, i) && PacketsInv(c, h, j, sent)
    ensures PacketsInv(c, g, j, sent)
  {
    forall x | 0 <= x < |sent| ensures PacketInv(c, g, j, sent[x]) {
      PacketStable(c, h, g, i, j, sent[x]);
    }
  }

  lemma AckInvStable(h: History, g: History, i: Id, j: Id, n: Node)
    requires Ext(h, g, i) && AckInv(h, j, n) && i != j
    ensures AckInv(g, j, n)
  {
    forall a, k | a in g.acks && a.id == j && 0 <= k <= g.acks[a]
      ensures Retains(g, n.log, a.term, k, n.term)
    {
      assert Retains(h, n.log, a.term, k, n.term);
      RetainsStable(h, g, i, n.log, a.term, k, n.term);
    }
  }

  /** A node that did not move keeps its invariant when another node adds to the history. */
  lemma OtherNode(c: Cluster, h: History, g: History, i: Id, j: Id, n: Node)
    requires Ext(h, g, i) && i != j && NodeInv(c, h, j, n)
    ensures NodeInv(c, g, j, n)
  {
    WellLogStable(h, g, i, n.log, n.term);
    AckInvStable(h, g, i, j, n);
    if c.Commits() { CommittedStable(c, h, g, i, n.log[..n.commit], n.term); }
    assert BallotInv(g, j, n);
    assert CandidateInv(g, j, n);
    assert LeaderInv(g, j, n);
  }

  // ---- what carries over in the history invariant ----

  lemma OldVote(h: History, g: History, i: Id, key: Key)
    requires Ext(h, g, i) && key in h.votes && VoteInv(h, key)
    ensures VoteInv(g, key)
  {
    WellLogStable(h, g, i, h.votes[key].log, key.term);
  }

  lemma OldCand(h: History, g: History, i: Id, key: Key)
    requires Ext(h, g, i) && key in h.cands && CandInv(h, key)
    ensures CandInv(g, key)
  {
    WellLogStable(h, g, i, h.cands[key], key.term - 1);
  }

  lemma OldOffice(c: Cluster, h: History, g: History, i: Id, t: nat)
    requires Ext(h, g, i) && t in h.ldrs && OfficeInv(c, h, t) && g.ldrs[t] == h.ldrs[t]
    ensures OfficeInv(c, g, t)
  {
    WellLogStable(h, g, i, h.ldrs[t].log, t);
  }

  /** Growing only the acknowledgements of `i` in terms no vote of `i` has passed keeps the history invariant. */
  lemma HistGrown(c: Cluster, h: History, g: History, i: Id)
    requires HistInv(c, h) && Ext(h, g, i)
    requires forall key :: key in g.votes && key !in h.votes ==> VoteInv(g, key)
    requires forall key :: key in g.cands && key !in h.cands ==> CandInv(g, key)
    requires forall t :: t in g.ldrs && (t !in h.ldrs || g.ldrs[t] != h.ldrs[t]) ==> OfficeInv(c, g, t)
    requires AcksInv(g)
    requires forall a, key, k {:trigger VoteRetains(g, key, a.term, k), a in g.acks} ::
      a in g.acks && key in g.votes && a.id == key.id && a.term < key.term && 0 <= k <= g.acks[a]
      && (key !in h.votes || a !in h.acks || k > h.acks[a]) ==>
        VoteRetains(g, key, a.term, k)
    ensures HistInv(c, g)
  {
    forall key | key in g.votes ensures VoteInv(g, key) {
      if key in h.votes { assert VoteInv(h, key); OldVote(h, g, i, key); }
    }
    forall key | key in g.cands ensures CandInv(g, key) {
      if key in h.cands { assert CandInv(h, key); OldCand(h, g, i, key); }
    }
    forall t | t in g.ldrs ensures OfficeInv(c, g, t) {
      if t in h.ldrs && g.ldrs[t] == h.ldrs[t] { assert OfficeInv(c, h, t); OldOffice(c, h, g, i, t); }
    }
    forall a, key, k | a in g.acks && key in g.votes && a.id == key.id && a.term < key.term && 0 <= k <= g.acks[a]
      ensures VoteRetains(g, key, a.term, k)
    {
      if key in h.votes && a in h.acks && k <= h.acks[a] {
        assert VoteRetains(h, key, a.term, k);
        VoteRetainsStable(h, g, i, key, a.term, k);
      }
    }
  }

  /** The special case where node `i`, which has voted in no later term, extends office `t` or
      acknowledges more of it. */
  lemma OfficeGrown(c: Cluster, h: History, g: History, i: Id, t: nat)
    requires HistInv(c, h) && Ext(h, g, i)
    requires g.votes == h.votes && g.cands == h.cands
    requires forall u :: u in g.ldrs && u != t ==> u in h.ldrs && g.ldrs[u] == h.ldrs[u]
    requires t in g.ldrs && OfficeInv(c, g, t)
    requires forall a :: a in g.acks && a != Key(t, i) ==> a in h.acks && g.acks[a] == h.acks[a]
    requires Key(t, i) in g.acks ==> g.acks[Key(t, i)] <= |g.ldrs[t].log|
    requires forall key :: key in h.votes && key.id == i ==> key.term <= t
    ensures HistInv(c, g)
  {
    HistGrown(c, h, g, i);
  }
}
