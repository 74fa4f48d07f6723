/** Why append replies must be fresh: a run of five voters in which one success reply of an older term lets a leader
    commit an entry that a later leader does not have.

    Node 1 leads term 1 and node 2 acknowledges its two entries; the reply stays on the way.  Node 5 leads term 2 and
    overwrites node 1's log with a single entry.  Node 1 leads term 3 with a new second entry, which node 3 has.  Now
    the old reply arrives: counted with node 3's it makes a majority, and the entry is committed though two nodes of
    five have it. */
module RaftStaleAck {
  import opened Bytes
  import opened RaftTypes
  import opened RaftStep
  import opened RaftHistory
  import opened RaftInvariant
  import opened RaftSystem
  import opened RaftTheorems
  import opened RaftScenario

  const FIVE: Cluster := Voters(5, Loose)

  const N1: Entry := Entry(1, 1, Noop, [])
  const C2: Entry := Entry(1, 2, Normal, [])
  const N2: Entry := Entry(2, 1, Noop, [])
  const N3: Entry := Entry(3, 2, Noop, [])
  const N4: Entry := Entry(4, 2, Noop, [])

  ghost predicate Has5(s: System) { 1 in s.nodes && 2 in s.nodes && 3 in s.nodes && 4 in s.nodes && 5 in s.nodes }

  const OLD_ACK: Msg := AppendResp(1, true, 2)

  // ---- term 1 ----

  ghost predicate AfterTerm1(s: System) {
    && Has5(s) && At(s.nodes[1], 1, 5, 1, [N1, C2])
    && Rests(s.nodes[2], 2, 5, 1, [N1, C2]) && Packet(1, OLD_ACK) in s.nodes[2].sent
    && Rests(s.nodes[3], 3, 5, 1, []) && Rests(s.nodes[4], 4, 5, 0, []) && Rests(s.nodes[5], 5, 5, 1, [])
  }

  lemma StartFacts()
    ensures var s := Start(5);
      && Has5(s) && CanStand(s.nodes[1], 1, 5, 0, [])
      && Rests(s.nodes[2], 2, 5, 0, []) && Rests(s.nodes[4], 4, 5, 0, [])
      && CanVote(s.nodes[3], 3, 5, 0, [], 0, []) && CanVote(s.nodes[5], 5, 5, 0, [], 0, [])
  {
    Starts(5, Loose);
  }

  lemma Two()
    ensures var none: Log := []; none + [NoopAt(1, none)] == [N1] && [N1] + [CommandAt(1, [N1], [])] == [N1, C2]
    ensures From(1, 1, [N1, C2], 1, 0) == Append(1, 1, 0, 0, [N1, C2], 0)
    ensures PlaceEntries([], 1, [N1, C2]) == [N1, C2]
  {
    var none: Log := [];
    assert [N1, C2][0..2] == [N1, C2];
    PlaceAtEnd([], [N1, C2]);
    assert none + [N1, C2] == [N1, C2];
  }

  lemma Term1() returns (t: System)
    ensures Reaches(FIVE, Start(5), t) && AfterTerm1(t)
  {
    StartFacts();
    Two();
    hide Start, At, Reaches, Recv, Propose, PlaceEntries, LogOk;
    var s := Start(5);
    var s1 := Elect2(FIVE, s, 1, 3, 5, 0, [], 0, [], 0, []);
    ProposesAlone(s1.nodes[1], 1, 5, 1, [N1], 1, []);
    var s2 := Command(FIVE, s1, 1, []);
    var m := Append(1, 1, 0, 0, [N1, C2], 0);
    assert Packet(2, m) in s2.nodes[1].sent;
    Accepts(s2.nodes[2], 2, 5, 0, [], 1, m, [N1, C2]);
    t := Hear(FIVE, s2, 1, 2, m);
    ReachesTrans(FIVE, s, s1, s2);
    ReachesTrans(FIVE, s, s2, t);
  }

  // ---- term 2 ----

  ghost predicate AfterTerm2(s: System) {
    && Has5(s) && Rests(s.nodes[1], 1, 5, 2, [N2])
    && Rests(s.nodes[2], 2, 5, 1, [N1, C2]) && Packet(1, OLD_ACK) in s.nodes[2].sent
    && Rests(s.nodes[3], 3, 5, 2, [N2]) && Rests(s.nodes[4], 4, 5, 2, []) && At(s.nodes[5], 5, 5, 2, [N2])
  }

  lemma Overwrites()
    ensures var none: Log := []; none + [NoopAt(2, none)] == [N2]
    ensures First(2, 5, []) == Append(2, 5, 0, 0, [N2], 0)
    ensures PlaceEntries([N1, C2], 1, [N2]) == [N2] && PlaceEntries([], 1, [N2]) == [N2]
  {
    assert [N1, C2][..0] == [];
    assert [N2][1..] == [];
  }

  lemma Term2(s: System) returns (t: System)
    requires AfterTerm1(s)
    ensures Reaches(FIVE, s, t) && AfterTerm2(t)
  {
    Overwrites();
    hide At, Reaches, Recv, PlaceEntries;
    var s1 := Elect2(FIVE, s, 5, 3, 4, 1, [], 1, [], 0, []);
    var m := Append(2, 5, 0, 0, [N2], 0);
    assert Packet(1, m) in s1.nodes[5].sent && Packet(3, m) in s1.nodes[5].sent;
    Accepts(s1.nodes[1], 1, 5, 1, [N1, C2], 5, m, [N2]);
    var s2 := Hear(FIVE, s1, 5, 1, m);
    Accepts(s2.nodes[3], 3, 5, 2, [], 5, m, [N2]);
    t := Hear(FIVE, s2, 5, 3, m);
    ReachesTrans(FIVE, s, s1, s2);
    ReachesTrans(FIVE, s, s2, t);
  }

  // ---- term 3 ----

  /** Node 1 leads term 3; only node 3 has acknowledged its second entry. */
  ghost predicate Counted(x: Node) {
    && At(x, 1, 5, 3, [N2, N3]) && x.role == Leader
    && forall k :: 0 <= k < 5 ==> x.members[k].matchIndex == if k == 0 || k == 2 then 2 else 0
  }

  ghost predicate AfterTerm3(s: System) {
    && Has5(s) && Counted(s.nodes[1]) && ToAll(s.nodes[1], 1, 5, Ask(3, false, 1, [N2]))
    && Rests(s.nodes[2], 2, 5, 1, [N1, C2]) && Packet(1, OLD_ACK) in s.nodes[2].sent
    && Rests(s.nodes[4], 4, 5, 3, []) && At(s.nodes[5], 5, 5, 2, [N2])
  }

  lemma Second()
    ensures [N2] + [NoopAt(3, [N2])] == [N2, N3] && First(3, 1, [N2]) == Append(3, 1, 1, 2, [N3], 0)
    ensures PlaceEntries([N2], 2, [N3]) == [N2, N3]
  {
    PlaceAtEnd([N2], [N3]);
  }

  lemma OneAck(x: Node)
    requires Leads(x, 1, 5, 3, [N2, N3], 2)
    ensures var r := Recv(x, 3, AppendResp(3, true, 2)); Counted(r) && r.sent == x.sent
  {
    FullTable(x.members, 5);
    var x1 := x.(members := RecordMatch(x.members, 3, 2));
    assert Counted(x1);
    forall k: nat | 0 < k ensures |MatchedBy(x1.members, k)| < 3 { HoldersBelow(x1.members, {1, 3}, k); }
    hide CommitScan, RecordMatch;
    ScanStays(x1, 5, 2);
  }

  lemma Term3(s: System) returns (t: System)
    requires AfterTerm2(s)
    ensures Reaches(FIVE, s, t) && AfterTerm3(t)
  {
    Second();
    hide At, Reaches, Recv, PlaceEntries, Counted;
    var s1 := Elect2(FIVE, s, 1, 3, 4, 2, [N2], 2, [N2], 2, []);
    var m := Append(3, 1, 1, 2, [N3], 0);
    assert Packet(3, m) in s1.nodes[1].sent;
    Accepts(s1.nodes[3], 3, 5, 3, [N2], 1, m, [N2, N3]);
    var s2 := Hear(FIVE, s1, 1, 3, m);
    OneAck(s2.nodes[1]);
    t := HearAck(s2);
    ReachesTrans(FIVE, s, s1, s2);
    ReachesTrans(FIVE, s, s2, t);
  }

  lemma HearAck(s: System) returns (t: System)
    requires Has5(s) && Leads(s.nodes[1], 1, 5, 3, [N2, N3], 2) && Packet(1, AppendResp(3, true, 2)) in s.nodes[3].sent
    ensures Reaches(FIVE, s, t) && Becomes(s, t, 1, Recv(s.nodes[1], 3, AppendResp(3, true, 2)))
  {
    hide Recv;
    t := Hear(FIVE, s, 3, 1, AppendResp(3, true, 2));
  }

  // ---- the old reply ----

  /** An append reply of an older term is counted like one of this term. */
  lemma AckTermIgnored(n: Node, src: Id, t: nat, ok: bool, at: nat)
    requires t <= n.term
    ensures Recv(n, src, AppendResp(t, ok, at)) == Recv(n, src, AppendResp(n.term, ok, at))
  {
  }

  lemma StaleCommits(x: Node)
    requires Counted(x)
    ensures var r := Recv(x, 2, OLD_ACK);
      r.role == Leader && r.term == 3 && r.log == [N2, N3] && r.commit == 2 && r.sent == x.sent
    ensures !FreshFor(x, OLD_ACK)
  {
    AckTermIgnored(x, 2, 1, true, 2);
    FullTable(x.members, 5);
    var ms := RecordMatch(x.members, 2, 2);
    assert Full(ms, 5);
    HoldersCount(ms, 5, 2);
    forall i | i in {1, 2, 3} ensures i in MatchedBy(ms, 2) { assert HoldsUpTo(2)(ms[i - 1]) && ms[i - 1].id == i; }
    SubsetSize({1, 2, 3}, MatchedBy(ms, 2));
    assert CommitScan(x.(members := ms), 2) == 2;
    hide Commands;
  }

  // ---- term 4 ----

  lemma Fourth()
    ensures [N2] + [NoopAt(4, [N2])] == [N2, N4]
  {
  }

  /** Node 5, which has heard nothing of the committed entry, leads term 4. */
  lemma Term4(s: System) returns (t: System)
    requires Has5(s) && ToAll(s.nodes[1], 1, 5, Ask(3, false, 1, [N2]))
    requires Rests(s.nodes[2], 2, 5, 1, [N1, C2]) && Rests(s.nodes[4], 4, 5, 3, []) && At(s.nodes[5], 5, 5, 2, [N2])
    ensures Reaches(FIVE, s, t) && 5 in t.nodes && Leads(t.nodes[5], 5, 5, 4, [N2, N4], 2)
  {
    Fourth();
    hide At, Reaches, ToAll, Leads;
    var s1 := VoteOne(FIVE, s, 1, 5, 5, 3, [N2], 2, [N2]);
    t := Elect2(FIVE, s1, 5, 2, 4, 3, [N2], 1, [N1, C2], 3, []);
    ReachesTrans(FIVE, s, s1, t);
  }

  /** Leader `i` commits `k` entries on a reply that is not fresh, and a later leader `j` does not have them. */
  ghost predicate Breaks(c: Cluster, s: System, e: Event, t: System, i: Id, k: nat, j: Id) {
    && Enabled(s, e) && !Fresh(s, e) && LeaderCommitsAt(s, e, i, k)
    && Reaches(c, Step(s, e), t) && j in t.nodes && t.nodes[j].role == Leader
    && t.nodes[j].term >= NodeAfter(s, e).term
    && k <= |NodeAfter(s, e).log| && !(NodeAfter(s, e).log[..k] <= t.nodes[j].log)
  }

  lemma OldReply(s: System) returns (e: Event)
    requires AfterTerm3(s)
    ensures Enabled(s, e) && !Fresh(s, e) && LeaderCommitsAt(s, e, 1, 2)
    ensures NodeAfter(s, e).term == 3 && NodeAfter(s, e).log == [N2, N3] && NodeAfter(s, e).sent == s.nodes[1].sent
    ensures Step(s, e).nodes == s.nodes[1 := NodeAfter(s, e)]
  {
    StaleCommits(s.nodes[1]);
    hide Recv, FreshFor, ToAll;
    var sent := s.nodes[2].sent;
    var at :| 0 <= at < |sent| && sent[at] == Packet(1, OLD_ACK);
    e := Delivers(2, at);
  }

  /** Freshness of append replies is needed: after a run that meets every hypothesis, one success reply of an older
      term makes a leader commit an entry, and going on with fresh replies only, a later leader lacks it. */
  lemma StaleAckLosesCommitted()
    ensures Init(FIVE, Start(5))
    ensures exists s, e, t, i, k, j :: Reaches(FIVE, Start(5), s) && Breaks(FIVE, s, e, t, i, k, j)
  {
    Starts(5, Loose);
    hide Reaches, Rests, At, Start, Init;
    var s1 := Term1();
    var s2 := Term2(s1);
    ReachesTrans(FIVE, Start(5), s1, s2);
    var s := Term3(s2);
    ReachesTrans(FIVE, Start(5), s2, s);
    var e := OldReply(s);
    hide Enabled, Fresh, Step, NodeAfter, LeaderCommitsAt, Counted;
    StillToAll(s.nodes[1], Step(s, e).nodes[1], 1, 5, Ask(3, false, 1, [N2]));
    var t := Term4(Step(s, e));
    Lost(s, e, t);
    assert Breaks(FIVE, s, e, t, 1, 2, 5);
  }

  lemma Lost(s: System, e: Event, t: System)
    requires Enabled(s, e) && NodeAfter(s, e).term == 3 && NodeAfter(s, e).log == [N2, N3]
    requires 5 in t.nodes && Leads(t.nodes[5], 5, 5, 4, [N2, N4], 2)
    ensures t.nodes[5].role == Leader && t.nodes[5].term >= NodeAfter(s, e).term
    ensures 2 <= |NodeAfter(s, e).log| && !(NodeAfter(s, e).log[..2] <= t.nodes[5].log)
  {
    hide NodeAfter, Enabled;
    assert [N2, N3][..2] == [N2, N3];
    assert [N2, N3][1] != [N2, N4][1];
  }
}
