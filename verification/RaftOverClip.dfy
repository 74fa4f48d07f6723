/** Why appends must be delivered in order, or the commit index clipped as in the paper: a run of three voters in
    which every reply is fresh and two nodes apply different commands.

    Node 1 leads term 1, spreads entries 1 to 8 and keeps a ninth.  Node 3 leads term 2 with a ninth of its own, and
    node 2 leads term 3 and commits eleven entries through node 3.  Node 1's one refusal, repeated, takes node 2 back
    to entry 1, and the batch 1 to 8 lets node 1 commit its own ninth. */
module RaftOverClip {
  import opened Bytes
  import opened RaftTypes
  import opened RaftStep
  import opened RaftHistory
  import opened RaftInvariant
  import opened RaftSystem
  import opened RaftScenario

  const TRIO: Cluster := Voters(3, Loose)

  // ---- the logs ----

  /** The first `k` entries of term 1. */
  function P(k: pos): (log: Log)
    ensures |log| == k && forall j :: 0 <= j < k ==> log[j].term == 1 && log[j].index == j + 1
  {
    if k == 1 then [NoopAt(1, [])] else P(k - 1) + [CommandAt(1, P(k - 1), [])]
  }

  const X: Entry := CommandAt(1, P(8), [1])
  const Y: Entry := Entry(3, 11, Normal, [2])
  const LA: Log := P(8) + [X]
  const L9: Log := P(8) + [NoopAt(2, P(8))]
  const L10: Log := L9 + [NoopAt(3, L9)]
  const L11: Log := L10 + [Y]

  lemma Ends()
    ensures |P(8)| == 8 && LastTerm(P(8)) == 1 && TermAt(P(8), 8) == 1
    ensures |LA| == 9 && LastTerm(LA) == 1 && TermAt(LA, 9) == 1
    ensures |L9| == 9 && LastTerm(L9) == 2 && TermAt(L9, 9) == 2 && L9[8] == NoopAt(2, P(8))
    ensures |L10| == 10 && |L11| == 11 && TermAt(L11, 11) == 3 && TermAt(L11, 9) == 2
    ensures L10 == L9 + [NoopAt(3, L9)] && L11 == L10 + [CommandAt(3, L10, [2])]
  {
  }

  lemma Batches()
    ensures Batch(L11, 10) == [NoopAt(3, L9), Y] && Batch(L11, 1) == P(8)
    ensures L9 + [NoopAt(3, L9), Y] == L11
  {
    hide P;
    assert L11[9..11] == [NoopAt(3, L9), Y];
    assert L11[0..8] == P(8);
  }

  // ---- term 1 ----

  /** The nodes of a system. */
  ghost predicate Has3(s: System) { 1 in s.nodes && 2 in s.nodes && 3 in s.nodes }

  lemma {:induction false} Proposals(s: System, k: pos) returns (t: System)
    requires Has3(s) && Leads(s.nodes[1], 1, 3, 1, P(1), 1) && ToAll(s.nodes[1], 1, 3, First(1, 1, [])) && k <= 8
    ensures Reaches(TRIO, s, t) && OnlyOne(s, t, 1) && Leads(t.nodes[1], 1, 3, 1, P(k), 1)
    ensures ToAll(t.nodes[1], 1, 3, Append(1, 1, 0, 0, P(k), 0))
    decreases k
  {
    if k == 1 {
      t := s;
      ReachesSelf(TRIO, s);
    } else {
      var s1 := Proposals(s, k - 1);
      ProposesAlone(s1.nodes[1], 1, 3, 1, P(k - 1), 1, []);
      assert Batch(P(k), 1) == P(k);
      hide Leads, ToAll, Propose, Reaches;
      t := Command(TRIO, s1, 1, []);
      ReachesTrans(TRIO, s, s1, t);
    }
  }

  /** Node 1 leads term 1, nodes 2 and 3 have its first eight entries, and it has a ninth. */
  ghost predicate AfterTerm1(s: System) {
    && Has3(s) && Leads(s.nodes[1], 1, 3, 1, LA, 1)
    && Rests(s.nodes[2], 2, 3, 1, P(8)) && Rests(s.nodes[3], 3, 3, 1, P(8))
  }

  lemma Term1() returns (t: System)
    ensures Reaches(TRIO, Start(3), t) && AfterTerm1(t)
  {
    var s := Start(3);
    Starts(3, Loose);
    hide Rests, Elected, Reaches;
    assert CanStand(s.nodes[1], 1, 3, 0, []) && CanVote(s.nodes[2], 2, 3, 0, [], 0, []) by { StartFacts(); }
    var s1 := Elect1(TRIO, s, 1, 2, 0, [], 0, []);
    var s2 := Spread(s1);
    ReachesTrans(TRIO, s, s1, s2);
    t := Ninth(s2);
    ReachesTrans(TRIO, s, s2, t);
  }

  lemma StartFacts()
    ensures var s := Start(3);
      1 in s.nodes && 2 in s.nodes && CanStand(s.nodes[1], 1, 3, 0, []) && CanVote(s.nodes[2], 2, 3, 0, [], 0, [])
  {
    Starts(3, Loose);
  }

  lemma PlaceEight()
    ensures PlaceEntries([], 1, P(8)) == P(8)
  {
    PlaceAtEnd([], P(8));
    var none: Log := [];
    assert none + P(8) == P(8);
  }

  lemma FirstIsP()
    ensures var none: Log := []; none + [NoopAt(1, none)] == P(1)
  {
  }

  lemma Spread(s: System) returns (t: System)
    requires Has3(s) && Elected(s.nodes[1], 1, 3, 1, []) && Rests(s.nodes[2], 2, 3, 1, [])
    requires Rests(s.nodes[3], 3, 3, 0, [])
    ensures Reaches(TRIO, s, t) && Has3(t) && Leads(t.nodes[1], 1, 3, 1, P(8), 1)
    ensures Rests(t.nodes[2], 2, 3, 1, P(8)) && Rests(t.nodes[3], 3, 3, 1, P(8))
  {
    hide P, Leads, At, Reaches, Recv, PlaceEntries;
    FirstIsP();
    PlaceEight();
    var s1 := Proposals(s, 8);
    var m := Append(1, 1, 0, 0, P(8), 0);
    assert Packet(2, m) in s1.nodes[1].sent && Packet(3, m) in s1.nodes[1].sent;
    hide ToAll;
    Accepts(s1.nodes[2], 2, 3, 1, [], 1, m, P(8));
    var s2 := Hear(TRIO, s1, 1, 2, m);
    Accepts(s2.nodes[3], 3, 3, 0, [], 1, m, P(8));
    t := Hear(TRIO, s2, 1, 3, m);
    ReachesTrans(TRIO, s, s1, s2);
    ReachesTrans(TRIO, s, s2, t);
  }

  lemma Ninth(s: System) returns (t: System)
    requires Has3(s) && Leads(s.nodes[1], 1, 3, 1, P(8), 1)
    requires Rests(s.nodes[2], 2, 3, 1, P(8)) && Rests(s.nodes[3], 3, 3, 1, P(8))
    ensures Reaches(TRIO, s, t) && AfterTerm1(t)
  {
    hide P, Leads, ToAll, Rests, Reaches, Propose;
    ProposesAlone(s.nodes[1], 1, 3, 1, P(8), 1, [1]);
    t := Command(TRIO, s, 1, [1]);
  }

  // ---- term 2 ----

  /** Node 3 leads term 2, node 2 has its no-op at 9, and node 1 has stepped down with its own ninth. */
  ghost predicate AfterTerm2(s: System) {
    && Has3(s) && At(s.nodes[3], 3, 3, 2, L9)
    && Rests(s.nodes[2], 2, 3, 2, L9) && Rests(s.nodes[1], 1, 3, 2, LA)
  }

  lemma Term2(s: System) returns (t: System)
    requires AfterTerm1(s)
    ensures Reaches(TRIO, s, t) && AfterTerm2(t)
  {
    Ends();
    hide P, Reaches, Recv, PlaceEntries, Full;
    var s1 := Elect1(TRIO, s, 3, 2, 1, P(8), 1, P(8));
    var ask, first := Ask(2, false, 3, P(8)), First(2, 3, P(8));
    assert Packet(1, ask) in s1.nodes[3].sent && Packet(2, first) in s1.nodes[3].sent;
    hide ToAll;
    StepsDown(s1.nodes[1], 1, 3, 1, LA, 3, ask);
    var s2 := Hear(TRIO, s1, 3, 1, ask);
    PlaceAtEnd(P(8), [NoopAt(2, P(8))]);
    Accepts(s2.nodes[2], 2, 3, 2, P(8), 3, first, L9);
    t := Hear(TRIO, s2, 3, 2, first);
    ReachesTrans(TRIO, s, s1, s2);
    ReachesTrans(TRIO, s, s2, t);
  }

  // ---- term 3 ----

  /** Node 2 leads term 3 with eleven entries committed and applied; its next entry for node 1 is `next`. */
  ghost predicate Ahead(x: Node, next: pos) {
    && x.self == 2 && x.role == Leader && x.term == 3 && x.log == L11 && x.commit == 11 && x.applied == Commands(L11)
    && Full(x.members, 3) && x.members[0].nextIndex == next
  }

  lemma CommitsEleven(x: Node)
    requires Leads(x, 2, 3, 3, L11, 10)
    ensures var r := Recv(x, 3, AppendResp(3, true, 11)); Ahead(r, 10) && x.sent <= r.sent
  {
    Ends();
    hide P, Commands;
    FullTable(x.members, 3);
    var ms := RecordMatch(x.members, 3, 11);
    var x1 := x.(members := ms);
    assert Full(ms, 3) && ms[0].nextIndex == 10;
    assert CommitScan(x1, 11) == 11 by { TwoHold(x, ms); }
    assert L11[0..11] == L11;
    var none: seq<Entry> := [];
    assert none + Commands(L11) == Commands(L11);
  }

  lemma TwoHold(x: Node, ms: seq<Member>)
    requires Leads(x, 2, 3, 3, L11, 10) && ms == RecordMatch(x.members, 3, 11) && Full(ms, 3)
    ensures CommitScan(x.(members := ms), 11) == 11
  {
    Ends();
    hide P;
    HoldersCount(ms, 3, 11);
    assert 2 in MatchedBy(ms, 11) by { assert HoldsUpTo(11)(ms[1]) && ms[1].id == 2; }
    assert 3 in MatchedBy(ms, 11) by { assert HoldsUpTo(11)(ms[2]) && ms[2].id == 3; }
    SubsetSize({2, 3}, MatchedBy(ms, 11));
  }

  /** Node 2 has committed eleven entries, and node 1's refusal is on its way. */
  ghost predicate AfterTerm3(s: System) {
    && Has3(s) && Ahead(s.nodes[2], 10) && Rests(s.nodes[1], 1, 3, 3, LA)
    && Packet(2, AppendResp(3, false, 0)) in s.nodes[1].sent
  }

  /** Node 2 is elected by node 1, proposes, and commits through node 3. */
  lemma CommitThrough3(s: System) returns (t: System)
    requires AfterTerm2(s)
    ensures Reaches(TRIO, s, t) && Has3(t) && Ahead(t.nodes[2], 10) && Rests(t.nodes[1], 1, 3, 3, LA)
    ensures Packet(1, First(3, 2, L9)) in t.nodes[2].sent
  {
    Ends();
    Batches();
    hide P, Reaches, Recv, PlaceEntries, Full, Propose, Commands;
    var s1 := Elect1(TRIO, s, 2, 1, 2, L9, 2, LA);
    assert Packet(1, First(3, 2, L9)) in s1.nodes[2].sent;
    ProposesAlone(s1.nodes[2], 2, 3, 3, L10, 10, [2]);
    var s2 := Command(TRIO, s1, 2, [2]);
    var m := Append(3, 2, 9, 2, [NoopAt(3, L9), Y], 0);
    assert Packet(3, m) in s2.nodes[2].sent;
    hide ToAll, Leads;
    PlaceAtEnd(L9, m.entries);
    Accepts(s2.nodes[3], 3, 3, 2, L9, 2, m, L11);
    var s3 := Hear(TRIO, s2, 2, 3, m);
    CommitsEleven(s3.nodes[2]);
    t := Hear(TRIO, s3, 3, 2, AppendResp(3, true, 11));
    ReachesTrans(TRIO, s, s1, s2);
    ReachesTrans(TRIO, s, s2, s3);
    ReachesTrans(TRIO, s, s3, t);
  }

  lemma Term3(s: System) returns (t: System)
    requires AfterTerm2(s)
    ensures Reaches(TRIO, s, t) && AfterTerm3(t)
  {
    Ends();
    hide P, Reaches, Recv, Full, Ahead;
    var s1 := CommitThrough3(s);
    var m := First(3, 2, L9);
    Refuses(s1.nodes[1], 1, 3, 3, LA, 2, m);
    t := Hear(TRIO, s1, 2, 1, m);
    ReachesTrans(TRIO, s, s1, t);
  }

  // ---- the refusal, again and again ----

  lemma BacksOff(x: Node, next: pos)
    requires Ahead(x, next) && next > 1
    ensures var r := Recv(x, 1, AppendResp(3, false, 0));
      Ahead(r, next - 1) && x.sent <= r.sent && Packet(1, From(3, 2, L11, next - 1, 11)) in r.sent
  {
    FullTable(x.members, 3);
    hide P, Commands, Batch;
    var x1 := x.(members := BackOff(x.members, 1));
    assert x1.members[0].id == 1 && x1.members[0].nextIndex == next - 1;
  }

  lemma {:induction false} Refused(s: System, next: pos) returns (t: System)
    requires AfterTerm3(s) && next < 10
    ensures Reaches(TRIO, s, t) && OnlyOne(s, t, 2) && Ahead(t.nodes[2], next)
    ensures Packet(1, From(3, 2, L11, next, 11)) in t.nodes[2].sent
    decreases 10 - next
  {
    hide P, Reaches, Recv, Ahead, Rests, From;
    var s1 := s;
    ReachesSelf(TRIO, s);
    if next < 9 { s1 := Refused(s, next + 1); }
    BacksOff(s1.nodes[2], next + 1);
    assert !AppendResp(3, false, 0).success;
    t := Hear(TRIO, s1, 1, 2, AppendResp(3, false, 0));
    ReachesTrans(TRIO, s, s1, t);
  }

  // ---- what node 1 commits ----

  lemma CommitsOwnNinth(x: Node, m: Msg)
    requires Rests(x, 1, 3, 3, LA) && m == Append(3, 2, 0, 0, P(8), 11)
    ensures Recv(x, 2, m).applied == Commands(LA)
  {
    Ends();
    NothingToPlace();
    hide P, Commands, PlaceEntries, Full;
    assert LA[0..9] == LA;
    var none: seq<Entry> := [];
    assert none + Commands(LA) == Commands(LA);
  }

  lemma NothingToPlace()
    ensures PlaceEntries(LA, 1, P(8)) == LA
  {
    NothingPlaced(LA, 1, P(8));
  }

  lemma Diverge()
    ensures !(Commands(LA) <= Commands(L11)) && !(Commands(L11) <= Commands(LA))
  {
    assert LA[..8] == P(8) && L9[..8] == P(8) && L10[..9] == L9 && L11[..10] == L10;
    hide P;
    assert Commands(LA) == Commands(P(8)) + [X];
    assert Commands(L9) == Commands(P(8)) && Commands(L10) == Commands(L9);
    assert Commands(L11) == Commands(P(8)) + [Y];
    assert Commands(LA)[|Commands(P(8))|] == X && Commands(L11)[|Commands(P(8))|] == Y;
  }

  ghost predicate Diverged(s: System) {
    exists i, j :: i in s.nodes && j in s.nodes
                   && !(s.nodes[i].applied <= s.nodes[j].applied) && !(s.nodes[j].applied <= s.nodes[i].applied)
  }

  /** The network assumption is needed: over a network that only loses, repeats and reorders, with every reply fresh,
      some run of three voters ends with two nodes that have applied different commands at the same place. */
  lemma LooseBreaksSafety()
    ensures Init(TRIO, Start(3)) && exists es :: RunOk(TRIO, Start(3), es) && Diverged(Run(TRIO, Start(3), es))
  {
    hide P, Rests, Recv, Commands, RunOk, Run;
    Starts(3, Loose);
    Batches();
    var s1 := Term1();
    var s2 := Term2(s1);
    ReachesTrans(TRIO, Start(3), s1, s2);
    var s3 := Term3(s2);
    ReachesTrans(TRIO, Start(3), s2, s3);
    var s4 := Refused(s3, 1);
    ReachesTrans(TRIO, Start(3), s3, s4);
    var m := From(3, 2, L11, 1, 11);
    CommitsOwnNinth(s4.nodes[1], m);
    var t := Hear(TRIO, s4, 2, 1, m);
    ReachesTrans(TRIO, Start(3), s4, t);
    Diverge();
    assert t.nodes[1].applied == Commands(LA) && t.nodes[2].applied == Commands(L11);
    assert 1 in t.nodes && 2 in t.nodes && Diverged(t);
    var es :| RunOk(TRIO, Start(3), es) && Run(TRIO, Start(3), es) == t;
  }
}
