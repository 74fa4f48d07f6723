/** The promises of the Raft core over every run of a cluster with one agreed member table. */
module RaftTheorems {
  import opened RaftTypes
  import opened RaftStep
  import opened RaftHistory
  import opened RaftInvariant
  import opened RaftMerge
  import opened RaftPreserve
  import opened RaftHandlers
  import opened RaftSystem
  import opened RaftSafety
  import opened Bytes

  lemma {:induction false} RunKeeps(c: Cluster, s: System, h: History, es: seq<Event>) returns (g: History)
    requires SysInv(c, s, h) && RunOk(c, s, es)
    ensures SysInv(c, Run(c, s, es), g) && Grows(h, g)
    decreases |es|
  {
    hide SysInv;
    if es == [] {
      g := h;
    } else {
      var h1 := StepKeeps(c, s, h, es[0]);
      g := RunKeeps(c, Step(s, es[0]), h1, es[1..]);
      GrowsTrans(h, h1, g);
    }
  }

  /** Two points of a run: after `es`, and after `fs` more events. */
  lemma TwoPoints(c: Cluster, s0: System, es: seq<Event>, fs: seq<Event>) returns (h: History, g: History)
    requires Init(c, s0) && RunOk(c, s0, es) && RunOk(c, Run(c, s0, es), fs)
    ensures SysInv(c, Run(c, s0, es), h) && SysInv(c, Run(c, Run(c, s0, es), fs), g) && Grows(h, g)
  {
    hide SysInv;
    InitInv(c, s0);
    h := RunKeeps(c, s0, History(map[], map[], map[], map[]), es);
    g := RunKeeps(c, Run(c, s0, es), h, fs);
  }

  lemma LeaderOf(c: Cluster, s: System, h: History, i: Id)
    requires SysInv(c, s, h) && i in s.nodes && s.nodes[i].role == Leader
    ensures s.nodes[i].term in h.ldrs
    ensures h.ldrs[s.nodes[i].term].id == i && h.ldrs[s.nodes[i].term].log == s.nodes[i].log
  {
    assert MemberInv(c, h, i, s.nodes[i]);
  }

  /** Election safety: no two leaders of one term, at any two points of a run. */
  lemma ElectionSafety(c: Cluster, s0: System, es: seq<Event>, fs: seq<Event>, i: Id, j: Id)
    requires Init(c, s0) && RunOk(c, s0, es) && RunOk(c, Run(c, s0, es), fs)
    requires var s, t := Run(c, s0, es), Run(c, Run(c, s0, es), fs);
      && i in s.nodes && s.nodes[i].role == Leader
      && j in t.nodes && t.nodes[j].role == Leader
      && s.nodes[i].term == t.nodes[j].term
    ensures i == j
  {
    hide SysInv;
    var h, g := TwoPoints(c, s0, es, fs);
    LeaderOf(c, Run(c, s0, es), h, i);
    LeaderOf(c, Run(c, Run(c, s0, es), fs), g, j);
  }

  /** A leader only appends: its log at an earlier point of its term is a prefix of its log later. */
  lemma LeaderAppendOnly(c: Cluster, s0: System, es: seq<Event>, fs: seq<Event>, i: Id)
    requires Init(c, s0) && RunOk(c, s0, es) && RunOk(c, Run(c, s0, es), fs)
    requires var s, t := Run(c, s0, es), Run(c, Run(c, s0, es), fs);
      && i in s.nodes && s.nodes[i].role == Leader
      && i in t.nodes && t.nodes[i].role == Leader
      && s.nodes[i].term == t.nodes[i].term
    ensures Run(c, s0, es).nodes[i].log <= Run(c, Run(c, s0, es), fs).nodes[i].log
  {
    hide SysInv;
    var h, g := TwoPoints(c, s0, es, fs);
    LeaderOf(c, Run(c, s0, es), h, i);
    LeaderOf(c, Run(c, Run(c, s0, es), fs), g, i);
  }

  lemma WellLogGrows(h: History, g: History, log: Log, top: int)
    requires Grows(h, g) && WellLog(h, log, top)
    ensures WellLog(g, log, top)
  {
    forall j | 0 <= j < |log| ensures BackedAt(g, log, j) {
      assert BackedAt(h, log, j);
      var t := log[j].term;
      assert g.ldrs[t].log[..j + 1] == h.ldrs[t].log[..j + 1];
    }
  }

  lemma LogOf(c: Cluster, s: System, h: History, i: Id)
    requires SysInv(c, s, h) && i in s.nodes
    ensures WellLog(h, s.nodes[i].log, s.nodes[i].term)
  {
    assert MemberInv(c, h, i, s.nodes[i]);
  }

  /** Log matching: entries of equal index and term, wherever and whenever they are held in a run, are
      equal and so is everything before them. */
  lemma LogsMatch(c: Cluster, s0: System, es: seq<Event>, fs: seq<Event>, i: Id, j: Id, k: nat)
    requires Init(c, s0) && RunOk(c, s0, es) && RunOk(c, Run(c, s0, es), fs)
    requires i in Run(c, s0, es).nodes && j in Run(c, Run(c, s0, es), fs).nodes
    requires var a, b := Run(c, s0, es).nodes[i].log, Run(c, Run(c, s0, es), fs).nodes[j].log;
      k < |a| && k < |b| && a[k].term == b[k].term
    ensures Run(c, s0, es).nodes[i].log[..k + 1] == Run(c, Run(c, s0, es), fs).nodes[j].log[..k + 1]
  {
    hide SysInv;
    var h, g := TwoPoints(c, s0, es, fs);
    var s, t := Run(c, s0, es), Run(c, Run(c, s0, es), fs);
    LogOf(c, s, h, i);
    LogOf(c, t, g, j);
    WellLogGrows(h, g, s.nodes[i].log, s.nodes[i].term);
    LogMatching(g, s.nodes[i].log, s.nodes[i].term, t.nodes[j].log, t.nodes[j].term, k);
  }

  /** Event `e` makes leader `i` commit up to `k`. */
  ghost predicate LeaderCommitsAt(s: System, e: Event, i: Id, k: nat)
    requires Enabled(s, e)
  {
    && Actor(s, e) == i
    && s.nodes[i].role == Leader && NodeAfter(s, e).role == Leader
    && NodeAfter(s, e).commit == k > s.nodes[i].commit
  }

  lemma CommitHasCert(c: Cluster, s: System, h: History, e: Event, i: Id, k: nat) returns (g: History)
    requires SysInv(c, s, h) && Enabled(s, e) && Fresh(s, e) && NetOk(c, s, e)
    requires LeaderCommitsAt(s, e, i, k)
    ensures SysInv(c, Step(s, e), g) && Cert(c, g, NodeAfter(s, e).term, k)
    ensures NodeAfter(s, e).term in g.ldrs && g.ldrs[NodeAfter(s, e).term].log == NodeAfter(s, e).log
  {
    hide SysInv, Ext, Grows;
    g := StepKeeps(c, s, h, e);
    EventShape(s, e);
    assert !Accepts(s, e);
    LeaderOf(c, Step(s, e), g, i);
  }

  /** Leader completeness: what a leader commits is in the log of every leader of a later term. */
  lemma LeadersKeepCommitted(c: Cluster, s0: System, es: seq<Event>, e: Event, fs: seq<Event>, i: Id, k: nat, j: Id)
    requires Init(c, s0) && RunOk(c, s0, es)
    requires var s := Run(c, s0, es);
      && Enabled(s, e) && Fresh(s, e) && NetOk(c, s, e) && RunOk(c, Step(s, e), fs)
      && LeaderCommitsAt(s, e, i, k)
      && var t := Run(c, Step(s, e), fs);
         j in t.nodes && t.nodes[j].role == Leader && t.nodes[j].term >= NodeAfter(s, e).term
    ensures var s := Run(c, s0, es);
      && k <= |NodeAfter(s, e).log|
      && NodeAfter(s, e).log[..k] <= Run(c, Step(s, e), fs).nodes[j].log
  {
    hide SysInv;
    var s := Run(c, s0, es);
    var n := NodeAfter(s, e);
    InitInv(c, s0);
    var h := RunKeeps(c, s0, History(map[], map[], map[], map[]), es);
    var h1 := CommitHasCert(c, s, h, e, i, k);
    var g := RunKeeps(c, Step(s, e), h1, fs);
    assert CertCovers(c, h1, n.log[..k], n.term, k);
    CommittedGrows(c, h1, g, n.log[..k], n.term);
    LeaderOf(c, Run(c, Step(s, e), fs), g, j);
    HistOf(c, Run(c, Step(s, e), fs), g);
    CommittedInLeader(c, g, n.log[..k], n.term, Run(c, Step(s, e), fs).nodes[j].term);
  }

  // ---- with appends delivered in order ----

  lemma AppliedOf(c: Cluster, s: System, h: History, i: Id)
    requires SysInv(c, s, h) && c.Commits() && i in s.nodes
    ensures var n := s.nodes[i];
      && n.lastApplied <= n.commit <= |n.log|
      && n.applied == Commands(n.log[..n.lastApplied])
      && Committed(c, h, n.log[..n.commit], n.term)
      && Committed(c, h, n.log[..n.lastApplied], n.term)
  {
    var n := s.nodes[i];
    assert MemberInv(c, h, i, n);
    CommittedPrefix(c, h, n.log[..n.commit], n.term, n.log[..n.lastApplied], n.term);
  }

  lemma CommandsPrefix(a: Log, b: Log)
    requires a <= b
    ensures Commands(a) <= Commands(b)
  {
    CommandsConcat(a, b[|a|..]);
    assert a + b[|a|..] == b;
  }

  /** State-machine safety: the command sequences that any two nodes have applied, at any two points of
      a run, are one a prefix of the other. */
  lemma StateMachineSafety(c: Cluster, s0: System, es: seq<Event>, fs: seq<Event>, i: Id, j: Id)
    requires c.Commits() && Init(c, s0) && RunOk(c, s0, es) && RunOk(c, Run(c, s0, es), fs)
    requires i in Run(c, s0, es).nodes && j in Run(c, Run(c, s0, es), fs).nodes
    ensures var a, b := Run(c, s0, es).nodes[i].applied, Run(c, Run(c, s0, es), fs).nodes[j].applied;
      a <= b || b <= a
  {
    hide SysInv;
    var h, g := TwoPoints(c, s0, es, fs);
    var m, n := Run(c, s0, es).nodes[i], Run(c, Run(c, s0, es), fs).nodes[j];
    AppliedOf(c, Run(c, s0, es), h, i);
    AppliedOf(c, Run(c, Run(c, s0, es), fs), g, j);
    var a, b := m.log[..m.lastApplied], n.log[..n.lastApplied];
    CommittedGrows(c, h, g, a, m.term);
    HistOf(c, Run(c, Run(c, s0, es), fs), g);
    CommittedComparable(c, g, a, m.term, b, n.term);
    if a <= b { CommandsPrefix(a, b); } else { CommandsPrefix(b, a); }
  }

  /** A step never takes back what was committed: the commit index does not fall and the committed
      entries stay in the log. */
  ghost predicate KeepsCommitted(n: Node, n': Node) {
    n.commit <= n'.commit && n.commit <= |n.log| && n.commit <= |n'.log| && n'.log[..n.commit] == n.log[..n.commit]
  }

  lemma AcceptKeepsCommitted(c: Cluster, h: History, i: Id, n: Node, src: Id, m: Msg)
    requires LocalInv(c, h, i, n) && c.Commits() && src in c.members && src != i
    requires m.Append? && AppendInv(c, h, src, m) && m.term >= n.term && PrevMatches(n.log, m)
    ensures n.commit <= |n.log| && n.commit <= |Placed(n, m)| && Placed(n, m)[..n.commit] == n.log[..n.commit]
  {
    var n1 := BecomeFollower(n, m.term, m.leader);
    AppendNotToLeader(c, h, i, n, src, m);
    AppendMerges(c, h, i, n1, src, m);
    MergeCommit(c, h, n1, Placed(n, m), m.prevIndex + |m.entries|);
  }

  lemma AcceptCommits(n: Node, m: Msg)
    requires m.Append? && m.term >= n.term && PrevMatches(n.log, m)
    requires n.commit <= |n.log| && n.commit <= |Placed(n, m)| && Placed(n, m)[..n.commit] == n.log[..n.commit]
    ensures KeepsCommitted(n, HandleAppend(n, m))
  {
    hide PlaceEntries;
  }

  /** Leaders append and scan upward; nothing else touches the log or the commit index. */
  lemma QuietKeepsCommitted(s: System, e: Event)
    requires Enabled(s, e) && !Accepts(s, e)
    requires s.nodes[Actor(s, e)].commit <= |s.nodes[Actor(s, e)].log|
    ensures KeepsCommitted(s.nodes[Actor(s, e)], NodeAfter(s, e))
  {
    hide Recv, Tick, Propose;
    var n := s.nodes[Actor(s, e)];
    match e
    case Ticks(_, now) => TickGrowsLog(n, now);
    case Proposes(_, data) => ProposeGrowsLog(n, data);
    case Delivers(src, at) => RecvGrowsLog(n, src, Delivered(s, e));
  }

  ghost predicate GrowsLog(n: Node, n': Node) {
    n.log <= n'.log && n.commit <= n'.commit
  }

  lemma TickGrowsLog(n: Node, now: nat)
    ensures GrowsLog(n, Tick(n, now))
  {
    hide BecomeLeader;
    LeaderGrowsLog(OpenRealRound(StandForElection(AdvanceClock(n, now))));
  }

  lemma ProposeGrowsLog(n: Node, data: seq<byte>)
    ensures GrowsLog(n, Propose(n, data))
  {
    CommitScanSound(BroadcastAppend(LeaderAppend(n, Normal, data)), |n.log| + 1);
  }

  lemma LeaderGrowsLog(n: Node)
    ensures GrowsLog(n, BecomeLeader(n))
  {
  }

  lemma RecvGrowsLog(n: Node, src: Id, m: Msg)
    requires m.Append? && m.term >= n.term ==> !PrevMatches(n.log, m)
    ensures GrowsLog(n, Recv(n, src, m))
  {
    match m
    case RequestVote(_, _, _, _, _) =>
    case RequestVoteResp(_, _, granted) =>
      LeaderGrowsLog(if granted then n.(members := GrantVote(n.members, src)) else n);
    case Append(_, _, _, _, _, _) =>
    case AppendResp(_, _, _) =>
      CommitScanSound(n.(members := RecordMatch(n.members, src, m.matchIndex)), |n.log|);
  }

  lemma StepKeepsCommitted(c: Cluster, s: System, h: History, e: Event, i: Id)
    requires SysInv(c, s, h) && c.Commits() && Enabled(s, e) && NetOk(c, s, e) && i in s.nodes
    ensures KeepsCommitted(s.nodes[i], Step(s, e).nodes[i])
  {
    hide SysInv, LocalInv;
    AppliedOf(c, s, h, i);
    if i == Actor(s, e) {
      if Accepts(s, e) {
        DeliverFacts(c, s, h, e);
        AcceptKeepsCommitted(c, h, i, s.nodes[i], e.src, Delivered(s, e));
        AcceptCommits(s.nodes[i], Delivered(s, e));
      } else {
        QuietKeepsCommitted(s, e);
      }
    }
  }

  /** No node ever truncates below its commit index, over any stretch of a run. */
  lemma {:induction false} CommittedNeverTruncated(c: Cluster, s: System, h: History, es: seq<Event>, i: Id)
    requires SysInv(c, s, h) && c.Commits() && RunOk(c, s, es) && i in s.nodes
    ensures i in Run(c, s, es).nodes && KeepsCommitted(s.nodes[i], Run(c, s, es).nodes[i])
    decreases |es|
  {
    hide SysInv;
    AppliedOf(c, s, h, i);
    if es != [] {
      var s1 := Step(s, es[0]);
      var h1 := StepKeeps(c, s, h, es[0]);
      StepKeepsCommitted(c, s, h, es[0], i);
      CommittedNeverTruncated(c, s1, h1, es[1..], i);
      var n, n1, n2 := s.nodes[i], s1.nodes[i], Run(c, s, es).nodes[i];
      assert n2.log[..n.commit] == n2.log[..n1.commit][..n.commit];
      assert n1.log[..n.commit] == n1.log[..n1.commit][..n.commit];
    }
  }

  /** The same from the start of a run. */
  lemma CommittedStays(c: Cluster, s0: System, es: seq<Event>, fs: seq<Event>, i: Id)
    requires c.Commits() && Init(c, s0) && RunOk(c, s0, es) && RunOk(c, Run(c, s0, es), fs)
    requires i in Run(c, s0, es).nodes
    ensures var t := Run(c, Run(c, s0, es), fs);
      i in t.nodes && KeepsCommitted(Run(c, s0, es).nodes[i], t.nodes[i])
  {
    hide SysInv;
    InitInv(c, s0);
    var h := RunKeeps(c, s0, History(map[], map[], map[], map[]), es);
    CommittedNeverTruncated(c, Run(c, s0, es), h, fs, i);
  }

  // ---- what is applied, and in which order ----

  ghost predicate Increasing(es: seq<Entry>) {
    forall x, y :: 0 <= x < y < |es| ==> es[x].index < es[y].index
  }

  lemma {:induction false} CommandsIncrease(log: Log)
    requires Indexed(log)
    ensures Increasing(Commands(log))
    ensures forall x :: 0 <= x < |Commands(log)| ==> 1 <= Commands(log)[x].index <= |log|
    ensures forall x :: 0 <= x < |Commands(log)| ==> Commands(log)[x] == log[Commands(log)[x].index - 1]
  {
    if log != [] {
      CommandsIncrease(log[..|log| - 1]);
    }
  }

  /** What has been applied is in increasing index order and stems from the committed log. */
  ghost predicate AppliedOrdered(n: Node) {
    && Increasing(n.applied)
    && n.commit <= |n.log|
    && forall x :: 0 <= x < |n.applied| ==>
         1 <= n.applied[x].index <= n.commit && n.applied[x] == n.log[n.applied[x].index - 1]
  }

  lemma AppliedFromLog(n: Node)
    requires n.lastApplied <= n.commit <= |n.log| && n.applied == Commands(n.log[..n.lastApplied])
    requires Indexed(n.log)
    ensures AppliedOrdered(n)
  {
    CommandsIncrease(n.log[..n.lastApplied]);
  }

  lemma WellLogIndexed(h: History, log: Log, top: int)
    requires WellLog(h, log, top)
    ensures Indexed(log)
  {
    forall j | 0 <= j < |log| ensures log[j].index == j + 1 { assert BackedAt(h, log, j); }
  }

  /** Every node applies each index at most once, in increasing order, and never past its commit index. */
  lemma AppliedInOrder(c: Cluster, s0: System, es: seq<Event>, i: Id)
    requires c.Commits() && Init(c, s0) && RunOk(c, s0, es) && i in Run(c, s0, es).nodes
    ensures AppliedOrdered(Run(c, s0, es).nodes[i])
  {
    hide SysInv;
    InitInv(c, s0);
    var s := Run(c, s0, es);
    var h := RunKeeps(c, s0, History(map[], map[], map[], map[]), es);
    AppliedOf(c, s, h, i);
    LogOf(c, s, h, i);
    WellLogIndexed(h, s.nodes[i].log, s.nodes[i].term);
    AppliedFromLog(s.nodes[i]);
  }
}
