/** Building runs step by step: what a system can reach, and elections in it. */
module RaftScenario {
  import opened Bytes
  import opened RaftTypes
  import opened RaftStep
  import opened RaftHistory
  import opened RaftInvariant
  import opened RaftMerge
  import opened RaftSystem

  // ---- reaching one state from another ----

  ghost predicate Reaches(c: Cluster, s: System, t: System) {
    exists es :: RunOk(c, s, es) && Run(c, s, es) == t
  }

  lemma {:induction false} RunJoin(c: Cluster, s: System, es: seq<Event>, fs: seq<Event>)
    requires RunOk(c, s, es) && RunOk(c, Run(c, s, es), fs)
    ensures RunOk(c, s, es + fs) && Run(c, s, es + fs) == Run(c, Run(c, s, es), fs)
    decreases |es|
  {
    hide Enabled, Fresh, NetOk, Step;
    if es == [] {
      assert es + fs == fs;
    } else {
      assert (es + fs)[1..] == es[1..] + fs && (es + fs)[0] == es[0];
      RunJoin(c, Step(s, es[0]), es[1..], fs);
    }
  }

  lemma ReachesTrans(c: Cluster, s: System, t: System, u: System)
    requires Reaches(c, s, t) && Reaches(c, t, u)
    ensures Reaches(c, s, u)
  {
    hide RunOk, Run;
    var es :| RunOk(c, s, es) && Run(c, s, es) == t;
    var fs :| RunOk(c, t, fs) && Run(c, t, fs) == u;
    RunJoin(c, s, es, fs);
  }

  lemma ReachesSelf(c: Cluster, s: System)
    ensures Reaches(c, s, s)
  {
    assert RunOk(c, s, []) && Run(c, s, []) == s;
  }

  lemma ReachesStep(c: Cluster, s: System, e: Event)
    requires Enabled(s, e) && Fresh(s, e) && NetOk(c, s, e)
    ensures Reaches(c, s, Step(s, e))
  {
    hide Enabled, Fresh, NetOk, Step;
    var es := [e];
    assert es[1..] == [];
    assert RunOk(c, Step(s, e), []) && Run(c, Step(s, e), []) == Step(s, e);
    assert RunOk(c, s, es) && Run(c, s, es) == Step(s, e);
  }

  /** Node `i` becomes `x`. */
  ghost predicate Becomes(s: System, t: System, i: Id, x: Node) { t.nodes == s.nodes[i := x] }

  /** A message on the way reaches its destination. */
  lemma Hear(c: Cluster, s: System, src: Id, dst: Id, m: Msg) returns (t: System)
    requires src in s.nodes && dst in s.nodes && Packet(dst, m) in s.nodes[src].sent
    requires FreshFor(s.nodes[dst], m) && (m.Append? ==> c.net == Loose)
    ensures Reaches(c, s, t) && Becomes(s, t, dst, Recv(s.nodes[dst], src, m))
  {
    hide Recv, FreshFor;
    var at :| 0 <= at < |s.nodes[src].sent| && s.nodes[src].sent[at] == Packet(dst, m);
    var e := Delivers(src, at);
    ReachesStep(c, s, e);
    t := Step(s, e);
  }

  lemma Clock(c: Cluster, s: System, i: Id, now: nat) returns (t: System)
    requires i in s.nodes
    ensures Reaches(c, s, t) && Becomes(s, t, i, Tick(s.nodes[i], now))
  {
    hide Tick;
    ReachesStep(c, s, Ticks(i, now));
    t := Step(s, Ticks(i, now));
  }

  lemma Command(c: Cluster, s: System, i: Id, data: seq<byte>) returns (t: System)
    requires i in s.nodes
    ensures Reaches(c, s, t) && Becomes(s, t, i, Propose(s.nodes[i], data))
  {
    hide Propose;
    ReachesStep(c, s, Proposes(i, data));
    t := Step(s, Proposes(i, data));
  }

  // ---- tables of n voters, all eligible ----

  const CFG: Config := Config(10, 10, 50)

  ghost predicate Full(ms: seq<Member>, n: nat) {
    |ms| == n && forall k :: 0 <= k < n ==> ms[k].id == k + 1 && ms[k].role == Voter && ms[k].eligible
  }

  lemma {:induction false} CountAll(ms: seq<Member>, p: Member -> bool)
    requires forall k :: 0 <= k < |ms| ==> p(ms[k])
    ensures CountIf(ms, p) == |ms|
  {
    if ms != [] { CountAll(ms[..|ms| - 1], p); }
  }

  lemma FullTable(ms: seq<Member>, n: nat)
    requires Full(ms, n)
    ensures DistinctIds(ms) && CountIf(ms, IsVoter) == n && Quorum(ms) == n / 2 + 1
    ensures forall id :: 1 <= id <= n ==> Find(ms, id) == id - 1 && EligibleVoter(ms, id)
  {
    CountAll(ms, IsVoter);
    forall id | 1 <= id <= n ensures Find(ms, id) == id - 1 && EligibleVoter(ms, id) {
      var k := Find(ms, id);
      assert ms[id - 1].id == id;
      assert k <= id - 1;
    }
  }

  /** Whose vote flags are set. */
  ghost function Flags(ms: seq<Member>): set<Id> { IdsIf(ms, IsGranter) }

  lemma FlagsCount(ms: seq<Member>, n: nat)
    requires Full(ms, n)
    ensures CountIf(ms, IsGranter) == |Flags(ms)|
  {
    FullTable(ms, n);
    CountIsSize(ms, IsGranter);
  }

  lemma FlagsReset(ms: seq<Member>, n: nat, id: Id)
    requires Full(ms, n) && 1 <= id <= n
    ensures var r := GrantVote(ResetVotes(ms), id); Full(r, n) && Flags(r) == {id}
  {
    var r := GrantVote(ResetVotes(ms), id);
    assert r[id - 1].id == id && IsGranter(r[id - 1]);
  }

  lemma FlagsGrant(ms: seq<Member>, n: nat, id: Id)
    requires Full(ms, n) && 1 <= id <= n
    ensures Full(GrantVote(ms, id), n) && Flags(GrantVote(ms, id)) == Flags(ms) + {id}
  {
    var r := GrantVote(ms, id);
    assert r[id - 1].id == id && IsGranter(r[id - 1]);
    forall x | x in Flags(ms) ensures x in Flags(r) {
      var k :| 0 <= k < |ms| && IsGranter(ms[k]) && ms[k].id == x;
      assert IsGranter(r[k]) && r[k].id == x;
    }
    forall x | x in Flags(r) ensures x in Flags(ms) + {id} {
      var k :| 0 <= k < |r| && IsGranter(r[k]) && r[k].id == x;
      assert x != id ==> IsGranter(ms[k]) && ms[k].id == x;
    }
  }

  lemma {:induction false} VotersAsked(ms: seq<Member>, self: Id, m: Msg, k: nat)
    requires k < |ms| && ms[k].id != self && ms[k].role == Voter
    ensures Packet(ms[k].id, m) in ToVoters(ms, self, m)
  {
    var front := ms[..|ms| - 1];
    if k < |ms| - 1 { VotersAsked(front, self, m, k); }
  }

  lemma {:induction false} MembersSent(x: Node, ms: seq<Member>, k: nat)
    requires k < |ms| && ms[k].id != x.self
    ensures Packet(ms[k].id, AppendTo(x, ms[k])) in AppendsTo(x, ms)
  {
    hide AppendTo;
    var front := ms[..|ms| - 1];
    if k < |ms| - 1 { MembersSent(x, front, k); }
  }

  // ---- nodes that have committed nothing yet ----

  /** Node `id` of `n` voters, in a term, with a log, nothing committed. */
  ghost predicate At(x: Node, id: Id, n: nat, term: nat, log: Log) {
    && x.self == id && x.cfg == CFG && x.term == term && x.log == log
    && x.commit == 0 && x.lastApplied == 0 && x.applied == []
    && Full(x.members, n) && 1 <= id <= n <= 5
  }

  ghost predicate Rests(x: Node, id: Id, n: nat, term: nat, log: Log) {
    At(x, id, n, term, log) && x.role == Follower && x.electionElapsed == 0
  }

  ghost predicate Waits(x: Node, id: Id, n: nat, term: nat, log: Log) {
    At(x, id, n, term, log) && x.role == Follower && x.electionElapsed == 10
  }

  ghost predicate PreCand(x: Node, id: Id, n: nat, term: nat, log: Log, flags: set<Id>) {
    At(x, id, n, term, log) && x.role == Candidate && x.inPreVote && Flags(x.members) == flags
  }

  ghost predicate RealCand(x: Node, id: Id, n: nat, term: nat, log: Log, flags: set<Id>) {
    At(x, id, n, term, log) && x.role == Candidate && !x.inPreVote && Flags(x.members) == flags
  }

  /** A leader that has heard nothing from the others yet. */
  ghost predicate Leads(x: Node, id: Id, n: nat, term: nat, log: Log, next: pos) {
    && At(x, id, n, term, log) && x.role == Leader && x.members[id - 1].matchIndex == |log|
    && forall k :: 0 <= k < n && k + 1 != id ==> x.members[k].nextIndex == next && x.members[k].matchIndex == 0
  }

  function Ask(term: nat, pre: bool, who: Id, log: Log): Msg { RequestVote(term, pre, who, |log|, LastTerm(log)) }

  /** A node has a message on the way to every other. */
  ghost predicate ToAll(x: Node, id: Id, n: nat, m: Msg) {
    forall j :: 1 <= j <= n && j != id ==> Packet(j, m) in x.sent
  }

  function Timeout(id: Id): nat { 10 + id }

  lemma TimeoutIs(x: Node)
    requires x.cfg == CFG && 1 <= x.self <= 5
    ensures ElectionTimeout(x) == Timeout(x.self)
  {
  }

  // ---- steps of one node ----

  lemma AwakesTick(x: Node, id: Id, n: nat, term: nat, log: Log)
    requires Rests(x, id, n, term, log)
    ensures var r := Tick(x, x.now + 10); Waits(r, id, n, term, log) && r.sent == x.sent
  {
    hide Full, StartElection;
    var x1 := AdvanceClock(x, x.now + 10);
    TimeoutIs(x1);
  }

  lemma TickStands(x: Node, now: nat)
    requires x.role != Leader && x.commit == 0 && x.lastApplied == 0
    requires var x1 := AdvanceClock(x, now); x1.electionElapsed >= ElectionTimeout(x1)
    requires EligibleVoter(x.members, x.self) && CountIf(GrantVote(ResetVotes(x.members), x.self), IsVoter) != 1
    ensures Tick(x, now) ==
      BroadcastVote(AdvanceClock(x, now).(role := Candidate, leader := NO_NODE, electionElapsed := 0, inPreVote := true,
                      members := GrantVote(ResetVotes(x.members), x.self)), true, x.term + 1)
  {
    hide EligibleVoter, GrantVote, ResetVotes, CountIf, ElectionTimeout, BroadcastVote;
    var x1 := AdvanceClock(x, now);
    var x2 := StandForElection(x1);
    assert StartElection(x1) == BroadcastVote(x2.(inPreVote := true), true, x2.term + 1);
    SentOnly(x2.(inPreVote := true), true, x2.term + 1);
  }

  lemma SentOnly(x: Node, pre: bool, term: nat)
    ensures BroadcastVote(x, pre, term) == x.(sent := BroadcastVote(x, pre, term).sent)
  {
    hide ToVoters;
  }

  lemma Broadcast(x: Node, id: Id, n: nat, pre: bool, term: nat)
    requires Full(x.members, n) && x.self == id
    ensures var r := BroadcastVote(x, pre, term);
      r == x.(sent := r.sent) && x.sent <= r.sent && ToAll(r, id, n, Ask(term, pre, id, x.log))
  {
    var r := BroadcastVote(x, pre, term);
    var m := Ask(term, pre, id, x.log);
    forall j | 1 <= j <= n && j != id ensures Packet(j, m) in r.sent {
      VotersAsked(x.members, id, m, j - 1);
    }
  }

  lemma StandsTick(x: Node, id: Id, n: nat, term: nat, log: Log)
    requires At(x, id, n, term, log) && x.role != Leader && n >= 2
    ensures var r := Tick(x, x.now + 16);
      PreCand(r, id, n, term, log, {id}) && x.sent <= r.sent && ToAll(r, id, n, Ask(term + 1, true, id, log))
  {
    FullTable(x.members, n);
    FlagsReset(x.members, n, id);
    FullTable(GrantVote(ResetVotes(x.members), id), n);
    hide Full, EligibleVoter, GrantVote, ResetVotes, CountIf, Tick, BroadcastVote, Flags, ToAll;
    var x1 := AdvanceClock(x, x.now + 16);
    TimeoutIs(x1);
    TickStands(x, x.now + 16);
    Broadcast(x1.(role := Candidate, leader := NO_NODE, electionElapsed := 0, inPreVote := true,
                  members := GrantVote(ResetVotes(x.members), id)), id, n, true, term + 1);
  }

  lemma PreGrants(x: Node, id: Id, n: nat, term: nat, log: Log, src: Id, m: Msg)
    requires Waits(x, id, n, term, log) && m.RequestVote? && m.preVote && m.term > term
    requires LogOk(log, m.lastIndex, m.lastTerm)
    ensures var r := Recv(x, src, m);
      r == x.(sent := r.sent) && r.sent == x.sent + [Packet(m.candidate, RequestVoteResp(term, true, true))]
  {
    hide Full, LogOk;
  }

  lemma Votes(x: Node, id: Id, n: nat, term: nat, log: Log, src: Id, m: Msg)
    requires At(x, id, n, term, log) && m.RequestVote? && !m.preVote && m.term > term
    requires LogOk(log, m.lastIndex, m.lastTerm)
    ensures var r := Recv(x, src, m);
      && Rests(r, id, n, m.term, log)
      && r.sent == x.sent + [Packet(m.candidate, RequestVoteResp(m.term, false, true))]
  {
    hide Full, LogOk;
  }

  lemma StepsDown(x: Node, id: Id, n: nat, term: nat, log: Log, src: Id, m: Msg)
    requires At(x, id, n, term, log) && m.RequestVote? && !m.preVote && m.term > term
    requires !LogOk(log, m.lastIndex, m.lastTerm)
    ensures var r := Recv(x, src, m); Rests(r, id, n, m.term, log) && x.sent <= r.sent
  {
    hide Full, LogOk;
  }

  lemma MorePreVotes(x: Node, id: Id, n: nat, term: nat, log: Log, flags: set<Id>, src: Id, t: nat)
    requires PreCand(x, id, n, term, log, flags) && 1 <= src <= n && |flags + {src}| < n / 2 + 1
    ensures var r := Recv(x, src, RequestVoteResp(t, true, true));
      PreCand(r, id, n, term, log, flags + {src}) && r.sent == x.sent
  {
    FlagsGrant(x.members, n, src);
    FlagsCount(GrantVote(x.members, src), n);
    FullTable(GrantVote(x.members, src), n);
    hide Full, CountIf, Quorum, GrantVote, Flags;
  }

  lemma OpensRound(x: Node, id: Id, n: nat, term: nat, log: Log, flags: set<Id>, src: Id, t: nat)
    requires PreCand(x, id, n, term, log, flags) && 1 <= src <= n && |flags + {src}| >= n / 2 + 1
    ensures var r := Recv(x, src, RequestVoteResp(t, true, true));
      RealCand(r, id, n, term + 1, log, {id}) && x.sent <= r.sent && ToAll(r, id, n, Ask(term + 1, false, id, log))
  {
    FlagsGrant(x.members, n, src);
    FlagsCount(GrantVote(x.members, src), n);
    FullTable(GrantVote(x.members, src), n);
    FlagsReset(GrantVote(x.members, src), n, id);
    hide Full, CountIf, Quorum, GrantVote, ResetVotes, Flags, BroadcastVote, ToAll;
    var x1 := OpenRealRound(x.(members := GrantVote(x.members, src)));
    Broadcast(x1, id, n, false, term + 1);
  }

  lemma MoreVotes(x: Node, id: Id, n: nat, term: nat, log: Log, flags: set<Id>, src: Id)
    requires RealCand(x, id, n, term, log, flags) && 1 <= src <= n && |flags + {src}| < n / 2 + 1
    ensures var r := Recv(x, src, RequestVoteResp(term, false, true));
      RealCand(r, id, n, term, log, flags + {src}) && r.sent == x.sent
  {
    FlagsGrant(x.members, n, src);
    FlagsCount(GrantVote(x.members, src), n);
    FullTable(GrantVote(x.members, src), n);
    hide Full, CountIf, Quorum, GrantVote, Flags;
  }

  function NoopAt(term: nat, log: Log): Entry { Entry(term, |log| + 1, Noop, []) }

  /** The append a leader sends from `next` on. */
  function From(term: nat, id: Id, log: Log, next: pos, commit: nat): Msg {
    Append(term, id, next - 1, TermAt(log, next - 1), Batch(log, next), commit)
  }

  lemma SendsToAll(x: Node, id: Id, n: nat, term: nat, log: Log, next: pos)
    requires Leads(x, id, n, term, log, next)
    ensures var r := BroadcastAppend(x);
      && Leads(r, id, n, term, log, next) && r == x.(sent := r.sent)
      && x.sent <= r.sent && ToAll(r, id, n, From(term, id, log, next, 0))
  {
    var r := BroadcastAppend(x);
    hide AppendsTo, Batch;
    forall j | 1 <= j <= n && j != id ensures Packet(j, From(term, id, log, next, 0)) in r.sent {
      MembersSent(x, x.members, j - 1);
    }
  }

  lemma Takes(x: Node, id: Id, n: nat, term: nat, log: Log)
    requires At(x, id, n, term, log) && |log| < MAX_LOG
    ensures var r := BecomeLeader(x);
      && Leads(r, id, n, term, log + [NoopAt(term, log)], |log| + 1) && x.sent <= r.sent
      && ToAll(r, id, n, Append(term, id, |log|, LastTerm(log), [NoopAt(term, log)], 0))
  {
    var x1 := LeaderAppend(TakeOffice(x), Noop, []);
    SendsToAll(x1, id, n, term, log + [NoopAt(term, log)], |log| + 1);
    FirstBatch(term, id, log);
  }

  lemma FirstBatch(term: nat, id: Id, log: Log)
    ensures From(term, id, log + [NoopAt(term, log)], |log| + 1, 0)
         == Append(term, id, |log|, LastTerm(log), [NoopAt(term, log)], 0)
  {
    assert (log + [NoopAt(term, log)])[|log|..|log| + 1] == [NoopAt(term, log)];
  }

  lemma WinsOffice(x: Node, id: Id, n: nat, term: nat, log: Log, flags: set<Id>, src: Id)
    requires RealCand(x, id, n, term, log, flags) && 1 <= src <= n && |flags + {src}| >= n / 2 + 1 && |log| < MAX_LOG
    ensures var r := Recv(x, src, RequestVoteResp(term, false, true));
      && Leads(r, id, n, term, log + [NoopAt(term, log)], |log| + 1) && x.sent <= r.sent
      && ToAll(r, id, n, Append(term, id, |log|, LastTerm(log), [NoopAt(term, log)], 0))
  {
    FlagsGrant(x.members, n, src);
    FlagsCount(GrantVote(x.members, src), n);
    FullTable(GrantVote(x.members, src), n);
    hide Full, CountIf, Quorum, GrantVote, Flags, BecomeLeader, ToAll, Leads;
    Takes(x.(members := GrantVote(x.members, src)), id, n, term, log);
  }

  // ---- replication ----

  lemma {:induction false} PlaceAtEnd(log: Log, es: seq<Entry>)
    requires |log| + |es| <= MAX_LOG && forall k :: 0 <= k < |es| ==> es[k].index == |log| + 1 + k
    ensures PlaceEntries(log, |log| + 1, es) == log + es
    decreases |es|
  {
    if es == [] {
      assert log + es == log;
    } else {
      var log1 := log + [es[0]];
      assert es[0].(index := |log| + 1) == es[0];
      assert PlaceEntry(log, |log| + 1, es[0]) == log1;
      PlaceAtEnd(log1, es[1..]);
      assert log1 + es[1..] == log + es;
    }
  }

  /** The log already has these entries from `idx` on. */
  ghost predicate Has(log: Log, idx: pos, es: seq<Entry>) {
    idx - 1 + |es| <= |log| && forall k :: 0 <= k < |es| ==> log[idx - 1 + k].term == es[k].term
  }

  lemma {:induction false} NothingPlaced(log: Log, idx: pos, es: seq<Entry>)
    requires Has(log, idx, es)
    ensures PlaceEntries(log, idx, es) == log
    decreases |es|
  {
    if es != [] {
      assert log[idx - 1 + 0].term == es[0].term;
      var rest := es[1..];
      forall k | 0 <= k < |rest| ensures log[idx + k].term == rest[k].term {
        assert log[idx - 1 + (k + 1)].term == es[k + 1].term;
      }
      assert Has(log, idx + 1, rest);
      NothingPlaced(log, idx + 1, rest);
    }
  }

  lemma Accepts(x: Node, id: Id, n: nat, term: nat, log: Log, src: Id, m: Msg, log': Log)
    requires At(x, id, n, term, log) && m.Append? && m.term >= term && m.leaderCommit == 0
    requires PrevMatches(log, m) && PlaceEntries(log, m.prevIndex + 1, m.entries) == log'
    ensures var r := Recv(x, src, m);
      && Rests(r, id, n, m.term, log')
      && r.sent == x.sent + [Packet(m.leader, AppendResp(m.term, true, m.prevIndex + |m.entries|))]
  {
    hide Full, PlaceEntries, ApplyCommitted;
  }

  lemma Refuses(x: Node, id: Id, n: nat, term: nat, log: Log, src: Id, m: Msg)
    requires At(x, id, n, term, log) && m.Append? && m.term >= term && !PrevMatches(log, m)
    ensures var r := Recv(x, src, m);
      Rests(r, id, n, m.term, log) && r.sent == x.sent + [Packet(m.leader, AppendResp(m.term, false, 0))]
  {
    hide Full, PlaceEntries;
  }

  /** Whom a leader knows to hold its log up to an index. */
  ghost function MatchedBy(ms: seq<Member>, idx: nat): set<Id> { IdsIf(ms, HoldsUpTo(idx)) }

  lemma HoldersCount(ms: seq<Member>, n: nat, idx: nat)
    requires Full(ms, n)
    ensures CountIf(ms, HoldsUpTo(idx)) == |MatchedBy(ms, idx)| && Quorum(ms) == n / 2 + 1
  {
    FullTable(ms, n);
    CountIsSize(ms, HoldsUpTo(idx));
  }

  lemma {:induction false} ScanStays(x: Node, n: nat, idx: nat)
    requires idx <= |x.log| && Full(x.members, n)
    requires forall k: nat :: x.commit < k ==> |MatchedBy(x.members, k)| < n / 2 + 1
    ensures CommitScan(x, idx) == x.commit
    decreases idx
  {
    hide Full, MatchedBy, CountIf, Quorum;
    if idx > x.commit {
      HoldersCount(x.members, n, idx);
      if TermAt(x.log, idx) == x.term { ScanStays(x, n, idx - 1); }
    }
  }

  lemma {:induction false} HoldersBelow(ms: seq<Member>, ids: set<Id>, idx: nat)
    requires forall k :: 0 <= k < |ms| && ms[k].matchIndex >= idx ==> ms[k].id in ids
    ensures |MatchedBy(ms, idx)| <= |ids|
  {
    forall x | x in MatchedBy(ms, idx) ensures x in ids {
      var k :| 0 <= k < |ms| && HoldsUpTo(idx)(ms[k]) && ms[k].id == x;
    }
    SubsetSize(MatchedBy(ms, idx), ids);
  }

  function CommandAt(term: nat, log: Log, data: seq<byte>): Entry { Entry(term, |log| + 1, Normal, data) }

  lemma ProposesAlone(x: Node, id: Id, n: nat, term: nat, log: Log, next: pos, data: seq<byte>)
    requires Leads(x, id, n, term, log, next) && n >= 3 && |log| < MAX_LOG && |data| <= ENTRY_MAX
    ensures var r, log' := Propose(x, data), log + [CommandAt(term, log, data)];
      Leads(r, id, n, term, log', next) && x.sent <= r.sent && ToAll(r, id, n, From(term, id, log', next, 0))
  {
    var log' := log + [CommandAt(term, log, data)];
    var x1 := LeaderAppend(x, Normal, data);
    LeaderAppends(x, id, n, term, log, next, data);
    SendsToAll(x1, id, n, term, log', next);
    hide LeaderAppend, BroadcastAppend, CommitScan, Full, ToAll, From;
    var x2 := BroadcastAppend(x1);
    forall k: nat | 0 < k ensures |MatchedBy(x2.members, k)| < n / 2 + 1 {
      HoldersBelow(x2.members, {id}, k);
    }
    ScanStays(x2, n, |log'|);
  }

  lemma LeaderAppends(x: Node, id: Id, n: nat, term: nat, log: Log, next: pos, data: seq<byte>)
    requires Leads(x, id, n, term, log, next)
    ensures var r := LeaderAppend(x, Normal, data);
      && Leads(r, id, n, term, log + [CommandAt(term, log, data)], next) && r.sent == x.sent
      && forall k :: 0 <= k < n ==> r.members[k].id == k + 1
  {
  }

  // ---- elections ----

  /** Only node `i` has changed, and it has only added to what it sent. */
  ghost predicate OnlyOne(s: System, t: System, i: Id) {
    i in s.nodes && i in t.nodes && t.nodes == s.nodes[i := t.nodes[i]] && s.nodes[i].sent <= t.nodes[i].sent
  }

  lemma StillToAll(x: Node, y: Node, id: Id, n: nat, m: Msg)
    requires ToAll(x, id, n, m) && x.sent <= y.sent
    ensures ToAll(y, id, n, m)
  {
    forall j | 1 <= j <= n && j != id ensures Packet(j, m) in y.sent { assert Packet(j, m) in x.sent; }
  }

  lemma Canvass(c: Cluster, s: System, i: Id, n: nat, term: nat, log: Log) returns (t: System)
    requires i in s.nodes && At(s.nodes[i], i, n, term, log) && s.nodes[i].role != Leader && n >= 2
    ensures Reaches(c, s, t) && OnlyOne(s, t, i) && PreCand(t.nodes[i], i, n, term, log, {i})
    ensures ToAll(t.nodes[i], i, n, Ask(term + 1, true, i, log))
  {
    hide Tick, At, PreCand, ToAll;
    StandsTick(s.nodes[i], i, n, term, log);
    t := Clock(c, s, i, s.nodes[i].now + 16);
  }

  /** A node at rest waits for the base timeout and then grants a pre-vote. */
  lemma PreOne(c: Cluster, s: System, i: Id, g: Id, n: nat, ti: nat, li: Log, tg: nat, lg: Log) returns (t: System)
    requires i in s.nodes && g in s.nodes && i != g && Rests(s.nodes[g], g, n, tg, lg)
    requires ti >= tg && LogOk(lg, |li|, LastTerm(li))
    requires 1 <= g <= n && ToAll(s.nodes[i], i, n, Ask(ti + 1, true, i, li))
    ensures Reaches(c, s, t) && OnlyOne(s, t, g) && Waits(t.nodes[g], g, n, tg, lg)
    ensures Packet(i, RequestVoteResp(tg, true, true)) in t.nodes[g].sent
  {
    var m := Ask(ti + 1, true, i, li);
    assert Packet(g, m) in s.nodes[i].sent;
    AwakesTick(s.nodes[g], g, n, tg, lg);
    hide Tick, Recv, At, LogOk, ToAll;
    var s1 := Clock(c, s, g, s.nodes[g].now + 10);
    PreGrants(s1.nodes[g], g, n, tg, lg, i, m);
    t := Hear(c, s1, i, g, m);
    ReachesTrans(c, s, s1, t);
  }

  /** A node that is waiting already grants another pre-vote. */
  lemma PreAgain(c: Cluster, s: System, i: Id, g: Id, n: nat, ti: nat, li: Log, tg: nat, lg: Log) returns (t: System)
    requires i in s.nodes && g in s.nodes && i != g && Waits(s.nodes[g], g, n, tg, lg)
    requires ti >= tg && LogOk(lg, |li|, LastTerm(li))
    requires 1 <= g <= n && ToAll(s.nodes[i], i, n, Ask(ti + 1, true, i, li))
    ensures Reaches(c, s, t) && OnlyOne(s, t, g) && Waits(t.nodes[g], g, n, tg, lg)
    ensures Packet(i, RequestVoteResp(tg, true, true)) in t.nodes[g].sent
  {
    var m := Ask(ti + 1, true, i, li);
    assert Packet(g, m) in s.nodes[i].sent;
    hide Recv, At, LogOk, ToAll;
    PreGrants(s.nodes[g], g, n, tg, lg, i, m);
    t := Hear(c, s, i, g, m);
  }

  /** A node casts its vote. */
  lemma VoteOne(c: Cluster, s: System, i: Id, g: Id, n: nat, ti: nat, li: Log, tg: nat, lg: Log) returns (t: System)
    requires i in s.nodes && g in s.nodes && i != g && At(s.nodes[g], g, n, tg, lg)
    requires ti > tg && LogOk(lg, |li|, LastTerm(li))
    requires 1 <= g <= n && ToAll(s.nodes[i], i, n, Ask(ti, false, i, li))
    ensures Reaches(c, s, t) && OnlyOne(s, t, g) && Rests(t.nodes[g], g, n, ti, lg)
    ensures Packet(i, RequestVoteResp(ti, false, true)) in t.nodes[g].sent
  {
    var m := Ask(ti, false, i, li);
    assert Packet(g, m) in s.nodes[i].sent;
    hide Recv, At, LogOk, ToAll;
    Votes(s.nodes[g], g, n, tg, lg, i, m);
    t := Hear(c, s, i, g, m);
  }

  /** A candidate hears one more pre-vote, short of a quorum. */
  lemma PreHeard(c: Cluster, s: System, i: Id, g: Id, n: nat, ti: nat, li: Log, flags: set<Id>, tg: nat)
    returns (t: System)
    requires i in s.nodes && g in s.nodes && 1 <= g <= n && PreCand(s.nodes[i], i, n, ti, li, flags)
    requires Packet(i, RequestVoteResp(tg, true, true)) in s.nodes[g].sent && |flags + {g}| < n / 2 + 1
    ensures Reaches(c, s, t) && OnlyOne(s, t, i) && PreCand(t.nodes[i], i, n, ti, li, flags + {g})
  {
    hide Recv, At, Flags;
    MorePreVotes(s.nodes[i], i, n, ti, li, flags, g, tg);
    t := Hear(c, s, g, i, RequestVoteResp(tg, true, true));
  }

  lemma PreWon(c: Cluster, s: System, i: Id, g: Id, n: nat, ti: nat, li: Log, flags: set<Id>, tg: nat)
    returns (t: System)
    requires i in s.nodes && g in s.nodes && 1 <= g <= n && PreCand(s.nodes[i], i, n, ti, li, flags)
    requires Packet(i, RequestVoteResp(tg, true, true)) in s.nodes[g].sent && |flags + {g}| >= n / 2 + 1
    ensures Reaches(c, s, t) && OnlyOne(s, t, i) && RealCand(t.nodes[i], i, n, ti + 1, li, {i})
    ensures ToAll(t.nodes[i], i, n, Ask(ti + 1, false, i, li))
  {
    hide Recv, At, Flags, ToAll;
    OpensRound(s.nodes[i], i, n, ti, li, flags, g, tg);
    t := Hear(c, s, g, i, RequestVoteResp(tg, true, true));
  }

  lemma VoteHeard(c: Cluster, s: System, i: Id, g: Id, n: nat, ti: nat, li: Log, flags: set<Id>) returns (t: System)
    requires i in s.nodes && g in s.nodes && 1 <= g <= n && RealCand(s.nodes[i], i, n, ti, li, flags)
    requires Packet(i, RequestVoteResp(ti, false, true)) in s.nodes[g].sent && |flags + {g}| < n / 2 + 1
    ensures Reaches(c, s, t) && OnlyOne(s, t, i) && RealCand(t.nodes[i], i, n, ti, li, flags + {g})
  {
    MoreVotes(s.nodes[i], i, n, ti, li, flags, g);
    hide Recv, Flags, Full;
    t := Hear(c, s, g, i, RequestVoteResp(ti, false, true));
  }

  function First(ti: nat, i: Id, li: Log): Msg { Append(ti, i, |li|, LastTerm(li), [NoopAt(ti, li)], 0) }

  lemma VotesWon(c: Cluster, s: System, i: Id, g: Id, n: nat, ti: nat, li: Log, flags: set<Id>) returns (t: System)
    requires i in s.nodes && g in s.nodes && 1 <= g <= n && RealCand(s.nodes[i], i, n, ti, li, flags)
    requires Packet(i, RequestVoteResp(ti, false, true)) in s.nodes[g].sent && |flags + {g}| >= n / 2 + 1
    requires |li| < MAX_LOG
    ensures Reaches(c, s, t) && OnlyOne(s, t, i) && Leads(t.nodes[i], i, n, ti, li + [NoopAt(ti, li)], |li| + 1)
    ensures ToAll(t.nodes[i], i, n, First(ti, i, li))
  {
    WinsOffice(s.nodes[i], i, n, ti, li, flags, g);
    hide Recv, Flags, Full, ToAll, Leads;
    t := Hear(c, s, g, i, RequestVoteResp(ti, false, true));
  }

  /** What an election leaves behind at the new leader. */
  ghost predicate Elected(x: Node, i: Id, n: nat, ti: nat, li: Log) {
    && Leads(x, i, n, ti, li + [NoopAt(ti, li)], |li| + 1)
    && ToAll(x, i, n, First(ti, i, li)) && ToAll(x, i, n, Ask(ti, false, i, li))
  }

  ghost predicate CanStand(x: Node, i: Id, n: nat, ti: nat, li: Log) {
    At(x, i, n, ti, li) && x.role != Leader && |li| < MAX_LOG
  }

  /** A node at rest whose term and log let it vote for the candidate. */
  ghost predicate CanVote(x: Node, g: Id, n: nat, tg: nat, lg: Log, ti: nat, li: Log) {
    Rests(x, g, n, tg, lg) && ti >= tg && LogOk(lg, |li|, LastTerm(li))
  }

  /** Of three voters, one is elected by the vote of another. */
  lemma Elect1(c: Cluster, s: System, i: Id, g: Id, ti: nat, li: Log, tg: nat, lg: Log) returns (t: System)
    requires i in s.nodes && g in s.nodes && i != g
    requires CanStand(s.nodes[i], i, 3, ti, li) && CanVote(s.nodes[g], g, 3, tg, lg, ti, li)
    ensures Reaches(c, s, t) && i in t.nodes && g in t.nodes && t.nodes == s.nodes[i := t.nodes[i]][g := t.nodes[g]]
    ensures Elected(t.nodes[i], i, 3, ti + 1, li) && Rests(t.nodes[g], g, 3, ti + 1, lg)
    ensures s.nodes[i].sent <= t.nodes[i].sent && s.nodes[g].sent <= t.nodes[g].sent
  {
    assert 1 <= g <= 3;
    var s1 := Canvass(c, s, i, 3, ti, li);
    var s2 := PreOne(c, s1, i, g, 3, ti, li, tg, lg);
    var s3 := PreWon(c, s2, i, g, 3, ti, li, {i}, tg);
    var s4 := VoteOne(c, s3, i, g, 3, ti + 1, li, tg, lg);
    t := VotesWon(c, s4, i, g, 3, ti + 1, li, {i});
    hide Reaches, Leads, ToAll, At, PreCand, RealCand, LogOk;
    StillToAll(s3.nodes[i], t.nodes[i], i, 3, Ask(ti + 1, false, i, li));
    ReachesTrans(c, s, s1, s2);
    ReachesTrans(c, s, s2, s3);
    ReachesTrans(c, s, s3, s4);
    ReachesTrans(c, s, s4, t);
  }

  /** Of five voters, one wins the pre-vote round with two others, who go on waiting. */
  lemma PreRound2(c: Cluster, s: System, i: Id, g: Id, h: Id, ti: nat, li: Log, tg: nat, lg: Log, th: nat, lh: Log)
    returns (t: System)
    requires i in s.nodes && g in s.nodes && h in s.nodes && i != g && i != h && g != h
    requires CanStand(s.nodes[i], i, 5, ti, li)
    requires CanVote(s.nodes[g], g, 5, tg, lg, ti, li) && CanVote(s.nodes[h], h, 5, th, lh, ti, li)
    ensures Reaches(c, s, t) && i in t.nodes && g in t.nodes && h in t.nodes
    ensures t.nodes == s.nodes[i := t.nodes[i]][g := t.nodes[g]][h := t.nodes[h]]
    ensures RealCand(t.nodes[i], i, 5, ti + 1, li, {i}) && ToAll(t.nodes[i], i, 5, Ask(ti + 1, false, i, li))
    ensures At(t.nodes[g], g, 5, tg, lg) && At(t.nodes[h], h, 5, th, lh)
    ensures s.nodes[i].sent <= t.nodes[i].sent && s.nodes[g].sent <= t.nodes[g].sent
    ensures s.nodes[h].sent <= t.nodes[h].sent
  {
    assert 1 <= g <= 5 && 1 <= h <= 5;
    assert |{i} + {g}| == 2 && |{i} + {g} + {h}| == 3;
    hide Leads, ToAll, At, LogOk, Flags;
    var s1 := Canvass(c, s, i, 5, ti, li);
    var s2 := PreOne(c, s1, i, g, 5, ti, li, tg, lg);
    var s3 := PreOne(c, s2, i, h, 5, ti, li, th, lh);
    var s4 := PreHeard(c, s3, i, g, 5, ti, li, {i}, tg);
    t := PreWon(c, s4, i, h, 5, ti, li, {i} + {g}, th);
    hide Reaches;
    ReachesTrans(c, s, s1, s2);
    ReachesTrans(c, s, s2, s3);
    ReachesTrans(c, s, s3, s4);
    ReachesTrans(c, s, s4, t);
  }

  lemma RealRound2(c: Cluster, s: System, i: Id, g: Id, h: Id, ti: nat, li: Log, tg: nat, lg: Log, th: nat, lh: Log)
    returns (t: System)
    requires i in s.nodes && g in s.nodes && h in s.nodes && i != g && i != h && g != h
    requires RealCand(s.nodes[i], i, 5, ti, li, {i}) && ToAll(s.nodes[i], i, 5, Ask(ti, false, i, li)) && |li| < MAX_LOG
    requires At(s.nodes[g], g, 5, tg, lg) && tg < ti && LogOk(lg, |li|, LastTerm(li))
    requires At(s.nodes[h], h, 5, th, lh) && th < ti && LogOk(lh, |li|, LastTerm(li))
    ensures Reaches(c, s, t) && i in t.nodes && g in t.nodes && h in t.nodes
    ensures t.nodes == s.nodes[i := t.nodes[i]][g := t.nodes[g]][h := t.nodes[h]]
    ensures Elected(t.nodes[i], i, 5, ti, li)
    ensures Rests(t.nodes[g], g, 5, ti, lg) && Rests(t.nodes[h], h, 5, ti, lh)
    ensures s.nodes[i].sent <= t.nodes[i].sent && s.nodes[g].sent <= t.nodes[g].sent
    ensures s.nodes[h].sent <= t.nodes[h].sent
  {
    assert 1 <= g <= 5 && 1 <= h <= 5;
    assert |{i} + {g}| == 2 && |{i} + {g} + {h}| == 3;
    hide Leads, ToAll, At, LogOk, Flags;
    var s1 := VoteOne(c, s, i, g, 5, ti, li, tg, lg);
    var s2 := VoteOne(c, s1, i, h, 5, ti, li, th, lh);
    var s3 := VoteHeard(c, s2, i, g, 5, ti, li, {i});
    t := VotesWon(c, s3, i, h, 5, ti, li, {i} + {g});
    hide Reaches;
    StillToAll(s.nodes[i], t.nodes[i], i, 5, Ask(ti, false, i, li));
    ReachesTrans(c, s, s1, s2);
    ReachesTrans(c, s, s2, s3);
    ReachesTrans(c, s, s3, t);
  }

  /** Of five voters, one is elected by the votes of two others. */
  lemma Elect2(c: Cluster, s: System, i: Id, g: Id, h: Id, ti: nat, li: Log, tg: nat, lg: Log, th: nat, lh: Log)
    returns (t: System)
    requires i in s.nodes && g in s.nodes && h in s.nodes && i != g && i != h && g != h
    requires CanStand(s.nodes[i], i, 5, ti, li)
    requires CanVote(s.nodes[g], g, 5, tg, lg, ti, li) && CanVote(s.nodes[h], h, 5, th, lh, ti, li)
    ensures Reaches(c, s, t) && i in t.nodes && g in t.nodes && h in t.nodes
    ensures t.nodes == s.nodes[i := t.nodes[i]][g := t.nodes[g]][h := t.nodes[h]]
    ensures Elected(t.nodes[i], i, 5, ti + 1, li)
    ensures Rests(t.nodes[g], g, 5, ti + 1, lg) && Rests(t.nodes[h], h, 5, ti + 1, lh)
    ensures s.nodes[i].sent <= t.nodes[i].sent && s.nodes[g].sent <= t.nodes[g].sent
    ensures s.nodes[h].sent <= t.nodes[h].sent
  {
    var s1 := PreRound2(c, s, i, g, h, ti, li, tg, lg, th, lh);
    hide Elected, ToAll, At, LogOk, RealCand, Reaches;
    t := RealRound2(c, s1, i, g, h, ti + 1, li, tg, lg, th, lh);
    ReachesTrans(c, s, s1, t);
  }

  // ---- the start ----

  function NewNode(id: Id, n: nat): Node {
    Node(id, CFG, 0, NO_NODE, [], Follower, NO_NODE, 0, 0, 0, 0, 0, false,
         seq(n, (k: nat) => Member(k + 1, Voter, true, 1, 0, false)), [], [])
  }

  function Start(n: nat): System { System(map i: nat | 1 <= i <= n :: NewNode(i, n), {}) }

  function Voters(n: nat, net: Net): Cluster { Cluster(Start(n).nodes.Keys, Start(n).nodes.Keys, net) }

  lemma Starts(n: nat, net: Net)
    requires 2 <= n <= 5
    ensures Init(Voters(n, net), Start(n))
    ensures forall i :: 1 <= i <= n ==> i in Start(n).nodes && Rests(Start(n).nodes[i], i, n, 0, [])
  {
    forall i | 1 <= i <= n ensures TableInv(Voters(n, net), i, Start(n).nodes[i]) { StartTable(i, n, net); }
  }

  lemma StartTable(i: Id, n: nat, net: Net)
    requires 1 <= i <= n
    ensures TableInv(Voters(n, net), i, NewNode(i, n))
  {
    var ms := NewNode(i, n).members;
    forall j | 1 <= j <= n ensures j in Ids(ms) && j in IdsIf(ms, IsVoter) {
      assert ms[j - 1].id == j && IsVoter(ms[j - 1]);
    }
    assert Ids(ms) == Voters(n, net).members;
    assert IdsIf(ms, IsVoter) == Voters(n, net).voters;
  }
}
