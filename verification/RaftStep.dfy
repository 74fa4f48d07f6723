/** The Raft core as pure steps: one function per handler, from a node to the node after it. */
module RaftStep {
  import opened RaftTypes
  import opened Bytes

  // ---- counting over the member table ----

  predicate IsVoter(m: Member) { m.role == Voter }

  /** A voter whose vote flag is set. */
  predicate IsGranter(m: Member) { m.role == Voter && m.voteGranted }

  /** The voters known to hold the log up to `idx`. */
  function HoldsUpTo(idx: nat): Member -> bool {
    (m: Member) => m.role == Voter && m.matchIndex >= idx
  }

  function CountIf(ms: seq<Member>, p: Member -> bool): nat {
    if ms == [] then 0
    else CountIf(ms[..|ms| - 1], p) + (if p(ms[|ms| - 1]) then 1 else 0)
  }

  function Quorum(ms: seq<Member>): nat {
    CountIf(ms, IsVoter) / 2 + 1
  }

  // ---- updates of the member table ----

  function ResetVotes(ms: seq<Member>): seq<Member> {
    seq(|ms|, i requires 0 <= i < |ms| => ms[i].(voteGranted := false))
  }

  function GrantVote(ms: seq<Member>, id: Id): seq<Member> {
    seq(|ms|, i requires 0 <= i < |ms| => if ms[i].id == id then ms[i].(voteGranted := true) else ms[i])
  }

  function InitProgress(ms: seq<Member>, next: pos): seq<Member> {
    seq(|ms|, i requires 0 <= i < |ms| => ms[i].(nextIndex := next, matchIndex := 0))
  }

  function SetMatch(ms: seq<Member>, id: Id, index: nat): seq<Member> {
    seq(|ms|, i requires 0 <= i < |ms| => if ms[i].id == id then ms[i].(matchIndex := index) else ms[i])
  }

  /** A successful append reply: the match index never falls, the next index follows it. */
  function RecordMatch(ms: seq<Member>, id: Id, index: nat): seq<Member> {
    seq(|ms|, i requires 0 <= i < |ms| =>
      if ms[i].id == id then
        var m := if index > ms[i].matchIndex then index else ms[i].matchIndex;
        ms[i].(matchIndex := m, nextIndex := m + 1)
      else ms[i])
  }

  function BackOff(ms: seq<Member>, id: Id): seq<Member> {
    seq(|ms|, i requires 0 <= i < |ms| =>
      if ms[i].id == id && ms[i].nextIndex > 1 then ms[i].(nextIndex := ms[i].nextIndex - 1) else ms[i])
  }

  /** Position of a member in the table, or its length when absent. */
  function Find(ms: seq<Member>, id: Id): (k: nat)
    ensures k <= |ms|
    ensures k < |ms| ==> ms[k].id == id
    ensures forall j :: 0 <= j < k ==> ms[j].id != id
  {
    if ms == [] then 0 else if ms[0].id == id then 0 else 1 + Find(ms[1..], id)
  }

  predicate EligibleVoter(ms: seq<Member>, id: Id) {
    var k := Find(ms, id);
    k < |ms| && ms[k].role == Voter && ms[k].eligible
  }

  // ---- pieces of a step ----

  function ElectionTimeout(n: Node): nat {
    (n.cfg.electionBase + n.self % (n.cfg.electionSpread + 1)) % 0x1_0000_0000
  }

  /** Section 5.4.1: a log ending in (lastIndex, lastTerm) is at least as up to date as ours. */
  predicate LogOk(log: Log, lastIndex: nat, lastTerm: nat) {
    if lastTerm != LastTerm(log) then lastTerm > LastTerm(log) else lastIndex >= |log|
  }

  function BecomeFollower(n: Node, term: nat, leader: Id): Node {
    var n1 := if term > n.term then n.(term := term, votedFor := NO_NODE) else n;
    n1.(role := Follower, leader := leader, inPreVote := false, electionElapsed := 0)
  }

  function Send(n: Node, dst: Id, msg: Msg): Node {
    n.(sent := n.sent + [Packet(dst, msg)])
  }

  /** One packet per voter other than `self`, in table order. */
  function ToVoters(ms: seq<Member>, self: Id, msg: Msg): seq<Packet> {
    if ms == [] then []
    else
      var m := ms[|ms| - 1];
      ToVoters(ms[..|ms| - 1], self, msg)
      + (if m.id == self || m.role != Voter then [] else [Packet(m.id, msg)])
  }

  function BroadcastVote(n: Node, preVote: bool, term: nat): Node {
    n.(sent := n.sent + ToVoters(n.members, n.self,
                                 RequestVote(term, preVote, n.self, |n.log|, LastTerm(n.log))))
  }

  /** The entries shipped from a 1-based start: at most one batch, nothing past the end. */
  function Batch(log: Log, start: pos): seq<Entry> {
    if start <= |log| then
      log[start - 1 .. if start - 1 + MAX_BATCH < |log| then start - 1 + MAX_BATCH else |log|]
    else []
  }

  function AppendTo(n: Node, m: Member): Msg {
    Append(n.term, n.self, m.nextIndex - 1, TermAt(n.log, m.nextIndex - 1),
           Batch(n.log, m.nextIndex), n.commit)
  }

  /** One append per member of `ms` other than the sender, in table order. */
  function AppendsTo(n: Node, ms: seq<Member>): seq<Packet> {
    if ms == [] then []
    else
      var m := ms[|ms| - 1];
      AppendsTo(n, ms[..|ms| - 1]) + (if m.id == n.self then [] else [Packet(m.id, AppendTo(n, m))])
  }

  function BroadcastAppend(n: Node): Node {
    n.(sent := n.sent + AppendsTo(n, n.members))
  }

  /** The application commands of a stretch of log; no-ops are not applied. */
  function Commands(log: Log): seq<Entry> {
    if log == [] then []
    else
      Commands(log[..|log| - 1]) + (if log[|log| - 1].kind == Normal then [log[|log| - 1]] else [])
  }

  function ApplyCommitted(n: Node): Node {
    if n.lastApplied < n.commit <= |n.log| then
      n.(lastApplied := n.commit, applied := n.applied + Commands(n.log[n.lastApplied..n.commit]))
    else n
  }

  /** The downward scan of advance_commit from `idx`. */
  function CommitScan(n: Node, idx: nat): nat
    requires idx <= |n.log|
  {
    if idx <= n.commit || TermAt(n.log, idx) != n.term then n.commit
    else if CountIf(n.members, HoldsUpTo(idx)) >= Quorum(n.members) then idx
    else CommitScan(n, idx - 1)
  }

  function AdvanceCommit(n: Node): Node {
    ApplyCommitted(n.(commit := CommitScan(n, |n.log|)))
  }

  /** Append an entry created by this node as leader, and count it as matched by itself. */
  function LeaderAppend(n: Node, kind: EntryKind, data: seq<byte>): Node {
    var log := n.log + [Entry(n.term, |n.log| + 1, kind, data)];
    n.(log := log, members := SetMatch(n.members, n.self, |log|))
  }

  function TakeOffice(n: Node): Node {
    n.(role := Leader, leader := n.self, inPreVote := false, heartbeatElapsed := 0,
       members := SetMatch(InitProgress(n.members, |n.log| + 1), n.self, |n.log|))
  }

  function BecomeLeader(n: Node): Node {
    var n1 := TakeOffice(n);
    var n2 := if |n1.log| < MAX_LOG then LeaderAppend(n1, Noop, []) else n1;
    BroadcastAppend(n2)
  }

  function StandForElection(n: Node): Node {
    n.(role := Candidate, leader := NO_NODE, electionElapsed := 0,
       members := GrantVote(ResetVotes(n.members), n.self))
  }

  /** Open the real round of the next term: bump the term and vote for oneself. */
  function OpenRealRound(n: Node): Node {
    n.(role := Candidate, inPreVote := false, term := n.term + 1, votedFor := n.self,
       members := GrantVote(ResetVotes(n.members), n.self), electionElapsed := 0)
  }

  function StartElection(n: Node): Node {
    if !EligibleVoter(n.members, n.self) then n.(electionElapsed := 0)
    else
      var n1 := StandForElection(n);
      if CountIf(n1.members, IsVoter) == 1 then BecomeLeader(OpenRealRound(n1))
      else BroadcastVote(n1.(inPreVote := true), true, n1.term + 1)
  }

  // ---- message handlers ----

  function HandleRequestVote(n: Node, m: Msg): Node
    requires m.RequestVote?
  {
    var n1 := if !m.preVote && m.term > n.term then BecomeFollower(n, m.term, NO_NODE) else n;
    var upToDate := LogOk(n1.log, m.lastIndex, m.lastTerm);
    if m.preVote then
      var grant := m.term > n1.term && upToDate && n1.electionElapsed >= n1.cfg.electionBase;
      Send(n1, m.candidate, RequestVoteResp(n1.term, true, grant))
    else
      var grant := m.term >= n1.term && (n1.votedFor == NO_NODE || n1.votedFor == m.candidate) && upToDate;
      var n2 := if grant then n1.(votedFor := m.candidate, electionElapsed := 0) else n1;
      Send(n2, m.candidate, RequestVoteResp(n1.term, false, grant))
  }

  function HandleRequestVoteResp(n: Node, m: Msg): Node
    requires m.RequestVoteResp?
  {
    if !m.preVote && m.term > n.term then BecomeFollower(n, m.term, NO_NODE)
    else if n.role != Candidate || m.preVote != n.inPreVote || !m.granted then n
    else if CountIf(n.members, IsGranter) < Quorum(n.members) then n
    else if n.inPreVote then
      var n1 := OpenRealRound(n);
      BroadcastVote(n1, false, n1.term)
    else BecomeLeader(n)
  }

  /** Write one incoming entry at a 1-based index: keep a match, cut a conflict with its tail. */
  function PlaceEntry(log: Log, idx: pos, e: Entry): Log {
    if idx <= |log| && TermAt(log, idx) == e.term then log
    else
      var kept := if idx <= |log| then log[..idx - 1] else log;
      if idx - 1 < MAX_LOG && idx - 1 == |kept| then kept + [e.(index := idx)] else kept
  }

  function PlaceEntries(log: Log, idx: pos, entries: seq<Entry>): Log
    decreases |entries|
  {
    if entries == [] then log
    else PlaceEntries(PlaceEntry(log, idx, entries[0]), idx + 1, entries[1..])
  }

  /** The log-matching check of an append. */
  predicate PrevMatches(log: Log, m: Msg)
    requires m.Append?
  {
    m.prevIndex <= |log| && TermAt(log, m.prevIndex) == m.prevTerm
  }

  /** The commit rule of a follower: the leader's commit clipped by the follower's own last index. */
  function FollowerCommit(commit: nat, last: nat, leaderCommit: nat): nat {
    if leaderCommit > commit then (if leaderCommit < last then leaderCommit else last) else commit
  }

  function HandleAppend(n: Node, m: Msg): Node
    requires m.Append?
  {
    if m.term < n.term then Send(n, m.leader, AppendResp(n.term, false, 0))
    else
      var n1 := BecomeFollower(n, m.term, m.leader);
      if !PrevMatches(n1.log, m) then Send(n1, m.leader, AppendResp(n1.term, false, 0))
      else
        var n2 := n1.(log := PlaceEntries(n1.log, m.prevIndex + 1, m.entries));
        var n3 := n2.(commit := FollowerCommit(n2.commit, |n2.log|, m.leaderCommit));
        var n4 := if m.leaderCommit > n2.commit then ApplyCommitted(n3) else n3;
        Send(n4, m.leader, AppendResp(n4.term, true, m.prevIndex + |m.entries|))
  }

  function HandleAppendResp(n: Node, from: Id, m: Msg): Node
    requires m.AppendResp?
  {
    if m.term > n.term then BecomeFollower(n, m.term, NO_NODE)
    else if n.role != Leader then n
    else
      var k := Find(n.members, from);
      if k == |n.members| then n
      else if m.success then AdvanceCommit(n.(members := RecordMatch(n.members, from, m.matchIndex)))
      else if n.members[k].nextIndex > 1 then
        var n1 := n.(members := BackOff(n.members, from));
        Send(n1, from, AppendTo(n1, n1.members[k]))
      else n
  }

  // ---- the public entry points ----

  function Recv(n: Node, from: Id, m: Msg): Node {
    match m
    case RequestVote(_, _, _, _, _) => HandleRequestVote(n, m)
    case RequestVoteResp(_, _, granted) =>
      HandleRequestVoteResp(if granted then n.(members := GrantVote(n.members, from)) else n, m)
    case Append(_, _, _, _, _, _) => HandleAppend(n, m)
    case AppendResp(_, _, _) => HandleAppendResp(n, from, m)
  }

  function AdvanceClock(n: Node, now: nat): Node {
    var dt := if now > n.now then now - n.now else 0;
    n.(now := now, electionElapsed := n.electionElapsed + dt, heartbeatElapsed := n.heartbeatElapsed + dt)
  }

  function Tick(n: Node, now: nat): Node {
    var n1 := AdvanceClock(n, now);
    if n1.role == Leader then
      var n2 := n1.(electionElapsed := 0);
      if n2.heartbeatElapsed >= n2.cfg.heartbeat then BroadcastAppend(n2.(heartbeatElapsed := 0)) else n2
    else
      ApplyCommitted(if n1.electionElapsed >= ElectionTimeout(n1) then StartElection(n1) else n1)
  }

  predicate CanPropose(n: Node, data: seq<byte>) {
    n.role == Leader && |data| <= ENTRY_MAX && |n.log| < MAX_LOG
  }

  /** A client command: appended, sent and counted by a leader with room for it, ignored otherwise. */
  function Propose(n: Node, data: seq<byte>): Node {
    if CanPropose(n, data) then AdvanceCommit(BroadcastAppend(LeaderAppend(n, Normal, data))) else n
  }
}
