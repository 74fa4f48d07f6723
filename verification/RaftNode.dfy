/** The Raft core as the in-place state machine it is: the log is a fixed array written by index, the
    member table a list updated row by row.  Every method is proved equal to its pure step. */
module RaftNode {
  import opened RaftTypes
  import opened RaftStep
  import opened Bytes

  const MAX_NODES: nat := 16

  predicate SelfListed(ms: seq<Member>, self: Id) {
    Find(ms, self) < |ms|
  }

  class Raft {
    const self: Id
    const cfg: Config
    var term: nat
    var votedFor: Id
    const log: array<Entry>
    var logLen: nat
    var role: Role
    var leader: Id
    var commit: nat
    var lastApplied: nat
    var now: nat
    var electionElapsed: nat
    var heartbeatElapsed: nat
    var inPreVote: bool
    var members: seq<Member>
    var sent: seq<Packet>
    var applied: seq<Entry>

    ghost predicate Shaped()
      reads this
    {
      && log.Length == MAX_LOG && logLen <= MAX_LOG
      && |members| <= MAX_NODES && DistinctIds(members)
    }

    /** Between calls nothing committed is left unapplied, and only a listed member stands or leads. */
    ghost predicate Valid()
      reads this
    {
      && Shaped()
      && commit <= lastApplied
      && (role != Follower ==> SelfListed(members, self))
    }

    ghost function State(): Node
      reads this, log
      requires Shaped()
    {
      Node(self, cfg, term, votedFor, log[..logLen], role, leader, commit, lastApplied,
           now, electionElapsed, heartbeatElapsed, inPreVote, members, sent, applied)
    }

    constructor (id: Id, config: Config)
      requires id != NO_NODE
      ensures Valid() && fresh(log)
      ensures State() == Node(id, Config(if config.electionBase == 0 then 150 else config.electionBase,
                                         if config.electionSpread == 0 then 150 else config.electionSpread,
                                         if config.heartbeat == 0 then 50 else config.heartbeat),
                              0, NO_NODE, [], Follower, NO_NODE, 0, 0, 0, 0, 0, false, [], [], [])
    {
      self := id;
      cfg := Config(if config.electionBase == 0 then 150 else config.electionBase,
                    if config.electionSpread == 0 then 150 else config.electionSpread,
                    if config.heartbeat == 0 then 50 else config.heartbeat);
      term, votedFor, logLen, role, leader := 0, NO_NODE, 0, Follower, NO_NODE;
      commit, lastApplied, now, electionElapsed, heartbeatElapsed := 0, 0, 0, 0, 0;
      inPreVote, members, sent, applied := false, [], [], [];
      log := new Entry[MAX_LOG](_ => Entry(0, 0, Noop, []));
    }

    /** Position of a member, or the length of the table. */
    method FindMember(id: Id) returns (k: nat)
      ensures k == Find(members, id)
    {
      k := 0;
      while k < |members| && members[k].id != id
        invariant k <= |members|
        invariant forall j :: 0 <= j < k ==> members[j].id != id
      {
        k := k + 1;
      }
    }

    method AddMember(id: Id, memberRole: MemberRole, eligible: bool) returns (ok: bool)
      requires Valid()
      modifies this`members
      ensures Valid()
      ensures ok == (id != NO_NODE && |old(members)| < MAX_NODES && Find(old(members), id) == |old(members)|)
      ensures members == if ok then old(members) + [Member(id, memberRole, eligible, logLen + 1, 0, false)]
                         else old(members)
    {
      ok := false;
      if id == NO_NODE || |members| >= MAX_NODES { return; }
      var k := FindMember(id);
      if k < |members| { return; }
      ghost var ms := members;
      members := members + [Member(id, memberRole, eligible, logLen + 1, 0, false)];
      if role != Follower { FindSame(ms, members, self); }
      ok := true;
    }

    method CountVoters() returns (n: nat)
      ensures n == CountIf(members, IsVoter)
    {
      n := 0;
      for i := 0 to |members|
        invariant n == CountIf(members[..i], IsVoter)
      {
        assert members[..i + 1][..i] == members[..i];
        if members[i].role == Voter { n := n + 1; }
      }
      assert members[..|members|] == members;
    }

    method CountGranters() returns (n: nat)
      ensures n == CountIf(members, IsGranter)
    {
      n := 0;
      for i := 0 to |members|
        invariant n == CountIf(members[..i], IsGranter)
      {
        assert members[..i + 1][..i] == members[..i];
        if members[i].role == Voter && members[i].voteGranted { n := n + 1; }
      }
      assert members[..|members|] == members;
    }

    method CountHolders(idx: nat) returns (n: nat)
      ensures n == CountIf(members, HoldsUpTo(idx))
    {
      n := 0;
      for i := 0 to |members|
        invariant n == CountIf(members[..i], HoldsUpTo(idx))
      {
        assert members[..i + 1][..i] == members[..i];
        if members[i].role == Voter && members[i].matchIndex >= idx { n := n + 1; }
      }
      assert members[..|members|] == members;
    }

    method IsEligibleVoter() returns (ok: bool)
      ensures ok == EligibleVoter(members, self)
    {
      var k := FindMember(self);
      ok := k < |members| && members[k].role == Voter && members[k].eligible;
    }

    /** Clear every vote flag, then set our own. */
    method ResetAndVoteForSelf()
      requires DistinctIds(members) && SelfListed(members, self)
      modifies this`members
      ensures members == GrantVote(ResetVotes(old(members)), self)
      ensures |members| == |old(members)| && DistinctIds(members) && SelfListed(members, self)
    {
      ghost var ms := members;
      var k := FindMember(self);
      for i := 0 to |members|
        invariant |members| == |ms|
        invariant forall j :: 0 <= j < |ms| ==> members[j] == if j < i then ms[j].(voteGranted := false) else ms[j]
      {
        members := members[i := members[i].(voteGranted := false)];
      }
      members := members[k := members[k].(voteGranted := true)];
      FindSame(ms, members, self);
    }

    method StepDown(t: nat, l: Id)
      requires Shaped()
      modifies this`role, this`term, this`votedFor, this`leader, this`inPreVote, this`electionElapsed
      ensures State() == BecomeFollower(old(State()), t, l)
    {
      role := Follower;
      if t > term {
        term := t;
        votedFor := NO_NODE;
      }
      leader := l;
      inPreVote := false;
      electionElapsed := 0;
    }

    method SendTo(dst: Id, m: Msg)
      modifies this`sent
      ensures sent == old(sent) + [Packet(dst, m)]
    {
      sent := sent + [Packet(dst, m)];
    }

    method LastLogTerm() returns (t: nat)
      requires Shaped()
      ensures t == LastTerm(log[..logLen])
    {
      t := if logLen > 0 then log[logLen - 1].term else 0;
    }

    method TermOf(index: nat) returns (t: nat)
      requires Shaped()
      ensures t == TermAt(log[..logLen], index)
    {
      t := if index == 0 || index > logLen then 0 else log[index - 1].term;
    }

    method AskVoters(preVote: bool, t: nat)
      requires Shaped()
      modifies this`sent
      ensures State() == BroadcastVote(old(State()), preVote, t)
    {
      var lastTerm := LastLogTerm();
      var m := RequestVote(t, preVote, self, logLen, lastTerm);
      for i := 0 to |members|
        invariant sent == old(sent) + ToVoters(members[..i], self, m)
      {
        assert members[..i + 1][..i] == members[..i];
        if members[i].id != self && members[i].role == Voter {
          SendTo(members[i].id, m);
        }
      }
      assert members[..|members|] == members;
    }

    method SendAppend(k: nat)
      requires Shaped() && k < |members|
      modifies this`sent
      ensures sent == old(sent) + [Packet(members[k].id, AppendTo(old(State()), members[k]))]
    {
      var prev := members[k].nextIndex - 1;
      var prevTerm := TermOf(prev);
      var n := 0;
      var entries := [];
      if members[k].nextIndex <= logLen {
        while n < MAX_BATCH && prev + n < logLen
          invariant n <= MAX_BATCH && prev + n <= logLen
        {
          n := n + 1;
        }
        entries := log[prev..prev + n];
        forall x | 0 <= x < n ensures entries[x] == log[..logLen][prev + x] {}
        assert entries == log[..logLen][prev..prev + n];
        assert entries == Batch(log[..logLen], members[k].nextIndex);
      }
      SendTo(members[k].id, Append(term, self, prev, prevTerm, entries, commit));
    }

    method SendAppends()
      requires Shaped()
      modifies this`sent
      ensures State() == BroadcastAppend(old(State()))
    {
      ghost var n0 := State();
      for i := 0 to |members|
        invariant sent == n0.sent + AppendsTo(n0, members[..i])
      {
        assert members[..i + 1][..i] == members[..i];
        if members[i].id != self {
          AppendSame(State(), n0, members[i]);
          SendAppend(i);
        }
      }
      assert members[..|members|] == members;
    }

    method ApplyAll()
      requires Shaped() && (commit <= lastApplied || commit <= logLen)
      modifies this`lastApplied, this`applied
      ensures commit <= lastApplied && State() == ApplyCommitted(old(State()))
    {
      var start := lastApplied;
      if start < commit {
        while lastApplied < commit
          invariant start <= lastApplied <= commit
          invariant applied == old(applied) + Commands(log[start..lastApplied])
        {
          lastApplied := lastApplied + 1;
          var e := log[lastApplied - 1];
          assert log[start..lastApplied][..lastApplied - 1 - start] == log[start..lastApplied - 1];
          if e.kind == Normal { applied := applied + [e]; }
        }
        assert log[..logLen][start..commit] == log[start..commit];
      }
    }

    method ScanCommit()
      requires Shaped() && commit <= lastApplied
      modifies this`commit, this`lastApplied, this`applied
      ensures commit <= lastApplied && State() == AdvanceCommit(old(State()))
    {
      ghost var n0 := State();
      var idx := logLen;
      while idx > commit
        invariant 0 <= idx <= logLen && commit == n0.commit
        invariant lastApplied == n0.lastApplied && applied == n0.applied
        invariant CommitScan(n0, logLen) == CommitScan(n0, idx)
      {
        var t := TermOf(idx);
        if t != term { break; }
        var holders := CountHolders(idx);
        var voters := CountVoters();
        if holders >= voters / 2 + 1 {
          commit := idx;
          break;
        }
        idx := idx - 1;
      }
      assert commit == CommitScan(n0, logLen);
      ApplyAll();
    }

    /** Append an entry of our own term in the first free slot, and count it as matched by ourselves. */
    method AppendOwn(kind: EntryKind, data: seq<byte>)
      requires Shaped() && logLen < MAX_LOG && SelfListed(members, self)
      modifies this`logLen, this`members, log
      ensures Shaped() && SelfListed(members, self) && State() == LeaderAppend(old(State()), kind, data)
    {
      ghost var n0 := State();
      log[logLen] := Entry(term, logLen + 1, kind, data);
      logLen := logLen + 1;
      assert log[..logLen] == n0.log + [Entry(term, |n0.log| + 1, kind, data)];
      var k := FindMember(self);
      members := members[k := members[k].(matchIndex := logLen)];
      assert members == SetMatch(n0.members, self, logLen);
      FindSame(n0.members, members, self);
    }

    method ResetProgress()
      requires DistinctIds(members) && SelfListed(members, self)
      modifies this`members
      ensures members == SetMatch(InitProgress(old(members), logLen + 1), self, logLen)
      ensures |members| == |old(members)| && DistinctIds(members) && SelfListed(members, self)
    {
      ghost var ms := members;
      var k := FindMember(self);
      for i := 0 to |members|
        invariant |members| == |ms|
        invariant forall j :: 0 <= j < |ms| ==>
          members[j] == if j < i then ms[j].(nextIndex := logLen + 1, matchIndex := 0) else ms[j]
      {
        members := members[i := members[i].(nextIndex := logLen + 1, matchIndex := 0)];
      }
      members := members[k := members[k].(matchIndex := logLen)];
      FindSame(ms, members, self);
    }

    method Lead()
      requires Shaped() && SelfListed(members, self)
      modifies this, log
      ensures Shaped() && SelfListed(members, self) && State() == BecomeLeader(old(State()))
    {
      hide DistinctIds, SelfListed, SetMatch, InitProgress;
      ResetProgress();
      role, leader, inPreVote, heartbeatElapsed := Leader, self, false, 0;
      assert State() == TakeOffice(old(State()));
      if logLen < MAX_LOG { AppendOwn(Noop, []); }
      SendAppends();
    }

    method OpenRound()
      requires Shaped() && SelfListed(members, self)
      modifies this`members, this`role, this`inPreVote, this`term, this`votedFor, this`electionElapsed
      ensures Shaped() && SelfListed(members, self) && State() == OpenRealRound(old(State()))
    {
      hide DistinctIds, SelfListed, GrantVote, ResetVotes;
      ResetAndVoteForSelf();
      role, inPreVote, term, votedFor, electionElapsed := Candidate, false, term + 1, self, 0;
    }

    method BecomeCandidate()
      requires Shaped() && SelfListed(members, self)
      modifies this`members, this`role, this`leader, this`electionElapsed
      ensures Shaped() && SelfListed(members, self) && State() == StandForElection(old(State()))
    {
      hide DistinctIds, SelfListed, GrantVote, ResetVotes;
      ResetAndVoteForSelf();
      role, leader, electionElapsed := Candidate, NO_NODE, 0;
    }

    method Stand()
      requires Valid()
      modifies this, log
      ensures Valid() && State() == StartElection(old(State()))
    {
      hide DistinctIds, StandForElection, OpenRealRound, BecomeLeader, CountIf, ToVoters;
      ghost var n0 := State();
      var eligible := IsEligibleVoter();
      if !eligible {
        electionElapsed := 0;
        return;
      }
      BecomeCandidate();
      var voters := CountVoters();
      if voters == 1 {
        OpenRound();
        Lead();
        CandidacyFacts(n0);
      } else {
        inPreVote := true;
        AskVoters(true, term + 1);
        CandidacyFacts(n0);
      }
    }

    method OnRequestVote(m: Msg)
      requires Valid() && m.RequestVote?
      modifies this`role, this`term, this`votedFor, this`leader, this`inPreVote, this`electionElapsed, this`sent
      ensures Valid() && State() == HandleRequestVote(old(State()), m)
    {
      hide DistinctIds, SelfListed;
      if !m.preVote && m.term > term { StepDown(m.term, NO_NODE); }
      var respTerm := term;
      var myTerm := LastLogTerm();
      var upToDate := if m.lastTerm != myTerm then m.lastTerm > myTerm else m.lastIndex >= logLen;
      var grant;
      if m.preVote {
        grant := m.term > term && upToDate && electionElapsed >= cfg.electionBase;
      } else {
        grant := m.term >= term && (votedFor == NO_NODE || votedFor == m.candidate) && upToDate;
        if grant {
          votedFor := m.candidate;
          electionElapsed := 0;
        }
      }
      SendTo(m.candidate, RequestVoteResp(respTerm, m.preVote, grant));
    }

    method OnRequestVoteResp(m: Msg)
      requires Valid() && m.RequestVoteResp?
      modifies this, log
      ensures Valid() && State() == HandleRequestVoteResp(old(State()), m)
    {
      if !m.preVote && m.term > term {
        StepDown(m.term, NO_NODE);
        return;
      }
      if role != Candidate || m.preVote != inPreVote || !m.granted { return; }
      var grants := CountGranters();
      var voters := CountVoters();
      if grants < voters / 2 + 1 { return; }
      if inPreVote {
        OpenRound();
        AskVoters(false, term);
      } else {
        Lead();
      }
    }

    /** The append loop: keep matching entries, cut the first conflict with its tail, add the rest. */
    method PlaceAll(prev: nat, entries: seq<Entry>)
      requires Shaped() && prev <= logLen
      modifies this`logLen, log
      ensures logLen <= MAX_LOG && log[..logLen] == PlaceEntries(old(log[..logLen]), prev + 1, entries)
    {
      ghost var g := log[..logLen];
      assert entries[0..] == entries;
      for i := 0 to |entries|
        invariant logLen <= MAX_LOG && (prev + i <= logLen || logLen == MAX_LOG)
        invariant PlaceEntries(log[..logLen], prev + 1 + i, entries[i..]) == PlaceEntries(g, prev + 1, entries)
      {
        PlaceOne(prev + 1 + i, entries[i]);
        assert entries[i..][1..] == entries[i + 1..];
      }
    }

    method PlaceOne(idx: nat, e: Entry)
      requires Shaped() && 1 <= idx && (idx <= logLen + 1 || logLen == MAX_LOG)
      modifies this`logLen, log
      ensures logLen <= MAX_LOG && log[..logLen] == PlaceEntry(old(log[..logLen]), idx, e)
      ensures idx <= logLen || logLen == MAX_LOG
    {
      ghost var g := log[..logLen];
      if idx <= logLen {
        if log[idx - 1].term == e.term { return; }
        logLen := idx - 1;
      }
      if idx - 1 < MAX_LOG {
        log[idx - 1] := e.(index := idx);
        logLen := idx;
        assert log[..logLen] == g[..idx - 1] + [e.(index := idx)];
      }
    }

    /** Move the commit index up to the leader's, clipped by the own last index, and apply. */
    method FollowCommit(leaderCommit: nat)
      requires Valid()
      modifies this`commit, this`lastApplied, this`applied
      ensures Valid()
      ensures var n := old(State());
        var n3 := n.(commit := FollowerCommit(n.commit, |n.log|, leaderCommit));
        State() == if leaderCommit > n.commit then ApplyCommitted(n3) else n3
    {
      hide DistinctIds, SelfListed, Commands;
      if leaderCommit > commit {
        commit := if leaderCommit < logLen then leaderCommit else logLen;
        ApplyAll();
      }
    }

    method OnAppend(m: Msg)
      requires Valid() && m.Append?
      modifies this, log
      ensures Valid() && State() == HandleAppend(old(State()), m)
    {
      hide DistinctIds, SelfListed, PlaceEntries, ApplyCommitted;
      if m.term < term {
        SendTo(m.leader, AppendResp(term, false, 0));
        return;
      }
      StepDown(m.term, m.leader);
      var prevTerm := TermOf(m.prevIndex);
      if m.prevIndex > logLen || prevTerm != m.prevTerm {
        SendTo(m.leader, AppendResp(term, false, 0));
        return;
      }
      PlaceAll(m.prevIndex, m.entries);
      FollowCommit(m.leaderCommit);
      SendTo(m.leader, AppendResp(term, true, m.prevIndex + |m.entries|));
    }

    method RecordReply(k: nat, from: Id, index: nat)
      requires Shaped() && k < |members| && members[k].id == from
      modifies this`members
      ensures Shaped() && members == RecordMatch(old(members), from, index)
      ensures SelfListed(old(members), self) ==> SelfListed(members, self)
    {
      ghost var ms := members;
      var match' := if index > members[k].matchIndex then index else members[k].matchIndex;
      members := members[k := members[k].(matchIndex := match', nextIndex := match' + 1)];
      assert members == RecordMatch(ms, from, index);
      if SelfListed(ms, self) { FindSame(ms, members, self); }
    }

    method LowerNext(k: nat, from: Id)
      requires Shaped() && k < |members| && members[k].id == from && members[k].nextIndex > 1
      modifies this`members
      ensures Shaped() && members == BackOff(old(members), from)
      ensures |members| == |old(members)| && members[k].id == from
      ensures SelfListed(old(members), self) ==> SelfListed(members, self)
    {
      ghost var ms := members;
      members := members[k := members[k].(nextIndex := members[k].nextIndex - 1)];
      assert members == BackOff(ms, from);
      if SelfListed(ms, self) { FindSame(ms, members, self); }
    }

    method OnAppendResp(from: Id, m: Msg)
      requires Valid() && m.AppendResp?
      modifies this
      ensures Valid() && State() == HandleAppendResp(old(State()), from, m)
    {
      hide DistinctIds, SelfListed, RecordMatch, BackOff, CommitScan;
      if m.term > term {
        StepDown(m.term, NO_NODE);
        return;
      }
      if role != Leader { return; }
      var k := FindMember(from);
      if k == |members| { return; }
      if m.success {
        RecordReply(k, from, m.matchIndex);
        ScanCommit();
      } else if members[k].nextIndex > 1 {
        LowerNext(k, from);
        SendAppend(k);
      }
    }

    method Receive(from: Id, m: Msg)
      requires Valid()
      modifies this, log
      ensures Valid() && State() == Recv(old(State()), from, m)
    {
      match m
      case RequestVote(_, _, _, _, _) => OnRequestVote(m);
      case RequestVoteResp(_, _, granted) =>
        ghost var ms := members;
        var k := FindMember(from);
        if k < |members| && granted { members := members[k := members[k].(voteGranted := true)]; }
        assert members == if granted then GrantVote(ms, from) else ms;
        if role != Follower { FindSame(ms, members, self); }
        OnRequestVoteResp(m);
      case Append(_, _, _, _, _, _) => OnAppend(m);
      case AppendResp(_, _, _) => OnAppendResp(from, m);
    }

    method AdvanceTimers(t: nat)
      requires Shaped()
      modifies this`now, this`electionElapsed, this`heartbeatElapsed
      ensures State() == AdvanceClock(old(State()), t)
    {
      var dt := if t > now then t - now else 0;
      now := t;
      electionElapsed := electionElapsed + dt;
      heartbeatElapsed := heartbeatElapsed + dt;
    }

    method OnTick(t: nat)
      requires Valid()
      modifies this, log
      ensures Valid() && State() == Tick(old(State()), t)
    {
      hide DistinctIds, SelfListed, StartElection, AppendsTo, Commands;
      AdvanceTimers(t);
      if role == Leader {
        electionElapsed := 0;
        if heartbeatElapsed >= cfg.heartbeat {
          heartbeatElapsed := 0;
          SendAppends();
        }
        return;
      }
      var timeout := (cfg.electionBase + self % (cfg.electionSpread + 1)) % 0x1_0000_0000;
      if electionElapsed >= timeout { Stand(); }
      ApplyAll();
    }

    /** Submit a client command: its log index, or 0 when refused. */
    method Submit(data: seq<byte>) returns (index: nat)
      requires Valid()
      modifies this, log
      ensures Valid() && State() == Propose(old(State()), data)
      ensures index == if CanPropose(old(State()), data) then old(logLen) + 1 else 0
    {
      if role != Leader || |data| > ENTRY_MAX { return 0; }
      if logLen >= MAX_LOG { return 0; }
      AppendOwn(Normal, data);
      index := logLen;
      SendAppends();
      ScanCommit();
    }
  }

  lemma CandidacyFacts(n: Node)
    ensures var n1 := StandForElection(n);
      && n1.term == n.term && n1.commit == n.commit && n1.lastApplied == n.lastApplied
      && OpenRealRound(n1).commit == n.commit && OpenRealRound(n1).lastApplied == n.lastApplied
      && BecomeLeader(OpenRealRound(n1)).commit == n.commit
      && BecomeLeader(OpenRealRound(n1)).lastApplied == n.lastApplied
  {
  }

  lemma AppendSame(n: Node, n0: Node, m: Member)
    requires n == n0.(sent := n.sent)
    ensures AppendTo(n, m) == AppendTo(n0, m)
  {
  }

  lemma FindSame(ms: seq<Member>, ms': seq<Member>, id: Id)
    requires |ms| <= |ms'| && SelfListed(ms, id) && forall j :: 0 <= j < |ms| ==> ms'[j].id == ms[j].id
    ensures SelfListed(ms', id)
  {
    assert ms'[Find(ms, id)].id == id;
  }
}
