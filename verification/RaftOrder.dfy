/** The appends of one leader to one follower: how their start indexes move, and why delivering them
    in order keeps a follower's log a prefix of its leader's. */
module RaftOrder {
  import opened RaftTypes
  import opened RaftStep
  import opened RaftHistory
  import opened RaftInvariant
  import opened RaftMerge
  import opened RaftPreserve
  import opened RaftHandlers
  import opened RaftSystem
  import opened Bytes

  predicate OnChannel(p: Packet, t: nat, d: Id) {
    p.msg.Append? && p.msg.term == t && p.dst == d
  }

  /** Position of the last append of term `t` to `d`, or -1. */
  function LastAppend(sent: seq<Packet>, t: nat, d: Id): (j: int)
    ensures -1 <= j < |sent|
    ensures j >= 0 ==> OnChannel(sent[j], t, d)
    ensures forall x :: j < x < |sent| ==> !OnChannel(sent[x], t, d)
  {
    if sent == [] then -1
    else if OnChannel(sent[|sent| - 1], t, d) then |sent| - 1
    else LastAppend(sent[..|sent| - 1], t, d)
  }

  /** An append starts at most one entry below the one before it on its channel, and ships nothing only
      when it starts no lower; the first starts where the leader's election log ended.  All of this may
      cease once the follower has acknowledged an append of the term. */
  ghost predicate LinkOk(h: History, sent: seq<Packet>, k: nat)
    requires k < |sent| && sent[k].msg.Append?
  {
    var m := sent[k].msg;
    var j := LastAppend(sent[..k], m.term, sent[k].dst);
    || Key(m.term, sent[k].dst) in h.acks
    || (j < 0 && m.term in h.ldrs && m.prevIndex == |h.ldrs[m.term].log0|
        && (m.entries == [] ==> m.prevIndex >= MAX_LOG))
    || (j >= 0 && m.prevIndex + 1 >= sent[j].msg.prevIndex
        && (m.entries == [] ==> m.prevIndex >= sent[j].msg.prevIndex))
  }

  ghost predicate ChainInv(h: History, sent: seq<Packet>) {
    forall k {:trigger LinkOk(h, sent, k)} :: 0 <= k < |sent| && sent[k].msg.Append? ==> LinkOk(h, sent, k)
  }

  ghost predicate NextOk(h: History, n: Node, m: Member) {
    var j := LastAppend(n.sent, n.term, m.id);
    Key(n.term, m.id) in h.acks || (j >= 0 && m.nextIndex >= n.sent[j].msg.prevIndex + 1)
  }

  ghost predicate OfficeStarted(h: History, n: Node) {
    n.term in h.ldrs && (|h.ldrs[n.term].log0| < |n.log| || |n.log| >= MAX_LOG)
  }

  ghost predicate NextInv(h: History, i: Id, n: Node) {
    n.role == Leader ==>
      && OfficeStarted(h, n)
      && (forall x :: 0 <= x < |n.members| && n.members[x].id != i ==> NextOk(h, n, n.members[x]))
  }

  ghost predicate ChannelInv(h: History, i: Id, n: Node) {
    ChainInv(h, n.sent) && NextInv(h, i, n)
  }

  // ---- sending ----

  lemma {:induction false} LastAppendQuiet(sent: seq<Packet>, ps: seq<Packet>, t: nat, d: Id)
    requires forall x :: 0 <= x < |ps| ==> !OnChannel(ps[x], t, d)
    ensures LastAppend(sent + ps, t, d) == LastAppend(sent, t, d)
  {
    if ps == [] {
      assert sent + ps == sent;
    } else {
      var k := |ps| - 1;
      assert (sent + ps)[..|sent + ps| - 1] == sent + ps[..k];
      LastAppendQuiet(sent, ps[..k], t, d);
    }
  }

  lemma ChainPrefix(h: History, sent: seq<Packet>, ps: seq<Packet>, k: nat)
    requires ChainInv(h, sent) && k < |sent| && sent[k].msg.Append?
    ensures LinkOk(h, sent + ps, k)
  {
    assert LinkOk(h, sent, k);
    assert (sent + ps)[..k] == sent[..k];
  }

  ghost predicate SameNext(ms: seq<Member>, ms': seq<Member>) {
    |ms| == |ms'| && forall x :: 0 <= x < |ms| ==> ms'[x].id == ms[x].id && ms'[x].nextIndex == ms[x].nextIndex
  }

  /** Packets that are not appends disturb no channel. */
  lemma QuietSends(h: History, i: Id, n: Node, n': Node, ps: seq<Packet>)
    requires ChannelInv(h, i, n) && n'.sent == n.sent + ps
    requires forall x :: 0 <= x < |ps| ==> !ps[x].msg.Append?
    requires n'.role == Leader ==>
      n.role == Leader && n'.term == n.term && SameNext(n.members, n'.members) && n'.log == n.log
    ensures ChannelInv(h, i, n')
  {
    forall k | 0 <= k < |n'.sent| && n'.sent[k].msg.Append? ensures LinkOk(h, n'.sent, k) {
      ChainPrefix(h, n.sent, ps, k);
    }
    if n'.role == Leader {
      forall x | 0 <= x < |n'.members| && n'.members[x].id != i ensures NextOk(h, n', n'.members[x]) {
        assert NextOk(h, n, n.members[x]);
        LastAppendQuiet(n.sent, ps, n.term, n.members[x].id);
      }
    }
  }

  /** A leader may send the next append to `m`. */
  ghost predicate Ready(h: History, n: Node, m: Member) {
    var j := LastAppend(n.sent, n.term, m.id);
    || Key(n.term, m.id) in h.acks
    || (j < 0 && n.term in h.ldrs && m.nextIndex == |h.ldrs[n.term].log0| + 1)
    || (j >= 0 && m.nextIndex >= n.sent[j].msg.prevIndex)
  }

  ghost predicate SentBounded(n: Node) {
    forall x {:trigger n.sent[x]} :: 0 <= x < |n.sent| && n.sent[x].msg.Append? && n.sent[x].msg.term == n.term ==>
      n.sent[x].msg.prevIndex <= |n.log|
  }

  lemma LinkSent(h: History, n: Node, m: Member, sent: seq<Packet>)
    requires OfficeStarted(h, n) && SentBounded(n) && Ready(h, n, m)
    requires ChainInv(h, sent) && LastAppend(sent, n.term, m.id) == LastAppend(n.sent, n.term, m.id)
    requires n.sent <= sent
    ensures ChainInv(h, sent + [Packet(m.id, AppendTo(n, m))])
  {
    var s' := sent + [Packet(m.id, AppendTo(n, m))];
    var last := |sent|;
    assert s'[..last] == sent;
    forall k | 0 <= k < |s'| && s'[k].msg.Append? ensures LinkOk(h, s', k) {
      if k < last {
        ChainPrefix(h, sent, [Packet(m.id, AppendTo(n, m))], k);
      } else {
        var j := LastAppend(n.sent, n.term, m.id);
        if j >= 0 { assert n.sent[j].msg.prevIndex <= |n.log|; }
      }
    }
  }

  /** Row `x` of the table has been sent an append from its next index; row `x` has been sent nothing yet. */
  ghost predicate SentTo(n: Node, s: seq<Packet>, x: nat)
    requires x < |n.members|
  {
    var j := LastAppend(s, n.term, n.members[x].id);
    j >= 0 && s[j].msg.prevIndex == n.members[x].nextIndex - 1
  }

  ghost predicate NotYet(n: Node, s: seq<Packet>, x: nat)
    requires x < |n.members|
  {
    LastAppend(s, n.term, n.members[x].id) == LastAppend(n.sent, n.term, n.members[x].id)
  }

  ghost predicate Reached(n: Node, s: seq<Packet>, k: nat)
    requires k <= |n.members|
  {
    && (forall x :: k <= x < |n.members| ==> NotYet(n, s, x))
    && (forall x :: 0 <= x < k && n.members[x].id != n.self ==> SentTo(n, s, x))
  }

  lemma ReachedOne(n: Node, s: seq<Packet>, k: nat)
    requires k < |n.members| && DistinctIds(n.members) && Reached(n, s, k) && n.sent <= s
    ensures Reached(n, s + [Packet(n.members[k].id, AppendTo(n, n.members[k]))], k + 1)
  {
    var p := Packet(n.members[k].id, AppendTo(n, n.members[k]));
    forall x | 0 <= x < |n.members| && x != k
      ensures LastAppend(s + [p], n.term, n.members[x].id) == LastAppend(s, n.term, n.members[x].id)
    {
      LastAppendQuiet(s, [p], n.term, n.members[x].id);
    }
    forall x | k + 1 <= x < |n.members| ensures NotYet(n, s + [p], x) {
      assert NotYet(n, s, x);
    }
    forall x | 0 <= x < k && n.members[x].id != n.self ensures SentTo(n, s + [p], x) {
      assert SentTo(n, s, x);
    }
  }

  /** Broadcasting to the first `k` rows of the table. */
  lemma {:induction false} BroadcastLinks(h: History, i: Id, n: Node, k: nat)
    requires k <= |n.members| && DistinctIds(n.members) && n.self == i
    requires OfficeStarted(h, n) && SentBounded(n) && ChainInv(h, n.sent)
    requires forall x :: 0 <= x < |n.members| && n.members[x].id != i ==> Ready(h, n, n.members[x])
    ensures ChainInv(h, n.sent + AppendsTo(n, n.members[..k]))
    ensures Reached(n, n.sent + AppendsTo(n, n.members[..k]), k)
  {
    if k == 0 {
      assert n.sent + AppendsTo(n, n.members[..0]) == n.sent;
    } else {
      BroadcastLinks(h, i, n, k - 1);
      hide AppendsTo, AppendTo;
      AppendsNext(n, k);
      var m := n.members[k - 1];
      var s := n.sent + AppendsTo(n, n.members[..k - 1]);
      if m.id != i {
        assert NotYet(n, s, k - 1);
        LinkSent(h, n, m, s);
        ReachedOne(n, s, k - 1);
      }
    }
  }

  lemma AppendsNext(n: Node, k: nat)
    requires 0 < k <= |n.members|
    ensures var m, s := n.members[k - 1], n.sent + AppendsTo(n, n.members[..k - 1]);
      n.sent + AppendsTo(n, n.members[..k]) == if m.id == n.self then s else s + [Packet(m.id, AppendTo(n, m))]
  {
    hide AppendTo;
    assert n.members[..k][..k - 1] == n.members[..k - 1];
  }

  lemma BroadcastChannels(h: History, i: Id, n: Node)
    requires DistinctIds(n.members) && n.self == i
    requires OfficeStarted(h, n) && SentBounded(n) && ChainInv(h, n.sent)
    requires forall x :: 0 <= x < |n.members| && n.members[x].id != i ==> Ready(h, n, n.members[x])
    ensures ChannelInv(h, i, BroadcastAppend(n))
  {
    BroadcastLinks(h, i, n, |n.members|);
    assert n.members[..|n.members|] == n.members;
    var n' := BroadcastAppend(n);
    forall x | 0 <= x < |n'.members| && n'.members[x].id != i ensures NextOk(h, n', n'.members[x]) {
      assert SentTo(n, n'.sent, x);
    }
  }

  // ---- history ----

  lemma ChannelStable(c: Cluster, h: History, g: History, i: Id, j: Id, n: Node)
    requires Ext(h, g, i) && PacketsInv(c, h, j, n.sent) && ChannelInv(h, j, n)
    ensures ChannelInv(g, j, n)
  {
    forall k | 0 <= k < |n.sent| && n.sent[k].msg.Append? ensures LinkOk(g, n.sent, k) {
      assert LinkOk(h, n.sent, k);
    }
    if n.role == Leader {
      forall x | 0 <= x < |n.members| && n.members[x].id != j ensures NextOk(g, n, n.members[x]) {
        assert NextOk(h, n, n.members[x]);
      }
    }
  }

  lemma ChannelStableSelf(c: Cluster, h: History, g: History, i: Id, n: Node)
    requires Ext(h, g, i) && LocalInv(c, h, i, n) && ChannelInv(h, i, n)
    ensures ChannelInv(g, i, n)
  {
    ChannelStable(c, h, g, i, i, n);
  }

  lemma LeaderBounded(c: Cluster, h: History, i: Id, n: Node)
    requires LocalInv(c, h, i, n) && n.role == Leader
    ensures SentBounded(n)
  {
    forall x | 0 <= x < |n.sent| && n.sent[x].msg.Append? && n.sent[x].msg.term == n.term
      ensures n.sent[x].msg.prevIndex <= |n.log|
    {
      assert PacketInv(c, h, i, n.sent[x]);
    }
  }

  // ---- each event ----

  lemma LeaderBroadcasts(c: Cluster, h: History, i: Id, n: Node)
    requires LocalInv(c, h, i, n) && n.role == Leader && ChannelInv(h, i, n)
    ensures ChannelInv(h, i, BroadcastAppend(n))
  {
    LeaderBounded(c, h, i, n);
    forall x | 0 <= x < |n.members| && n.members[x].id != i ensures Ready(h, n, n.members[x]) {
      assert NextOk(h, n, n.members[x]);
    }
    BroadcastChannels(h, i, n);
  }

  /** The first broadcast of a new leader. */
  lemma OfficeOpens(c: Cluster, h: History, g: History, i: Id, n: Node)
    requires n.self == i && PacketsInv(c, h, i, n.sent) && ChainInv(h, n.sent) && Ext(h, g, i)
    requires DistinctIds(n.members)
    requires n.term in h.ldrs ==> h.ldrs[n.term].id != i
    requires n.term in g.ldrs && g.ldrs[n.term].log0 == n.log
    ensures ChannelInv(g, i, BecomeLeader(n))
  {
    var n1 := TakeOffice(n);
    var n2 := if |n1.log| < MAX_LOG then LeaderAppend(n1, Noop, []) else n1;
    forall k | 0 <= k < |n.sent| && n.sent[k].msg.Append? ensures LinkOk(g, n.sent, k) {
      assert LinkOk(h, n.sent, k);
      assert PacketInv(c, h, i, n.sent[k]);
    }
    forall k | 0 <= k < |n.sent| ensures n.sent[k].msg.Append? ==> n.sent[k].msg.term != n.term {
      assert PacketInv(c, h, i, n.sent[k]);
    }
    assert SentBounded(n2);
    forall x | 0 <= x < |n2.members| && n2.members[x].id != i ensures Ready(g, n2, n2.members[x]) {
    }
    BroadcastChannels(g, i, n2);
  }

  lemma {:induction false} VotesQuiet(ms: seq<Member>, i: Id, m: Msg)
    requires !m.Append?
    ensures forall x :: 0 <= x < |ToVoters(ms, i, m)| ==> !ToVoters(ms, i, m)[x].msg.Append?
  {
    if ms != [] { VotesQuiet(ms[..|ms| - 1], i, m); }
  }

  lemma VoteRespChannels(c: Cluster, h: History, g: History, i: Id, n: Node, m: Msg)
    requires LocalInv(c, h, i, n) && ChannelInv(h, i, n) && ChannelInv(g, i, n) && Ext(h, g, i) && m.RequestVoteResp?
    requires var n' := HandleRequestVoteResp(n, m);
      n.role != Leader && n'.role == Leader ==> n'.term in g.ldrs && g.ldrs[n'.term].log0 == n.log
    ensures ChannelInv(g, i, HandleRequestVoteResp(n, m))
  {
    var n' := HandleRequestVoteResp(n, m);
    if n.role != Leader && n'.role == Leader {
      OfficeOpens(c, h, g, i, n);
    } else {
      RoundChannels(g, i, n, m);
    }
  }

  lemma RoundChannels(g: History, i: Id, n: Node, m: Msg)
    requires ChannelInv(g, i, n) && m.RequestVoteResp?
    requires n.role == Leader || HandleRequestVoteResp(n, m).role != Leader
    ensures ChannelInv(g, i, HandleRequestVoteResp(n, m))
  {
    var n' := HandleRequestVoteResp(n, m);
    var req := RequestVote(n.term + 1, false, n.self, |n.log|, LastTerm(n.log));
    var ps := if n'.sent == n.sent then [] else ToVoters(n'.members, n.self, req);
    VotesQuiet(n'.members, n.self, req);
    assert n'.sent == n.sent + ps;
    QuietSends(g, i, n, n', ps);
  }

  lemma FlaggedChannels(c: Cluster, h: History, g: History, i: Id, n: Node, src: Id, m: Msg)
    requires LocalInv(c, h, i, n) && ChannelInv(h, i, n) && ChannelInv(g, i, n) && Ext(h, g, i)
    requires m.RequestVoteResp? && PacketInv(c, h, src, Packet(i, m)) && FreshFor(n, m)
    requires OfficeFacts(c, h, g, i, n, Recv(n, src, m))
    ensures ChannelInv(g, i, Recv(n, src, m))
  {
    hide LocalInv;
    var n1 := if m.granted then n.(members := GrantVote(n.members, src)) else n;
    if m.granted { VoteCounted(c, h, i, n, src, m); }
    QuietSends(h, i, n, n1, []);
    QuietSends(g, i, n, n1, []);
    VoteRespChannels(c, h, g, i, n1, m);
  }

  lemma AppendRespChannels(c: Cluster, h: History, i: Id, n: Node, src: Id, m: Msg)
    requires LocalInv(c, h, i, n) && ChannelInv(h, i, n) && m.AppendResp? && src != i
    requires PacketInv(c, h, src, Packet(i, m)) && FreshFor(n, m)
    ensures ChannelInv(h, i, HandleAppendResp(n, src, m))
  {
    hide LocalInv;
    var n' := HandleAppendResp(n, src, m);
    var k := Find(n.members, src);
    if m.term > n.term || n.role != Leader || k == |n.members| || (!m.success && n.members[k].nextIndex <= 1) {
      QuietSends(h, i, n, n', []);
    } else if m.success {
      MatchRecorded(h, i, n, src, m.matchIndex);
    } else {
      RetrySent(c, h, i, n, src, k);
    }
  }

  lemma MatchRecorded(h: History, i: Id, n: Node, src: Id, index: nat)
    requires ChannelInv(h, i, n) && n.role == Leader && Key(n.term, src) in h.acks
    ensures ChannelInv(h, i, AdvanceCommit(n.(members := RecordMatch(n.members, src, index))))
  {
    var n' := AdvanceCommit(n.(members := RecordMatch(n.members, src, index)));
    assert n'.sent == n.sent && n'.members == RecordMatch(n.members, src, index);
    forall x | 0 <= x < |n'.members| && n'.members[x].id != i ensures NextOk(h, n', n'.members[x]) {
      assert NextOk(h, n, n.members[x]);
    }
  }

  /** After a refusal the leader retries one entry lower. */
  lemma RetrySent(c: Cluster, h: History, i: Id, n: Node, src: Id, k: nat)
    requires LocalInv(c, h, i, n) && ChannelInv(h, i, n) && n.role == Leader && src != i
    requires k < |n.members| && n.members[k].id == src && n.members[k].nextIndex > 1
    ensures var n1 := n.(members := BackOff(n.members, src));
      ChannelInv(h, i, Send(n1, src, AppendTo(n1, n1.members[k])))
  {
    var n1 := n.(members := BackOff(n.members, src));
    LeaderBounded(c, h, i, n);
    assert NextOk(h, n, n.members[k]);
    assert SentBounded(n1) && Ready(h, n1, n1.members[k]);
    LinkSent(h, n1, n1.members[k], n.sent);
    var p := Packet(src, AppendTo(n1, n1.members[k]));
    var n2 := Send(n1, src, p.msg);
    forall x | 0 <= x < |n2.members| && n2.members[x].id != i ensures NextOk(h, n2, n2.members[x]) {
      assert NextOk(h, n, n.members[x]);
      if x != k { LastAppendQuiet(n.sent, [p], n.term, n.members[x].id); }
    }
  }

  lemma RequestChannels(g: History, i: Id, n: Node, m: Msg)
    requires ChannelInv(g, i, n) && m.RequestVote?
    ensures ChannelInv(g, i, HandleRequestVote(n, m))
  {
    var n' := HandleRequestVote(n, m);
    QuietSends(g, i, n, n', [n'.sent[|n.sent|]]);
  }

  lemma AppendChannels(g: History, i: Id, n: Node, m: Msg)
    requires ChannelInv(g, i, n) && m.Append?
    ensures ChannelInv(g, i, HandleAppend(n, m))
  {
    var n' := HandleAppend(n, m);
    QuietSends(g, i, n, n', [n'.sent[|n.sent|]]);
  }

  lemma RecvChannels(c: Cluster, h: History, g: History, i: Id, n: Node, src: Id, m: Msg)
    requires LocalInv(c, h, i, n) && ChannelInv(h, i, n) && Ext(h, g, i) && src in c.members && src != i
    requires PacketInv(c, h, src, Packet(i, m)) && FreshFor(n, m)
    requires m.RequestVoteResp? ==> OfficeFacts(c, h, g, i, n, Recv(n, src, m))
    ensures ChannelInv(g, i, Recv(n, src, m))
  {
    hide LocalInv;
    hide ChannelInv;
    hide Ext;
    ChannelStableSelf(c, h, g, i, n);
    match m
    case RequestVote(_, _, _, _, _) => RequestChannels(g, i, n, m);
    case RequestVoteResp(_, _, granted) => FlaggedChannels(c, h, g, i, n, src, m);
    case Append(_, _, _, _, _, _) => AppendChannels(g, i, n, m);
    case AppendResp(_, _, _) =>
      AppendRespChannels(c, h, i, n, src, m);
      ReplyStable(c, h, g, i, n, src, m);
  }

  lemma ReplyStable(c: Cluster, h: History, g: History, i: Id, n: Node, src: Id, m: Msg)
    requires LocalInv(c, h, i, n) && m.AppendResp? && src != i && PacketInv(c, h, src, Packet(i, m)) && FreshFor(n, m)
    requires Ext(h, g, i) && ChannelInv(h, i, HandleAppendResp(n, src, m)) && src in c.members
    ensures ChannelInv(g, i, HandleAppendResp(n, src, m))
  {
    AppendRespHandled(c, h, i, n, src, m);
    ChannelStable(c, h, g, i, i, HandleAppendResp(n, src, m));
  }

  lemma ProposeChannels(c: Cluster, h: History, g: History, i: Id, n: Node, data: seq<byte>)
    requires LocalInv(c, h, i, n) && ChannelInv(h, i, n) && Ext(h, g, i)
    requires CanPropose(n, data) ==> n.term in h.ldrs && g == WithEntry(h, n.term, LeaderAppend(n, Normal, data).log)
    ensures ChannelInv(g, i, Propose(n, data))
  {
    hide LocalInv;
    ChannelStableSelf(c, h, g, i, n);
    if CanPropose(n, data) {
      var g' := LeaderAppends(c, h, i, n, Normal, data);
      var n1 := LeaderAppend(n, Normal, data);
      NextGrown(g, i, n, n1);
      LeaderBroadcasts(c, g, i, n1);
      var n2 := BroadcastAppend(n1);
      QuietSends(g, i, n2, AdvanceCommit(n2), []);
    }
  }

  lemma NextGrown(h: History, i: Id, n: Node, n': Node)
    requires ChannelInv(h, i, n) && n.role == Leader && n'.role == Leader && n'.sent == n.sent && n'.term == n.term
    requires SameNext(n.members, n'.members) && |n.log| <= |n'.log|
    ensures ChannelInv(h, i, n')
  {
    forall x | 0 <= x < |n'.members| && n'.members[x].id != i ensures NextOk(h, n', n'.members[x]) {
      assert NextOk(h, n, n.members[x]);
    }
  }

  lemma TickChannels(c: Cluster, h: History, g: History, i: Id, n: Node, now: nat)
    requires LocalInv(c, h, i, n) && n.self == i && ChannelInv(h, i, n) && Ext(h, g, i)
    requires OfficeFacts(c, h, g, i, n, Tick(n, now))
    ensures ChannelInv(g, i, Tick(n, now))
  {
    hide LocalInv;
    hide ChannelInv;
    hide Ext;
    ChannelStableSelf(c, h, g, i, n);
    var n1 := AdvanceClock(n, now);
    if n.role == Leader {
      TickLeaderChannels(c, h, g, i, n, now);
    } else if n1.electionElapsed >= ElectionTimeout(n1) && EligibleVoter(n1.members, i) {
      ElectionTicks(c, h, g, i, n, now);
    } else {
      ClockTicks(g, i, n, now);
    }
  }

  lemma ClockTicks(g: History, i: Id, n: Node, now: nat)
    requires ChannelInv(g, i, n) && n.role != Leader && n.self == i
    requires var n1 := AdvanceClock(n, now);
      !(n1.electionElapsed >= ElectionTimeout(n1) && EligibleVoter(n1.members, i))
    ensures ChannelInv(g, i, Tick(n, now))
  {
    QuietSends(g, i, n, Tick(n, now), []);
  }

  lemma ElectionTicks(c: Cluster, h: History, g: History, i: Id, n: Node, now: nat)
    requires LocalInv(c, h, i, n) && ChannelInv(h, i, n) && ChannelInv(g, i, n) && Ext(h, g, i)
    requires OfficeFacts(c, h, g, i, n, Tick(n, now)) && n.role != Leader && n.self == i
    requires var n1 := AdvanceClock(n, now); n1.electionElapsed >= ElectionTimeout(n1) && EligibleVoter(n1.members, i)
    ensures ChannelInv(g, i, Tick(n, now))
  {
    var n1 := AdvanceClock(n, now);
    hide HistInv, PacketsInv, ChainInv, Ext, StartElection, EligibleVoter;
    StandsOnTick(n, now);
    ElectionChannels(c, h, g, i, n1);
    hide ChannelInv;
    QuietSends(g, i, StartElection(n1), Tick(n, now), []);
  }

  lemma StandsOnTick(n: Node, now: nat)
    requires n.role != Leader
    requires var n1 := AdvanceClock(n, now); n1.electionElapsed >= ElectionTimeout(n1)
    ensures var r := StartElection(AdvanceClock(n, now));
      && Tick(n, now) == ApplyCommitted(r) && Tick(n, now).sent == r.sent + []
      && (r.role == Leader ==> r.term == n.term + 1)
      && SameNext(r.members, Tick(n, now).members)
  {
    var n1 := AdvanceClock(n, now);
    hide EligibleVoter, BroadcastAppend, BroadcastVote, Commands, ElectionTimeout, CountIf;
    var n2 := OpenRealRound(StandForElection(n1));
    LeadsSameTerm(n2);
    SentAlone(StandForElection(n1).(inPreVote := true), n1.term + 1);
  }

  lemma LeadsSameTerm(n: Node)
    ensures BecomeLeader(n).term == n.term
  {
    hide AppendsTo;
  }

  lemma SentAlone(n: Node, term: nat)
    ensures BroadcastVote(n, true, term).role == n.role
  {
  }

  lemma TickLeaderChannels(c: Cluster, h: History, g: History, i: Id, n: Node, now: nat)
    requires LocalInv(c, h, i, n) && ChannelInv(h, i, n) && ChannelInv(g, i, n) && Ext(h, g, i) && n.role == Leader
    ensures ChannelInv(g, i, Tick(n, now))
  {
    var n2 := AdvanceClock(n, now).(electionElapsed := 0);
    if n2.heartbeatElapsed >= n2.cfg.heartbeat {
      var n3 := n2.(heartbeatElapsed := 0);
      Quiet(c, h, i, n, n3);
      QuietSends(h, i, n, n3, []);
      LeaderBroadcasts(c, h, i, n3);
      Broadcasts(c, h, i, n3);
      ChannelStable(c, h, g, i, i, BroadcastAppend(n3));
    } else {
      QuietSends(g, i, n, n2, []);
    }
  }

  lemma ElectionChannels(c: Cluster, h: History, g: History, i: Id, n: Node)
    requires HistInv(c, h) && BallotInv(h, i, n) && n.self == i && DistinctIds(n.members)
    requires PacketsInv(c, h, i, n.sent) && ChainInv(h, n.sent) && ChainInv(g, n.sent) && Ext(h, g, i)
    requires n.role != Leader && EligibleVoter(n.members, i)
    requires StartElection(n).role == Leader ==> n.term + 1 in g.ldrs && g.ldrs[n.term + 1].log0 == n.log
    ensures ChannelInv(g, i, StartElection(n))
  {
    var n1 := StandForElection(n);
    if CountIf(n1.members, IsVoter) == 1 {
      NoFutureOffice(c, h, i, n, n.term + 1);
      OfficeOpens(c, h, g, i, OpenRealRound(n1));
    } else {
      var req := RequestVote(n.term + 1, true, i, |n.log|, LastTerm(n.log));
      VotesQuiet(n1.members, i, req);
      QuietSends(g, i, n, StartElection(n), ToVoters(n1.members, i, req));
    }
  }
}
