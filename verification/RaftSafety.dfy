/** The invariant of a whole cluster, and the safety theorems over every run. */
module RaftSafety {
  import opened RaftTypes
  import opened RaftStep
  import opened RaftHistory
  import opened RaftInvariant
  import opened RaftMerge
  import opened RaftPreserve
  import opened RaftHandlers
  import opened RaftSystem
  import opened RaftOrder
  import opened Bytes

  ghost predicate MemberInv(c: Cluster, h: History, i: Id, n: Node) {
    NodeInv(c, h, i, n) && PacketsInv(c, h, i, n.sent) && ChannelInv(h, i, n)
  }

  ghost predicate DeliveredInv(s: System) {
    forall d :: d in s.delivered ==>
      && d.0 in s.nodes && d.1 < |s.nodes[d.0].sent|
      && var p := s.nodes[d.0].sent[d.1];
         p.msg.Append? && p.dst in s.nodes ==> p.msg.term <= s.nodes[p.dst].term
  }

  /** Every append of term `t` from `src` that has reached `i` fails the consistency check of `log`. */
  ghost predicate Refused(s: System, src: Id, i: Id, t: nat, log: Log) {
    forall k {:trigger (src, k) in s.delivered} ::
      (src, k) in s.delivered && src in s.nodes && 0 <= k < |s.nodes[src].sent|
      && OnChannel(s.nodes[src].sent[k], t, i) ==>
        !PrevMatches(log, s.nodes[src].sent[k].msg)
  }

  /** A follower's log is a prefix of its leader's once it has accepted an append of the term; before
      that it holds nothing of the term and has refused every append that reached it. */
  ghost predicate SyncOk(s: System, h: History, i: Id, n: Node) {
    n.term in h.ldrs && h.ldrs[n.term].id != i ==>
      if Key(n.term, i) in h.acks then n.log <= h.ldrs[n.term].log
      else (forall j :: 0 <= j < |n.log| ==> n.log[j].term < n.term) && Refused(s, h.ldrs[n.term].id, i, n.term, n.log)
  }

  ghost predicate SysInv(c: Cluster, s: System, h: History) {
    && s.nodes.Keys == c.members
    && HistInv(c, h)
    && (forall i {:trigger MemberInv(c, h, i, s.nodes[i])} :: i in s.nodes ==> MemberInv(c, h, i, s.nodes[i]))
    && DeliveredInv(s)
    && (c.net == InSendOrder ==>
          forall i {:trigger SyncOk(s, h, i, s.nodes[i])} :: i in s.nodes ==> SyncOk(s, h, i, s.nodes[i]))
  }

  lemma InitInv(c: Cluster, s: System)
    requires Init(c, s)
    ensures SysInv(c, s, History(map[], map[], map[], map[]))
  {
  }

  // ---- delivery in order ----

  /** The first append of a term that a follower accepts, delivered in order, leaves it a prefix of the leader's log. */
  lemma FirstAccepted(c: Cluster, h: History, i: Id, n: Node, sent: seq<Packet>, at: nat)
    requires HistInv(c, h) && at < |sent| && sent[at].msg.Append?
    requires var m := sent[at].msg;
      && m.term in h.ldrs
      && Merged(n.log, h.ldrs[m.term].log, m.prevIndex + |m.entries|, Placed(n, m))
      && m.prevIndex + |m.entries| <= |h.ldrs[m.term].log|
      && PrevMatches(n.log, m)
      && Key(m.term, i) !in h.acks && sent[at].dst == i
      && LinkOk(h, sent, at)
      && |n.log| <= MAX_LOG
      && (forall j :: 0 <= j < |n.log| ==> n.log[j].term < m.term)
      && (forall j :: 0 <= j < at && OnChannel(sent[j], m.term, i) ==>
            && sent[j].msg.prevTerm == TermAt(h.ldrs[m.term].log, sent[j].msg.prevIndex)
            && !PrevMatches(n.log, sent[j].msg))
    ensures Placed(n, sent[at].msg) <= h.ldrs[sent[at].msg.term].log
  {
    var m := sent[at].msg;
    var l := h.ldrs[m.term].log;
    var r := Placed(n, m);
    var k := m.prevIndex + |m.entries|;
    var j := LastAppend(sent[..at], m.term, i);
    assert j >= 0 ==> sent[..at][j] == sent[j];
    var q := if j >= 0 then sent[j].msg.prevIndex else 0;
    assert OfficeInv(c, h, m.term);
    AgreeingPrev(n.log, l, k, q);
    AgreeingTerm(n.log, l, k, |h.ldrs[m.term].log0|);
  }

  lemma AgreeingPrev(a: Log, b: Log, k: nat, q: nat)
    ensures Agrees(a, b, k) && q <= k ==> q <= |a| && TermAt(a, q) == TermAt(b, q)
  {
    if Agrees(a, b, k) && 0 < q <= k { AgreesAt(a, b, k, q - 1); }
  }

  lemma AgreeingTerm(a: Log, b: Log, k: nat, j: nat)
    ensures Agrees(a, b, k) && j < k ==> j < |a| && j < |b| && a[j].term == b[j].term
  {
    if Agrees(a, b, k) && j < k { AgreesAt(a, b, k, j); }
  }

  /** The append that event `e` delivers. */
  ghost function Delivered(s: System, e: Event): Msg
    requires Enabled(s, e) && e.Delivers?
  {
    s.nodes[e.src].sent[e.at].msg
  }

  /** The history with the acknowledgement that accepting it makes. */
  ghost function Acked(s: System, h: History, e: Event): History
    requires Enabled(s, e) && e.Delivers? && Delivered(s, e).Append?
  {
    var m := Delivered(s, e);
    WithAck(h, m.term, Actor(s, e), m.prevIndex + |m.entries|)
  }

  /** Event `e` delivers an append that its receiver accepts. */
  ghost predicate Accepts(s: System, e: Event)
    requires Enabled(s, e)
  {
    && e.Delivers? && Delivered(s, e).Append?
    && var n := s.nodes[Actor(s, e)];
       Delivered(s, e).term >= n.term && PrevMatches(n.log, Delivered(s, e))
  }

  /** In order, everything before a first accepted append was refused. */
  lemma EarlierRefused(c: Cluster, s: System, h: History, e: Event, j: nat)
    requires SysInv(c, s, h) && c.net == InSendOrder && Enabled(s, e) && InOrder(s, e) && Accepts(s, e)
    requires Delivered(s, e).term in h.ldrs && h.ldrs[Delivered(s, e).term].id == e.src && e.src != Actor(s, e)
    requires Key(Delivered(s, e).term, Actor(s, e)) !in h.acks
    requires j < e.at && OnChannel(s.nodes[e.src].sent[j], Delivered(s, e).term, Actor(s, e))
    ensures var q := s.nodes[e.src].sent[j].msg;
      && q.prevTerm == TermAt(h.ldrs[q.term].log, q.prevIndex)
      && !PrevMatches(s.nodes[Actor(s, e)].log, q)
  {
    var i := Actor(s, e);
    var sent := s.nodes[e.src].sent;
    assert SyncOk(s, h, i, s.nodes[i]);
    assert SameChannel(sent[j], sent[e.at]);
    assert (e.src, j) in s.delivered;
    assert MemberInv(c, h, e.src, s.nodes[e.src]);
    assert PacketInv(c, h, e.src, sent[j]);
  }

  lemma AcceptedFromLeader(c: Cluster, s: System, h: History, e: Event)
    requires SysInv(c, s, h) && Enabled(s, e) && Accepts(s, e)
    ensures var m := Delivered(s, e); var n := s.nodes[Actor(s, e)];
      && e.src != Actor(s, e) && AppendInv(c, h, e.src, m)
      && LinkOk(h, s.nodes[e.src].sent, e.at)
      && Merged(n.log, h.ldrs[m.term].log, m.prevIndex + |m.entries|, Placed(n, m))
      && WellLog(h, n.log, n.term)
  {
    var i := Actor(s, e);
    assert MemberInv(c, h, i, s.nodes[i]) && MemberInv(c, h, e.src, s.nodes[e.src]);
    assert PacketInv(c, h, e.src, s.nodes[e.src].sent[e.at]);
    AppendMerges(c, h, i, s.nodes[i], e.src, Delivered(s, e));
    assert LinkOk(h, s.nodes[e.src].sent, e.at);
  }

  lemma UnackedTerms(c: Cluster, s: System, h: History, i: Id, t: nat)
    requires SysInv(c, s, h) && c.net == InSendOrder && i in s.nodes && t >= s.nodes[i].term
    requires t in h.ldrs && h.ldrs[t].id != i
    ensures Key(t, i) in h.acks ==> t == s.nodes[i].term && s.nodes[i].log <= h.ldrs[t].log
    ensures Key(t, i) !in h.acks ==> forall j :: 0 <= j < |s.nodes[i].log| ==> s.nodes[i].log[j].term < t
  {
    assert MemberInv(c, h, i, s.nodes[i]) && SyncOk(s, h, i, s.nodes[i]);
  }

  /** Under in-order delivery an accepted append always leaves the follower with a prefix of the leader's log. */
  lemma AcceptedIsPrefix(c: Cluster, s: System, h: History, e: Event)
    requires SysInv(c, s, h) && c.net == InSendOrder && Enabled(s, e) && InOrder(s, e) && Accepts(s, e)
    ensures Delivered(s, e).term in h.ldrs
    ensures Placed(s.nodes[Actor(s, e)], Delivered(s, e)) <= h.ldrs[Delivered(s, e).term].log
  {
    hide SysInv;
    var i := Actor(s, e);
    var n := s.nodes[i];
    var m := Delivered(s, e);
    AcceptedFromLeader(c, s, h, e);
    UnackedTerms(c, s, h, i, m.term);
    if Key(m.term, i) !in h.acks {
      forall j | 0 <= j < e.at && OnChannel(s.nodes[e.src].sent[j], m.term, i)
        ensures var q := s.nodes[e.src].sent[j].msg;
          q.prevTerm == TermAt(h.ldrs[q.term].log, q.prevIndex) && !PrevMatches(n.log, q)
      {
        EarlierRefused(c, s, h, e, j);
      }
      HistOf(c, s, h);
      FirstAccepted(c, h, i, n, s.nodes[e.src].sent, e.at);
    }
  }

  lemma HistOf(c: Cluster, s: System, h: History)
    requires SysInv(c, s, h)
    ensures HistInv(c, h)
  {
  }

  // ---- one event ----

  lemma NodeKeeps(c: Cluster, s: System, h: History, e: Event) returns (g: History)
    requires SysInv(c, s, h) && Enabled(s, e) && Fresh(s, e) && NetOk(c, s, e)
    ensures Ext(h, g, Actor(s, e)) && HistInv(c, g) && MemberInv(c, g, Actor(s, e), NodeAfter(s, e))
    ensures if Accepts(s, e)
            then g == Acked(s, h, e)
            else OfficeFacts(c, h, g, Actor(s, e), s.nodes[Actor(s, e)], NodeAfter(s, e))
  {
    var i := Actor(s, e);
    var n := s.nodes[i];
    assert MemberInv(c, h, i, n);
    match e
    case Ticks(_, now) =>
      g := TickKeeps(c, h, i, n, now);
      TickChannels(c, h, g, i, n, now);
    case Proposes(_, data) =>
      g := ProposeKeeps(c, h, i, n, data);
      ProposeChannels(c, h, g, i, n, data);
    case Delivers(src, at) =>
      g := DeliverKeeps(c, s, h, e);
  }

  lemma DeliverKeeps(c: Cluster, s: System, h: History, e: Event) returns (g: History)
    requires SysInv(c, s, h) && Enabled(s, e) && Fresh(s, e) && NetOk(c, s, e) && e.Delivers?
    ensures Ext(h, g, Actor(s, e)) && HistInv(c, g) && MemberInv(c, g, Actor(s, e), NodeAfter(s, e))
    ensures if Accepts(s, e)
            then g == Acked(s, h, e)
            else OfficeFacts(c, h, g, Actor(s, e), s.nodes[Actor(s, e)], NodeAfter(s, e))
  {
    hide SysInv, LocalInv, Ext, ChannelInv, NodeInv, HistInv, PacketsInv;
    DeliverFacts(c, s, h, e);
    var i := Actor(s, e);
    g := RecvKeeps(c, h, i, s.nodes[i], e.src, Delivered(s, e));
    RecvChannels(c, h, g, i, s.nodes[i], e.src, Delivered(s, e));
    LocalParts(c, g, i, NodeAfter(s, e));
  }

  lemma LocalParts(c: Cluster, h: History, i: Id, n: Node)
    requires LocalInv(c, h, i, n)
    ensures HistInv(c, h) && NodeInv(c, h, i, n) && PacketsInv(c, h, i, n.sent)
  {
    hide HistInv, NodeInv, PacketsInv;
  }

  /** Either assumption on the network keeps an accepted append from committing what it has not checked. */
  lemma AcceptCovered(c: Cluster, s: System, h: History, e: Event)
    requires SysInv(c, s, h) && Enabled(s, e) && NetOk(c, s, e) && c.Commits() && Accepts(s, e)
    ensures Covered(h, s.nodes[Actor(s, e)], Delivered(s, e))
  {
    hide SysInv;
    AcceptedFromLeader(c, s, h, e);
    if c.net == InSendOrder {
      AcceptedIsPrefix(c, s, h, e);
    } else {
      var n, m := s.nodes[Actor(s, e)], Delivered(s, e);
      var r, k := Placed(n, m), m.prevIndex + |m.entries|;
      if m.leaderCommit > n.commit {
        AgreesLess(r, h.ldrs[m.term].log, k, FollowerCommit(n.commit, |r|, m.leaderCommit));
      }
    }
  }

  /** What the receiver of a packet knows of it. */
  lemma DeliverFacts(c: Cluster, s: System, h: History, e: Event)
    requires SysInv(c, s, h) && Enabled(s, e) && NetOk(c, s, e) && e.Delivers?
    ensures var i := Actor(s, e); var n := s.nodes[i]; var m := Delivered(s, e);
      && LocalInv(c, h, i, n) && ChannelInv(h, i, n)
      && e.src in c.members && e.src != i && PacketInv(c, h, e.src, Packet(i, m))
      && (c.Commits() && Accepts(s, e) ==> Covered(h, n, m))
  {
    var i := Actor(s, e);
    if c.Commits() && Accepts(s, e) { AcceptCovered(c, s, h, e); }
    assert MemberInv(c, h, i, s.nodes[i]) && MemberInv(c, h, e.src, s.nodes[e.src]);
    assert PacketInv(c, h, e.src, s.nodes[e.src].sent[e.at]);
  }

  // ---- the rest of the cluster ----

  /** What every event leaves of the node it runs on, whatever the invariant. */
  ghost predicate Shape(n: Node, n': Node) {
    n.sent <= n'.sent && n.term <= n'.term && n.applied <= n'.applied
  }

  lemma LeaderShape(n: Node)
    ensures Shape(n, BecomeLeader(n)) && BecomeLeader(n).role == Leader
  {
  }

  lemma AppendShape(n: Node, m: Msg)
    requires m.Append?
    ensures var n' := HandleAppend(n, m);
      && Shape(n, n')
      && n'.term >= m.term
      && (n'.log != n.log ==> m.term >= n.term && PrevMatches(n.log, m))
      && (m.term >= n.term ==> n'.term == m.term && n'.role == Follower)
      && (m.term >= n.term && PrevMatches(n.log, m) ==> n'.log == Placed(n, m))
  {
  }

  lemma RecvShape(n: Node, src: Id, m: Msg)
    ensures Shape(n, Recv(n, src, m))
    ensures !m.Append? && Recv(n, src, m).role != Leader ==> Recv(n, src, m).log == n.log
  {
    match m
    case RequestVote(_, _, _, _, _) =>
    case RequestVoteResp(_, _, granted) =>
      var n1 := if granted then n.(members := GrantVote(n.members, src)) else n;
      LeaderShape(n1);
    case Append(_, _, _, _, _, _) => AppendShape(n, m);
    case AppendResp(_, _, _) =>
  }

  lemma ElectionShape(n: Node)
    ensures Shape(n, StartElection(n)) && (StartElection(n).role != Leader ==> StartElection(n).log == n.log)
  {
    hide BecomeLeader;
    LeaderShape(OpenRealRound(StandForElection(n)));
  }

  lemma TickShape(n: Node, now: nat)
    ensures Shape(n, Tick(n, now)) && (Tick(n, now).role != Leader ==> Tick(n, now).log == n.log)
  {
    hide StartElection;
    ElectionShape(AdvanceClock(n, now));
  }

  lemma ProposeShape(n: Node, data: seq<byte>)
    ensures Shape(n, Propose(n, data)) && (Propose(n, data).role != Leader ==> Propose(n, data).log == n.log)
  {
  }

  lemma EventShape(s: System, e: Event)
    requires Enabled(s, e)
    ensures var n := s.nodes[Actor(s, e)]; var n' := NodeAfter(s, e);
      && Shape(n, n')
      && (n'.role != Leader && n'.log != n.log ==> Accepts(s, e))
      && (e.Delivers? && Delivered(s, e).Append? ==> n'.term >= Delivered(s, e).term)
      && (Accepts(s, e) ==>
            n'.role == Follower && n'.term == Delivered(s, e).term && n'.log == Placed(n, Delivered(s, e)))
      && (e.Delivers? && Delivered(s, e).Append? && Delivered(s, e).term >= n.term ==> n'.term == Delivered(s, e).term)
  {
    var n := s.nodes[Actor(s, e)];
    match e
    case Ticks(_, now) => TickShape(n, now);
    case Proposes(_, data) => ProposeShape(n, data);
    case Delivers(src, at) =>
      RecvShape(n, src, Delivered(s, e));
      if Delivered(s, e).Append? { AppendShape(n, Delivered(s, e)); }
  }

  lemma DeliveredKept(s: System, e: Event)
    requires DeliveredInv(s) && Enabled(s, e)
    ensures DeliveredInv(Step(s, e))
  {
    hide NodeAfter;
    EventShape(s, e);
  }

  /** Packets already delivered keep being refused by an unchanged log, apart from the one now delivered. */
  lemma RefusedKept(s: System, e: Event, src: Id, i: Id, t: nat, log: Log)
    requires Enabled(s, e) && DeliveredInv(s) && Refused(s, src, i, t, log)
    requires e.Delivers? && e.src == src && OnChannel(s.nodes[e.src].sent[e.at], t, i) ==>
      !PrevMatches(log, Delivered(s, e))
    ensures Refused(Step(s, e), src, i, t, log)
  {
    EventShape(s, e);
    var s' := Step(s, e);
    forall k | (src, k) in s'.delivered && src in s'.nodes && 0 <= k < |s'.nodes[src].sent|
               && OnChannel(s'.nodes[src].sent[k], t, i)
      ensures !PrevMatches(log, s'.nodes[src].sent[k].msg)
    {
      assert k < |s.nodes[src].sent| && s'.nodes[src].sent[k] == s.nodes[src].sent[k];
    }
  }

  /** Nothing of a term has reached a node that has not reached the term. */
  lemma NothingYet(s: System, src: Id, i: Id, t: nat, log: Log)
    requires DeliveredInv(s) && i in s.nodes && t > s.nodes[i].term
    ensures Refused(s, src, i, t, log)
  {
  }

  /** No append of a term that no one has won. */
  lemma NothingSent(c: Cluster, s: System, h: History, src: Id, i: Id, t: nat, log: Log)
    requires SysInv(c, s, h) && t !in h.ldrs
    ensures Refused(s, src, i, t, log)
  {
    forall k | (src, k) in s.delivered && src in s.nodes && 0 <= k < |s.nodes[src].sent|
      ensures !OnChannel(s.nodes[src].sent[k], t, i)
    {
      assert MemberInv(c, h, src, s.nodes[src]);
      assert PacketInv(c, h, src, s.nodes[src].sent[k]);
    }
  }

  /** A node that did not move stays in step with its leader. */
  lemma OtherSync(c: Cluster, s: System, h: History, g: History, e: Event, j: Id)
    requires SysInv(c, s, h) && c.net == InSendOrder && Enabled(s, e) && Ext(h, g, Actor(s, e))
    requires j in s.nodes && j != Actor(s, e)
    ensures SyncOk(Step(s, e), g, j, s.nodes[j])
  {
    var n := s.nodes[j];
    if n.term in g.ldrs && g.ldrs[n.term].id != j {
      assert SyncOk(s, h, j, n) && MemberInv(c, h, j, n);
      if Key(n.term, j) !in g.acks {
        if n.term !in h.ldrs {
          NothingSent(c, s, h, g.ldrs[n.term].id, j, n.term, n.log);
          forall x | 0 <= x < |n.log| ensures n.log[x].term < n.term { assert BackedAt(h, n.log, x); }
        }
        RefusedKept(s, e, g.ldrs[n.term].id, j, n.term, n.log);
      }
    }
  }

  /** The node that moved is in step with the leader of the term it is now in. */
  lemma ActorSync(c: Cluster, s: System, h: History, g: History, e: Event)
    requires SysInv(c, s, h) && c.net == InSendOrder && Enabled(s, e) && InOrder(s, e) && Ext(h, g, Actor(s, e))
    requires MemberInv(c, g, Actor(s, e), NodeAfter(s, e))
    requires if Accepts(s, e)
             then g == Acked(s, h, e)
             else OfficeFacts(c, h, g, Actor(s, e), s.nodes[Actor(s, e)], NodeAfter(s, e))
    ensures SyncOk(Step(s, e), g, Actor(s, e), NodeAfter(s, e))
  {
    EventShape(s, e);
    var i := Actor(s, e);
    var n, n' := s.nodes[i], NodeAfter(s, e);
    if n'.term in g.ldrs && g.ldrs[n'.term].id != i {
      if Accepts(s, e) {
        AcceptedIsPrefix(c, s, h, e);
      } else {
        QuietSync(c, s, h, g, e);
      }
    }
  }

  lemma QuietSync(c: Cluster, s: System, h: History, g: History, e: Event)
    requires SysInv(c, s, h) && c.net == InSendOrder && Enabled(s, e) && Ext(h, g, Actor(s, e)) && !Accepts(s, e)
    requires MemberInv(c, g, Actor(s, e), NodeAfter(s, e))
    requires OfficeFacts(c, h, g, Actor(s, e), s.nodes[Actor(s, e)], NodeAfter(s, e))
    requires NodeAfter(s, e).term in g.ldrs && g.ldrs[NodeAfter(s, e).term].id != Actor(s, e)
    ensures SyncOk(Step(s, e), g, Actor(s, e), NodeAfter(s, e))
  {
    EventShape(s, e);
    var i := Actor(s, e);
    var n, n' := s.nodes[i], NodeAfter(s, e);
    var t, src := n'.term, g.ldrs[n'.term].id;
    assert n'.role != Leader && n'.log == n.log;
    assert t in h.ldrs && h.ldrs[t].id == src && (Key(t, i) in g.acks <==> Key(t, i) in h.acks);
    UnackedTerms(c, s, h, i, t);
    if Key(t, i) !in g.acks {
      if t == n.term { assert SyncOk(s, h, i, n); } else { NothingYet(s, src, i, t, n.log); }
      RefusedKept(s, e, src, i, t, n.log);
    }
  }

  /** Every event of a run keeps the invariant of the whole cluster. */
  lemma StepKeeps(c: Cluster, s: System, h: History, e: Event) returns (g: History)
    requires SysInv(c, s, h) && Enabled(s, e) && Fresh(s, e) && NetOk(c, s, e)
    ensures SysInv(c, Step(s, e), g) && Grows(h, g)
    ensures !Accepts(s, e) ==> OfficeFacts(c, h, g, Actor(s, e), s.nodes[Actor(s, e)], NodeAfter(s, e))
  {
    hide HistInv, MemberInv, SyncOk, DeliveredInv, Ext, OfficeFacts, Accepts, Grows;
    g := NodeKeeps(c, s, h, e);
    ExtGrows(h, g, Actor(s, e));
    var i := Actor(s, e);
    var s' := Step(s, e);
    DeliveredKept(s, e);
    forall j | j in s'.nodes ensures MemberInv(c, g, j, s'.nodes[j]) {
      if j != i { OtherMember(c, s, h, g, i, j); }
    }
    if c.net == InSendOrder {
      forall j | j in s'.nodes ensures SyncOk(s', g, j, s'.nodes[j]) {
        if j == i { ActorSync(c, s, h, g, e); } else { OtherSync(c, s, h, g, e, j); }
      }
    }
  }

  lemma ExtGrows(h: History, g: History, i: Id)
    requires Ext(h, g, i)
    ensures Grows(h, g)
  {
  }

  lemma OtherMember(c: Cluster, s: System, h: History, g: History, i: Id, j: Id)
    requires SysInv(c, s, h) && Ext(h, g, i) && j in s.nodes && j != i
    ensures MemberInv(c, g, j, s.nodes[j])
  {
    assert MemberInv(c, h, j, s.nodes[j]);
    OtherNode(c, h, g, i, j, s.nodes[j]);
    PacketsStable(c, h, g, i, j, s.nodes[j].sent);
    ChannelStable(c, h, g, i, j, s.nodes[j]);
  }
}
