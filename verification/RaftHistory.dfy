/** Auxiliary history of a cluster run, and the invariants that tie a node and its packets to it. */
module RaftHistory {
  import opened RaftTypes
  import opened RaftStep

  /** What is assumed of append deliveries: nothing; that the follower's commit rule never reaches past
      the entries the append checked; or that a leader's appends arrive in sending order. */
  datatype Net = Loose | Clipped | InSendOrder

  /** The agreed member table: who is a member, and which members count toward a quorum. */
  datatype Cluster = Cluster(members: set<Id>, voters: set<Id>, net: Net) {
    /** Commit indexes are under control. */
    predicate Commits() { net != Loose }
  }

  datatype Key = Key(term: nat, id: Id)

  /** A vote: for whom, and the voter's log when it was cast. */
  datatype Vote = Vote(cand: Id, log: Log)

  /** A term of office: who won it, with whose votes, with which log, and the log it has built since. */
  datatype Office = Office(id: Id, voters: set<Id>, log0: Log, log: Log)

  /** What happened so far: votes cast, real rounds opened, offices won, appends acknowledged. */
  datatype History = History(votes: map<Key, Vote>, cands: map<Key, Log>,
                             ldrs: map<nat, Office>, acks: map<Key, nat>)

  ghost predicate IsQuorum(c: Cluster, q: set<Id>) {
    q <= c.voters && |q| >= |c.voters| / 2 + 1
  }

  // ---- logs ----

  /** Entry `j` of `g` stems from the leader of its term, together with everything before it. */
  ghost predicate BackedAt(h: History, g: Log, j: nat)
    requires j < |g|
  {
    && g[j].index == j + 1
    && g[j].term in h.ldrs
    && Agrees(g, h.ldrs[g[j].term].log, j + 1)
  }

  ghost predicate Agrees(g: Log, l: Log, k: nat) {
    k <= |g| && k <= |l| && g[..k] == l[..k]
  }

  ghost predicate Sorted(g: Log) {
    forall i, j :: 0 <= i < j < |g| ==> g[i].term <= g[j].term
  }

  /** A log that this history can explain, with no entry of a term above `top`. */
  ghost predicate WellLog(h: History, g: Log, top: int) {
    && |g| <= MAX_LOG
    && (forall j {:trigger BackedAt(h, g, j)} :: 0 <= j < |g| ==> BackedAt(h, g, j))
    && (forall j :: 0 <= j < |g| ==> g[j].term <= top)
    && Sorted(g)
  }

  ghost predicate UpToDate(cand: Log, voter: Log) {
    LogOk(voter, |cand|, LastTerm(cand))
  }

  // ---- acknowledgements and commitment ----

  ghost function Ack(h: History, t: nat, v: Id): nat {
    if Key(t, v) in h.acks then h.acks[Key(t, v)] else 0
  }

  /** The leader of term `u` took office without the first `k` entries of leader `t`. */
  ghost predicate Lost(h: History, u: nat, t: nat, k: nat) {
    && u in h.ldrs && t in h.ldrs
    && k <= |h.ldrs[t].log|
    && !Agrees(h.ldrs[u].log0, h.ldrs[t].log, k)
  }

  /** `g` still holds what was acknowledged to leader `t`, unless a later leader lacked it. */
  ghost predicate Retains(h: History, g: Log, t: nat, k: nat, top: nat) {
    t in h.ldrs && (Agrees(g, h.ldrs[t].log, k) || exists u :: t < u <= top && Lost(h, u, t, k))
  }

  /** The same of a log recorded with a vote; the leader that vote elected is not an excuse. */
  ghost predicate VoteRetains(h: History, key: Key, t: nat, k: nat)
    requires key in h.votes
  {
    t in h.ldrs &&
    (|| Agrees(h.votes[key].log, h.ldrs[t].log, k)
     || exists u :: t < u <= key.term && Lost(h, u, t, k) && (u == key.term ==> key.id !in h.ldrs[u].voters))
  }

  ghost function Holders(c: Cluster, h: History, t: nat, k: nat): set<Id> {
    set v | v in c.voters && Ack(h, t, v) >= k
  }

  /** Leader `t` may commit its first `k` entries: the last is its own and a quorum holds them. */
  ghost predicate Cert(c: Cluster, h: History, t: nat, k: nat) {
    && t in h.ldrs
    && 1 <= k <= |h.ldrs[t].log|
    && h.ldrs[t].log[k - 1].term == t
    && IsQuorum(c, Holders(c, h, t, k))
  }

  ghost predicate CertCovers(c: Cluster, h: History, s: Log, t: nat, k: nat) {
    Cert(c, h, t, k) && |s| <= k && s == h.ldrs[t].log[..|s|]
  }

  /** `s` is a prefix of what some leader of a term up to `top` may commit. */
  ghost predicate Committed(c: Cluster, h: History, s: Log, top: nat) {
    s == [] || exists t: nat, k: nat :: t <= top && CertCovers(c, h, s, t, k)
  }

  // ---- the invariant of the history itself ----

  ghost predicate VoteInv(h: History, key: Key)
    requires key in h.votes
  {
    var vote := h.votes[key];
    && Key(key.term, vote.cand) in h.cands
    && UpToDate(h.cands[Key(key.term, vote.cand)], vote.log)
    && WellLog(h, vote.log, key.term)
  }

  ghost predicate CandInv(h: History, key: Key)
    requires key in h.cands
  {
    && key in h.votes && h.votes[key].cand == key.id
    && WellLog(h, h.cands[key], key.term - 1)
  }

  ghost predicate OfficeInv(c: Cluster, h: History, t: nat)
    requires t in h.ldrs
  {
    var o := h.ldrs[t];
    && IsQuorum(c, o.voters)
    && (forall v :: v in o.voters ==> Key(t, v) in h.votes && h.votes[Key(t, v)].cand == o.id)
    && Key(t, o.id) in h.cands && h.cands[Key(t, o.id)] == o.log0
    && o.log0 <= o.log
    && (forall j :: |o.log0| <= j < |o.log| ==> o.log[j].term == t)
    && WellLog(h, o.log, t)
  }

  ghost predicate AcksInv(h: History) {
    forall a :: a in h.acks ==> a.term in h.ldrs && h.acks[a] <= |h.ldrs[a.term].log|
  }

  ghost predicate VoteAcksInv(h: History) {
    forall a, key, k {:trigger VoteRetains(h, key, a.term, k), a in h.acks} ::
      a in h.acks && key in h.votes && a.id == key.id && a.term < key.term && 0 <= k <= h.acks[a] ==>
      VoteRetains(h, key, a.term, k)
  }

  ghost predicate HistInv(c: Cluster, h: History) {
    && (forall key {:trigger VoteInv(h, key)} :: key in h.votes ==> VoteInv(h, key))
    && (forall key {:trigger CandInv(h, key)} :: key in h.cands ==> CandInv(h, key))
    && (forall t {:trigger OfficeInv(c, h, t)} :: t in h.ldrs ==> OfficeInv(c, h, t))
    && AcksInv(h) && VoteAcksInv(h)
  }

  // ---- consequences of the invariant: the Raft safety arguments ----

  lemma QuorumsMeet(c: Cluster, a: set<Id>, b: set<Id>) returns (v: Id)
    requires IsQuorum(c, a) && IsQuorum(c, b)
    ensures v in a && v in b
  {
    if a * b == {} {
      assert |a + b| == |a| + |b|;
      SubsetSize(a + b, c.voters);
      assert false;
    }
    v :| v in a * b;
  }

  lemma {:induction false} SubsetSize(a: set<Id>, b: set<Id>)
    requires a <= b
    ensures |a| <= |b|
  {
    if a != {} {
      var x :| x in a;
      SubsetSize(a - {x}, b - {x});
    }
  }

  /** Two offices of one term are one. */
  lemma OneLeaderPerTerm(c: Cluster, h: History, t: nat, id: Id, q: set<Id>)
    requires HistInv(c, h) && t in h.ldrs
    requires IsQuorum(c, q)
    requires forall v :: v in q ==> Key(t, v) in h.votes && h.votes[Key(t, v)].cand == id
    ensures h.ldrs[t].id == id
  {
    assert OfficeInv(c, h, t);
    var v := QuorumsMeet(c, q, h.ldrs[t].voters);
  }

  /** Two explainable logs that agree on the term of one entry agree up to it. */
  lemma LogMatching(h: History, g1: Log, t1: int, g2: Log, t2: int, j: nat)
    requires WellLog(h, g1, t1) && WellLog(h, g2, t2)
    requires j < |g1| && j < |g2| && g1[j].term == g2[j].term
    ensures Agrees(g1, g2, j + 1)
  {
    assert BackedAt(h, g1, j) && BackedAt(h, g2, j);
  }

  lemma AgreesTrans(a: Log, b: Log, c: Log, k: nat)
    requires Agrees(a, b, k) && Agrees(b, c, k)
    ensures Agrees(a, c, k)
  {
  }

  lemma AgreesLess(a: Log, b: Log, k: nat, l: nat)
    requires Agrees(a, b, k) && l <= k
    ensures Agrees(a, b, l)
  {
    assert a[..l] == a[..k][..l] && b[..l] == b[..k][..l];
  }

  lemma AgreesAt(a: Log, b: Log, k: nat, j: nat)
    requires Agrees(a, b, k) && j < k
    ensures a[j] == b[j]
  {
    assert a[j] == a[..k][j] && b[j] == b[..k][j];
  }

  /** An office starts from entries of earlier terms. */
  lemma Log0Terms(c: Cluster, h: History, t: nat, j: nat)
    requires HistInv(c, h) && t in h.ldrs && j < |h.ldrs[t].log0|
    ensures j < |h.ldrs[t].log| && h.ldrs[t].log[j].term < t
  {
    var o := h.ldrs[t];
    assert OfficeInv(c, h, t);
    assert o.log[j] == o.log0[j];
    assert CandInv(h, Key(t, o.id));
  }

  /** The last entry of an explainable log carries its highest term, and lies in that term's office. */
  lemma LastEntry(c: Cluster, h: History, g: Log, top: int)
    requires HistInv(c, h) && WellLog(h, g, top) && g != []
    ensures LastTerm(g) in h.ldrs && LastTerm(g) <= top
    ensures Agrees(g, h.ldrs[LastTerm(g)].log, |g|)
    ensures |h.ldrs[LastTerm(g)].log0| < |g|
    ensures forall j :: 0 <= j < |g| ==> g[j].term <= LastTerm(g)
  {
    var last := |g| - 1;
    assert BackedAt(h, g, last);
    AgreesAt(g, h.ldrs[LastTerm(g)].log, |g|, last);
    if last < |h.ldrs[LastTerm(g)].log0| {
      Log0Terms(c, h, LastTerm(g), last);
      assert false;
    }
  }

  /** A log at least as up to date as one that holds `t`'s first `k` entries holds them too,
      provided every leader between `t` and the log's own last term does. */
  lemma UpToDateKeeps(c: Cluster, h: History, cand: Log, voter: Log, top: int, vtop: int, t: nat, k: nat)
    requires HistInv(c, h)
    requires WellLog(h, cand, top) && UpToDate(cand, voter)
    requires WellLog(h, voter, vtop)
    requires t in h.ldrs && 1 <= k <= |h.ldrs[t].log| && h.ldrs[t].log[k - 1].term == t
    requires Agrees(voter, h.ldrs[t].log, k)
    requires forall w :: w in h.ldrs && t < w <= top ==> Agrees(h.ldrs[w].log0, h.ldrs[t].log, k)
    ensures Agrees(cand, h.ldrs[t].log, k)
  {
    AgreesAt(voter, h.ldrs[t].log, k, k - 1);
    LastEntry(c, h, voter, vtop);
    assert LastTerm(voter) >= t;
    if cand == [] { assert false; }
    LastEntry(c, h, cand, top);
    var w := LastTerm(cand);
    if w == t {
      AgreesLess(cand, h.ldrs[t].log, |cand|, k);
    } else {
      OfficePrefix(c, h, w, k);
      AgreesLess(cand, h.ldrs[w].log, |cand|, k);
      AgreesTrans(cand, h.ldrs[w].log, h.ldrs[w].log0, k);
      AgreesTrans(cand, h.ldrs[w].log0, h.ldrs[t].log, k);
    }
  }

  lemma OfficePrefix(c: Cluster, h: History, t: nat, k: nat)
    requires HistInv(c, h) && t in h.ldrs && k <= |h.ldrs[t].log0|
    ensures Agrees(h.ldrs[t].log, h.ldrs[t].log0, k)
  {
    assert OfficeInv(c, h, t);
  }

  /** Leader completeness: what leader `t` may commit, every later leader already had at its election. */
  lemma {:induction false} LeaderCompleteness(c: Cluster, h: History, t: nat, k: nat, u: nat)
    requires HistInv(c, h)
    requires Cert(c, h, t, k)
    requires u in h.ldrs && t < u
    ensures Agrees(h.ldrs[u].log0, h.ldrs[t].log, k)
    decreases u
  {
    var o := h.ldrs[u];
    assert OfficeInv(c, h, u);
    var v := QuorumsMeet(c, Holders(c, h, t, k), o.voters);
    var key := Key(u, v);
    assert Key(t, v) in h.acks;
    assert VoteRetains(h, key, t, k);
    forall w | w in h.ldrs && t < w < u ensures Agrees(h.ldrs[w].log0, h.ldrs[t].log, k) {
      LeaderCompleteness(c, h, t, k, w);
    }
    assert Agrees(h.votes[key].log, h.ldrs[t].log, k);
    assert VoteInv(h, key) && CandInv(h, Key(u, o.id));
    UpToDateKeeps(c, h, o.log0, h.votes[key].log, u - 1, u, t, k);
  }

  /** Anything committed up to a term is in the log of every leader from that term on. */
  lemma CommittedInLeader(c: Cluster, h: History, s: Log, top: nat, u: nat)
    requires HistInv(c, h)
    requires Committed(c, h, s, top)
    requires u in h.ldrs && top <= u
    ensures s <= h.ldrs[u].log
  {
    if s != [] {
      var t: nat, k: nat :| t <= top && CertCovers(c, h, s, t, k);
      CertInLeader(c, h, s, t, k, u);
    }
  }

  lemma CertInLeader(c: Cluster, h: History, s: Log, t: nat, k: nat, u: nat)
    requires HistInv(c, h)
    requires CertCovers(c, h, s, t, k)
    requires u in h.ldrs && t <= u
    ensures s <= h.ldrs[u].log
  {
    if t < u {
      LeaderCompleteness(c, h, t, k, u);
      OfficePrefix(c, h, u, k);
      AgreesTrans(h.ldrs[u].log, h.ldrs[u].log0, h.ldrs[t].log, k);
      AgreesLess(h.ldrs[u].log, h.ldrs[t].log, k, |s|);
    }
  }

  /** State-machine safety in the history: two committed prefixes never diverge. */
  lemma CommittedComparable(c: Cluster, h: History, s1: Log, top1: nat, s2: Log, top2: nat)
    requires HistInv(c, h)
    requires Committed(c, h, s1, top1) && Committed(c, h, s2, top2)
    ensures s1 <= s2 || s2 <= s1
  {
    if s1 != [] && s2 != [] {
      var t1: nat, k1: nat :| t1 <= top1 && CertCovers(c, h, s1, t1, k1);
      var t2: nat, k2: nat :| t2 <= top2 && CertCovers(c, h, s2, t2, k2);
      var u := if t1 <= t2 then t2 else t1;
      CertInLeader(c, h, s1, t1, k1, u);
      CertInLeader(c, h, s2, t2, k2, u);
    }
  }
}
