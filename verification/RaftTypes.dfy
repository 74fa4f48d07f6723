/** The data of the Raft core: log entries, messages, the member table, one node. */
module RaftTypes {
  import opened Bytes

  const NO_NODE: nat := 0
  const MAX_LOG: nat := 512
  const MAX_BATCH: nat := 8
  const ENTRY_MAX: nat := 512

  type Id = nat
  type pos = x: nat | 1 <= x witness 1

  datatype EntryKind = Normal | Noop
  datatype Entry = Entry(term: nat, index: nat, kind: EntryKind, data: seq<byte>)
  type Log = seq<Entry>

  datatype Role = Follower | Candidate | Leader
  datatype MemberRole = Voter | Learner

  /** One row of a node's member table, with the leader's bookkeeping for that member. */
  datatype Member = Member(id: Id, role: MemberRole, eligible: bool,
                           nextIndex: pos, matchIndex: nat, voteGranted: bool)

  datatype Msg =
    | RequestVote(term: nat, preVote: bool, candidate: Id, lastIndex: nat, lastTerm: nat)
    | RequestVoteResp(term: nat, preVote: bool, granted: bool)
    | Append(term: nat, leader: Id, prevIndex: nat, prevTerm: nat, entries: seq<Entry>, leaderCommit: nat)
    | AppendResp(term: nat, success: bool, matchIndex: nat)

  datatype Packet = Packet(dst: Id, msg: Msg)

  datatype Config = Config(electionBase: nat, electionSpread: nat, heartbeat: nat)

  /** A node.  `sent` and `applied` record, in order, every call of the send and apply
      callbacks, so the effects of a step are visible in the state it leaves behind. */
  datatype Node = Node(
    self: Id, cfg: Config,
    term: nat, votedFor: Id, log: Log,
    role: Role, leader: Id, commit: nat, lastApplied: nat,
    now: nat, electionElapsed: nat, heartbeatElapsed: nat,
    inPreVote: bool,
    members: seq<Member>,
    sent: seq<Packet>, applied: seq<Entry>)

  /** Term of the entry at a 1-based index, 0 for index 0 and past the end. */
  function TermAt(log: Log, index: nat): nat {
    if index == 0 || index > |log| then 0 else log[index - 1].term
  }

  function LastTerm(log: Log): nat {
    if log == [] then 0 else log[|log| - 1].term
  }

  predicate DistinctIds(ms: seq<Member>) {
    forall i, j :: 0 <= i < j < |ms| ==> ms[i].id != ms[j].id
  }
}
