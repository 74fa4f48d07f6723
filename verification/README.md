# norn in Dafny

A model of the I/O-free core of *norn*, a peer-to-peer stack written in C, and proofs about it. Everything is
stated over all inputs, all runs or all reachable states. `dafny verify dfyconfig.toml` checks the project.

The source's own form is kept. Code that updates fields and buffers step by step is a class or a method with
loops (`RaftNode`, `RaftCodec`, `KvStore`, `StreamEndpoint`, `StreamMuxTable`, `BencodeCodec`, `Framer`, `KadTable`,
`DhtTable`), and each such method is proved equal to a pure step or specification function. The laws are proved
about those functions.

**Raft** (`Raft*`). One node is a class whose methods equal the pure steps of `RaftStep`. A system is
a set of nodes plus every message ever sent; delivery may lose, repeat and reorder. The member table is agreed and
fixed, timers are whatever the run says. The safety proof keeps a history (votes cast, candidacies, offices held,
acknowledgements) beside the run and an invariant over both. The code accepts more than the Raft paper does, so
safety of whole runs has two hypotheses:

- *Fresh* (`RaftSystem.FreshFor`): a candidate in its real round consumes no granted pre-vote and no granted vote of an
  older term, and a leader consumes no successful append reply of an older term. Nothing else is assumed of replies.
- A network assumption, used only for commit indexes: either *InSendOrder* (one leader's appends in a term reach a
  follower in sending order without gaps) or *Clipped* (an accepted append commits no further than the entries it
  checked). With neither (`Loose`), election safety, log matching, append-only leaders and leader completeness still hold.

Each part of the hypotheses is needed, and a run from the start shows it, built from the elections of `RaftScenario`:

- `RaftStale`: one vote of an older term, or one late pre-vote, and two nodes lead one term. The commit rule is compared
  with the paper's exactly.
- `RaftStaleAck`: one successful append reply of an older term, and a later leader lacks a committed entry.
- `RaftOverClip`: every reply fresh but no network assumption, and two nodes apply different commands.

What nodes do is stated beside what they never do. `RaftDuties` and `RaftRepair` give the messages and effects of each step
in explicit fields; `RaftRepair` and `RaftProgress` prove that log repair ends from every reachable state, that leaders
commit at once what they can, that everything committed is applied, and that followers who hear their leader stay quiet.

**Replicated store** (`Kv*`). The slot table refines a bounded map; snapshots and compaction; and, joined with Raft,
agreement of replicas.

**Reliable stream** (`Stream*`). Two endpoints over a network that loses, repeats and reorders, with 32-bit wrapping
sequence numbers, as long as fewer than 2^31 - 512 segments are in use (`StreamSystem.Room`). `StreamEffects` says what each
operation achieves, and `StreamRecovery` proves reliability: though everything sent so far be lost, the connection can still
get every byte across, exactly when the sender is ready. Then the multiplexer: each stream id, seen alone, is a run of one
connection, and the channel is given exactly what the streams send.

**Codecs and indexes** (`RaftWire`, `RaftCodec`, `Bencode*`, `Framer`, `Kad*`, `Dht*`).

Where code and comments disagree, the code is modelled:

- `norn_raft.h:42-43` says a log entry is large enough to propose any KV operation; a legal compare-and-set need not fit
  a log entry, nor the front end's buffer (`KvStore.FrontEndFits`, `KvStore.SomeCasDoesNotFit`).
- `bencode.c:16` says overflow is rejected; some numbers past 2^64 are accepted as other numbers, exactly as
  `BencodeLaws.OverflowExact` says.
- `peers.h:60-62` takes an overflowing push for a malformed stream; a legal stream read in chunks can be refused too,
  exactly as `Framer.RefusalExact` says, and read as the daemon does almost any can (`Framer.DaemonReads`).
- `streammux_peer_finished` answers yes for an id that is not open, also when the peer has written to it
  (`StreamMuxSystem.FinishedExact`, `StreamMuxSystem.UnheardIsFinished`).
- `stream.c:352-367` takes a deadline of zero for none set, and a deadline can fall on zero when the clock wraps: that
  segment is never resent (`StreamRecovery.ZeroTimeout`, `StreamRecovery.MuteForever`).
- `norn_raft.c:296` calls the check on the kind of round a check for stale rounds; the term is not looked at
  (`RaftStale.StaleVoteTwoLeaders`).

Time, message delivery, allocation success and signature checks enter as arguments or events.

## Model

| member | source | states |
|---|---|---|
| `RaftTheorems.StateMachineSafety` | src/libnorn/norn_raft.c:230-394 | the command sequences any two nodes have applied, at any two points of a run, are one a prefix of the other |
| `RaftTheorems.AppliedInOrder` | src/libnorn/norn_raft.c:230-237 | every node applies commands of its own log in strictly increasing index order, each at most once |
| `RaftTheorems.CommittedNeverTruncated` | src/libnorn/norn_raft.c:348-370 | over any stretch of a run no node's commit index falls and no committed entry leaves or changes in its log |
| `RaftTheorems.CommittedStays` | src/libnorn/norn_raft.c:321-394 | the same between any two points of a run from its start |
| `RaftTheorems.LeadersKeepCommitted` | src/libnorn/norn_raft.c:241-287 | an entry a leader commits is in the log of every leader of every later term |
| `RaftTheorems.ElectionSafety` | src/libnorn/norn_raft.c:143-319 | no two nodes lead one term, at any two points of a run |
| `RaftTheorems.LeaderAppendOnly` | src/libnorn/norn_raft.c:458-473 | a leader's log at one point of its term is a prefix of its log at any later point of the term |
| `RaftTheorems.LogsMatch` | src/libnorn/norn_raft.c:321-364 | two nodes that hold an entry with one index and term have equal logs up to it |
| `RaftTheorems.RunKeeps` | src/libnorn/norn_raft.c:475-517 | every run keeps the invariant of nodes, messages and history |
| `RaftSafety.StepKeeps` | src/libnorn/norn_raft.c:475-517 | every single event keeps it, for some growth of the history |
| `RaftSafety.InitInv` | src/libnorn/norn_raft.c:398-427 | fresh nodes with the agreed table satisfy it |
| `RaftSafety.FirstAccepted` | src/libnorn/norn_raft.c:339-364 | in sending order, the first append of a term that a follower accepts makes its log a prefix of the leader's |
| `RaftSafety.AcceptedIsPrefix` | src/libnorn/norn_raft.c:339-370 | in sending order, an accepting follower's log is a prefix of the leader's, so clipping by its own last index is safe |
| `RaftMerge.PlaceEntriesMerge` | src/libnorn/norn_raft.c:348-364 | conflict truncation and overwriting yields the leader's entries up to the last one sent and loses no agreement |
| `RaftMerge.CountIsSize` | src/libnorn/norn_raft.c:66-73 | counting rows of the member table is counting distinct members |
| `RaftMerge.CountQuorum` | src/libnorn/norn_raft.c:73-73 | a count that reaches the quorum is a majority of the voters |
| `RaftHistory.QuorumsMeet` | src/libnorn/norn_raft.c:73-73 | two majorities of the voters share a member |
| `RaftHistory.UpToDateKeeps` | src/libnorn/norn_raft.c:98-103 | the up-to-date rule for votes passes a committed prefix on to the candidate |
| `RaftHistory.LeaderCompleteness` | src/libnorn/norn_raft.c:241-287 | what a quorum acknowledged in a term is in every later office's election log |
| `RaftHistory.CommittedComparable` | src/libnorn/norn_raft.c:241-254 | any two committed prefixes are one a prefix of the other |
| `RaftLocal.VotesOnce` | src/libnorn/norn_raft.c:258-319 | fed anything by real members, a node votes for at most one candidate per term, and terms do not fall |
| `RaftLocal.PreVoteHarmless` | src/libnorn/norn_raft.c:143-166 | with two or more voters no ticks, pre-vote requests and refusals change term, vote, log or commit index |
| `RaftLocal.SoleVoterMoves` | src/libnorn/norn_raft.c:155-160 | with a single voter a timeout alone opens a term: the bound of two is exact |
| `RaftLocal.LeaderGrantsNoPreVote` | src/libnorn/norn_raft.c:503-506 | from its first tick on, a leader grants no pre-vote for as long as it leads |
| `RaftLocal.CandidatesEligible` | src/libnorn/norn_raft.c:143-148 | fed anything, only an eligible voter is ever candidate or leader |
| `RaftLocal.CommitRule` | src/libnorn/norn_raft.c:239-254 | a leader commits the greatest index of its own term that a quorum of voters holds, and moves only then |
| `RaftDuties.HeartbeatExact` | src/libnorn/norn_raft.c:496-511 | a leader's tick: once the interval has passed, exactly one append to every other member in table order, with its fields; before that nothing; nothing else changes but clocks |
| `RaftDuties.ProposeExact` | src/libnorn/norn_raft.c:458-473 | a command is taken exactly by a leader with room: appended, sent to every other member, and nothing ripe is left uncommitted, so a sole voter commits at once |
| `RaftDuties.VoteExact` | src/libnorn/norn_raft.c:258-287 | one answer, to the candidate; granted exactly when the term is new, or the node's own with the vote free or the candidate's, and the log is up to date |
| `RaftDuties.PreVoteExact` | src/libnorn/norn_raft.c:258-287 | one answer and no other change; granted exactly for a later term, an up-to-date log and no leader heard for the base timeout |
| `RaftDuties.StandExact` | src/libnorn/norn_raft.c:143-166 | the tick of a node that does not lead: before the timeout nothing is sent; at it an eligible node asks every other voter for a pre-vote, counting only itself, or leads if it is the sole voter |
| `RaftDuties.RoundExact` | src/libnorn/norn_raft.c:289-319 | a granted answer counts its sender once; past half of the voters a pre-vote round becomes the real one and the real one office, with every message sent; until then nothing is |
| `RaftDuties.LaterTermWins` | src/libnorn/norn_raft.c:111-120 | a message of a later term, pre-votes aside, makes any node a follower of it with a free vote |
| `RaftDuties.IdleReply` | src/libnorn/norn_raft.c:289-394 | a reply of no use changes nothing but the sender's vote flag |
| `RaftRepair.AppendExact` | src/libnorn/norn_raft.c:321-375 | one answer, to the leader named; success exactly when the term is current and the entry before fits; the timeout restarts; the commit index follows |
| `RaftRepair.ReplyExact` | src/libnorn/norn_raft.c:377-394 | a success raises the match index and commits what is ripe; a refusal steps back by one and sends the append from there |
| `RaftRepair.Converges` | src/libnorn/norn_raft.c:200-394 | log repair ends: within 2n + 3 exchanges of heartbeat and reply a follower with any log holds the leader's n entries, and the leader knows |
| `RaftProgress.RepairsInRuns` | src/libnorn/norn_raft.c:200-394 | the same for a leader and any member not ahead of its term, from every reachable state |
| `RaftProgress.LeadersCommitAtOnce` | src/libnorn/norn_raft.c:239-254 | in every run, with two or more voters, no entry of a leader's term above its commit index is known to be held by more than half of the voters |
| `RaftProgress.SoleVoterWaits` | src/libnorn/norn_raft.c:169-196 | a sole voter is the exception: it takes office with its own no-op uncommitted |
| `RaftProgress.AppliedExactly` | src/libnorn/norn_raft.c:230-237 | in every run each node has applied exactly the commands of its log up to its commit index, all of them, in order |
| `RaftProgress.FollowerStaysQuiet` | src/libnorn/norn_raft.c:496-517 | a follower that hears appends of its term more often than its timeout keeps term and vote and sends only answers to them |
| `RaftStale.ClipExact` | src/libnorn/norn_raft.c:366-369 | a follower commits what the paper's rule gives if and only if the leader's commit or the own log does not reach past the entries checked |
| `RaftStale.StaleVoteTwoLeaders` | src/libnorn/norn_raft.c:289-319 | freshness of votes is needed: three voters, sending order kept, a run that meets every hypothesis, then one vote of an older term, then two leaders of one term |
| `RaftStale.LatePreVoteTwoLeaders` | src/libnorn/norn_raft.c:289-319 | freshness of the kind of round is needed: five voters, sending order kept, one late pre-vote is counted in the real round, and two nodes lead one term |
| `RaftStaleAck.StaleAckLosesCommitted` | src/libnorn/norn_raft.c:377-394 | freshness of append replies is needed: one success reply of an older term makes a leader commit an entry that a leader of a later term lacks |
| `RaftOverClip.LooseBreaksSafety` | src/libnorn/norn_raft.c:348-370 | the network assumption is needed: a run of three voters with every reply fresh after which two nodes have applied different commands at one place |
| `RaftScenario.Elect1` | src/libnorn/norn_raft.c:143-319 | over any network, from any state where a node of three may stand and another may vote for it, fresh deliveries alone reach one where it leads the next term and a third node is untouched |
| `RaftScenario.Elect2` | src/libnorn/norn_raft.c:143-319 | the same with two voters of five, the other two untouched |
| `RaftNode.Raft.constructor` | src/libnorn/norn_raft.c:398-413 | a new node is a follower of term 0 with an empty log and the default timings where none are given |
| `RaftNode.Raft.AddMember` | src/libnorn/norn_raft.c:417-427 | refuses the reserved id, a duplicate and a seventeenth member, else appends exactly one row |
| `RaftNode.Raft.StepDown` | src/libnorn/norn_raft.c:111-120 | equals the pure step: a later term clears the vote |
| `RaftNode.Raft.AskVoters` | src/libnorn/norn_raft.c:127-141 | one request to every other voter, in table order |
| `RaftNode.Raft.SendAppends` | src/libnorn/norn_raft.c:200-228 | one append to every other member: the entry before, at most eight entries, the commit index |
| `RaftNode.Raft.ApplyAll` | src/libnorn/norn_raft.c:230-237 | applies exactly the commands between the applied and the commit index, in order |
| `RaftNode.Raft.ScanCommit` | src/libnorn/norn_raft.c:241-254 | the downward scan finds the commit index of the pure step |
| `RaftNode.Raft.Lead` | src/libnorn/norn_raft.c:169-196 | equals the pure step: progress reset, no-op appended, appends sent |
| `RaftNode.Raft.Stand` | src/libnorn/norn_raft.c:143-166 | equals the pure step: eligibility, pre-vote round, the sole voter's win |
| `RaftNode.Raft.OnRequestVote` | src/libnorn/norn_raft.c:258-287 | equals the pure step on every request |
| `RaftNode.Raft.OnRequestVoteResp` | src/libnorn/norn_raft.c:289-319 | equals the pure step on every response |
| `RaftNode.Raft.PlaceAll` | src/libnorn/norn_raft.c:348-364 | overwriting the log array in place equals placing the entries one by one |
| `RaftNode.Raft.FollowCommit` | src/libnorn/norn_raft.c:366-370 | the commit index follows the leader's, clipped by the own last index, and everything up to it is applied |
| `RaftNode.Raft.OnAppend` | src/libnorn/norn_raft.c:321-375 | equals the pure step on every append |
| `RaftNode.Raft.OnAppendResp` | src/libnorn/norn_raft.c:377-394 | equals the pure step on every reply |
| `RaftNode.Raft.Receive` | src/libnorn/norn_raft.c:475-494 | equals the pure step on every message |
| `RaftNode.Raft.OnTick` | src/libnorn/norn_raft.c:496-517 | equals the pure step on every clock reading |
| `RaftNode.Raft.Submit` | src/libnorn/norn_raft.c:458-473 | equals the pure step, and returns 0 exactly when refused, else the entry's index |
| `RaftWire.DecodeEncode` | src/libnorn/norn_cluster.c:92-190 | decoding an encoded message, whatever follows it, gives the message back |
| `RaftWire.EncodeDecode` | src/libnorn/norn_cluster.c:136-190 | whatever decodes begins with the encoding of its result |
| `RaftWire.DecodeExact` | src/libnorn/norn_cluster.c:136-190 | the decoder accepts exactly the buffers that begin with a well-formed message |
| `RaftWire.EncodeFits` | src/libnorn/norn_cluster.c:25-25 | every message with at most eight entries of at most 512 bytes fits the frame buffer |
| `RaftWire.NoConfusion` | src/libnorn/norn_cluster.c:92-132 | messages of the core with equal bytes, or one's bytes a prefix of the other's, are equal |
| `RaftCodec.EncodeMsg` | src/libnorn/norn_cluster.c:92-132 | filling the buffer at a moving offset writes the encoding, or nothing when the target is too small |
| `RaftCodec.PutEntries` | src/libnorn/norn_cluster.c:114-122 | the loop over entries appends their encodings |
| `RaftCodec.ReadEntries` | src/libnorn/norn_cluster.c:165-177 | the loop at a moving offset reads what the recursive decoder reads, including where it fails |
| `RaftCodec.DecodeMsg` | src/libnorn/norn_cluster.c:136-190 | the decoder in place equals the decoding function on every buffer |
| `KvCommand.DecodeEncode` | src/libnorn/norn_kvstore.c:104-204 | every legal command survives encoding and decoding |
| `KvCommand.EncodeDecode` | src/libnorn/norn_kvstore.c:161-204 | the byte strings accepted are exactly the encodings of legal commands |
| `KvCommand.ApplyBounded` | src/libnorn/norn_kvstore.c:161-204 | no command takes the map past its capacity; a refused one changes nothing |
| `KvCommand.ReplayConcat` | src/libnorn/norn_kvstore.c:161-204 | replaying two logs in turn is replaying their concatenation, maps and results |
| `KvMeaning.PutMeans` | src/libnorn/norn_kvstore.c:67-82 | the bytes of a put store its value under its key and touch no other, exactly when the key is there or the map is not full |
| `KvMeaning.DelMeans` | src/libnorn/norn_kvstore.c:84-91 | the bytes of a delete take its key out, touch no other, and the result says whether it was there |
| `KvMeaning.CasMeans` | src/libnorn/norn_kvstore.c:182-200 | the bytes of a compare-and-set write exactly when the key's value is the expected one, an absent key counting as empty |
| `KvMeaning.RestRefused` | src/libnorn/norn_kvstore.c:161-203 | any other bytes are refused and change nothing |
| `KvSlots.ApplyRefines` | src/libnorn/norn_kvstore.c:43-204 | applying any bytes to the slot table is the command on the bounded map: same result code, same map, whatever the layout |
| `KvSlots.LogRefines` | src/libnorn/norn_kvstore.c:161-204 | the same for every log of commands |
| `KvSlots.PutRefines` | src/libnorn/norn_kvstore.c:67-82 | storing in the table is insertion or overwriting in the map, refused exactly when the map is full and the key new |
| `KvSlots.DelRefines` | src/libnorn/norn_kvstore.c:84-91 | deletion from the table is removal from the map |
| `KvSnapshot.LoadSnap` | src/libnorn/norn_kvstore.c:252-298 | loading a snapshot gives back its records in order |
| `KvMeaning.LoadSound` | src/libnorn/norn_kvstore.c:270-298 | whatever is restored are legal records that begin the bytes, all of them exactly on success; it stops only where none follows or none fits |
| `KvMeaning.LoadComplete` | src/libnorn/norn_kvstore.c:270-298 | the bytes of any legal records for which there is room restore to those records |
| `KvSnapshot.RestoreContents` | src/libnorn/norn_kvstore.c:252-298 | a table restored from a snapshot has the map it was taken of |
| `KvSnapshot.RestoreUnique` | src/libnorn/norn_kvstore.c:270-298 | and keeps keys unique |
| `KvSnapshot.CountIsKeys` | src/libnorn/norn_kvstore.c:218-218 | the number of used slots is the number of keys |
| `KvSnapshot.Compaction` | src/libnorn/norn_kvstore.c:252-298 | restoring a snapshot taken after one log and applying another gives the results and the map of applying both |
| `KvStore.EncodePut` | src/libnorn/norn_kvstore.c:104-121 | writes the encoding or returns -1 and writes nothing, exactly when out of range or too long |
| `KvStore.EncodeDel` | src/libnorn/norn_kvstore.c:123-134 | the same for deletions |
| `KvStore.EncodeCas` | src/libnorn/norn_kvstore.c:136-159 | the same for compare-and-set |
| `KvStore.FrontEndFits` | src/libnorn/norn_cluster.c:354-379 | puts and deletes fit the front end's buffer; a compare-and-set if and only if its strings leave seven bytes |
| `KvStore.SomeCasDoesNotFit` | src/libnorn/norn_cluster.c:371-379 | a legal compare-and-set that fits neither the front end's buffer nor a log entry |
| `KvStore.ParseCommand` | src/libnorn/norn_kvstore.c:161-203 | the checks at a moving offset equal the decoding function |
| `KvStore.Kv.Apply` | src/libnorn/norn_kvstore.c:161-204 | in place equals the pure step on slots, with the counter kept |
| `KvStore.Kv.StorePut` | src/libnorn/norn_kvstore.c:67-82 | in place equals the pure insertion |
| `KvStore.Kv.StoreDel` | src/libnorn/norn_kvstore.c:84-91 | in place equals the pure deletion |
| `KvStore.Kv.Get` | src/libnorn/norn_kvstore.c:208-216 | returns the map's value, and nothing when the key is absent or the value too long for the caller |
| `KvStore.Kv.Snapshot` | src/libnorn/norn_kvstore.c:252-268 | writes exactly the snapshot, or -1 exactly when it does not fit |
| `KvStore.Kv.Restore` | src/libnorn/norn_kvstore.c:270-298 | leaves exactly the records before the first fault, and says whether there was one |
| `KvReplica.PrefixCatchesUp` | src/libnorn/norn_cluster.c:205-208 | a replica that applied a prefix catches up by applying the rest |
| `KvReplica.ReplicasAgree` | src/libnorn/norn_cluster.c:205-208 | in every run, replicas that applied equally many commands hold the same map, and a shorter one is an earlier state of a longer one |
| `StreamSystem.EndToEndOrder` | src/libnorn/stream.c:164-350 | under any loss, repetition and reordering, bytes accepted are bytes read, then delivered, then in flight, then pending; reads are a prefix of writes |
| `StreamSystem.FinishedMeansAllRead` | src/libnorn/stream.c:369-378 | if nothing is written once the FIN is cut, peer_finished implies every accepted byte was read |
| `StreamSystem.SackSound` | src/libnorn/stream.c:127-235 | at most 256 segments are live, each in its own slot; every segment marked as selectively acknowledged the peer holds or has delivered |
| `StreamSystem.RunKeeps` | src/libnorn/stream.c:283-378 | every run keeps the two-party invariant |
| `StreamSystem.StepKeeps` | src/libnorn/stream.c:283-378 | every write, read, tick, finish and arrival keeps it |
| `StreamRude.WriteAfterFinLost` | src/libnorn/stream.c:164-198 | writing after finish: a three-event run in which peer_finished holds and an accepted byte was not read |
| `StreamTimers.RetransmitExact` | src/libnorn/stream.c:204-213 | a retransmission pass sends exactly the segments below the limit that are not selectively acknowledged, in order |
| `StreamTimers.FastRetransmitExact` | src/libnorn/stream.c:216-224 | fast retransmit resends exactly the holes below the highest selectively acknowledged segment |
| `StreamTimers.WindowInRuns` | src/libnorn/stream.c:164-224 | in every run the send window has the shape those two laws ask for |
| `StreamTimers.NoSackResendsOldest` | src/libnorn/stream.c:216-224 | and only the oldest segment when nothing is selectively acknowledged |
| `StreamEffects.TickExact` | src/libnorn/stream.c:352-367 | a tick pumps; a timeout then due resends exactly the live segments not selectively acknowledged, in order, marks them, backs off by the peer's window and is set anew; otherwise nothing more happens |
| `StreamEffects.TicksInRuns` | src/libnorn/stream.c:352-367 | the same of every tick of every run |
| `StreamEffects.PumpExact` | src/libnorn/stream.c:164-198 | exactly as many segments are cut as the window lets out: full ones, the rest, the FIN; each stored and sent once, in order; the timeout armed if it was not |
| `StreamEffects.WindowIs` | src/libnorn/stream.c:167-171 | the window is the smallest of congestion window, peer window and 256, at least one |
| `StreamEffects.WriteExact` | src/libnorn/stream.c:283-291 | a write takes as many bytes as the ring has room for, and pumps |
| `StreamEffects.FinishExact` | src/libnorn/stream.c:369-372 | finishing queues the FIN behind what is pending, and pumps |
| `StreamEffects.ReadExact` | src/libnorn/stream.c:343-350 | a read hands over everything there is up to what is asked for, and changes nothing else |
| `StreamEffects.SackExact` | src/libnorn/stream.c:227-235 | exactly the live segments the bitmap reports are marked, beside those that were |
| `StreamEffects.AckExact` | src/libnorn/stream.c:263-281 | which acknowledgements move the window, count as duplicates, start recovery at the third, or are ignored, and all they change |
| `StreamEffects.InputExact` | src/libnorn/stream.c:293-307 | every datagram of header length is an acknowledgement with its window and marks; without data or FIN nothing else; a shorter one is ignored |
| `StreamEffects.ArrivalExact` | src/libnorn/stream.c:309-341 | data inside the window is held, nothing held is lost, delivery goes as far as it can, and one answer goes out with acknowledgement, window and bitmap right |
| `StreamEffects.ArrivalsInRuns` | src/libnorn/stream.c:309-341 | the same of every such arrival of every run |
| `StreamRecovery.RecoversInRuns` | src/libnorn/stream.c:164-367 | reliability: after any run with nothing written behind a FIN and sequence numbers left, though everything sent so far be lost, reads, timeouts and fresh datagrams alone can get every byte written across and read, if the sender has nothing in flight, or an armed timeout and something unmarked |
| `StreamRecovery.MuteForever` | src/libnorn/stream.c:204-367 | otherwise, with nothing left to cut, the sender never sends again however it is ticked |
| `StreamRecovery.ZeroTimeout` | src/libnorn/stream.c:164-198 | a one-event run into that state: the deadline of the first segment falls on zero |
| `StreamTimers.RttExact` | src/libnorn/stream.c:102-115 | with samples below 2^29 no step wraps: the update is that of section 2 of RFC 6298, clamped to 50..60000 |
| `StreamTimers.AdditiveConserves` | src/libnorn/stream.c:243-254 | accumulator plus n(n-1)/2 is kept by the additive-increase loop |
| `StreamTimers.AdditiveCap` | src/libnorn/stream.c:243-254 | the loop stops at or below a cap if and only if accumulator plus n(n-1)/2 is less than that of an empty accumulator at a window one past the cap |
| `StreamTimers.AvoidanceExact` | src/libnorn/stream.c:243-254 | in congestion avoidance accumulator plus n(n-1)/2 grows by exactly the segments acknowledged as long as that stays below 257*256/2; from there on the window is 256 |
| `StreamBounds.CallsBounded` | src/libnorn/stream.c:164-367 | under any calls and any datagrams, honest or not: timeout in 50..60000 through updates and back-offs, window and threshold in 2..256, accumulator below 256, at most 256 in flight |
| `StreamBounds.WindowNeverWraps` | src/libnorn/stream.c:243-254 | under any calls and any datagrams no addition to window or accumulator leaves 32 bits |
| `StreamBounds.EstimatesBounded` | src/libnorn/stream.c:102-115 | as long as every round-trip sample the code takes is below 2^29, the estimates stay below 2^29 and the update never wraps |
| `StreamBounds.TimersBounded` | src/libnorn/stream.c:243-367 | in every run of two new endpoints those bounds hold at both, whatever the clocks and samples |
| `StreamBounds.NewBounds` | src/libnorn/stream.c:86-96 | a new endpoint starts within all those bounds |
| `StreamWire.ParseSerialize` | src/libnorn/stream.c:141-162 | a segment's header and body survive the wire |
| `StreamWire.BitmapBits` | src/libnorn/stream.c:127-138 | each bit of the bitmap says whether its segment is held |
| `StreamPreserve.PumpKeeps` | src/libnorn/stream.c:164-198 | cutting segments keeps the send window, its slots and the bytes |
| `StreamPreserve.SackKeeps` | src/libnorn/stream.c:227-235 | every mark made from a bitmap is justified by what the peer holds |
| `StreamPreserve.InputAckKeeps` | src/libnorn/stream.c:263-308 | processing any acknowledgement, stale or new, keeps both windows |
| `StreamPreserve.BufferKeeps` | src/libnorn/stream.c:309-322 | holding a segment out of order keeps the receive window |
| `StreamPreserve.DeliverKeeps` | src/libnorn/stream.c:323-338 | delivery hands over the next bytes in order |
| `StreamEndpoint.Ring.Append` | src/libnorn/stream.c:283-291 | copying into the ring appends to its contents, around the end |
| `StreamEndpoint.Ring.Take` | src/libnorn/stream.c:343-350 | copying out removes a prefix of its contents |
| `StreamEndpoint.Stream.PumpOut` | src/libnorn/stream.c:164-198 | in place equals the pure step |
| `StreamEndpoint.Stream.RetransmitRange` | src/libnorn/stream.c:204-213 | in place equals the pure step |
| `StreamEndpoint.Stream.FastResend` | src/libnorn/stream.c:216-224 | in place equals the pure step |
| `StreamEndpoint.Stream.MarkSacked` | src/libnorn/stream.c:227-235 | in place equals the pure step |
| `StreamEndpoint.Stream.TakeAck` | src/libnorn/stream.c:263-281 | in place equals the pure step |
| `StreamEndpoint.Stream.Hold` | src/libnorn/stream.c:309-322 | in place equals the pure step |
| `StreamEndpoint.Stream.DeliverAll` | src/libnorn/stream.c:323-338 | in place equals the pure step |
| `StreamEndpoint.Stream.Send` | src/libnorn/stream.c:283-291 | in place equals the pure step, and returns how many bytes were accepted |
| `StreamEndpoint.Stream.Feed` | src/libnorn/stream.c:293-341 | in place equals the pure step on every datagram |
| `StreamEndpoint.Stream.Receive` | src/libnorn/stream.c:343-350 | in place equals the pure step, and returns the bytes read |
| `StreamEndpoint.Stream.OnTick` | src/libnorn/stream.c:352-367 | in place equals the pure step |
| `StreamEndpoint.Stream.Close` | src/libnorn/stream.c:369-372 | in place equals the pure step |
| `StreamEndpoint.Stream.IsPeerFinished` | src/libnorn/stream.c:376-378 | true exactly when the FIN is in place and everything delivered was read |
| `StreamMuxSystem.PerIdOrder` | src/libnorn/streammux.c:24-127 | over one shared channel, each id is in at most one slot; per id, bytes accepted are bytes read, delivered, in flight and pending, and a stream whose FIN is in place and drained has been read whole |
| `StreamMuxSystem.FinishedExact` | src/libnorn/streammux.c:129-133 | if nothing is written once the FIN is cut, the multiplexer's answer that the peer has finished means all was read if and only if the id is open at the reader or the peer wrote nothing |
| `StreamMuxSystem.UnheardIsFinished` | src/libnorn/streammux.c:129-133 | one write, and the other side, having heard nothing, answers that the peer has finished |
| `StreamMuxSystem.RunShows` | src/libnorn/streammux.c:51-127 | every run of two multiplexers, seen by one id, is a run of one connection |
| `StreamMuxSystem.ChannelExact` | src/libnorn/streammux.c:24-34 | in every run and for every id, the frames on the channel with that id, stripped of it, are exactly what its stream has sent, in order; there are no other frames |
| `StreamMux.WriteActs` | src/libnorn/streammux.c:76-81 | a write steps its own stream, leaves every other as it was and gives the channel exactly what was sent, framed; with the table full it changes nothing |
| `StreamMux.ReadActs` | src/libnorn/streammux.c:83-87 | a read steps its own stream only and sends nothing |
| `StreamMux.InputActs` | src/libnorn/streammux.c:89-95 | a frame reaches the stream it names and no other, and what that stream answers goes to the channel, framed |
| `StreamMux.FinishActs` | src/libnorn/streammux.c:123-127 | finishing steps its own stream only, and what it sends goes to the channel, framed |
| `StreamMux.TickActs` | src/libnorn/streammux.c:97-101 | a tick reaches every open stream exactly once, and what they send goes to the channel, framed |
| `StreamMux.OpenOk` | src/libnorn/streammux.c:57-69 | opening gives the id one slot of its own and changes no stream |
| `StreamMux.FrameParts` | src/libnorn/streammux.c:24-34 | the id and the segment are read back from a frame |
| `StreamMuxTable.Multiplexer.OpenStream` | src/libnorn/streammux.c:51-69 | in place equals the pure step; the new stream shares no memory with the others |
| `StreamMuxTable.Multiplexer.Send` | src/libnorn/streammux.c:76-81 | in place equals the pure step, -1 exactly when the table is full |
| `StreamMuxTable.Multiplexer.Feed` | src/libnorn/streammux.c:89-95 | in place equals the pure step on every frame |
| `StreamMuxTable.Multiplexer.Receive` | src/libnorn/streammux.c:83-87 | in place equals the pure step, and returns the bytes read |
| `StreamMuxTable.Multiplexer.Close` | src/libnorn/streammux.c:123-127 | in place equals the pure step |
| `StreamMuxTable.Multiplexer.IsFinished` | src/libnorn/streammux.c:129-133 | true exactly when the id is not open or its stream is finished |
| `StreamMuxTable.Multiplexer.OnTick` | src/libnorn/streammux.c:97-101 | in place equals the pure step |
| `StreamMuxTable.Multiplexer.Flush` | src/libnorn/streammux.c:24-34 | what a stream has sent goes out framed with its id, in order |
| `Bencode.RoundTrip` | src/libnorn/bencode.c:178-345 | decoding an encoding followed by anything returns the value and consumes exactly the encoding, if and only if nothing is nested deeper than 32 |
| `Bencode.ValueBack` | src/libnorn/bencode.c:178-198 | the same at any depth, with failure otherwise |
| `Bencode.NumBack` | src/libnorn/bencode.c:18-39 | a 64-bit number in decimal followed by a non-digit reads back |
| `Bencode.StrBack` | src/libnorn/bencode.c:56-81 | a byte string reads back whatever follows |
| `BencodeLaws.DecodeStable` | src/libnorn/bencode.c:200-203 | whatever the decoder accepts, encoded again, decodes to the same value |
| `BencodeLaws.PrefixFree` | src/libnorn/bencode.c:333-345 | no encoding is a prefix of another |
| `BencodeLaws.ValueKept` | src/libnorn/bencode.c:178-198 | decoded values have 64-bit integers, zero-free keys and at most 32 levels |
| `BencodeLaws.NumberExact` | src/libnorn/bencode.c:18-39 | a digit run, signed or not, is accepted if and only if its value modulo 2^64 never falls from prefix to prefix and ends below the limit, and then it is read as that residue |
| `BencodeLaws.OverflowExact` | src/libnorn/bencode.c:18-39 | overflow is handled correctly if and only if the run is below 2^64, or its residue falls somewhere on the way, or ends at or above the limit |
| `BencodeLaws.IntExact` | src/libnorn/bencode.c:41-54 | exactly what is made of an integer: mark, sign, digits with leading zeros or not, closing mark |
| `BencodeLaws.StrExact` | src/libnorn/bencode.c:56-81 | exactly what is made of a byte string: digits, colon, and all the bytes they announce |
| `BencodeLaws.WrapIsAccepted` | src/libnorn/bencode.c:25-29 | a number past 2^64 that is accepted as another number |
| `BencodeCodec.ParseInt` | src/libnorn/bencode.c:18-39 | the digit loop equals the function; on failure the cursor stays |
| `BencodeCodec.DecodeList` | src/libnorn/bencode.c:83-121 | the loop over items equals the recursive decoder |
| `BencodeCodec.DecodeDict` | src/libnorn/bencode.c:123-176 | the loop over entries equals the recursive decoder, keys cut at the first zero byte |
| `BencodeCodec.DecodeDepth` | src/libnorn/bencode.c:178-198 | terminates with the cursor inside the buffer, past the value on success and unmoved otherwise |
| `BencodeCodec.OutBuf.Reserve` | src/libnorn/bencode.c:236-243 | growing the buffer keeps its bytes |
| `BencodeCodec.OutBuf.PutValue` | src/libnorn/bencode.c:333-345 | appends the encoding behind what is already in the growing buffer |
| `Framer.Reassembly` | src/nornd/peers.c:69-104 | over any pushes and pops, bytes pushed are the frames popped, encoded, then the unread bytes; frames popped depend on the bytes alone |
| `Framer.ChunkingIndependent` | src/nornd/peers.c:57-104 | however a stream of frames is cut into pushes, draining yields exactly those frames |
| `Framer.DrainAppend` | src/nornd/peers.c:91-104 | later bytes only continue what was cut out before |
| `Framer.NextExact` | src/nornd/peers.c:91-104 | a frame is ready exactly when a legal one begins the bytes; they are refused exactly when the length is there and no continuation begins with a legal frame |
| `Framer.RefusalExact` | src/nornd/peers.c:74-79 | reading in chunks never refuses a legal stream if and only if largest frame + largest chunk + 3 fits the buffer |
| `Framer.DaemonReads` | src/nornd/transport.c:188-197 | read in chunks of up to 8192 bytes, a legal stream is never refused if and only if no frame is longer than one byte |
| `Framer.EncodeFrame` | src/nornd/peers.c:57-67 | writes the frame, or -1 and nothing exactly when too long |
| `Framer.Reassembler.Append` | src/nornd/peers.c:74-89 | appends to the unread bytes through compaction, or drops everything exactly when they do not fit |
| `Framer.Reassembler.Compact` | src/nornd/peers.c:81-85 | moving the unread bytes to the front in place keeps them |
| `Framer.Reassembler.TakeNext` | src/nornd/peers.c:91-104 | takes the next complete frame; says which of wait, violation and frame |
| `Kad.BucketOrder` | src/libnorn/norn_kad.c:63-106 | a higher bucket means strictly smaller XOR distance to self |
| `Kad.InsertKeeps` | src/libnorn/norn_kad.c:108-154 | insertion keeps ids unique and in the bucket of their first differing bit, sets this id and leaves all others |
| `Kad.RemoveKeeps` | src/libnorn/norn_kad.c:156-179 | removal takes out exactly this id |
| `Kad.XorInjective` | src/libnorn/norn_kad.c:87-95 | distinct ids are at distinct distances from anything |
| `KadMetric.XorBit` | src/libnorn/norn_kad.c:87-95 | a bit of the distance is set exactly where the ids differ |
| `KadMetric.XorLaws` | src/libnorn/norn_kad.c:87-95 | the distance is symmetric, and adding it to one id gives the other |
| `KadMetric.DistanceZero` | src/libnorn/norn_kad.c:81-84 | the distance is all zero exactly between an id and itself |
| `KadMetric.BucketExact` | src/libnorn/norn_kad.c:63-85 | on the bits of the ids: they agree before the bucket's bit and differ there; the own id is in the last bucket |
| `KadMetric.FirstDecides` | src/libnorn/norn_kad.c:97-106 | byte-wise comparison is decided by the first bit that differs |
| `KadMetric.NearerExact` | src/libnorn/norn_kad.c:87-106 | of two nodes the nearer to a target is the one that has the target's bit where the two first differ |
| `KadClosest.ClosestIsNearest` | src/libnorn/norn_kad.c:200-250 | the min(k, size) nearest nodes in strictly ascending distance; every node left out is farther |
| `KadClosest.AllAreFound` | src/libnorn/norn_kad.c:204-222 | the nodes collected are exactly those lookup finds |
| `KadRuns.RunLookup` | src/libnorn/norn_kad.c:108-179 | after any inserts and removes, lookup finds the node last inserted for the id, and nothing if it was removed since |
| `KadRuns.ClosestAfterRun` | src/libnorn/norn_kad.c:108-250 | after any inserts and removes ids are unique and in their bucket, the nodes searched are exactly those last inserted and not removed, and the search returns the nearest |
| `KadClosest.SortSame` | src/libnorn/norn_kad.c:224-240 | the sort permutes |
| `KadClosest.SortAscends` | src/libnorn/norn_kad.c:224-240 | the sort orders by distance |
| `KadTable.BucketIndex` | src/libnorn/norn_kad.c:63-85 | the bit scan finds the first differing bit; the own id goes to the last bucket |
| `KadTable.CompareDistance` | src/libnorn/norn_kad.c:97-106 | byte-wise comparison is the lexicographic order |
| `KadTable.SortInPlace` | src/libnorn/norn_kad.c:224-240 | insertion sort in place equals the sorting function |
| `KadTable.Table.Insert` | src/libnorn/norn_kad.c:108-154 | sets this id's node and no other, keeping the table sound |
| `KadTable.Table.Remove` | src/libnorn/norn_kad.c:156-179 | removes this id and no other, and says whether it was there |
| `KadTable.Table.FindClosest` | src/libnorn/norn_kad.c:200-250 | returns the nearest nodes, or nothing exactly when none is asked for |
| `DhtLaws.CacheAgreement` | src/libnorn/dhtstore.c:59-194 | after any run under any clock: counter equals the sum of lengths, targets distinct, at most 4096 items, and a hit returns what was last accepted, unexpired; only verified puts are taken to have targets that do not collide |
| `DhtLaws.StoreExact` | src/libnorn/dhtstore.c:93-126 | everything one store does: a new item is accepted exactly below the address cap and if it fits the budget alone, and leaves the total within the budget; a resident one is replaced only by a newer |
| `DhtLaws.AcceptedIsHeld` | src/libnorn/dhtstore.c:103-125 | after an accepted store the target holds the new content, exactly unless it was immutable and something else was there |
| `DhtLaws.SeqRises` | src/libnorn/dhtstore.c:103-106 | while resident and unexpired, a sequence number never falls, and rises on every accepted replacement |
| `DhtLaws.SeqRisesOverRun` | src/libnorn/dhtstore.c:103-106 | the same over a run |
| `DhtServes.GetExact` | src/libnorn/dhtstore.c:166-181 | a lookup hits exactly when an item for the target was stored no more than two hours ago, and returns that item; exactly the older items go |
| `DhtServes.DelExact` | src/libnorn/dhtstore.c:186-194 | a delete answers whether the target was held and takes out exactly its item |
| `DhtServes.PutExact` | src/libnorn/dhtstore.c:128-144 | exactly which puts are taken up and accepted, and that the others change nothing |
| `DhtServes.RoomNeeded` | src/libnorn/dhtstore.c:78-111 | with room nothing is evicted, otherwise no more than needed |
| `DhtServes.Survives` | src/libnorn/dhtstore.c:70-194 | an item is lost only by a delete, by age, or to make room that is lacking |
| `DhtServes.AcceptedIsFound` | src/libnorn/dhtstore.c:93-181 | over runs: an accepted item that met none of these is returned, until two hours after it was stored |
| `DhtCache.ExpireExact` | src/libnorn/dhtstore.c:70-76 | expiry with swap-removal takes out exactly the items that are too old |
| `DhtCache.RoomShrinks` | src/libnorn/dhtstore.c:78-111 | making room only takes items out, oldest first |
| `DhtCache.SwapOthers` | src/libnorn/dhtstore.c:65-68 | swap-removal takes out one target and leaves every other |
| `DhtTable.Store.StoreChecked` | src/libnorn/dhtstore.c:93-126 | in place equals the pure step |
| `DhtTable.Store.PutItem` | src/libnorn/dhtstore.c:128-144 | in place equals the pure step, refused when not serving, out of range or not verified |
| `DhtTable.Store.GetItem` | src/libnorn/dhtstore.c:166-181 | in place equals the pure step |
| `DhtTable.Store.DelItem` | src/libnorn/dhtstore.c:186-194 | in place equals the pure step |
| `DhtTable.Store.DropExpired` | src/libnorn/dhtstore.c:71-76 | the in-place loop equals the pure step |
| `DhtTable.Store.EvictFor` | src/libnorn/dhtstore.c:110-111 | the eviction loop equals the pure step |

## Left out

- Raft: membership changes during a run and crash recovery; members are edited locally and nothing is persisted.
- Raft: that an election is ever won; `RaftScenario` shows how one is, `RaftProgress` what follows once it has been.
- Raft: 64-bit wrap-around of terms, indexes and clocks; they are unbounded here (the wire codec has the 64-bit fields).
- RaftNode.Raft.AddMember: the member table is a sequence that the methods reassign, not an array.
- RaftNode.Raft.Receive: a message's flags are booleans; the codec keeps them as octets, of which the core sends only 0 and 1.
- Stream: fairness; `StreamRecovery.RecoversInRuns` says that a run can go on to deliver everything, not that each one does.
- StreamRecovery.MuteForever: that a sender ends up with everything in flight marked is not shown by a run; a deadline of zero is.
- Stream: sequence numbers past 2^31 - 512 segments, and the wrap of the duplicate-acknowledgement counter.
- StreamBounds.EstimatesBounded: round-trip samples of 2^29 ms and more; the wrapping update is modelled, its bounds are not stated.
- StreamSystem.FinishedMeansAllRead: needs that nothing is written after the FIN is cut; StreamRude shows why.
- StreamMuxTable.Multiplexer.Flush: the send callback is modelled after the stream's step, from the record of what it sent.
- KV watches and prefix listing: callbacks with no property of their own.
- Cluster glue: mapping of public keys to ids and forwarding of writes to the leader.
- Bencode: allocation failure, and dictionary lookup and building.
- Framer: parsing of peer specifications.
- Kademlia: bucket update times, growth of node arrays, leading-zero counting.
- KadTable.Table.Insert: a bucket is a sequence that the methods reassign, not a reallocated array.
- DHT store: a budget or per-address invariant over runs; in-place updates recheck neither.
- DHT store: computing the default budget from physical memory, and listing items.
- Signatures, hashes and the channel handshake: the result of verification is an argument; that targets do not collide is a hypothesis of DhtLaws.CacheAgreement.
- Mainline lookup, routing-table caps, sockets, files, NAT traversal, the CLI and language bindings.
