# DistriC: what its core promises, proved

A Dafny model of the parts of the DistriC libraries whose correctness is not visible in any one function: Raft
consensus over an unreliable network, the log file it restarts from, the wire formats and their checks, the in-place
tables and queues of the transport, the metric slots, and gossip incarnations. `dafny verify dfyconfig.toml` checks
everything.

Code that changes state step by step is a class or a method here; each is proved against a function on values, and
what the source promises is proved about those functions, over all inputs, histories or runs.

**Raft.** `RaftNode` is one server as functions, `RaftServer` the class whose methods compute them. `RaftCluster` is
the step system: a fixed set of servers, a network that loses, repeats and reorders messages, crashes at any moment.
`RaftInvariant`, `RaftSteps` and `RaftReplication` hold the invariant and its preservation; `RaftSafety` the results
about runs. The code departs from sections 5.2 to 5.4 of the extended Raft paper in three places: a candidate that
steps down in its own term forgets its vote, a follower reports its own last index as the match index, and it
commits up to the smaller of the leader's commit index and that last index. The safety results hold all the same,
because a leader starts with a no-op and the sender ships the whole suffix. `RaftBatches` says exactly when less than
the whole suffix would do, `RaftWire` the same for a suffix that has gone through the serialiser. `RaftRuns` builds
concrete runs: `RaftDepartures` says which step makes a server forget its vote and gives a run in which one votes
twice in a term, and others in which a cut batch leads to a false report; `RaftExample` gives one that takes a
client's command through a cluster. `RaftRecovery` continues an arbitrary run until every server has applied a given
command, so nothing that safety allows can stall the cluster for good. `RaftAnswers` says what each handler answers
without the handlers' own vocabulary.

**Durable log.** `DurableLog` parses the file byte by byte; any interleaving of appends and truncations reloads to
exactly the log in memory.

**Wire layer.** `Crc32` and `Checksums` prove the table-driven and the bit-by-bit CRC-32 equal on every byte string
and describe the damage they never miss; `MessageHeader` carries this to whole messages. `Tlv`, `TlvCoder` and
`AppendEntriesWire` treat the field encoding with its decoder, validator and index, and nested AppendEntries messages.
`Sha256`, `BlockStream` and `Hmac` treat the streaming hash and the MAC, `ByteNumbers` the numbers in its padding;
`Sha256Example` computes the published hash of "abc" in the logic.

**Structures.** `TcpPool` rewires a doubly linked list and 64 hash chains in place, against `PoolModel`, whose runs
carry the results. `HandlerTable` is open addressing with tombstones, `SendQueue` and `SendPath` the ring buffer under
`tcp_send`, `MetricIndex`, `MetricSlots` and `MetricCounter` the mixed-radix index and the counters over it.

**Gossip.** `GossipNode`, `GossipState` and `GossipCluster` treat incarnations and refutation over all runs without
process restarts; `GossipMerge` says when the order in which updates arrive does not matter.

## Where code and documentation disagree

The model follows the code.

- `tlv.h` says the basic decoder enforces no limits; `tlv_decoder_create` applies the defaults (512 fields, strings of
  1 MiB). An AppendEntries message with more than 507 entries, or with an entry of more than 1048539 bytes of data,
  is therefore cut short or loses entries while deserialising reports success. `AppendEntriesWire.RoundTripIff` is the
  exact condition, `AppendEntriesWire.WhatArrives` says what arrives. `RaftWire.WireIsSafeIff` says exactly when a
  leader's batch is safe for every follower although sent this way: what arrives whole must reach the leader's no-op,
  and nothing may stray in behind an entry that was skipped or emptied. The results about runs are for messages
  delivered whole.
- `metrics.c` keeps unlabelled and labelled counter updates apart, as it says; unlabelled gauge and histogram updates
  go to slot 0, which belongs to the first label combination (`MetricCounter.UnlabelledSlotShared`).
- `gossip_update_node_from_message` says a suspected or failed sender is revived when its incarnation increased; the
  test compares the incarnation just stored with itself and never succeeds, so only the incarnation rises
  (`GossipCluster.HeaderKeepsSuspicion`). Refutations win nevertheless, because they travel as updates too.
- `gossip_conflict_resolution.c` ranks ALIVE above SUSPECTED above FAILED above LEFT. `membership_update` knows nothing
  of LEFT being lowest (`GossipMerge.RulesDifferIff`): a departure and a suspicion or failure of one incarnation stay as
  they arrive, and nodes can disagree for good (`GossipMerge.OrderIrrelevantIff`); by the ranking they could not
  (`GossipMerge.RankedTop`).
- `raft_get_entries_for_peer` stops after 100 entries. What followers report is then true exactly when
  `next + 99` lies behind the entry before the leader's no-op (`RaftBatches.CappedBatchSafeIff`), and runs exist in
  which it does not (`RaftDepartures.CappedBatchMisreports`); the cluster uses the full-suffix sender of `raft_rpc.c`.
- `entry_free` of the pool closes only connections that were not marked failed: a connection that leaves the pool is
  closed exactly when it was not (`PoolModel.LeavingClosedIff`), and a failed one leaks (`PoolModel.FailedOneLeaks`).

## Model

| member | source | states |
|---|---|---|
| `RaftSafety.StateMachineSafety` | libs/distric_raft/src/raft_core.c:402-449 | In every run no two servers, at any two moments, hand over different entries at the same index |
| `RaftSafety.CommittedInLaterLeaders` | libs/distric_raft/src/raft_core.c:459-521 | What any server counts as committed is in the log of every leader of a later term at any moment, and of the same term from that moment on |
| `RaftSafety.ElectionSafety` | libs/distric_raft/src/raft_core.c:1638-1682 | In every run with restarts at most one server ever leads in a term |
| `RaftSafety.FollowerPrefix` | libs/distric_raft/src/raft_core.c:1007-1045 | Whenever an AppendEntries of term T is accepted, fresh or duplicated, the whole log of the follower is a prefix of a log the leader of T had, ends in T, and the reported index is its length |
| `RaftSafety.LogMatching` | libs/distric_raft/src/raft_core.c:1007-1035 | Two logs, of any servers at any moments, that agree on the term at an index are equal up to it |
| `RaftSafety.LogOrder` | libs/distric_raft/src/raft_core.c:178-225 | Along every log indices count up from 1, terms never decrease and none exceeds the server's own term |
| `RaftSafety.CommittedEntriesStay` | libs/distric_raft/src/raft_core.c:259-282 | What a server once counted as committed stays in its log through all later steps, crashes included |
| `RaftSafety.RunInv` | libs/distric_raft/src/raft_core.c:887-1050 | The invariant behind the results holds in every cluster of every run |
| `RaftSafety.RunGrows` | libs/distric_raft/src/raft_core.c:288-369 | Elections, decisions and applications of the past are never rewritten by later steps |
| `RaftSafety.ReignIsReal` | libs/distric_raft/src/raft_core.c:353-369 | Every log the history records for a term is one that the leader of that term really had while leading |
| `RaftReplication.LeaderCompleteness` | libs/distric_raft/src/raft_core.c:459-521 | A decided index is contained in the log with which any later term began |
| `RaftReplication.StoredIsPrefix` | libs/distric_raft/src/raft_core.c:1007-1035 | Storing a genuine request leaves a prefix of the leader's log that ends in the leader's term, and keeps every prefix both already shared |
| `RaftReplication.OnAppendRequestKeeps` | libs/distric_raft/src/raft_core.c:958-1050 | Receiving any AppendEntries that is in the network keeps the invariant |
| `RaftReplication.OnAppendReplyKeeps` | libs/distric_raft/src/raft_core.c:1388-1455 | Receiving any AppendEntries reply keeps the invariant |
| `RaftReplication.AdvanceKeeps` | libs/distric_raft/src/raft_core.c:459-521 | Advancing the commit index keeps the invariant: a majority really holds what is decided |
| `RaftReplication.HoldersCount` | libs/distric_raft/src/raft_core.c:495-504 | The set of servers behind a replica count has that many members |
| `RaftReplication.HoldersConfirm` | libs/distric_raft/src/raft_core.c:487-521 | The servers behind a majority count are a quorum, and each of them has stored the index in the leader's term |
| `RaftReplication.ApplyKeeps` | libs/distric_raft/src/raft_core.c:402-449 | Applying committed entries keeps the invariant |
| `RaftSteps.TimeoutKeeps` | libs/distric_raft/src/raft_core.c:751-783 | An election timeout keeps the invariant |
| `RaftSteps.WinKeeps` | libs/distric_raft/src/raft_core.c:353-369 | Winning an election and appending the no-op keeps the invariant |
| `RaftSteps.WinIsFirst` | libs/distric_raft/src/raft_core.c:1638-1682 | A server that gathers a majority wins a term nobody has won before, although votes can be forgotten |
| `RaftSteps.QuorumsMeet` | libs/distric_raft/src/raft_core.c:1638-1682 | Any two majorities share a server |
| `RaftSteps.OnVoteRequestKeeps` | libs/distric_raft/src/raft_core.c:887-950 | Receiving any vote request keeps the invariant |
| `RaftSteps.OnVoteReplyKeeps` | libs/distric_raft/src/raft_rpc.c:886-965 | Counting a vote reply keeps the invariant |
| `RaftSteps.ReplicateKeeps` | libs/distric_raft/src/raft_rpc.c:985-1045 | Sending the suffix from a peer's next index on keeps the invariant |
| `RaftSteps.BatchReachesNoop` | libs/distric_raft/src/raft_rpc.c:985-1001 | What a leader ships always reaches into its own term |
| `RaftSteps.SubmitKeeps` | libs/distric_raft/src/raft_core.c:1056-1087 | Appending a client command keeps the invariant |
| `RaftSteps.CrashKeeps` | libs/distric_raft/src/raft_core.c:605-655 | A restart from disk keeps the invariant |
| `RaftInvariant.InitInv` | libs/distric_raft/src/raft_core.c:538-604 | Fresh servers and an empty network satisfy the invariant |
| `RaftNode.MergeFromFull` | libs/distric_raft/src/raft_core.c:1020-1035 | Storing a piece of a leader's log leaves either exactly the leader's log up to the end of the piece or the unchanged own log that already held it |
| `RaftNode.MergeKeepsAgreement` | libs/distric_raft/src/raft_core.c:1020-1035 | A prefix on which both logs already agreed survives storing |
| `RaftNode.GreatestCommittableIsGreatest` | libs/distric_raft/src/raft_core.c:487-521 | The upward scan of the commit rule ends at the greatest index of the own term held by a majority, or does not move |
| `RaftServer.Server.constructor` | libs/distric_raft/src/raft_core.c:538-660 | A new server, or one restored from term, vote and log on disk |
| `RaftServer.Server.TransitionToFollower` | libs/distric_raft/src/raft_core.c:288-298 | The new state after becoming a follower |
| `RaftServer.Server.TransitionToCandidate` | libs/distric_raft/src/raft_core.c:314-337 | The new state after standing for election |
| `RaftServer.Server.TransitionToLeader` | libs/distric_raft/src/raft_core.c:353-369 | The new state after winning, the no-op included |
| `RaftServer.Server.StartElection` | libs/distric_raft/src/raft_core.c:751-783 | The new state after an election timeout |
| `RaftServer.Server.ProcessElectionResult` | libs/distric_raft/src/raft_core.c:1638-1682 | Becomes leader exactly as a candidate with a majority of votes |
| `RaftServer.Server.HandleRequestVote` | libs/distric_raft/src/raft_core.c:887-950 | New state and reply of the vote handler in every branch |
| `RaftServer.Server.HandleAppendEntries` | libs/distric_raft/src/raft_core.c:958-1050 | New state and reply of the AppendEntries handler in every branch, entry loop included |
| `RaftServer.Server.UpdateCommitIndex` | libs/distric_raft/src/raft_core.c:459-521 | The commit loop computes the greatest committable index |
| `RaftServer.Server.CountReplicas` | libs/distric_raft/src/raft_core.c:495-501 | The replica loop counts the peers whose match index reaches n |
| `RaftServer.Server.HandleAppendReply` | libs/distric_raft/src/raft_core.c:1388-1455 | New state after a reply of an older, the same or a newer term |
| `RaftServer.Server.EntriesForPeer` | libs/distric_raft/src/raft_rpc.c:985-1001 | The loop that copies what a leader ships builds the whole suffix |
| `RaftServer.Server.AppendEntry` | libs/distric_raft/src/raft_core.c:1056-1087 | A leader appends the command and returns its index; others refuse |
| `RaftServer.Server.ApplyCommitted` | libs/distric_raft/src/raft_core.c:402-449 | The apply loop hands over the entries the specification names, in order |
| `RaftServer.ApplyRunIsComplete` | libs/distric_raft/src/raft_core.c:402-449 | When all committed entries are present each command or configuration among them is handed over once and in order |
| `RaftRecovery.CommandsCanAlwaysGetThrough` | libs/distric_raft/src/raft_core.c:887-1087 | From any point of any run, and for any command, the run can go on so that every server applies that command as the same entry |
| `RaftRecovery.SomebodyLeads` | libs/distric_raft/src/raft_core.c:751-783 | From any point of any run some server can be elected |
| `RaftAnswers.VoteAnswer` | libs/distric_raft/src/raft_core.c:887-950 | A vote is granted exactly when the term is not older, the vote is free or the candidate's own, and the candidate's last entry is later or of the same term in a log no shorter; and all the handler changes |
| `RaftAnswers.FreeVoterGrants` | libs/distric_raft/src/raft_core.c:925-940 | In every run a free voter never refuses a candidate whose log extends its own |
| `RaftAnswers.SomebodyIsElectable` | libs/distric_raft/src/raft_core.c:925-940 | In every cluster some server's request, in a term above the others', is granted by every server |
| `RaftAnswers.AppendAnswer` | libs/distric_raft/src/raft_core.c:958-1050 | When an AppendEntries is accepted, how far the commit index moves, and the role, vote and leader afterwards |
| `RaftAnswers.FollowerCommits` | libs/distric_raft/src/raft_core.c:1037-1045 | In every run an accepted request leaves the follower with exactly the larger of its own commit index and the leader's |
| `RaftAnswers.CommitAnswer` | libs/distric_raft/src/raft_core.c:459-521 | A leader's commit index moves to the greatest index of its term that more than half of the servers hold, and nothing else moves |
| `RaftAnswers.ReplyAnswer` | libs/distric_raft/src/raft_core.c:1388-1455 | A success sets match and next index of that peer, a failure goes one entry back but not below the first, a later term makes a follower, an older one is ignored |
| `RaftAnswers.ElectionAnswer` | libs/distric_raft/src/raft_core.c:1638-1682 | Votes make a leader exactly of a candidate with more than half of the cluster, and what it starts with |
| `RaftAnswers.TimeoutAnswer` | libs/distric_raft/src/raft_core.c:751-783 | A timeout opens a term with a vote for itself; a server without peers has won |
| `RaftAnswers.RestartAnswer` | libs/distric_raft/src/raft_core.c:605-655 | A restart keeps exactly what is on disk: same disk, same server, and a blank disk gives a new server |
| `RaftDepartures.VoteForgottenIff` | libs/distric_raft/src/raft_core.c:288-298 | Of all steps of a cluster exactly one makes a server forget its vote within its term: an AppendEntries of that term reaching a candidate |
| `RaftDepartures.TwoVotesInOneTerm` | libs/distric_raft/src/raft_core.c:1002-1005 | One vote per term is false: a run of five servers in which one of them votes for itself and then for another in term 2 |
| `RaftDepartures.CutMisreports` | libs/distric_raft/src/raft_core.c:1459-1515 | For every limit k a run of three servers ends with a batch of at most k entries that a follower accepts and answers with an index where it has another entry than the leader |
| `RaftDepartures.CappedBatchMisreports` | libs/distric_raft/src/raft_core.c:529-532 | Such a run for the limit of 100 in the source |
| `RaftBatches.CutIsSafeIff` | libs/distric_raft/src/raft_core.c:1459-1515 | A suffix cut to k entries leaves every follower that takes it with a piece of the leader's log reaching into its term, exactly when it reaches the no-op of the leader's reign |
| `RaftBatches.CutReportsTrulyIff` | libs/distric_raft/src/raft_core.c:1037-1045 | Whatever leaders of other terms have written by then, the index reported after a batch of at most k entries is true exactly when the batch reaches the no-op |
| `RaftBatches.CappedBatchSafeIff` | libs/distric_raft/src/raft_core.c:1478-1509 | For the batch of 100 both hold exactly when next + 99 lies behind the entry before the no-op |
| `RaftWire.WireIsSafeIff` | libs/distric_raft/src/raft_rpc.c:644-700 | A suffix that has been serialised and deserialised is safe for every follower exactly when the entries that arrive whole reach the no-op and nothing strays in behind them |
| `RaftWire.DeliveredParts` | libs/distric_raft/src/raft_rpc.c:153-225 | What a follower makes of the bytes: the longest piece within the limits as it was sent, then whatever the encoder and decoder let through behind it |
| `RaftExample.CommandsGetThrough` | libs/distric_raft/src/raft_core.c:402-449 | Whatever a client submits, there is a run of two servers without a restart at whose end both have applied it |
| `DurableLog.RestartFindsTheLog` | libs/distric_raft/src/raft_persistence.c:524-741 | After any interleaving of appends and truncations, parsing the file and re-appending what it holds gives exactly the log in memory |
| `DurableLog.RecordLayout` | libs/distric_raft/src/raft_persistence.c:524-570 | The bytes of a record: index, term, type and length, numbers low byte first, then the data |
| `DurableLog.HeaderLayout` | libs/distric_raft/src/raft_persistence.c:524-570 | The eight bytes at the start of the file |
| `DurableLog.KindCodes` | libs/distric_raft/src/raft_persistence.c:640-655 | The type byte of each kind of entry and what every byte reads as |
| `DurableLog.RoundTripIff` | libs/distric_raft/src/raft_persistence.c:524-680 | Loading what was written gives it back exactly when every data length fits 32 bits |
| `DurableLog.ParseAppended` | libs/distric_raft/src/raft_persistence.c:524-570 | Appending a record to a parsable body adds that record to what parsing returns |
| `DurableLog.BelowIsPrefix` | libs/distric_raft/src/raft_persistence.c:700-741 | Filtering the records below an index is cutting the log there |
| `DurableLog.OpKeepsInStep` | libs/distric_raft/src/raft_core.c:178-282 | Each log operation keeps file and log saying the same |
| `DurableLog.ReappendedRecords` | libs/distric_raft/src/raft_core.c:644-655 | Re-appending the records of a log numbered from 1 rebuilds it, indices included |
| `DurableLog.LogFile.Append` | libs/distric_raft/src/raft_persistence.c:524-570 | The body of the file grows by exactly the encoded record |
| `DurableLog.LogFile.CountRecords` | libs/distric_raft/src/raft_persistence.c:594-622 | The first pass counts the records of a body, or finds that it does not parse |
| `DurableLog.LogFile.Load` | libs/distric_raft/src/raft_persistence.c:576-680 | The two passes return exactly what parsing the body returns, or fail when it does not parse |
| `DurableLog.LogFile.Truncate` | libs/distric_raft/src/raft_persistence.c:684-741 | The rewritten body holds exactly the records below the index; an unreadable file is left alone |
| `DurableLog.LogFile.Rewrite` | libs/distric_raft/src/raft_persistence.c:704-729 | Writing back appends the kept records, in order, behind a fresh header |
| `DurableLog.PersistentLog.Append` | libs/distric_raft/src/raft_core.c:178-225 | Log and file grow together |
| `DurableLog.PersistentLog.Truncate` | libs/distric_raft/src/raft_core.c:259-282 | Log and file are cut together |
| `DurableLog.PersistentLog.Reload` | libs/distric_raft/src/raft_core.c:644-655 | A restart reads back the log |
| `Checksums.ComputeIncremental` | libs/distric_protocol/src/crc32.c:153-163 | The table loop computes the bit-defined register from any start value on every byte string |
| `Checksums.ComputeOneShot` | libs/distric_protocol/src/crc32.c:172-177 | The one-shot form computes the check value, also of the empty string |
| `Checksums.ComputeBitwise` | libs/distric_raft/src/raft_persistence.c:87-102 | The bit loop of the persistence layer computes the same check value on every byte string |
| `Checksums.ComputeStreaming` | libs/distric_protocol/src/crc32.c:145-151 | Feeding any cut of a byte string piece by piece gives the one-shot result |
| `Checksums.FeedIsSerial` | libs/distric_protocol/src/crc32.c:12-19 | Feeding a byte is sending its bits, lowest first, through the serial register of section 3.2.9 of IEEE 802.3 |
| `Checksums.CrcInjective` | libs/distric_protocol/src/crc32.c:153-163 | Different registers stay different through any byte string |
| `Checksums.FewBytesInjective` | libs/distric_protocol/src/crc32.c:153-163 | From one register, different strings of the same length up to four bytes lead to different registers |
| `Checksums.BurstDetected` | libs/distric_protocol/src/crc32.c:153-163 | Two strings that differ only within four neighbouring bytes have the same register exactly when they are equal |
| `Checksums.CheckValue` | libs/distric_protocol/src/crc32.c:172-177 | The published check value of the nine characters 123456789 |
| `Crc32.TableIsShifts` | libs/distric_protocol/src/crc32.c:50-115 | Every one of the 256 constants is its own index after eight polynomial shifts |
| `Crc32.TableStepIsFeed` | libs/distric_protocol/src/crc32.c:158-161 | One table look-up does what eight bit steps do, for every register and byte |
| `Crc32.ShiftsSplit` | libs/distric_protocol/src/crc32.c:158-161 | Eight shifts move the high bits and bring in what the low byte decides |
| `Crc32.ShiftsLinear` | libs/distric_protocol/src/crc32.c:15-19 | Any number of polynomial shifts is linear over exclusive or |
| `Crc32.CrcOfParts` | libs/distric_protocol/src/crc32.c:142-151 | The register after a + b is the register after b started from that after a |
| `MessageHeader.DamageDetected` | libs/distric_protocol/src/binary.c:283-323 | An accepted message changed only within the check field, or only within four neighbouring bytes outside it, is accepted exactly when it is unchanged |
| `MessageHeader.StraddlingDamageMissed` | libs/distric_protocol/src/binary.c:283-323 | Across the edge of the field damage can go unnoticed: every accepted message without payload has another accepted one that differs from it in the bytes 27 to 30 alone |
| `MessageHeader.HeaderLayout` | libs/distric_protocol/src/binary.c:110-157 | Every field of the header at its offset |
| `MessageHeader.BytesOf32` | libs/distric_protocol/src/binary.c:110-157 | A 32-bit field has its high byte first |
| `MessageHeader.BytesOf16` | libs/distric_protocol/src/binary.c:110-157 | A 16-bit field has its high byte first |
| `MessageHeader.UntouchedAccepted` | libs/distric_protocol/src/binary.c:283-323 | A sealed message is accepted and its header survives the wire |
| `MessageHeader.AcceptsIff` | libs/distric_protocol/src/binary.c:308-323 | A message is accepted exactly when its check field is the check value of its bytes with that field zero |
| `MessageHeader.DeserializedOfSerialized` | libs/distric_protocol/src/binary.c:110-210 | Reading a written header gives it back |
| `MessageHeader.SerializedOfDeserialized` | libs/distric_protocol/src/binary.c:110-210 | Writing a header read from any 32 bytes gives those bytes back |
| `MessageHeader.SerializeHeader` | libs/distric_protocol/src/binary.c:110-157 | Field by field the first 32 bytes become the header and the rest of the buffer stays |
| `MessageHeader.HeaderRecord.ComputeCheck` | libs/distric_protocol/src/binary.c:283-306 | Only the check field changes, to the check value over header and payload with that field zero |
| `MessageHeader.VerifyMessage` | libs/distric_protocol/src/binary.c:308-323 | True exactly when the check field is right |
| `Tlv.WalkOfEncoded` | libs/distric_protocol/src/tlv.c:245-302 | Decoding an encoding returns the fields as far as the limits go and ends cleanly exactly when they reach the end |
| `Tlv.FieldLayout` | libs/distric_protocol/src/tlv.c:109-124 | The bytes of a field: type, tag and length with the high byte first, value |
| `Tlv.EncodedOfWalk` | libs/distric_protocol/src/tlv.c:245-302 | What a walk returns was encoded in the buffer, and is all of it exactly when the walk ends cleanly |
| `Tlv.WalkWithinLimits` | libs/distric_protocol/src/tlv.c:258-284 | A walk never returns more fields or longer strings than its limits |
| `TlvCoder.ValidIsEncoding` | libs/distric_protocol/src/tlv.c:541-555 | Buffers the walk ends cleanly on, which are those the validator accepts, are exactly the encodings of field lists |
| `TlvCoder.Validate` | libs/distric_protocol/src/tlv.c:541-555 | True exactly when the walk without configured limits ends cleanly |
| `TlvCoder.Encoder.EnsureCapacity` | libs/distric_protocol/src/tlv.c:97-107 | Doubling makes room and keeps the contents |
| `TlvCoder.Encoder.EncodeRaw` | libs/distric_protocol/src/tlv.c:109-124 | Contents grow by exactly the encoded field, or not at all when it is too large |
| `TlvCoder.Encoder.Detach` | libs/distric_protocol/src/tlv.c:166-175 | Hands out the contents and leaves the encoder empty |
| `TlvCoder.Decoder.Next` | libs/distric_protocol/src/tlv.c:245-317 | Each call takes exactly one field off the remaining walk or reports how it ends |
| `TlvCoder.Decoder.FindField` | libs/distric_protocol/src/tlv.c:347-358 | Returns the first remaining field with the tag |
| `TlvCoder.Decoder.BuildIndex` | libs/distric_protocol/src/tlv.c:379-430 | The index is sorted and covers exactly the fields within the field limit |
| `TlvCoder.Decoder.FindIndexed` | libs/distric_protocol/src/tlv.c:432-454 | Not found only if no indexed field has the tag; a found field is one of them and has it |
| `TlvCoder.SearchBothWays` | libs/distric_protocol/src/tlv.c:347-454 | With no walked field over the string limit, index and linear search of one decoder agree on whether there is a field, and on the field when the tag occurs once |
| `TlvCoder.SameFieldsIff` | libs/distric_protocol/src/tlv.c:376-425 | The index and the walk see the same fields exactly when none of them is over the string limit |
| `TlvCoder.IndexCoversWalk` | libs/distric_protocol/src/tlv.c:394-421 | The sequential decoder returns what the index covers, cut short only by the string limit |
| `AppendEntriesWire.RoundTripIff` | libs/distric_protocol/src/messages.c:192-327 | A message survives the wire exactly when it has at most 507 entries, none with more than 1048539 bytes of data |
| `AppendEntriesWire.WhatArrives` | libs/distric_protocol/src/messages.c:233-327 | For every message, what deserialising its serialisation returns: the head unchanged, the entries as far as the limits go, always success |
| `AppendEntriesWire.CutShort` | libs/distric_protocol/src/messages.c:249-253 | When all entries are small exactly the first 507 arrive |
| `AppendEntriesWire.WireStarts` | libs/distric_protocol/src/messages.c:216-253 | The first field of a message and of an entry, byte by byte |
| `AppendEntriesWire.EntryRoundTrip` | libs/distric_protocol/src/messages.c:288-318 | An entry field within the limit decodes to the entry |
| `AppendEntriesWire.Serialize` | libs/distric_protocol/src/messages.c:192-231 | The encoder calls build the encoding of the message's fields, dropping those that are too large |
| `AppendEntriesWire.SerializeEntry` | libs/distric_protocol/src/messages.c:208-223 | The nested encoder builds the encoding of one entry |
| `AppendEntriesWire.Deserialize` | libs/distric_protocol/src/messages.c:233-327 | The two passes compute the decoding of any buffer, with the same errors; the slots counted are exactly those filled |
| `AppendEntriesWire.DecodeEntry` | libs/distric_protocol/src/messages.c:288-318 | The nested decoder computes the entry of any blob |
| `BlockStream.Stream.Update` | libs/distric_protocol/src/auth.c:80-90 | Fed bytes are accounted for, in full blocks compressed and a rest waiting, however they are cut |
| `BlockStream.Stream.Final` | libs/distric_protocol/src/auth.c:92-112 | The final state is the compressor over exactly the blocks of everything fed, padded as in section 5.1.1 of FIPS 180-4 |
| `Sha256.PaddingIsStandard` | libs/distric_protocol/src/auth.c:92-105 | The byte 0x80, zeros, and the length in bits as a 64-bit number, high byte first, in as few whole blocks as can hold them |
| `Sha256.PaddingIsInjective` | libs/distric_protocol/src/auth.c:92-105 | Up to 2^61 bytes different messages have different padded messages |
| `Sha256.ChoiceChooses` | libs/distric_protocol/src/auth.c:69-69 | Each bit comes from the second argument or the third, as the first says |
| `Sha256.MajorityRules` | libs/distric_protocol/src/auth.c:72-72 | Each bit is what at least two of the three say |
| `Sha256.WordLayout` | libs/distric_protocol/src/auth.c:55-59 | A word of a block has its first byte highest |
| `Sha256.DigestLayout` | libs/distric_protocol/src/auth.c:106-111 | The digest is the eight words in order |
| `Sha256.WordBytesLayout` | libs/distric_protocol/src/auth.c:106-111 | Each word of the digest has its high byte first |
| `BlockStream.PaddedOneBlock` | libs/distric_protocol/src/auth.c:94-105 | With up to 55 bytes waiting the padding completes one block |
| `BlockStream.PaddedTwoBlocks` | libs/distric_protocol/src/auth.c:95-98 | With more it completes two |
| `Sha256.CompressBlock` | libs/distric_protocol/src/auth.c:53-78 | The loops compute the compression function of section 6.2.2 of FIPS 180-4 |
| `Sha256.ExpandSchedule` | libs/distric_protocol/src/auth.c:55-64 | The loops fill the message schedule |
| `Sha256Example.HashOfAbc` | libs/distric_protocol/src/auth.c:18-111 | The SHA-256 of "abc" is the published one (appendix B.1 of FIPS 180-2), which would not survive a wrong constant, shift or order in the compressor |
| `Sha256.OverParts` | libs/distric_protocol/src/auth.c:80-90 | A block function over two pieces, the first of whole blocks, is the second continued from the first |
| `Hmac.HashChunks` | libs/distric_protocol/src/auth.c:136-140 | Feeding chunks one after another hashes their concatenation |
| `Hmac.HmacTwoChunk` | libs/distric_protocol/src/auth.c:118-149 | Equals section 2 of RFC 2104 on chunk1 + chunk2, long keys included |
| `Hmac.HmacByParts` | libs/distric_protocol/src/auth.c:118-149 | The keyed hash byte by byte, with the two pads of section 2 of RFC 2104 |
| `Hmac.LongKeys` | libs/distric_protocol/src/auth.c:126-131 | A key longer than a block counts as its hash |
| `Hmac.HmacOneChunk` | libs/distric_protocol/src/auth.c:151-157 | The library function is HMAC-SHA-256 of its data |
| `Hmac.PadKey` | libs/distric_protocol/src/auth.c:134-135 | Filling with the pad and combining the key is the padded key combined with the pad |
| `Hmac.ComputeMac` | libs/distric_protocol/src/auth.c:163-197 | Zeros without a key; otherwise the plugged-in function, or HMAC, on header + payload |
| `Hmac.VerifyMac` | libs/distric_protocol/src/auth.c:199-224 | Accepts everything without a key and otherwise exactly the right MAC |
| `Hmac.SameBytes` | libs/distric_protocol/src/auth.c:214-216 | The accumulated difference is zero exactly when the strings are equal |
| `HandlerTable.Table.Find` | libs/distric_protocol/src/rpc.c:182-195 | Returns what the map holds for the key, for every key |
| `HandlerTable.Table.Insert` | libs/distric_protocol/src/rpc.c:203-242 | The map gains or replaces the key; refused exactly when 64 other keys are registered |
| `HandlerTable.Table.Remove` | libs/distric_protocol/src/rpc.c:253-271 | The map loses the key; not found exactly when it was not there |
| `HandlerTable.NotBeyond` | libs/distric_protocol/src/rpc.c:185-194 | A search that met an empty slot or all slots has missed nothing |
| `HandlerTable.FilledIsSound` | libs/distric_protocol/src/rpc.c:220-239 | Filling the recycled tombstone or the empty slot keeps keys unique and chains unbroken |
| `HandlerTable.RemovedIsSound` | libs/distric_protocol/src/rpc.c:263-268 | A tombstone keeps every other chain unbroken |
| `HandlerTable.FullIff` | libs/distric_protocol/src/rpc.c:233-241 | All slots are live exactly when the map has 64 keys |
| `MetricSlots.SlotsAreRowsIff` | libs/distric_obs/src/metrics.c:139-194 | Every slot is found by exactly the label sets that are its row of the labels table in some order, if and only if no key and no allowed value is repeated |
| `MetricIndex.DigitsOfFlat` | libs/distric_obs/src/metrics.c:176-194 | Decoding the index of a combination gives its ordinals back |
| `MetricIndex.FlatOfDigits` | libs/distric_obs/src/metrics.c:118-119 | Encoding the decoded ordinals of a slot number gives it back |
| `MetricIndex.FlatInRange` | libs/distric_obs/src/metrics.c:139-174 | Every combination has an index below the cardinality |
| `MetricIndex.FlatInOrder` | libs/distric_obs/src/metrics.c:139-194 | Indices are in the order of the first dimension, then the second and so on |
| `MetricIndex.ComputeCardinality` | libs/distric_obs/src/metrics.c:98-110 | The product of the dimension sizes, or 0 when one is unbounded or the product overflows |
| `MetricIndex.ComputeStrides` | libs/distric_obs/src/metrics.c:121-129 | Each stride is the number of combinations of the later dimensions |
| `MetricSlots.ComputeFlatIndex` | libs/distric_obs/src/metrics.c:139-174 | The loops compute the index of a label set, or refuse exactly when it is no combination |
| `MetricSlots.DecodeFlatIndex` | libs/distric_obs/src/metrics.c:182-194 | The loop writes the row of an index |
| `MetricSlots.BuildLabelsTable` | libs/distric_obs/src/metrics.c:201-212 | Row i is the decoding of i |
| `MetricCounter.Counter.Add` | libs/distric_obs/src/metrics.c:480-500 | An update without labels reaches its own slot only |
| `MetricCounter.Counter.AddLabels` | libs/distric_obs/src/metrics.c:502-523 | An update with labels reaches the slot of its combination only, or is refused |
| `MetricCounter.Counter.SlotHoldsRow` | libs/distric_obs/src/metrics.c:17-25 | After any sequence of updates slot fi holds the sum of exactly those whose labels are row fi, modulo 2^64 |
| `MetricCounter.Counter.GetLabelledTotal` | libs/distric_obs/src/metrics.c:533-547 | Every labelled update once, modulo 2^64; without dimensions, everything in slot 0 |
| `MetricCounter.Counter.Get` | libs/distric_obs/src/metrics.c:525-531 | The updates without labels and nothing else; without dimensions, everything in slot 0 |
| `MetricCounter.RowLands` | libs/distric_obs/src/metrics.c:480-523 | What lands in a labelled slot is what its row names |
| `MetricCounter.UnlabelledSlotShared` | libs/distric_obs/src/metrics.c:480-587 | Only counters keep updates without labels apart; a labelled gauge or histogram shares slot 0 with its first combination |
| `MetricCounter.Register` | libs/distric_obs/src/metrics.c:320-335 | Registration succeeds exactly for bounded dimensions within the cap |
| `SendQueue.Ring.Push` | libs/distric_transport/src/send_queue.c:52-70 | Contents grow by exactly the data, round the end of the buffer, or not at all without room |
| `SendQueue.Ring.Peek` | libs/distric_transport/src/send_queue.c:76-89 | Shows a non-empty prefix of the contents unless they are empty |
| `SendQueue.Ring.Consume` | libs/distric_transport/src/send_queue.c:95-106 | Drops exactly the first n bytes, or all |
| `SendQueue.RoundExtendedTwice` | libs/distric_transport/src/send_queue.c:62-66 | The two-segment write appends the data to the ring contents |
| `SendPath.Connection.Send` | libs/distric_transport/src/tcp.c:1253-1323 | Wire ++ queue grows by the data on success, by nothing when refused, by a proper prefix only when the rest of a partial direct send is refused; an error exactly when the last call failed or took nothing of a direct send with a stale errno; otherwise what the kernel did not take is queued if it is below the mark and fits |
| `SendPath.Connection.FlushQueue` | libs/distric_transport/src/tcp.c:1232-1251 | Moves bytes without changing wire ++ queue until the queue is empty or a call takes nothing, and fails exactly when that call failed |
| `SendPath.Connection.SendDirect` | libs/distric_transport/src/tcp.c:1285-1319 | One call, and by its outcome success, error or backpressure |
| `SendPath.Connection.SendBehind` | libs/distric_transport/src/tcp.c:1265-1283 | With bytes still waiting the data is queued behind them, or refused exactly when it is over the mark or does not fit |
| `SendPath.Connection.Flush` | libs/distric_transport/src/tcp.c:1325-1331 | Never changes wire ++ queue, and fails exactly when the last call failed |
| `SendPath.Socket.Send` | libs/distric_transport/src/tcp.c:1286-1286 | The kernel by its next answer: bytes taken, would block, or error |
| `PoolModel.RunsAreGood` | libs/distric_transport/src/tcp_pool.c:253-410 | In every run: no connection twice, over the limit only when nothing is idle, in use exactly what is lent and not returned, list in order of last touch |
| `PoolModel.NeverLentTwice` | libs/distric_transport/src/tcp_pool.c:268-289 | No step lends a connection that is still out |
| `PoolModel.ItemsAreTrue` | libs/distric_transport/src/tcp_pool.c:313-341 | In every run each entry carries the host and port its connection was connected to and is marked failed exactly when reported so since |
| `PoolModel.ReuseIsRight` | libs/distric_transport/src/tcp_pool.c:268-289 | A reuse lends a connection that was connected to the very host and port asked for, was not reported failed since and was not out |
| `PoolModel.ReusableIff` | libs/distric_transport/src/tcp_pool.c:268-289 | A request is served from the pool exactly when some pooled connection to that host and port is neither out nor failed |
| `PoolModel.ReleasedIsReusable` | libs/distric_transport/src/tcp_pool.c:354-384 | A connection given back in health within the limit serves the next request for its host and port |
| `PoolModel.LeavesIff` | libs/distric_transport/src/tcp_pool.c:167-183 | Exactly who leaves the pool in a step |
| `PoolModel.EvictsLeastRecent` | libs/distric_transport/src/tcp_pool.c:167-183 | Eviction takes the idle entry touched longest ago |
| `PoolModel.ConnectedKeeps` | libs/distric_transport/src/tcp_pool.c:313-341 | Inserting keeps the invariant and passes the limit exactly when every entry is lent out |
| `PoolModel.ReleasedKeeps` | libs/distric_transport/src/tcp_pool.c:354-391 | Releasing keeps the invariant and ends exactly that loan |
| `PoolModel.LeavingClosedIff` | libs/distric_transport/src/tcp_pool.c:160-183 | In every run a connection that leaves the pool is closed in that step exactly when it was not marked failed |
| `PoolModel.ClosedAreGone` | libs/distric_transport/src/tcp_pool.c:354-410 | What a step closes is not in the pool afterwards |
| `PoolModel.FailedOneLeaks` | libs/distric_transport/src/tcp_pool.c:354-410 | A run in which a connection is lent, marked failed and given back, is gone from the pool, and no step has closed it |
| `TcpPool.Pool.TryReuse` | libs/distric_transport/src/tcp_pool.c:268-291 | Lends an idle healthy entry of the host and port and moves it to the front, or reports that there is none |
| `TcpPool.Pool.InsertConnected` | libs/distric_transport/src/tcp_pool.c:313-347 | The list is the new entry in front of what eviction leaves; the connections closed are named |
| `TcpPool.Pool.ReleaseConn` | libs/distric_transport/src/tcp_pool.c:354-391 | The entry goes to the front as idle, or leaves when failed or over the limit; an unknown connection is closed |
| `TcpPool.Pool.MarkFailed` | libs/distric_transport/src/tcp_pool.c:397-410 | Exactly the entry of the connection is marked |
| `TcpPool.Pool.EvictLruIdle` | libs/distric_transport/src/tcp_pool.c:167-183 | The last idle entry of the list leaves list, chain and count |
| `TcpPool.Pool.LruRemove` | libs/distric_transport/src/tcp_pool.c:132-138 | The doubly linked list loses exactly the entry |
| `TcpPool.Pool.LruPrepend` | libs/distric_transport/src/tcp_pool.c:124-130 | The doubly linked list gains the entry in front |
| `TcpPool.Pool.LruTouch` | libs/distric_transport/src/tcp_pool.c:140-144 | The entry moves to the front |
| `TcpPool.Pool.BucketRemove` | libs/distric_transport/src/tcp_pool.c:151-158 | The walk takes exactly the entry out of its chain |
| `TcpPool.Pool.RemoveEntry` | libs/distric_transport/src/tcp_pool.c:172-174 | List and chains still hold the same entries once each, and the size counts them |
| `TcpPool.Pool.FindFitting` | libs/distric_transport/src/tcp_pool.c:268-291 | The chain walk finds an entry that fits if there is one |
| `TcpPool.Pool.FindConn` | libs/distric_transport/src/tcp_pool.c:360-386 | The walk over all chains finds the entry of a connection if there is one |
| `GossipCluster.NothingAboveItsNode` | libs/distric_gossip/src/gossip_membership.c:431-527 | In every run no view and no message carries an incarnation above that of the node it is about |
| `GossipCluster.NothingAboveFromStart` | libs/distric_gossip/src/gossip_membership.c:431-527 | The same for every run that begins with nodes that know only themselves |
| `GossipMerge.OrderIrrelevantIff` | libs/distric_gossip/src/gossip_membership.c:108-139 | What a node believes after merging claims does not depend on their order or number exactly when one of them beats all the others |
| `GossipMerge.NodesConverge` | libs/distric_gossip/src/gossip_membership.c:431-527 | Nodes that merged the same claims about a third believe the same of it, if one of the claims beats the others |
| `GossipMerge.TiesIff` | libs/distric_gossip/src/gossip_membership.c:108-139 | Two claims neither of which beats the other say within one incarnation LEFT and SUSPECTED or FAILED |
| `GossipMerge.RulesDifferIff` | libs/distric_gossip/src/gossip_conflict_resolution.c:30-100 | The merge rule departs from the documented ranking exactly when SUSPECTED or FAILED meets LEFT of the same incarnation |
| `GossipMerge.RankedTop` | libs/distric_gossip/src/gossip_conflict_resolution.c:30-72 | By the documented ranking one claim always beats all the others |
| `GossipMerge.MergeAnswer` | libs/distric_gossip/src/gossip_membership.c:108-139 | An update changes what is believed exactly when it beats it, and nothing else |
| `GossipMerge.SelfAnswer` | libs/distric_gossip/src/gossip_membership.c:495-511 | An update about the node itself that does not say ALIVE is answered by the next incarnation |
| `GossipMerge.SuspectAnswer` | libs/distric_gossip/src/gossip_membership.c:189-250 | What a suspicion does to an entry of each status and to the node itself |
| `GossipMerge.SenderAnswer` | libs/distric_gossip/src/gossip_membership.c:431-487 | A new sender is added as ALIVE, a known one takes the larger incarnation and keeps its status, and nothing else changes |
| `GossipMerge.MarkAnswers` | libs/distric_gossip/src/gossip_membership.c:148-320 | Failure, departure and a successful probe set the status and keep the incarnation |
| `GossipMerge.UpdatesPassedOn` | libs/distric_gossip/src/gossip_membership.c:130-137 | Every entry a merge makes new or different is to be passed on the full number of times |
| `GossipMerge.MarksPassedOn` | libs/distric_gossip/src/gossip_membership.c:148-320 | So is every entry a mark changes |
| `GossipMerge.FirstPassedOn` | libs/distric_gossip/src/gossip_membership.c:373-426 | Exactly the first pending entries, up to the limit, are passed on |
| `GossipMerge.PassedOnLoseOne` | libs/distric_gossip/src/gossip_membership.c:373-426 | Each of them loses one transmission and nothing else changes |
| `GossipCluster.IncarnationsNeverFall` | libs/distric_gossip/src/gossip_membership.c:108-139 | In every run each view's incarnation of a node never falls and no entry disappears |
| `GossipCluster.RefutationOutranks` | libs/distric_gossip/src/gossip_membership.c:495-511 | When a node takes a new incarnation it holds itself ALIVE in it and every claim elsewhere or in flight is older |
| `GossipCluster.RefutationWins` | libs/distric_gossip/src/gossip_membership.c:431-527 | Once the latest refutation has reached a node it holds the refuter ALIVE, whatever older claims came before or after, unless it accused it anew |
| `GossipCluster.RefutationRemains` | libs/distric_gossip/src/gossip_membership.c:108-139 | Merging any order of claims of at most its incarnation with a refutation leaves the refutation |
| `GossipCluster.StepKeepsCeiling` | libs/distric_gossip/src/gossip_core.c:374-419 | Every step, probes and acknowledgements included, keeps claims at or below their node |
| `GossipCluster.MergedMoved` | libs/distric_gossip/src/gossip_membership.c:492-527 | Merging one claim keeps the node sound and its beliefs from falling |
| `GossipCluster.HeaderKeepsSuspicion` | libs/distric_gossip/src/gossip_membership.c:475-487 | A direct message raises the incarnation of an entry and leaves its status, suspicion included |
| `GossipNode.CollectedKeeps` | libs/distric_gossip/src/gossip_membership.c:373-426 | Collecting updates changes no belief, and every update passed on is a current one with transmissions left |
| `GossipState.State.Update` | libs/distric_gossip/src/gossip_membership.c:108-139 | The new state after merging an update about a known node |
| `GossipState.State.MarkSuspected` | libs/distric_gossip/src/gossip_membership.c:189-250 | The new state, self-refutation included |
| `GossipState.State.MarkAlive` | libs/distric_gossip/src/gossip_membership.c:148-184 | The new state after a successful probe |
| `GossipState.State.MarkFailed` | libs/distric_gossip/src/gossip_membership.c:255-296 | The new state; the node never fails itself |
| `GossipState.State.UpdateFromMessage` | libs/distric_gossip/src/gossip_membership.c:431-527 | The new state after the sender part and all piggybacked updates |
| `GossipState.State.GetUpdates` | libs/distric_gossip/src/gossip_membership.c:373-426 | At most ten entries with transmissions left, from the front, each losing one |
| `GossipState.State.Refute` | libs/distric_gossip/src/gossip_lifecycle.c:564-584 | A higher own incarnation, in the own entry too |

## Left out

- Raft snapshots: `base_index` is 0 throughout, log compaction and `raft_install_snapshot` are not part of this model.
- Integer width in Raft: terms and indices are unbounded; wrap-around at 2^32 is not modelled. The file format's
  32-bit fields are, in `DurableLog`.
- Unlocked reads in the replication and vote threads: each send and each tally is one atomic snapshot, taken while
  the server is leader or candidate.
- `raft_process_election_result` takes a bare count: the model assumes that its driver counts votes gathered in the
  server's current term, each voter once.
- `raft_rpc.c` applies replies through `raft_update_peer_indices` and `raft_decrement_peer_next_index`, which do not
  compare the term of the reply with the present one as `raft_handle_append_entries_response` does. The model uses the
  handler with the comparison, and all results about runs rest on it.
- Raft disk writes succeed and complete; torn writes, allocation failure and the state file's text format are not
  modelled. The data of a record is written in one call, which a length near 4 GiB may cut short. A restart keeps
  term, vote and log.
- Server identifiers are distinct numbers in place of names of up to 63 characters; the leader hint is one of them.
- The machine's byte order in the log file is low byte first.
- The log reader's partial reads: in `DurableLog` the first pass already reports a record whose data is cut short.
- Truncated strings: in `AppendEntriesWire` a leader name without its terminator ends with its field; the source
  would read on into the bytes behind it.
- AppendEntriesWire.RoundTripIff: asks for a leader name without zero bytes that fits its 64-byte buffer, because that is what the C string in the message can hold.
- MessageHeader.DamageDetected: does not cover windows that straddle the edge of the check field, because the property is false there: `MessageHeader.StraddlingDamageMissed` gives undetected damage.
- Table layouts: the 256 CRC constants are kept as 16 rows by the high half of the index, the 64 of SHA-256 as 8 rows.
- Null pointers and `DISTRIC_ERR_INVALID_ARG` for them: an absent buffer is the empty byte string.
- `qsort` and `bsearch`: sorting is any method whose result is sorted and a permutation; the search is binary.
- SHA-256 as a security primitive: nothing about collisions or secrecy is claimed. `BlockStream` takes the compressor
  as a parameter; `Sha256.CompressBlock` is the method that computes the one used.
- Metric label values longer than their buffers, and null entries in an allow-list; atomics are single steps. Metric
  registration does not check for repeated keys or values, the model asks its callers for distinct ones.
- MetricCounter.RowLands: asks for distinct keys and distinct allowed values, because otherwise slots and rows do not correspond (`MetricSlots.SlotsAreRowsIff`).
- RaftWire.WireIsSafeIff: asks for terms and indices below 2^32, because that is what the fields of the message hold.
- TlvCoder.SearchBothWays: speaks of buffers without fields over the string limit, because the walk ends at the first of them and the index does not (`TlvCoder.SameFieldsIff`).
- `tcp_send` metrics and locking; the kernel is a sequence of answers fixed in advance, whatever they are.
- The pool's hash is any function into 64 buckets; connecting is a parameter, and the unlocked window around it is an
  arbitrary interleaving of operations. Shutdown, hit counters and time stamps are not part of the model.
- Gossip addresses, roles, load and clocks: suspicion timeouts, probes and marks happen at any moment. Node identifiers
  are numbers, seeds are nodes that may stay silent, incarnations do not wrap, and no process restarts.
- GossipCluster.RefutationWins: excludes new accusations by the receiving node itself and departures, because those are claims about the new incarnation and not older ones.
- Circuit breakers, UDP peer table, lock-free log and span rings, cluster coordinator, worker pool, HTTP and text
  export: not part of this model.
