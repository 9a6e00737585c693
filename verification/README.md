# A Dafny model of a Raft-replicated key-value store

The system is a replicated key-value store in Go with three layers, all modelled here:

- **Raft** (`raft/node.go`, `raft/storage.go`, `raft/confstate.go`): elections, log replication with
  conflict-term backtracking, commit advancement, ReadIndex, snapshots, group commit with fsync before
  send, crash recovery, and membership changes.
- **The LSM storage engine** (`storage/`): a skip list, sparse-indexed sorted tables, a stack of tables
  with merging compaction, and a write-ahead log.
- **The state machine** (`server/statemachine.go`, parts of `server/server.go`): deduplication, snapshots,
  rebuilding by replay, acknowledging writes and serving reads.

`dafny verify dfyconfig.toml` checks everything.

## How the proofs fit together

**Raft.** `NodeSpec` gives every region of `raft/node.go` that runs under the node's lock as a function on
a node's state. The class `RaftNode.Node`, over the class `RaftDisk.DiskStorage`, is the code's own form:
fields updated in place, loops, one method per region. Each method is proved to change the node exactly as
its function says. `Cluster` is a step system over those functions: any number of nodes, a network that
only grows (so messages may be lost, repeated, delayed and reordered), crashes between steps, in the
middle of an append and inside a snapshot, compaction, snapshots sent to lagging followers, read calls. It
also records a history that no node can see: who voted for whom with which log, each leader's log, what
was acknowledged, what was committed.

Log Matching and Leader Completeness follow from the invariant on that history (`History`). `ClusterSteps`
shows that each of the 20 kinds of step keeps the invariant, and `ClusterSafety`, `ClusterLogs`,
`ClusterReads` and `EndToEnd` state the results for all runs. They relate two nodes at two different moments, in any order.
The `Progress` modules are the other side: they continue any run, step by step, to elections won, followers
brought up to date, commands committed and applied and reads answered.
`RaftReopen` puts a node and the bytes of its log file together and derives the cluster's Crash step from a
cut at any byte. The class `Wal.WAL` is the write-ahead log on its own, with its buffer and its fsync;
`DiskStorage` and `Engine` do not hold one, but keep the file's records or bytes as fields, so its results
reach them only through what a file of whole records is (`FileOf`, `WalHolds`) and replays to.

**Storage engine.** `Memtable` refines a sorted list of entries, `SSTable` is proved as a byte format, and
`Layers` says when a stack of lists stands for a map. The class `Engine` carries that map as a ghost field
which every operation keeps in step with the tables, the skip list and the bytes of the log.

**State machine.** `Commands` and `Dedup` have equations over arbitrary command logs. `StateMachine` has the
classes over the engine: a server follows a log, from a snapshot of it or from the start, and is then in
that log's state. `EndToEnd` joins them with the cluster, up to the answer a read returns.

## Hypotheses

- The set of voters is fixed in the cluster's runs, and 0 is not an id: `votedFor == 0` means no vote.
- A crash leaves a prefix of the log file's whole records. `RaftReopen.Reopen` derives this from a cut at any
  byte, for a file without a torn record inside; the code does not cut a torn record off, so after a cut
  inside a record it holds again only once a snapshot has replaced the file.
- What a reopened log file shows is durable. The code does not fsync it on opening, so this fails if a
  process dies and the machine loses power later.
- I/O succeeds; gob and protobuf are lossless; the checksum is any function.
- Numbers and lengths fit their fields, and tables stay below 2^32 entries and 2^63 bytes (`Roomy`, `Fits`).
- Terms and indices do not overflow 64 bits.
- The entries of an append request carry consecutive indices (`From`), as every leader sends them.

## What turned out not to hold

- **Reads after an election.** ReadIndex takes the commit index without an entry of the new term committed.
  `StaleRead.StaleReadExists` is a run of three nodes in which a read returns index 0 after index 2 was
  committed. `ClusterReads.ReadIndexFresh` holds when the leader has no entry of an earlier term above its
  commit index, which the leader can see before the call. No condition on what the leader holds could be
  exact: in `StaleRead.FreshTwinExists` the same leader state and the same answer are fresh.
- **Log Matching after a snapshot.** The code keeps all entries above an installed snapshot without comparing
  terms. `StaleSuffix.StaleSuffixExists` is a run in which a node ends with an entry of term 1 above one of
  term 2. `ClusterLogs.StaleIff` says for every run and moment exactly when a log has such a suffix, and
  `ClusterLogs.MatchesLeadersIff` that Log Matching fails exactly then. State Machine Safety, Leader
  Completeness, Election Safety and the results on reads and writes hold all the same: such entries are
  older than the commit below them, so they are never acknowledged, committed or elected.
- **Torn records.** OpenWAL appends after a torn record without cutting it. A later record is replayed,
  whatever it is, if and only if the file had no tail (`Wal.AppendSurvivesIffNoTail`). So a vote that was
  fsynced can be lost and given again (`RaftReopen.LostRecords`, `RaftReopen.VotesTwice`).
- **Acknowledging without fsync.** A follower acknowledges entries it already has without a sync. In
  `RaftReopen.AckLost` such an entry is lost. After a restart, acknowledgements mean fsynced entries exactly if
  the file was fsynced, or the follower has raised its term or written since (`RaftReopen.AckedIsDurableIff`).
- **Sequence number 0.** It makes the table forget the client. `Dedup.ExactlyOnceIff` says exactly when each
  command is executed once.
- **A crash inside saveSnapshot.** Between the renames of snapshot.bin and snapshot.meta the new contents stand
  under the old index, and commands are applied again over their own result. `Dedup.SnapshotRaceIff` says exactly
  when that changes nothing; `Dedup.SnapshotRaceLoses` is a case in which an update is lost.
- **Replay over what a crash left.** It converges if and only if the log writes every key that was left
  (`Commands.ReplayConvergesIff`). What crashed replays of the same log leave is of that kind.
- **Joint elections.** Counting votes does not ask for a majority of the old voters
  (`RaftQuorums.CountOnlyIsWeaker`). Quorums still intersect because one voter changes at a time.
- **Backtracking.** Log Matching between the two logs alone is not enough for progress
  (`Backtracking.PairwiseMatchingIsNotEnough`); that every entry is one its term's leader had there is.
- Smaller points, modelled as the code has them: HandleReadIndex replies with the term it had before
  stepping down; a lone voter never wins, as leadership is taken only on a peer's reply
  (`ClusterPeers.LoneVoterNeverLeads`); AddNode on an empty voter set panics, as it assigns into a nil map.

## Model

| member | source | states |
|---|---|---|
| `ClusterSafety.StateMachineSafety` | raft/node.go:863-919 | State Machine Safety: in every run, snapshots under stale suffixes included, no two nodes ever apply different entries at the same index |
| `ClusterSafety.LeadersHaveCommitted` | raft/node.go:539-555 | Leader Completeness: what any node ever knew to be committed is a prefix of the log of every leader of a later term, at any moment of the run |
| `ClusterSafety.CommittedPrefixesAgree` | raft/node.go:539-700 | the committed parts of two nodes' logs, at any two moments, agree wherever both reach |
| `ClusterSafety.ElectionSafety` | raft/node.go:293-350 | at most one node is ever leader in a term, across any number of crashes that leave whole records and restarts on what was left |
| `ClusterLogs.LogMatchingInRuns` | raft/node.go:628-700 | entries with the same index and term, on any two nodes at any two moments and neither in a suffix that is stale at that moment, have equal logs up to them |
| `ClusterLogs.LogsWellFormed` | raft/storage.go:171-195 | indices are contiguous and no term exceeds the node's; terms never decrease, up to a suffix that is stale now; snapshot, applied, commit, synced and last index are in that order |
| `ClusterSafety.ReachableInv` | raft/node.go:293-919 | every state of every run satisfies the cluster's invariant |
| `ClusterSafety.RunGrows` | raft/node.go:203-245 | votes, leaders' logs, acknowledgements, commits, applied entries and proposals are never taken back |
| `ClusterLogs.StaleIff` | raft/storage.go:226-231 | in every run, at every moment, a node's log goes back to leaders' logs if and only if it has no stale suffix: every snapshot it installed under entries that do not match has since been followed by a write of a leader's entries or a snapshot in place of the whole log |
| `ClusterLogs.MatchesLeadersIff` | raft/node.go:628-747 | Log Matching, exactly: a node's log matches the log of every leader so far if and only if it has no stale suffix now |
| `ClusterLogs.Fate` | raft/node.go:628-747 | one step of a node leaves a stale suffix if it installs over one that does not match, removes it if it writes or replaces the log, and otherwise leaves things as they were |
| `ClusterLogs.CommitsOptimally` | raft/node.go:539-552 | the commit rule is optimal for every leader of every run: it advances exactly if some higher index of the leader's term is held by a majority, and to the greatest such |
| `ClusterReads.ReadIndexFresh` | raft/node.go:768-841 | a read call that returns yields an index at or above every commit index any node had before the call began, if no entry of an earlier term lay above the leader's commit index |
| `ClusterReads.ReadCoversCommits` | raft/node.go:768-841 | the same for every commit in the history, and the index returned is the commit index at the start |
| `ClusterReads.QuorumIsFresh` | raft/node.go:843-861 | a quorum of confirmations meets the winners of every later election, so no later leader committed before the call |
| `ClusterReads.AcknowledgedIsApplied` | server/server.go:185-220 | an entry applied at the index and with the term Propose returned is the proposed command |
| `ClusterReads.AcknowledgedIsRead` | server/server.go:259-296 | a write acknowledged before a read began is in the log the reading node has applied through the read index |
| `ProgressCommit.MajorityCommits` | raft/node.go:203-919 | availability: from any state of any run, any majority of at least two can go on by itself until every one of its members has applied any given new command, at one index above everything any node ever knew to be committed |
| `ProgressCommit.CommitReachesAll` | raft/node.go:693-697 | any run can be continued to one in which every node knows of everything that any node had known to be committed |
| `ProgressCommit.LeaderHoldsCommits` | raft/node.go:539-555 | a leader that no node of a majority has passed holds everything that any node has ever known to be committed |
| `ProgressCommit.CommitAll` | raft/node.go:468-555 | such a leader can commit its whole log and tell the majority |
| `ProgressCommit.ReadReturns` | raft/node.go:768-861 | a read can return the commit index the leader had, if the others of some majority are in no later term and no candidates in its own |
| `ProgressCommit.ReadAfterCommit` | raft/node.go:768-861 | after such a commit a read can return, with an index that covers it |
| `ProgressLead.LeaderArises` | raft/node.go:293-391 | from any state of any run, any majority can go on by itself until one of its members leads and none has passed its term |
| `ProgressVote.ElectionCanBeWon` | raft/node.go:322-350 | a candidate wins with any majority whose members are in no later term, have not voted for another in its term, and have logs no more up to date than its own |
| `ProgressAppend.CatchUp` | raft/node.go:438-537 | a leader can bring any peer in no later term up to its whole log, by backtracking or by its snapshot, and the peer learns the leader's commit index |
| `ProgressAppend.CommitSpreads` | raft/node.go:693-697 | in every run a follower that accepts a request knows at least the commit index the leader had when it sent it |
| `ProgressAppend.Confirmed` | raft/node.go:468-491 | a success raises what the leader knows of the peer, and once more than half hold the whole log it is committed |
| `ClusterPeers.TermsAdopted` | raft/node.go:380-391 | after any message a node handles, request or reply, its term is the greater of the two, and it neither leads nor stands if the message's was greater |
| `ClusterPeers.TermsGrow` | raft/node.go:380-391 | no node's term ever falls, across crashes too |
| `ClusterPeers.LeaderCanSend` | raft/node.go:399-466 | in every run a leader can send every peer either entries or its snapshot, never both |
| `ClusterPeers.NamedWasElected` | raft/node.go:628-641 | in every run the leader a node names was elected, in a term no later than the node's |
| `ClusterPeers.ReachablePeers` | raft/node.go:293-537 | in every run a leader's next indices stay inside its log, a candidate has asked with its current log and has not won yet, and replies speak of nothing past the log of the leader that asked |
| `ClusterPeers.LoneVoterNeverLeads` | raft/node.go:322-350 | with one voter no run ever has a leader |
| `StaleRead.StaleReadExists` | raft/node.go:768-776 | a concrete run in which ReadIndex returns an index below one already committed |
| `StaleRead.FreshTwinExists` | raft/node.go:768-776 | a run in which the same leader state gives the same answer and it is fresh, so nothing a leader holds decides freshness |
| `StaleSuffix.StaleSuffixExists` | raft/storage.go:226-231 | a concrete run in which a node installs a snapshot and ends with an entry of term 1 above one of term 2 |
| `EndToEnd.ReplicasAgree` | server/server.go:126-182 | two nodes that applied k entries, at any two moments, applied the same entries and are in the same state |
| `EndToEnd.ExecutedOnce` | server/statemachine.go:48-71 | on every replica a log with retries has the effect of each command executed once, in order of first appearance |
| `EndToEnd.AcknowledgedIsPermanent` | server/server.go:185-220 | once an entry with the term of a proposal is applied at its index, every node that ever has that index committed has the proposed command there |
| `EndToEnd.ProposeSucceeds` | server/server.go:185-220 | a call that registered for the index Propose returned is told success only if the entry applied there is its command, its execution was no error, and every node agrees on it for good |
| `EndToEnd.AppliesCommands` | server/server.go:148-156 | the apply loop over entries is the application of the commands they decode to |
| `EndToEnd.CommandDecides` | server/statemachine.go:48-71 | a put or delete that is no duplicate decides what a reader of its key finds, until the next command on that key |
| `EndToEnd.ReadSeesWrite` | server/server.go:259-296 | a put or delete acknowledged before a read began is what the server finds at any applied index from the read index on, unless a later command in the applied log is on the same key or it was a duplicate |
| `EndToEnd.ReadOverLeftovers` | server/server.go:67-114 | a settled read of a server restarted without a snapshot, over whatever earlier lives left in its engine, is served from the state of the applied log from empty |
| `EndToEnd.CoversEverywhere` | server/server.go:126-182 | a server on the log of one node at one moment is on that of any node that has applied as much, at any moment |
| `EndToEnd.LeftoverIsCurrent` | server/server.go:67-114 | a server restarted over leftovers that has reached a settled read index is in the state of its node's log from empty |
| `EndToEnd.ServeRead` | server/server.go:259-296 | the answer itself: refused exactly if the server is behind the read index; otherwise what a put or delete acknowledged before the read began left, after a snapshot as well as over leftovers, unless a later command in the applied log is on the same key or it was a duplicate |
| `History.LogMatching` | raft/node.go:628-691 | logs that go back to leaders' logs agree up to any shared index and term |
| `History.LeaderCompleteness` | raft/node.go:612-624 | an entry committed in a term is in the log of the leader of every later term |
| `History.CandidateHasPrefix` | raft/node.go:612-624 | a candidate more up to date than a voter that held a committed prefix has that prefix |
| `History.RootedSorted` | raft/node.go:238-245 | such logs have nondecreasing terms |
| `History.StaleMismatch` | raft/node.go:643-681 | no leader's log has an entry of a stale suffix together with the prefix below it |
| `ClusterSteps.NextInv` | raft/node.go:293-919 | every one of the twenty kinds of step keeps the invariant and only adds to the history |
| `ClusterSteps.StandStep` | raft/node.go:293-319 | standing for election keeps the invariant |
| `ClusterSteps.VoteReqStep` | raft/node.go:598-626 | answering a vote request keeps the invariant |
| `ClusterSteps.VoteRespStep` | raft/node.go:327-378 | counting a vote, and winning, keep the invariant |
| `ClusterSteps.AppendStep` | raft/node.go:628-700 | handling an append request keeps the invariant |
| `ClusterSteps.AppendRespStep` | raft/node.go:468-515 | handling the reply, with commit advancement or backtracking, keeps the invariant |
| `ClusterSteps.SendStep` | raft/node.go:393-466 | sending only after an fsync keeps the invariant |
| `ClusterSteps.CommandStep` | raft/node.go:203-245 | taking a command keeps the invariant and records index, term and command |
| `ClusterSteps.ApplyStep` | raft/node.go:863-919 | the applier keeps the invariant and hands over committed entries only |
| `ClusterSteps.SnapshotStep` | raft/node.go:749-760 | compaction keeps the invariant |
| `ClusterSteps.CrashStep` | raft/storage.go:49-115 | a crash that keeps any prefix of the log from the synced index on, and a restart on it, keep the invariant |
| `ClusterSteps.TornStep` | raft/node.go:682-691 | a crash between the append and the fsync keeps the invariant |
| `ClusterSteps.CrashInSnapshotStep` | raft/storage.go:208-271 | a crash inside a local snapshot, with the new metadata and the old log file, keeps the invariant |
| `ClusterSteps.SendSnapStep` | raft/node.go:414-436 | a snapshot that is sent stands for a committed prefix of the leader's log |
| `ClusterSteps.SnapStep` | raft/node.go:702-747 | handling a snapshot keeps the invariant, whatever suffix the follower keeps above it |
| `ClusterSteps.SnapRespStep` | raft/node.go:517-537 | raising the match index on a snapshot reply keeps the invariant: nothing that is still to be committed rests on it |
| `ClusterSteps.ReadStartStep` | raft/node.go:768-789 | starting a read call keeps the invariant |
| `ClusterSteps.ReadReqStep` | raft/node.go:843-861 | a node that confirms leadership helped elect no later leader |
| `ClusterSteps.ReadRespStep` | raft/node.go:802-825 | counting a confirmation keeps the invariant |
| `ClusterSteps.ReadReturnStep` | raft/node.go:827-841 | a call returns only with a majority of confirmations |
| `ClusterSteps.EarlierCommitsBelow` | raft/node.go:352-378 | what earlier terms committed lies below every entry of the leader's own term |
| `ClusterSteps.AckWholeVouches` | raft/node.go:668-699 | what a follower acknowledges is on its disk, or was committed before |
| `ClusterSteps.TornInv` | raft/node.go:682-691 | whatever part of the new entries reached the disk, the node reopens with everything it had acknowledged |
| `ClusterElection.FirstLeader` | raft/node.go:332-350 | a candidate with a majority of votes is the first leader of its term |
| `ClusterElection.NewBallotInv` | raft/node.go:612-624 | a vote is cast by a node that holds what it acknowledged and whose log ends no earlier, for a candidate at least as up to date |
| `ClusterElection.NewReignInv` | raft/node.go:352-378 | the winner's log goes back to leaders' logs and its majority of votes is on record, which is what Leader Completeness needs of a leader |
| `ClusterElection.WinnerRooted` | raft/node.go:612-624 | a candidate with a stale suffix does not win |
| `ClusterElection.WinnerIsCurrent` | raft/node.go:612-624 | a winner's log ends in a term no older than any earlier commit |
| `ClusterElection.StaleIsOlder` | raft/storage.go:226-231 | a stale suffix is older than the commit of the prefix below it |
| `ClusterAppend.PrefixAgrees` | raft/node.go:643-666 | a follower that passes the consistency check agrees with the leader up to the previous index |
| `ClusterAppend.MergeIs` | raft/node.go:668-691 | the follower's log afterwards is the leader's up to the last entry sent, or unchanged if it had them all |
| `ClusterAppend.OverwriteKeepsAck` | raft/node.go:668-691 | truncating a conflict drops an acknowledged prefix only if the later leader lacks it |
| `ClusterAppend.AcceptInv` | raft/node.go:668-700 | accepting entries keeps the node's invariant, and the log then holds everything sent |
| `ClusterAppend.CommittedInReign` | raft/node.go:693-697 | what a node knows to be committed is a prefix of the log of the leader of its term or any later one |
| `ClusterAppend.LogAgrees` | raft/node.go:643-681 | above its snapshot a node has an entry of the leader's term at an index only together with everything before it; in a stale suffix it has none |
| `ClusterAppend.StaleCovers` | raft/node.go:668-699 | a node with a stale suffix that writes nothing acknowledges only what lies below the suffix |
| `ClusterCommit.QuorumAcked` | raft/node.go:539-555 | behind a committed index stands a majority that has it on disk |
| `ClusterCommit.NotCovered` | raft/node.go:539-555 | what a leader is about to commit in its own term has not been committed before |
| `ClusterCommit.CommitNode` | raft/node.go:539-555 | advancing the commit index keeps the invariant |
| `ClusterCommit.ProposeNode` | raft/node.go:203-245 | appending the leader's own entry keeps the invariant |
| `InstallSnapshot.InstalledRootedIff` | raft/storage.go:226-231 | the log after installing a snapshot goes back to leaders' logs if and only if the retained suffix matches the snapshot's last term |
| `InstallSnapshot.InstallInv` | raft/node.go:702-747 | installing keeps the node's invariant whatever the suffix, and the log holds what the snapshot stands for |
| `InstallSnapshot.KeptIsStale` | raft/storage.go:226-231 | a suffix that does not match comes from leaders that did not have the snapshot's entries |
| `InstallSnapshot.KeptOrDiverged` | raft/node.go:702-747 | an acknowledged prefix is lost by installing only if the leader behind the snapshot lacked it |
| `InstallSnapshot.MatchedSuffix` | raft/storage.go:226-231 | a suffix that matches is the log's own continuation of the snapshot |
| `InstallSnapshot.OldSnapshot` | raft/node.go:717-720 | what an already covered snapshot stands for is in the log |
| `Backtracking.RejectionBacktracks` | raft/node.go:493-513 | in every run, handling a rejection makes the next index strictly smaller than the one the request used; with a follower that had no stale suffix it stays above the common prefix, or falls to where the leader sends its snapshot |
| `Backtracking.BacktrackExact` | raft/node.go:493-513 | the same for any leader's log, compacted or not, and any follower's log whose entries are ones their leaders had there; the lower bound if it is made of leaders' logs |
| `Backtracking.RepairEqualizes` | raft/node.go:493-513 | repair ends after finitely many rejections, with the follower's log starting with the leader's whole log |
| `Backtracking.Repair` | raft/node.go:468-515 | there are at most as many rejections as entries between the first position tried and the common prefix, none if it starts inside it, and the last request is accepted |
| `Backtracking.PairwiseMatchingIsNotEnough` | raft/node.go:493-513 | two logs that satisfy Log Matching between them on which backtracking does not progress |
| `Backtracking.RunStartSpec` | raft/node.go:650-659 | the conflict index is the start of the run of equal terms |
| `Backtracking.ScanBackSpec` | raft/node.go:493-507 | the leader's scan finds its last entry of the conflicting term, or none |
| `RaftQuorums.QuorumsIntersect` | raft/confstate.go:32-100 | any set that elects or confirms meets any other and any set that commits, anywhere in one old, joint, new transition of a reachable configuration |
| `RaftQuorums.QuorumsIntersectStable` | raft/confstate.go:54-90 | the same inside one configuration |
| `RaftQuorums.ReachableConf` | raft/confstate.go:103-133 | every reachable configuration has voters, and joint ones differ from them by one server |
| `RaftQuorums.ElectIsMajority` | raft/confstate.go:51-59 | in a reachable configuration, joint ones included, a set can elect, and can confirm a read, exactly if it is more than half of all peers |
| `RaftQuorums.QuorumsCount` | raft/confstate.go:51-59 | in any configuration, by counting: who can elect is more than half as many as the voters, and in joint mode as the old voters; who can confirm is besides more than half of all peers |
| `RaftQuorums.CommitIsMajority` | raft/confstate.go:84-90 | if more than half of the voters, and of the old ones in joint mode, hold an index, more than half of all peers do |
| `RaftQuorums.TransitionIsApplied` | raft/confstate.go:102-132 | an accepted change enters the joint configuration of the current voters, and LeaveJoint leaves it for the new ones |
| `RaftQuorums.ChangeCompletes` | raft/confstate.go:102-132 | an accepted change followed by LeaveJoint adds, or removes, exactly that voter |
| `RaftQuorums.MembershipIff` | raft/confstate.go:102-132 | after any list of changes a node is a voter if and only if the last accepted change on it added it, or there was none and it was a voter at the start |
| `RaftQuorums.JointIff` | raft/confstate.go:102-132 | a change is under way exactly if the last accepted one was not a LeaveJoint |
| `RaftQuorums.AcceptedIff` | raft/confstate.go:102-132 | what is accepted: additions outside a joint configuration, removals there of a voter that is not the last, LeaveJoint inside one |
| `RaftQuorums.CountOnlyIsWeaker` | raft/confstate.go:54-59 | a joint configuration that elects without a majority of the old voters |
| `RaftConf.QuorumsMeet` | raft/confstate.go:51 | two majorities of one set share a member |
| `RaftConf.MaxCommit` | raft/confstate.go:62-82 | the greatest index that more than half of the voters hold, and of the old voters in joint mode, or 0 |
| `RaftConf.CommitCounts` | raft/confstate.go:84-90 | an index can be committed if and only if twice its holders outnumber the voters, and in joint mode the old voters |
| `RaftConf.HalfIsNotEnough` | raft/confstate.go:51 | any smaller number would not do: half of the servers or fewer have two disjoint sets of that size |
| `RaftConf.CanCommitAntitone` | raft/confstate.go:84-100 | what can be committed is downward closed |
| `RaftConfCode.MaxCommitIndex` | raft/confstate.go:62-82 | the loop over the sorted match indices returns the greatest index that more than half hold, in both modes |
| `RaftConfCode.CanCommit` | raft/confstate.go:84-90 | true if and only if more than half of the voters, and in joint mode of the old ones, hold the index |
| `RaftConfCode.CountGE` | raft/confstate.go:92-100 | the loop counts the ids whose match index is at least idx |
| `RaftConfCode.SortedKeys` | raft/confstate.go:150-157 | the ids in ascending order, each once |
| `RaftConfCode.SortDescending` | raft/confstate.go:67-71 | a descending permutation |
| `RaftConfCode.SomeMatchCommits` | raft/confstate.go:62-82 | if some index can be committed, so can a recorded match index at or above it |
| `RaftConfCode.CommitRuleIsOptimal` | raft/node.go:539-552 | in any configuration, joint ones included, testing only the highest index the required majorities hold advances exactly when some higher index of the current term could be committed, and to the greatest such |
| `RaftConfCodec.EncodeConfState` | raft/confstate.go:159-177 | the bytes written decode to the configuration |
| `RaftConfCodec.DecodeConfState` | raft/confstate.go:179-213 | the loop computes the meaning of the bytes, or reports them invalid |
| `RaftConfCodec.RoundTrip` | raft/confstate.go:159-213 | the meaning of encoded voters and joint voters is the configuration |
| `RaftDisk.DiskStorage.Open` | raft/storage.go:49-115 | the records found, already decoded, are replayed over the snapshot's index and count as durable |
| `RaftDisk.DiskStorage.SetHardState` | raft/storage.go:157-167 | term and vote are written and fsynced, with everything appended before |
| `RaftDisk.DiskStorage.Sync` | raft/storage.go:197-206 | afterwards nothing is pending |
| `RaftDisk.DiskStorage.AppendEntries` | raft/storage.go:171-195 | a conflicting suffix is cut and the entries follow; memory stays what the file replays to |
| `RaftDisk.DiskStorage.SaveSnapshot` | raft/storage.go:208-271 | exactly the entries above the index stay, in a log file that replays to them |
| `RaftDisk.DiskStorage.LastIndex` | raft/storage.go:295-300 | the snapshot's index plus the entries held |
| `RaftStorage.CrashRecovers` | raft/storage.go:49-115 | after a crash at any moment of any run, with any part of the unsynced records kept, replay rebuilds a term, vote and log the run had at or after its last fsync |
| `RaftStorage.SnapshotCrash` | raft/storage.go:208-271 | a crash between any two renames of saveSnapshot recovers a term, a vote and the whole log above the recovered index that the run had at or after its last fsync, and the bytes that belong to that index except between the first two renames |
| `RaftStorage.FilterCommutes` | raft/storage.go:75-105 | replaying over a later snapshot gives the same term and vote and exactly the entries above it |
| `RaftStorage.MicroKeepsInv` | raft/storage.go:157-271 | memory stays what the file replays to |
| `RaftRecords.RecordRoundTrip` | raft/storage.go:117-144 | every record decodes from its bytes |
| `RaftRecords.CutKeepsRecords` | raft/storage.go:75-105 | however the file is cut above its fsynced part, replay delivers the fsynced records and some of the next ones, decoded |
| `RaftReopen.OpenStorage` | raft/storage.go:49-115 | opening the bytes of a log file replays its records, and fails exactly if one of them does not decode |
| `RaftReopen.Reopen` | raft/storage.go:49-115 | cutting a node's log file at any byte above its fsynced part and restarting is the Crash step of the cluster; the bytes left are again a file of whole records if and only if the cut is between two |
| `RaftReopen.CutIsFileIff` | storage/wal.go:68-97 | the bytes left are the file of the records they replay to exactly if the cut is between two records |
| `RaftReopen.LostRecords` | storage/wal.go:22-33 | whatever is appended after the header of a record torn in an earlier life is not found again, while it is shorter than that record, for every checksum |
| `RaftReopen.VotesTwice` | raft/node.go:598-626 | from the bytes of such a file: opened, the node grants its vote and the records are fsynced; opened again, it grants the same term's vote to another candidate |
| `RaftReopen.AckedIsDurableIff` | raft/node.go:668-699 | after a restart and any requests, everything the follower may acknowledge next is fsynced, if and only if the file was all fsynced at the restart or one of the requests raised the term or made it write |
| `RaftReopen.NextAckIff` | raft/node.go:668-699 | what a follower may acknowledge next is fsynced whatever the request, exactly if its whole log is |
| `RaftReopen.AckLost` | raft/node.go:668-699 | a concrete entry that is acknowledged after a restart without ever being fsynced, and lost at the next power failure |
| `RaftNode.Node.constructor` | raft/node.go:123-154 | a new node is a restarted one on what the storage holds |
| `RaftNode.Node.StepDown` | raft/node.go:380-391 | changes the node as NodeSpec.StepDown |
| `RaftNode.Node.StartElection` | raft/node.go:293-320 | stands with the next term exactly if a voter and not alone with an empty log, and asks with its last index and term |
| `RaftNode.Node.HandleRequestVote` | raft/node.go:598-626 | state and reply are those of NodeSpec.HandleRequestVote |
| `RaftNode.Node.HandleVoteReply` | raft/node.go:332-347 | changes the node as NodeSpec.HandleVoteReply |
| `RaftNode.Node.BecomeLeader` | raft/node.go:352-378 | the no-op is appended and fsynced, next and match indices start over |
| `RaftNode.Node.Propose` | raft/node.go:203-215 | appends at the next index with the current term, or refuses |
| `RaftNode.Node.AppendEntry` | raft/node.go:238-245 | the log gains the entry and the leader counts as holding it |
| `RaftNode.Node.SyncLog` | raft/node.go:393-397 | the whole log is durable |
| `RaftNode.Node.SendAppend` | raft/node.go:438-466 | the request is that of NodeSpec.SendAppend, or none if the entry was compacted away |
| `RaftNode.Node.HandleAppendReply` | raft/node.go:468-515 | changes the node as NodeSpec.HandleAppendReply, which the cluster's and the backtracking results are about |
| `RaftNode.Node.AdvanceCommit` | raft/node.go:539-555 | changes the node as NodeSpec.AdvanceCommit |
| `RaftNode.Node.ScanBack` | raft/node.go:493-507 | the scan over the storage equals the scan over the whole log |
| `RaftNode.Node.HandleAppendEntries` | raft/node.go:628-700 | state and reply are those of NodeSpec.HandleAppendEntries |
| `RaftNode.Node.AcceptEntries` | raft/node.go:668-697 | only entries the log does not have are written, then fsynced, and the commit index moves at most to the last of them |
| `RaftNode.Node.FirstNew` | raft/node.go:668-681 | the loop stops at the first entry that is neither compacted nor in the log |
| `RaftNode.Node.ConflictStart` | raft/node.go:650-659 | the loop finds the start of the run of the conflicting term |
| `RaftNode.Node.ApplyCommitted` | raft/node.go:863-919 | hands over exactly the entries between the applied and the commit index that are not compacted, in order |
| `Applier.HandedIsRecorded` | raft/node.go:863-919 | what a round of the applier is on record for are exactly its messages |
| `Applier.AppliedIsHandedOver` | raft/node.go:863-919 | in every run a node has handed over every entry between its snapshot and its applied index, and what it handed over is what its log has there |
| `Applier.RoundIsNext` | raft/node.go:863-919 | a round is the stretch of the log from where the last one ended to the commit index, none left out and none twice |
| `Applier.ApplyRound` | server/server.go:126-182 | a round of the applier fed to the apply loop keeps a server on its node's log and takes it to the new applied index |
| `Applier.CompactionReaches` | raft/node.go:749-760 | in every run a node can compact up to any index it has applied, and the log stays the same |
| `RaftNode.Node.Snapshot` | raft/node.go:749-760 | refused beyond the applied index; the whole log stays the same log |
| `RaftNode.Node.SendSnapshot` | raft/node.go:414-436 | the request carries the snapshot and the index and term it stands for |
| `RaftNode.Node.HandleInstallSnapshot` | raft/node.go:702-747 | state and reply are those of NodeSpec.HandleInstallSnapshot |
| `RaftNode.Node.HandleSnapshotReply` | raft/node.go:517-537 | changes the node as NodeSpec.HandleSnapshotReply |
| `RaftNode.Node.HandleReadIndex` | raft/node.go:843-861 | state and reply are those of NodeSpec.HandleReadIndex |
| `RaftNode.Node.CrashKeeps` | raft/storage.go:49-115 | whatever a crash keeps, the reopened storage has the same term and vote and the log up to some index at or above the synced one |
| `Memtable.Memtable.Put` | storage/memtable.go:38-64 | for any height drawn, the list becomes the old one with the entry put in key order |
| `Memtable.Memtable.Get` | storage/memtable.go:67-81 | finds the entry with the key, if there is one |
| `Memtable.Memtable.Entries` | storage/memtable.go:84-93 | all entries in key order |
| `Memtable.Memtable.ApproxSize` | storage/memtable.go:95-99 | the exact sum of key and value lengths and 32 per entry |
| `Memtable.Memtable.FindPath` | storage/memtable.go:42-49 | on every level the last node before the key |
| `Memtable.Memtable.InsertNode` | storage/memtable.go:56-63 | splicing keeps every level a sublist of level 0, and size and count exact |
| `Memtable.Memtable.Overwrite` | storage/memtable.go:50-55 | only the entry's value changes and the size follows |
| `Memtable.Memtable.LevelsSorted` | storage/memtable.go:38-64 | following a pointer of any level leads to a strictly greater key |
| `Memtable.RandomHeight` | storage/memtable.go:30-36 | between 1 and the maximum height |
| `SkipLevels.SuccOfOld` | storage/memtable.go:58-61 | on every level exactly the pointer that spans the new position moves to the new node, if the node is tall enough |
| `SkipLevels.SuccOfNew` | storage/memtable.go:58-61 | the new node inherits its predecessor's pointer on each of its levels |
| `Keys.PutSortedIs` | storage/memtable.go:38-64 | putting keeps the order, and a lookup then finds the new entry for its key and the old one for any other |
| `SSTable.WriteSSTable` | storage/sstable.go:40-102 | the loops write the data, every 16th key with its offset, and the footer |
| `SSTable.OpenSSTable` | storage/sstable.go:104-165 | the loops compute what the bytes open to, with every refusal |
| `SSTable.OpenWritten` | storage/sstable.go:40-165 | opening the bytes of a sorted list gives its table |
| `SSTable.Get` | storage/sstable.go:207-236 | range filter, binary search on the index and forward scan equal linear lookup, for every key |
| `SSTable.SearchIndex` | storage/sstable.go:211-215 | the binary search finds the first index key above the key |
| `SSTable.ScanForData` | storage/sstable.go:169-192 | scanning encoded records that may stop at a greater key equals linear lookup |
| `SSTable.All` | storage/sstable.go:239-250 | all entries, in order |
| `SSTable.ReadIndex` | storage/sstable.go:141-151 | the loop parses the index |
| `SSTable.IndexAt` | storage/sstable.go:47-71 | the k-th index entry has the key and the offset of entry 16k |
| `SSTable.RecParses` | storage/sstable.go:169-192 | a record parses back, whatever follows it |
| `Layers.PutModels` | storage/engine.go:139-157 | a put into the top list is a put, or for a tombstone a deletion, in the map |
| `Layers.FlushModels` | storage/engine.go:192-225 | an empty list on top changes nothing |
| `Layers.MergeOne` | storage/engine.go:230-240 | merging oldest first, the newest entry of each key stays |
| `Layers.CompactModels` | storage/engine.go:229-270 | one list without tombstones in place of all tables stands for the same map, so no key is revived |
| `Engine.Engine.Open` | storage/engine.go:44-94 | opening the files and the log gives an engine with their contents, also with a torn record at the end of the log; the log is intact exactly if it had none |
| `Engine.Engine.Write` | storage/engine.go:139-157 | the map is updated; the engine stays valid through any flush and compaction that follows |
| `Engine.Engine.Get` | storage/engine.go:160-183 | the map's value |
| `Engine.Engine.Flush` | storage/engine.go:186-190 | the map stays and the memtable is empty |
| `Engine.Engine.FlushLocked` | storage/engine.go:192-225 | the map stays and the memtable is empty; if anything was flushed, the log is intact and no more than six tables are left |
| `Engine.Engine.CompactLocked` | storage/engine.go:229-270 | the map stays; one table is left |
| `Engine.Engine.SnapshotEntries` | storage/engine.go:274-298 | exactly the map |
| `Engine.Engine.Reset` | storage/engine.go:301-329 | the map is the one given |
| `Engine.Engine.MergeTables` | storage/engine.go:229-240 | for every key the newest entry in any table |
| `Engine.LiveSorted` | storage/engine.go:241-251 | the entries that are not tombstones, in key order |
| `Engine.Reopen` | storage/engine.go:44-94 | closing and opening keeps the map, if the log was intact |
| `Engine.OpenEngine` | storage/engine.go:44-94 | on any log file: refused exactly if a replayed record does not decode, and otherwise the tables' map with the replayed writes done to it in order |
| `Engine.ReplayModels` | storage/engine.go:76-87 | replaying writes into an empty memtable above the tables does them to the map |
| `EngineFormat.RecordRoundTrip` | storage/engine.go:102-129 | a log record decodes from its bytes |
| `EngineFormat.WalReplays` | storage/engine.go:76-87 | replaying a log file of whole records delivers every write in order |
| `Wal.ReplayWAL` | storage/wal.go:68-97 | the loop delivers the records before the first torn or corrupt one |
| `Wal.ReplayEncode` | storage/wal.go:68-97 | bytes after whole records never alter or hide those records |
| `Wal.ReplayCut` | storage/wal.go:68-97 | after a cut at any byte, exactly the records that fit wholly before it; no tail is left exactly at record boundaries |
| `Wal.WholeFits` | storage/wal.go:36-48 | that number is the greatest whose encoding fits |
| `Wal.CutKeepsPrefix` | storage/wal.go:68-97 | a cut above the first records leaves those and some of the next ones |
| `Wal.ReplaySplit` | storage/wal.go:22-48 | what replay makes of bytes appended to any file |
| `Wal.AppendSurvivesIffNoTail` | storage/wal.go:22-48 | every record appended to a file is replayed if and only if the file has no tail |
| `Wal.TornTailSwallows` | storage/wal.go:22-48 | a record cut off after its header swallows what is appended next until the announced length has followed |
| `Wal.WAL.constructor` | storage/wal.go:22-33 | any file is opened as it is; the offset starts at its size |
| `Wal.WAL.Append` | storage/wal.go:36-48 | one more record, wherever the buffered writer has put its bytes |
| `Wal.WAL.Sync` | storage/wal.go:51-56 | every record is in the file and durable |
| `Wal.WAL.CrashReplays` | storage/wal.go:12-15 | after any crash replay delivers what it would have delivered at the opening, every record synced since and some later ones, in order, if the file had no tail |
| `Commands.ExactlyOnce` | server/statemachine.go:48-71 | with numbered commands, applying a log equals executing each command once with no table, and leaves the same table as the log without retries |
| `Commands.ApplySplit` | server/statemachine.go:83-118 | applying a log in two parts is applying it at once |
| `Commands.SeqZeroForgets` | server/statemachine.go:67-69 | a log in which number 0 makes a retry run again |
| `Dedup.ExactlyOnceIff` | server/statemachine.go:48-71 | where positive numbers are used as they should, exactly the commands without retries are executed, in order, if and only if every retry has a positive number that the table still remembers |
| `Dedup.TableRemembers` | server/statemachine.go:52-69 | for any log, the table has reached a number for a client exactly if a known command of at least that number came after the client's last number 0 |
| `Dedup.ZeroAlwaysRuns` | server/statemachine.go:52-54 | a command numbered 0 is executed whatever came before |
| `Dedup.ReapplyIff` | server/statemachine.go:48-71 | applying commands to a state changes nothing if and only if those that run leave every key and every client where it is |
| `Dedup.SnapshotRaceIff` | raft/storage.go:212-221 | applying commands again over their own result, as after a crash between the renames of snapshot.bin and snapshot.meta, keeps the state if and only if on every key the last unnamed one leaves what the last of all left |
| `Dedup.SnapshotRaceLoses` | raft/storage.go:212-221 | two commands after which such a crash loses the second |
| `Commands.ReplayConvergesIff` | server/statemachine.go:43-71 | executing a list of known commands over leftover contents gives the same store as from empty if and only if they write every key that was left |
| `Commands.RebuildConverges` | server/server.go:67-114 | whatever sequence of crashed partial replays left, replaying the whole log gives the store of a replay from empty |
| `Commands.TracksAll` | server/statemachine.go:48-71 | the table holds for every client a number it used, no smaller than any of its executed commands |
| `StateMachine.StateMachine.Apply` | server/statemachine.go:48-71 | store and table change as the command says; an unknown operation is an error |
| `StateMachine.StateMachine.TakeSnapshot` | server/statemachine.go:83-100 | the whole store and table |
| `StateMachine.StateMachine.Restore` | server/statemachine.go:102-118 | store and table are those of the snapshot |
| `StateMachine.Transfer` | server/statemachine.go:83-118 | a snapshot taken on one node and restored on another carries the whole state over |
| `StateMachine.Server.constructor` | server/server.go:63-122 | the node's snapshot, if it has one, replaces what the engine held, and the server starts at its index with nobody waiting |
| `StateMachine.Server.OnCommand` | server/server.go:148-180 | applies the entry, answers the call waiting for its index with its term and whether it was an error, and asks for a snapshot every 10000 entries; the state stays that of the entries applied since the last snapshot |
| `StateMachine.Server.OnSnapshot` | server/server.go:129-136 | the state and the applied index are the snapshot's |
| `StateMachine.Server.Get` | server/server.go:259-296 | refused until everything through the read index is applied, then the value in the state of the entries applied |
| `StateMachine.ApplyLogSplit` | server/server.go:126-182 | applying a log in two parts |
| `StateMachine.Server.CoversIsCurrent` | server/server.go:63-182 | a server that got to its applied index from a snapshot of a log and then entry by entry is in the state of that log up to there, from empty |
| `StateMachine.FollowLog` | server/server.go:126-182 | the apply loop, handed the log's next entry, stays on the log |
| `StateMachine.FollowAll` | server/server.go:126-182 | the apply loop over any stretch that follows the applied index keeps the server on the log and ends at its end |
| `StateMachine.Hand` | server/statemachine.go:83-118 | exactly once, with snapshots: one taken after any prefix of the log and restored on another server, whatever that held, puts it on the same log at the same index, in the same state |
| `StateMachine.StartOn` | server/server.go:63-122 | a server started with a snapshot of the log, or with none and an empty engine, is on the log |

## Left out

- Live membership changes in the cluster's runs, and configuration records in the storage; the quorum results cover every reachable configuration instead.
- The order in which the message of an installed snapshot and the applier's messages reach the apply channel.
- Failures of I/O and fsync, file names, file handles, and the strength of the checksum.
- Crashes inside compaction or in the middle of writing a table; both are single steps of the engine.
- Timers, timeouts, goroutine scheduling, channels, `inflight`, contexts and deadlines; steps may happen in any order instead.
- Liveness: the `Progress` results say that every run has a continuation of the stated kind, not that timers bring it about.
- 64-bit overflow of terms and indices.
- gob, protobuf and JSON encodings, taken to be lossless; entry bytes are decoded by a parameter of the server.
- The library's sorting and binary search: the model has loops of its own with the same result.
- The skip list's `next` slices are sequence fields of their nodes; writing one element reassigns the field.
- A table on disk is a value, not an object with a file handle; the engine's directory is a map from numbers to bytes.
- gRPC transport, client, CLI, web API, UI, metrics, and the test harness and linearizability checker.
- ClusterSafety.ElectionSafety: not after a restart on a file with a torn record inside, where it is false; see RaftReopen.VotesTwice.
- ClusterSteps.CrashStep: the log kept is a prefix of whole entries and counts as durable, as stated under Hypotheses.
- ClusterReads.ReadIndexFresh: one direction only; StaleRead.FreshTwinExists shows that no condition on the leader's state is exact.
- Backtracking.Repair: for two logs without a stale suffix that have not been compacted; ProgressAppend.CatchUp has every peer.
- Backtracking.RepairEqualizes: the same.
- RaftDisk.DiskStorage.Open: takes decoded records; RaftReopen.OpenStorage opens the bytes.
- RaftDisk.DiskStorage.AppendEntries: demands entries that continue the log, as its callers provide; the code does not look.
- RaftNode.Node.HandleAppendEntries: demands entries numbered from the previous index on, as every leader sends them; the code does not look.
- RaftNode.Node.AcceptEntries: the same.
- Engine.Engine.Open: demands that every record of the log decodes; Engine.OpenEngine has the error.
- Engine.Reopen: demands that no torn record is in the log; Engine.OpenEngine opens any log, and what is lost behind a torn record is under Wal.
