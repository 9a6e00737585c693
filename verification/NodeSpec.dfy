/**
 * One Raft node as a value, and each region of raft/node.go that runs under the node's
 * lock as a function on that value.
 *
 * `log` is the whole log since the beginning. The node itself only holds the part above
 * `snapIndex`, so every function here looks at the log only through `TermAt` and at
 * positions above `snapIndex`. `synced` is the length of the log that survives a crash.
 */
module NodeSpec {
  import opened Bytes
  import opened RaftTypes
  import opened RaftConf

  datatype NodeState = NodeState(
    id: NodeId,
    voters: set<NodeId>,
    term: Term,
    votedFor: NodeId,            // 0 = none
    log: Log,
    synced: nat,
    snapIndex: nat,
    role: Role,
    leaderId: NodeId,
    commitIndex: nat,
    lastApplied: nat,
    nextIndex: map<NodeId, nat>,
    matchIndex: map<NodeId, nat>,
    votes: nat,                  // votes counted in the current candidacy
    counted: set<NodeId>         // peers whose reply has been counted
  )

  function Conf(s: NodeState): ConfState { ConfState(s.voters, {}) }

  function TermAt(s: NodeState, i: nat): Option<Term> {
    if i < s.snapIndex || i > |s.log| then None else Some(TermOf(s.log, i))
  }

  // ---- Start, crash and restart ----

  function Fresh(id: NodeId, voters: set<NodeId>): NodeState {
    NodeState(id, voters, 0, 0, [], 0, 0, Follower, 0, 0, 0, map[], map[], 0, {})
  }

  /** Reopening the storage: what the disk holds survives, everything else starts over. */
  function Restart(s: NodeState, log: Log): NodeState {
    s.(log := log, synced := |log|, role := Follower, leaderId := 0,
       commitIndex := s.snapIndex, lastApplied := s.snapIndex,
       nextIndex := map[], matchIndex := map[], votes := 0, counted := {})
  }

  // ---- Elections ----

  /** setHardState fsyncs the log file, so it makes every appended entry durable too. */
  function SetHardState(s: NodeState, term: Term, votedFor: NodeId): NodeState {
    s.(term := term, votedFor := votedFor, synced := |s.log|)
  }

  function StepDown(s: NodeState, term: Term): NodeState {
    var s1 := if term > s.term then SetHardState(s, term, 0) else s;
    s1.(role := Follower)
  }

  /** A node outside the configuration, or alone with an empty log, does not stand. */
  predicate Stands(s: NodeState) {
    s.id in s.voters && !(|s.voters| == 1 && |s.log| == s.snapIndex)
  }

  function StartElection(s: NodeState): NodeState {
    SetHardState(s, s.term + 1, s.id).(role := Candidate, leaderId := 0, votes := 1, counted := {})
  }

  function CandidateRequest(s: NodeState): VoteRequest {
    VoteRequest(s.term, s.id, |s.log|, LastTerm(s.log))
  }

  function HandleRequestVote(s: NodeState, r: VoteRequest): (NodeState, VoteReply) {
    var s1 := if r.term > s.term then StepDown(s, r.term) else s;
    if r.term < s1.term || s1.id !in s1.voters then
      (s1, VoteReply(s1.term, false))
    else if (s1.votedFor == 0 || s1.votedFor == r.cand) && UpToDate(r.lastTerm, r.lastIndex, s1.log) then
      (SetHardState(s1, s1.term, r.cand), VoteReply(s1.term, true))
    else
      (s1, VoteReply(s1.term, false))
  }

  function Noop(s: NodeState): Entry { Entry(s.term, |s.log| + 1, []) }

  function Uniform(ids: set<NodeId>, v: nat): map<NodeId, nat> {
    map p | p in ids :: v
  }

  /** The new leader appends an empty entry of its term and fsyncs before it sends anything. */
  function BecomeLeader(s: NodeState): NodeState {
    var last := |s.log|;
    s.(role := Leader, leaderId := s.id, log := s.log + [Noop(s)], synced := last + 1,
       nextIndex := Uniform(s.voters, last + 1)[s.id := last + 2],
       matchIndex := Uniform(s.voters, 0)[s.id := last + 1])
  }

  function HandleVoteReply(s: NodeState, peer: NodeId, reqTerm: Term, v: VoteReply): NodeState {
    if v.term > s.term then StepDown(s, v.term)
    else if s.role != Candidate || s.term != reqTerm || !v.granted then s
    else
      var s1 := s.(votes := s.votes + 1, counted := s.counted + {peer});
      if Conf(s).HasVoteQuorum(s1.votes) then BecomeLeader(s1) else s1
  }

  // ---- Replication ----

  function Propose(s: NodeState, data: Bytes): NodeState {
    var e := Entry(s.term, |s.log| + 1, data);
    s.(log := s.log + [e], matchIndex := s.matchIndex[s.id := e.index])
  }

  /** sync() before every broadcast: only durable entries are sent. */
  function Sync(s: NodeState): NodeState { s.(synced := |s.log|) }

  /** A peer whose next entry has been compacted away, or lies past the log, gets no request. */
  predicate CanSend(s: NodeState, peer: NodeId) {
    var ni := Get(s.nextIndex, peer);
    ni >= s.snapIndex + 1 && TermAt(s, ni - 1).Some?
  }

  function SendAppend(s: NodeState, peer: NodeId): AppendRequest
    requires CanSend(s, peer)
  {
    var ni := Get(s.nextIndex, peer);
    AppendRequest(s.term, s.id, ni - 1, TermAt(s, ni - 1).value, s.log[ni - 1..], s.commitIndex)
  }

  /** Walks back from index ci over entries of one term, not past the first held index. */
  function RunStart(log: Log, first: nat, ci: nat): nat
    requires ci <= |log|
    decreases ci
  {
    if ci > first && ci >= 2 && log[ci - 2].term == log[ci - 1].term then RunStart(log, first, ci - 1) else ci
  }

  /** The position of the first request entry that is not already in the log. */
  function FirstNew(log: Log, snapIndex: nat, prev: nat, entries: Log, i: nat): (f: nat)
    requires i <= |entries|
    ensures i <= f <= |entries|
    decreases |entries| - i
  {
    if i == |entries| then i
    else if prev + 1 + i <= snapIndex then FirstNew(log, snapIndex, prev, entries, i + 1)
    else if prev + 1 + i <= |log| && log[prev + i].term == entries[i].term then
      FirstNew(log, snapIndex, prev, entries, i + 1)
    else i
  }

  function Take(log: Log, n: nat): Log { if n <= |log| then log[..n] else log }

  /** The log after the entries from position f on replaced whatever followed them. */
  function Overwrite(log: Log, prev: nat, entries: Log, f: nat): Log
    requires f <= |entries|
  {
    if f == |entries| then log else Take(log, prev + f) + entries[f..]
  }

  function Merge(log: Log, snapIndex: nat, prev: nat, entries: Log): Log {
    Overwrite(log, prev, entries, FirstNew(log, snapIndex, prev, entries, 0))
  }

  /** The term bookkeeping at the start of HandleAppendEntries. */
  function AcceptTerm(s: NodeState, term: Term, leader: NodeId): NodeState
    requires term >= s.term
  {
    (if term > s.term || s.role != Follower then StepDown(s, term) else s).(leaderId := leader)
  }

  /** The consistency check; below the compaction point nothing is compared. */
  predicate Consistent(s: NodeState, r: AppendRequest) {
    r.prevIndex <= |s.log| && (r.prevIndex >= s.snapIndex ==> TermOf(s.log, r.prevIndex) == r.prevTerm)
  }

  function Rejection(s: NodeState, r: AppendRequest): AppendReply
    requires !Consistent(s, r)
  {
    if r.prevIndex > |s.log| then AppendReply(s.term, false, |s.log| + 1, 0)
    else AppendReply(s.term, false, RunStart(s.log, s.snapIndex + 1, r.prevIndex), TermOf(s.log, r.prevIndex))
  }

  function Accept(s: NodeState, r: AppendRequest): NodeState {
    var f := FirstNew(s.log, s.snapIndex, r.prevIndex, r.entries, 0);
    var log' := Overwrite(s.log, r.prevIndex, r.entries, f);
    var ci := if r.commit > s.commitIndex
              then Min(r.commit, Max(r.prevIndex + |r.entries|, s.commitIndex)) else s.commitIndex;
    s.(log := log', synced := if f == |r.entries| then s.synced else |log'|, commitIndex := ci)
  }

  function HandleAppendEntries(s: NodeState, r: AppendRequest): (NodeState, AppendReply) {
    if r.term < s.term then (s, AppendReply(s.term, false, 0, 0))
    else
      var s1 := AcceptTerm(s, r.term, r.leader);
      if Consistent(s1, r) then (Accept(s1, r), AppendReply(s1.term, true, 0, 0))
      else (s1, Rejection(s1, r))
  }

  /** The leader looks for its own last entry of the conflicting term, from index i down. */
  function ScanBack(log: Log, first: nat, i: nat, conflictTerm: Term, default: nat): nat
    requires i <= |log|
    decreases i
  {
    if i < first || i == 0 then default
    else if log[i - 1].term == conflictTerm then i + 1
    else if log[i - 1].term < conflictTerm then default
    else ScanBack(log, first, i - 1, conflictTerm, default)
  }

  function Backtrack(s: NodeState, peer: NodeId, a: AppendReply): NodeState {
    if a.conflictTerm != 0 then
      s.(nextIndex := s.nextIndex[peer :=
           Max(1, ScanBack(s.log, s.snapIndex + 1, |s.log|, a.conflictTerm, a.conflictIndex))])
    else if a.conflictIndex > 0 then s.(nextIndex := s.nextIndex[peer := a.conflictIndex])
    else if Get(s.nextIndex, peer) > 1 then
      s.(nextIndex := s.nextIndex[peer := Get(s.nextIndex, peer) - 1])
    else s
  }

  function Raise(m: map<NodeId, nat>, p: NodeId, v: nat): map<NodeId, nat> {
    if v > Get(m, p) then m[p := v] else m
  }

  ghost function AdvanceCommit(s: NodeState): NodeState { AdvanceIn(Conf(s), s) }

  /** The commit rule in any configuration, joint ones included. */
  ghost function AdvanceIn(c: ConfState, s: NodeState): NodeState {
    var m := MaxCommit(c, s.matchIndex);
    if m <= s.commitIndex then s
    else if TermAt(s, m) == Some(s.term) then Sync(s).(commitIndex := m)
    else Sync(s)
  }

  ghost function HandleAppendReply(
    s: NodeState, peer: NodeId, reqTerm: Term, prev: nat, count: nat, a: AppendReply): NodeState
  {
    if a.term > s.term then StepDown(s, a.term)
    else if s.role != Leader || s.term != reqTerm then s
    else if a.success then
      var m := prev + count;
      AdvanceCommit(s.(matchIndex := Raise(s.matchIndex, peer, m), nextIndex := Raise(s.nextIndex, peer, m + 1)))
    else Backtrack(s, peer, a)
  }

  // ---- Applying, compaction and reads ----

  /** The applier hands over every entry up to the commit index, skipping compacted ones. */
  function ApplyCommitted(s: NodeState): NodeState {
    if s.lastApplied < s.commitIndex then s.(lastApplied := Max(s.commitIndex, s.snapIndex)) else s
  }

  /** The entries handed over by that round of the applier. */
  function Handed(s: NodeState): Log {
    var from := Max(s.lastApplied, s.snapIndex);
    if from < s.commitIndex <= |s.log| then s.log[from..s.commitIndex] else []
  }

  /** Snapshot(index): refused beyond lastApplied; a no-op at or below the last snapshot. */
  function Compact(s: NodeState, index: nat): NodeState {
    if index > s.lastApplied || TermAt(s, index).None? || index <= s.snapIndex then s
    else s.(snapIndex := index, synced := |s.log|)
  }

  /** No entry above the commit index is from an earlier term: what makes a leader's commit index current. */
  predicate Settled(s: NodeState) {
    s.commitIndex < |s.log| ==> s.log[s.commitIndex].term == s.term
  }

  function HandleReadIndex(s: NodeState, leader: NodeId, term: Term): (NodeState, Term, bool) {
    if term < s.term then (s, s.term, false)
    else
      var s1 := if term > s.term then StepDown(s, term) else s;
      // The reply carries the term read before stepping down.
      if s1.role == Candidate then (s1, s.term, false)
      else (s1.(leaderId := leader), s.term, true)
  }

  // ---- Snapshots for lagging followers ----

  /** Sent to a peer whose next entry has been compacted away. */
  function SendSnapshot(s: NodeState): SnapRequest
    requires s.snapIndex <= |s.log|
  {
    SnapRequest(s.term, s.id, s.snapIndex, TermOf(s.log, s.snapIndex), s.log[..s.snapIndex])
  }

  /** Whatever lies above the snapshot is kept, without a look at its terms. */
  function InstalledLog(log: Log, r: SnapRequest): Log {
    r.prefix + (if |log| > r.lastIndex then log[r.lastIndex..] else [])
  }

  function Install(s: NodeState, r: SnapRequest): NodeState {
    if r.lastIndex <= s.snapIndex then s
    else
      var log' := InstalledLog(s.log, r);
      s.(log := log', synced := |log'|, snapIndex := r.lastIndex,
         commitIndex := r.lastIndex, lastApplied := r.lastIndex)
  }

  function HandleInstallSnapshot(s: NodeState, r: SnapRequest): (NodeState, Term) {
    if r.term < s.term then (s, s.term)
    else
      var s' := Install(AcceptTerm(s, r.term, r.leader), r);
      (s', s'.term)
  }

  /** The retained suffix continues the snapshot: the log ends there, or has the snapshot's last entry. */
  predicate SuffixMatches(log: Log, r: SnapRequest) {
    |log| <= r.lastIndex || r.lastIndex == 0 || log[r.lastIndex - 1].term == r.lastTerm
  }

  function HandleSnapshotReply(s: NodeState, peer: NodeId, reqTerm: Term, lastIndex: nat, term: Term): NodeState {
    if term > s.term then StepDown(s, term)
    else if s.role != Leader || s.term != reqTerm then s
    else s.(matchIndex := Raise(s.matchIndex, peer, lastIndex), nextIndex := Raise(s.nextIndex, peer, lastIndex + 1))
  }
}
