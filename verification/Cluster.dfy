/**
 * A cluster with a fixed set of voters as a step system. Every step is one region of
 * raft/node.go that runs under a node's lock. The network is a set that only grows: a
 * message may be delivered late, many times, out of order or never. A node may crash
 * between steps, or inside HandleAppendEntries between the append and the fsync.
 *
 * A node may also crash inside saveSnapshot, with the new metadata in place and the old log file.
 *
 * A crash keeps a prefix of the log file's records, and what a reopened file shows counts as
 * durable. RaftReopen derives the first from the bytes of the file, for a file without a
 * torn record in it, and shows what the code loses where either does not hold.
 */
module Cluster {
  import opened Bytes
  import opened RaftTypes
  import opened NodeSpec
  import opened History

  /** An entry handed to the state machine by a node. */
  datatype Applied = Applied(node: NodeId, index: nat, entry: Entry)

  /** What Propose returned, with the command it was given. */
  datatype Proposal = Proposal(index: nat, term: Term, data: Bytes)

  /**
   * One call of ReadIndex. `settled`, `elected` and `committed` record the moment the call began:
   * whether no entry above the commit index was from an earlier term, which terms had
   * had a leader, and what had been committed anywhere.
   */
  datatype ReadCall = ReadCall(
    leader: NodeId, term: Term, index: nat, acked: set<NodeId>, done: bool,
    settled: bool, elected: set<Term>, committed: set<(Term, nat)>)

  datatype Cluster = Cluster(
    h: Hist,
    nodes: map<NodeId, NodeState>,
    net: set<Msg>,
    applied: set<Applied>,
    proposed: set<Proposal>,
    calls: map<nat, ReadCall>)

  datatype Action =
    | Stand(i: NodeId)
    | RecvVoteReq(i: NodeId, m: Msg)
    | RecvVoteResp(i: NodeId, m: Msg)
    | Send(i: NodeId, peer: NodeId)
    | RecvAppend(i: NodeId, m: Msg)
    | RecvAppendResp(i: NodeId, m: Msg)
    | SendSnap(i: NodeId, peer: NodeId)
    | RecvSnap(i: NodeId, m: Msg)
    | RecvSnapResp(i: NodeId, m: Msg)
    | Command(i: NodeId, data: Bytes)
    | Apply(i: NodeId)
    | Snapshot(i: NodeId, index: nat)
    | CrashInSnapshot(i: NodeId, index: nat, keep: nat)
    | Crash(i: NodeId, keep: nat)
    | CrashInAppend(i: NodeId, m: Msg, keep: nat)
    | AdoptTerm(i: NodeId, m: Msg)
    | ReadStart(i: NodeId, call: nat)
    | RecvReadReq(i: NodeId, m: Msg)
    | RecvReadResp(i: NodeId, m: Msg)
    | ReadReturn(i: NodeId, call: nat)

  function Init(voters: set<NodeId>): Cluster {
    var h := Hist(voters, map[], map[], map[], map[], {});
    Cluster(h, map i | i in voters :: Fresh(i, voters), {}, {}, {}, map[])
  }

  function RequestTerm(m: Msg): Term {
    match m
    case VoteReq(r) => r.term
    case AppReq(_, r) => r.term
    case SnapReq(_, r) => r.term
    case ReadReq(_, _, t) => t
    case _ => 0
  }

  /** Entries were appended but not all of them reached the disk: the log a crash leaves behind. */
  predicate TornAppend(s: NodeState, r: AppendRequest, keep: nat) {
    && r.term >= s.term
    && Consistent(AcceptTerm(s, r.term, r.leader), r)
    && var f := FirstNew(s.log, s.snapIndex, r.prevIndex, r.entries, 0);
    && f < |r.entries|
    && r.prevIndex + f <= keep <= |Overwrite(s.log, r.prevIndex, r.entries, f)|
  }

  predicate Enabled(c: Cluster, a: Action) {
    && a.i in c.nodes
    && var s := c.nodes[a.i];
    match a
    case Stand(_) => s.role != Leader && Stands(s)
    case RecvVoteReq(i, m) => m in c.net && m.VoteReq? && m.vreq.cand != i
    case RecvVoteResp(i, m) =>
      // One goroutine per peer and candidacy, and it handles one reply.
      m in c.net && m.VoteResp? && m.cand == i
      && !(s.role == Candidate && s.term == m.reqTerm && m.voter in s.counted)
    case Send(i, peer) => s.role == Leader && peer in s.voters && peer != i && CanSend(s, peer)
    case RecvAppend(i, m) => m in c.net && m.AppReq? && m.dest == i
    case RecvAppendResp(i, m) => m in c.net && m.AppResp? && m.leader == i
    case SendSnap(i, peer) =>
      s.role == Leader && peer in s.voters && peer != i && Get(s.nextIndex, peer) <= s.snapIndex <= |s.log|
    case RecvSnap(i, m) => m in c.net && m.SnapReq? && m.dest == i
    case RecvSnapResp(i, m) => m in c.net && m.SnapResp? && m.leader == i
    case Command(_, _) => s.role == Leader
    case Apply(_) => true
    case Snapshot(_, _) => true
    case CrashInSnapshot(_, index, keep) => Compact(s, index) != s && s.synced <= keep <= |s.log|
    case Crash(_, keep) => s.synced <= keep <= |s.log|
    case CrashInAppend(i, m, keep) => m in c.net && m.AppReq? && m.dest == i && TornAppend(s, m.areq, keep)
    case AdoptTerm(_, m) => m in c.net && RequestTerm(m) > s.term
    case ReadStart(_, call) => s.role == Leader && call !in c.calls
    case RecvReadReq(i, m) => m in c.net && m.ReadReq? && m.leader != i
    case RecvReadResp(i, m) => m in c.net && m.ReadResp? && m.call in c.calls && c.calls[m.call].leader == i
    case ReadReturn(i, call) =>
      call in c.calls && c.calls[call].leader == i && s.role == Leader && s.term == c.calls[call].term
      && |c.calls[call].acked| + 1 >= Conf(s).ReadQuorum()
  }

  /** The node of every step except the bookkeeping of reads is changed by one spec function. */
  ghost function NextNode(c: Cluster, a: Action): NodeState
    requires Enabled(c, a)
  {
    var s := c.nodes[a.i];
    match a
    case Stand(_) => StartElection(s)
    case RecvVoteReq(_, m) => HandleRequestVote(s, m.vreq).0
    case RecvVoteResp(_, m) => HandleVoteReply(s, m.voter, m.reqTerm, m.vote)
    case Send(_, _) => Sync(s)
    case RecvAppend(_, m) => HandleAppendEntries(s, m.areq).0
    case RecvAppendResp(_, m) => HandleAppendReply(s, m.from, m.reqTerm, m.prevIndex, m.count, m.reply)
    case SendSnap(_, _) => Sync(s)
    case RecvSnap(_, m) => HandleInstallSnapshot(s, m.sreq).0
    case RecvSnapResp(_, m) => HandleSnapshotReply(s, m.from, m.reqTerm, m.lastIndex, m.sterm)
    case Command(_, data) => Propose(s, data)
    case Apply(_) => ApplyCommitted(s)
    case Snapshot(_, index) => Compact(s, index)
    case CrashInSnapshot(_, index, keep) => Restart(s.(snapIndex := index), s.log[..keep])
    case Crash(_, keep) => Restart(s, s.log[..keep])
    case CrashInAppend(_, m, keep) =>
      var s1 := AcceptTerm(s, m.areq.term, m.areq.leader);
      Restart(s1, Merge(s1.log, s1.snapIndex, m.areq.prevIndex, m.areq.entries)[..keep])
    case AdoptTerm(_, m) => StepDown(s, RequestTerm(m))
    case ReadStart(_, _) => s
    case RecvReadReq(_, m) => HandleReadIndex(s, m.leader, m.rterm).0
    case RecvReadResp(_, m) => if m.rterm > s.term then StepDown(s, m.rterm) else s
    case ReadReturn(_, _) => s
  }

  function Sent(c: Cluster, a: Action): set<Msg>
    requires Enabled(c, a)
  {
    var s := c.nodes[a.i];
    match a
    case Stand(_) => {VoteReq(CandidateRequest(StartElection(s)))}
    case RecvVoteReq(i, m) => {VoteResp(i, m.vreq.cand, m.vreq.term, HandleRequestVote(s, m.vreq).1)}
    case Send(_, peer) => {AppReq(peer, SendAppend(s, peer))}
    case RecvAppend(i, m) =>
      {AppResp(i, m.areq.leader, m.areq.term, m.areq.prevIndex, |m.areq.entries|,
               HandleAppendEntries(s, m.areq).1)}
    case SendSnap(_, peer) => {SnapReq(peer, SendSnapshot(s))}
    case RecvSnap(i, m) =>
      {SnapResp(i, m.sreq.leader, m.sreq.term, m.sreq.lastIndex, HandleInstallSnapshot(s, m.sreq).1)}
    case ReadStart(i, call) => {ReadReq(call, i, s.term)}
    case RecvReadReq(i, m) => var (_, t, ack) := HandleReadIndex(s, m.leader, m.rterm); {ReadResp(i, m.call, t, ack)}
    case _ => {}
  }

  // ---- What a step adds to the history ----

  function RecordRun(h: Hist, s': NodeState): Hist {
    h.(runs := h.runs[(s'.id, s'.term) := s'.log])
  }

  function RecordVote(h: Hist, s': NodeState, cand: NodeId): Hist {
    if (s'.id, s'.term) in h.ballots then h
    else h.(ballots := h.ballots[(s'.id, s'.term) := Ballot(cand, s'.log, s'.term in h.reigns)])
  }

  function RecordReign(h: Hist, s': NodeState): Hist {
    h.(reigns := h.reigns[s'.term := Reign(s'.id, s'.log, s'.counted + {s'.id})])
  }

  function RecordLog(h: Hist, s': NodeState): Hist {
    if s'.term in h.reigns then h.(reigns := h.reigns[s'.term := h.reigns[s'.term].(log := s'.log)]) else h
  }

  function AckUpTo(h: Hist, i: NodeId, t: Term, n: nat): Hist {
    h.(acks := h.acks[(i, t) := if (i, t) in h.acks then Max(h.acks[(i, t)], n) else n])
  }

  /** What a node acknowledges while it holds a stale suffix is not on record: no commit depends on it. */
  ghost function AckWhole(h: Hist, s': NodeState, t: Term, n: nat): Hist {
    if Rooted(h, s'.log) then AckUpTo(h, s'.id, t, n) else h
  }

  function RecordCommit(h: Hist, s': NodeState): Hist {
    AckUpTo(h, s'.id, s'.term, s'.commitIndex).(commits := h.commits + {(s'.term, s'.commitIndex)})
  }

  ghost function NextHist(c: Cluster, a: Action): Hist
    requires Enabled(c, a)
  {
    var h, s, s' := c.h, c.nodes[a.i], NextNode(c, a);
    match a
    case Stand(i) => RecordVote(RecordRun(h, s'), s', i)
    case RecvVoteReq(i, m) =>
      if HandleRequestVote(s, m.vreq).1.granted then RecordVote(h, s', m.vreq.cand) else h
    case RecvVoteResp(i, _) => if s.role != Leader && s'.role == Leader then RecordReign(h, s') else h
    case RecvAppend(i, m) =>
      if HandleAppendEntries(s, m.areq).1.success
      then AckWhole(h, s', m.areq.term, m.areq.prevIndex + |m.areq.entries|)
      else h
    case RecvSnap(i, m) =>
      if m.sreq.term < s.term then h else AckWhole(h, s', m.sreq.term, m.sreq.lastIndex)
    case Command(_, _) => RecordLog(h, s')
    case RecvAppendResp(i, _) => if s'.commitIndex > s.commitIndex then RecordCommit(h, s') else h
    case _ => h
  }

  function NextReads(c: Cluster, a: Action): map<nat, ReadCall>
    requires Enabled(c, a)
  {
    var s := c.nodes[a.i];
    match a
    case ReadStart(i, call) =>
      c.calls[call := ReadCall(i, s.term, s.commitIndex, {}, false, Settled(s),
                               c.h.reigns.Keys, c.h.commits)]
    case RecvReadResp(i, m) =>
      var r := c.calls[m.call];
      if m.rterm <= s.term && s.role == Leader && s.term == r.term && m.ack
      then c.calls[m.call := r.(acked := r.acked + {m.from})] else c.calls
    case ReadReturn(_, call) => c.calls[call := c.calls[call].(done := true)]
    case _ => c.calls
  }

  function HandedOver(s: NodeState): set<Applied> {
    var from := Max(s.lastApplied, s.snapIndex);
    set k | from <= k < s.commitIndex && k < |s.log| :: Applied(s.id, k + 1, s.log[k])
  }

  ghost function Next(c: Cluster, a: Action): Cluster
    requires Enabled(c, a)
  {
    var s := c.nodes[a.i];
    Cluster(
      NextHist(c, a),
      c.nodes[a.i := NextNode(c, a)],
      c.net + Sent(c, a),
      if a.Apply? then c.applied + HandedOver(s) else c.applied,
      if a.Command? then c.proposed + {Proposal(|s.log| + 1, s.term, a.data)} else c.proposed,
      NextReads(c, a))
  }

  ghost predicate StepAt(cs: seq<Cluster>, actions: seq<Action>, n: nat)
    requires n < |actions| && n + 1 < |cs|
  {
    Enabled(cs[n], actions[n]) && cs[n + 1] == Next(cs[n], actions[n])
  }

  /** The states a fresh cluster of these voters goes through under these actions. */
  ghost predicate IsRun(voters: set<NodeId>, cs: seq<Cluster>, actions: seq<Action>) {
    && |cs| == |actions| + 1
    && cs[0] == Init(voters)
    && forall n :: 0 <= n < |actions| ==> StepAt(cs, actions, n)
  }
}
