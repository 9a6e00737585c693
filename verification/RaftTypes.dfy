/** Entries, roles and messages of the Raft layer (raft/node.go, proto/raft.proto). */
module RaftTypes {
  import opened Bytes

  type NodeId = nat
  type Term = nat

  datatype Entry = Entry(term: Term, index: nat, data: Bytes)

  type Log = seq<Entry>

  datatype Role = Follower | Candidate | Leader

  /** The term at 1-based index i; index 0 is the position before the first entry. */
  function TermOf(log: Log, i: nat): Term
    requires i <= |log|
  {
    if i == 0 then 0 else log[i - 1].term
  }

  function LastTerm(log: Log): Term {
    TermOf(log, |log|)
  }

  /** The vote rule: (lastTerm, lastIndex) is at least as up to date as log. */
  predicate UpToDate(lastTerm: Term, lastIndex: nat, log: Log) {
    lastTerm > LastTerm(log) || (lastTerm == LastTerm(log) && lastIndex >= |log|)
  }

  function Get(m: map<NodeId, nat>, p: NodeId): nat {
    if p in m then m[p] else 0
  }

  function Max(a: nat, b: nat): nat { if a >= b then a else b }

  function Min(a: nat, b: nat): nat { if a <= b then a else b }

  datatype AppendRequest = AppendRequest(
    term: Term, leader: NodeId, prevIndex: nat, prevTerm: Term, entries: Log, commit: nat)

  datatype AppendReply = AppendReply(term: Term, success: bool, conflictIndex: nat, conflictTerm: Term)

  datatype VoteRequest = VoteRequest(term: Term, cand: NodeId, lastIndex: nat, lastTerm: Term)

  datatype VoteReply = VoteReply(term: Term, granted: bool)

  /** The snapshot's bytes are represented by the entries it stands for. */
  datatype SnapRequest = SnapRequest(term: Term, leader: NodeId, lastIndex: nat, lastTerm: Term, prefix: Log)

  /** A message in flight. A reply carries the fields of its request that the caller still holds. */
  datatype Msg =
    | VoteReq(vreq: VoteRequest)
    | VoteResp(voter: NodeId, cand: NodeId, reqTerm: Term, vote: VoteReply)
    | AppReq(dest: NodeId, areq: AppendRequest)
    | AppResp(from: NodeId, leader: NodeId, reqTerm: Term, prevIndex: nat, count: nat, reply: AppendReply)
    | SnapReq(dest: NodeId, sreq: SnapRequest)
    | SnapResp(from: NodeId, leader: NodeId, reqTerm: Term, lastIndex: nat, sterm: Term)
    | ReadReq(call: nat, leader: NodeId, rterm: Term)
    | ReadResp(from: NodeId, call: nat, rterm: Term, ack: bool)
}
