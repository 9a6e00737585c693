/** Cluster membership and its quorums (raft/confstate.go). */
module RaftConf {
  import opened RaftTypes

  function Majority(n: nat): nat { n / 2 + 1 }

  /** The ids whose recorded match index is at least idx. */
  function Holders(ids: set<NodeId>, matched: map<NodeId, nat>, idx: nat): set<NodeId> {
    set id | id in ids && Get(matched, id) >= idx
  }

  datatype ConfChange =
    | AddNode(id: NodeId)
    | RemoveNode(id: NodeId)
    | LeaveJoint
    | Unknown

  datatype ConfError = InProgress | UnknownMember | QuorumLoss | NotInJoint | InvalidChange

  datatype ConfResult = Changed(conf: ConfState) | Refused(error: ConfError) | Panics

  /** While a change is under way `joint` holds the old voters and `voters` the new ones. */
  datatype ConfState = ConfState(voters: set<NodeId>, joint: set<NodeId>) {

    predicate InJoint() { joint != {} }

    function AllPeers(): set<NodeId> {
      if InJoint() then voters + joint else voters
    }

    /** The election rule looks only at how many votes there are. */
    predicate HasVoteQuorum(votes: nat) {
      if !InJoint() then votes >= Majority(|voters|)
      else votes >= Majority(|joint|) && votes >= Majority(|voters|)
    }

    predicate CanCommit(idx: nat, matched: map<NodeId, nat>) {
      if !InJoint() then |Holders(voters, matched, idx)| >= Majority(|voters|)
      else |Holders(joint, matched, idx)| >= Majority(|joint|)
           && |Holders(voters, matched, idx)| >= Majority(|voters|)
    }

    /** The number of acknowledgements ReadIndex waits for, counting the leader's own. */
    function ReadQuorum(): nat {
      var need := Majority(|AllPeers()|);
      if !InJoint() then need
      else Max(Max(need, Majority(|joint|)), Majority(|voters|))
    }

    /**
     * The change is applied to a clone. Cloning an empty voter set gives a nil map, and
     * adding a node to a nil map panics.
     */
    function ApplyConfChange(cc: ConfChange): ConfResult {
      match cc
      case AddNode(id) =>
        if InJoint() then Refused(InProgress)
        else if voters == {} then Panics
        else Changed(ConfState(voters + {id}, voters))
      case RemoveNode(id) =>
        if InJoint() then Refused(InProgress)
        else if id !in voters then Refused(UnknownMember)
        else if |voters| <= 1 then Refused(QuorumLoss)
        else Changed(ConfState(voters - {id}, voters))
      case LeaveJoint =>
        if !InJoint() then Refused(NotInJoint)
        else Changed(ConfState(voters, {}))
      case Unknown => Refused(InvalidChange)
    }
  }

  // ---- Quorum intersection ----

  lemma {:induction false} SubsetCard(a: set<NodeId>, b: set<NodeId>)
    requires a <= b
    ensures |a| <= |b|
  {
    if a == {} {
    } else {
      var x :| x in a;
      SubsetCard(a - {x}, b - {x});
    }
  }

  /** Two subsets of one set that together outnumber it share a member. */
  lemma QuorumsMeet(all: set<NodeId>, a: set<NodeId>, b: set<NodeId>) returns (j: NodeId)
    requires a <= all && b <= all && |a| + |b| > |all|
    ensures j in a && j in b
  {
    if a * b == {} {
      assert |a + b| == |a| + |b|;
      SubsetCard(a + b, all);
      assert false;
    }
    j :| j in a * b;
  }

  // ---- More than half, by counting ----

  ghost predicate MoreThanHalf(n: nat, all: nat) { 2 * n > all }

  /** More than half of the voters have index idx, and while a change is under way, of the old ones too. */
  ghost predicate HeldByMost(c: ConfState, matched: map<NodeId, nat>, idx: nat) {
    && MoreThanHalf(|Holders(c.voters, matched, idx)|, |c.voters|)
    && (c.InJoint() ==> MoreThanHalf(|Holders(c.joint, matched, idx)|, |c.joint|))
  }

  lemma CommitCounts(c: ConfState, matched: map<NodeId, nat>, idx: nat)
    ensures c.CanCommit(idx, matched) <==> HeldByMost(c, matched, idx)
  {
  }

  lemma {:induction false} SubsetOfSize(all: set<NodeId>, q: nat) returns (a: set<NodeId>)
    requires q <= |all|
    ensures a <= all && |a| == q
  {
    if q == 0 {
      a := {};
    } else {
      var x :| x in all;
      a := SubsetOfSize(all - {x}, q - 1);
      a := a + {x};
    }
  }

  /** And no smaller number would do: two sets of at most half the servers need not meet. */
  lemma HalfIsNotEnough(all: set<NodeId>, q: nat) returns (a: set<NodeId>, b: set<NodeId>)
    requires !MoreThanHalf(q, |all|)
    ensures a <= all && b <= all && |a| == q && |b| == q && a !! b
  {
    a := SubsetOfSize(all, q);
    b := SubsetOfSize(all - a, q);
  }

  // ---- The commit index ----

  /** r is the greatest index more than half hold, or 0 when there is none. */
  ghost predicate IsMaxCommit(c: ConfState, matched: map<NodeId, nat>, r: nat) {
    && (r == 0 || HeldByMost(c, matched, r))
    && forall i :: i > r ==> !HeldByMost(c, matched, i)
  }

  lemma HoldersAntitone(ids: set<NodeId>, matched: map<NodeId, nat>, i: nat, j: nat)
    requires i <= j
    ensures Holders(ids, matched, j) <= Holders(ids, matched, i)
    ensures |Holders(ids, matched, j)| <= |Holders(ids, matched, i)|
  {
    SubsetCard(Holders(ids, matched, j), Holders(ids, matched, i));
  }

  /** An index may be committed only if every lower one may. */
  lemma CanCommitAntitone(c: ConfState, matched: map<NodeId, nat>, i: nat, j: nat)
    requires i <= j && HeldByMost(c, matched, j)
    ensures HeldByMost(c, matched, i)
  {
    HoldersAntitone(c.voters, matched, i, j);
    HoldersAntitone(c.joint, matched, i, j);
  }

  /** Past every recorded match index nothing can be committed. */
  lemma NoneAbove(c: ConfState, matched: map<NodeId, nat>, idx: nat)
    requires forall id :: id in c.voters ==> Get(matched, id) < idx
    ensures !HeldByMost(c, matched, idx)
  {
    assert Holders(c.voters, matched, idx) == {};
  }

  lemma {:induction false} BoundExists(ids: set<NodeId>, matched: map<NodeId, nat>) returns (b: nat)
    ensures forall id :: id in ids ==> Get(matched, id) <= b
  {
    if ids == {} {
      b := 0;
    } else {
      var x :| x in ids;
      var b' := BoundExists(ids - {x}, matched);
      b := Max(b', Get(matched, x));
      forall id | id in ids ensures Get(matched, id) <= b {
        if id != x { assert id in ids - {x}; }
      }
    }
  }

  lemma {:induction false} MaxCommitBelow(c: ConfState, matched: map<NodeId, nat>, b: nat) returns (r: nat)
    requires forall i :: i > b ==> !HeldByMost(c, matched, i)
    ensures IsMaxCommit(c, matched, r)
  {
    if b == 0 || HeldByMost(c, matched, b) {
      r := b;
    } else {
      r := MaxCommitBelow(c, matched, b - 1);
    }
  }

  lemma MaxCommitExists(c: ConfState, matched: map<NodeId, nat>)
    ensures exists r :: IsMaxCommit(c, matched, r)
  {
    var b := BoundExists(c.voters, matched);
    forall i | i > b ensures !HeldByMost(c, matched, i) {
      NoneAbove(c, matched, i);
    }
    var r := MaxCommitBelow(c, matched, b);
  }

  lemma MaxCommitUnique(c: ConfState, matched: map<NodeId, nat>, r: nat, r': nat)
    requires IsMaxCommit(c, matched, r) && IsMaxCommit(c, matched, r')
    ensures r == r'
  {
  }

  ghost function MaxCommit(c: ConfState, matched: map<NodeId, nat>): (r: nat)
    ensures IsMaxCommit(c, matched, r)
  {
    MaxCommitExists(c, matched);
    var r :| IsMaxCommit(c, matched, r);
    r
  }
}
