/**
 * Quorum intersection across membership changes (raft/confstate.go). The election rule counts
 * votes without asking whose they are, so a joint configuration does not demand a majority of
 * the old voters and a majority of the new. Changing one voter at a time is what makes it safe.
 */
module RaftQuorums {
  import opened RaftTypes
  import opened RaftConf

  // ---- Reachable configurations ----

  /** Applies the changes that are accepted, as every node does with the entries of its log. */
  function ApplyAll(c: ConfState, changes: seq<ConfChange>): ConfState
    decreases |changes|
  {
    if changes == [] then c
    else
      var n := |changes| - 1;
      var b := ApplyAll(c, changes[..n]);
      var r := b.ApplyConfChange(changes[n]);
      if r.Changed? then r.conf else b
  }

  ghost predicate OneApart(a: set<NodeId>, b: set<NodeId>) {
    (a <= b && |b| <= |a| + 1) || (b <= a && |a| <= |b| + 1)
  }

  ghost predicate ConfInv(c: ConfState) {
    c.voters != {} && (c.InJoint() ==> OneApart(c.voters, c.joint))
  }

  lemma ChangeKeepsInv(c: ConfState, cc: ConfChange)
    requires ConfInv(c)
    ensures !c.ApplyConfChange(cc).Panics?
    ensures var r := c.ApplyConfChange(cc); r.Changed? ==> ConfInv(r.conf)
  {
    var r := c.ApplyConfChange(cc);
    if r.Changed? && cc.AddNode? {
      assert |c.voters + {cc.id}| <= |c.voters| + 1;
    } else if r.Changed? && cc.RemoveNode? {
      assert |c.voters - {cc.id}| == |c.voters| - 1;
    }
  }

  /** From a cluster with a voter, no sequence of changes panics or leaves it without one. */
  lemma {:induction false} ReachableConf(voters: set<NodeId>, changes: seq<ConfChange>)
    requires voters != {}
    ensures ConfInv(ApplyAll(ConfState(voters, {}), changes))
    decreases |changes|
  {
    if changes != [] {
      var n := |changes| - 1;
      ReachableConf(voters, changes[..n]);
      ChangeKeepsInv(ApplyAll(ConfState(voters, {}), changes[..n]), changes[n]);
    }
  }

  // ---- Quorums ----

  /** A set of servers that can elect a leader under the count-only rule. */
  ghost predicate CanElect(c: ConfState, s: set<NodeId>) {
    s <= c.AllPeers() && c.HasVoteQuorum(|s|)
  }

  /** A set of servers whose acknowledgement ReadIndex accepts. */
  ghost predicate CanConfirm(c: ConfState, s: set<NodeId>) {
    s <= c.AllPeers() && |s| >= c.ReadQuorum()
  }

  ghost predicate IsMajority(c: ConfState, s: set<NodeId>) {
    s <= c.AllPeers() && MoreThanHalf(|s|, |c.AllPeers()|)
  }

  /** The three rules by counting, in every configuration, joint or not. */
  lemma QuorumsCount(c: ConfState, s: set<NodeId>)
    ensures CanElect(c, s) <==>
            && s <= c.AllPeers() && MoreThanHalf(|s|, |c.voters|) && (c.InJoint() ==> MoreThanHalf(|s|, |c.joint|))
    ensures CanConfirm(c, s) <==> CanElect(c, s) && MoreThanHalf(|s|, |c.AllPeers()|)
  {
  }

  lemma AllPeersIsOne(c: ConfState)
    requires ConfInv(c)
    ensures c.AllPeers() == c.voters || (c.InJoint() && c.AllPeers() == c.joint)
    ensures c.voters <= c.AllPeers() && |c.voters| <= |c.AllPeers()|
    ensures c.InJoint() ==> c.joint <= c.AllPeers() && |c.joint| <= |c.AllPeers()|
  {
    SubsetCard(c.voters, c.AllPeers());
    if c.InJoint() {
      SubsetCard(c.joint, c.AllPeers());
      if c.voters <= c.joint {
        assert c.voters + c.joint == c.joint;
      } else {
        assert c.voters + c.joint == c.voters;
      }
    }
  }

  /** With voter sets one apart, the count-only rule is a majority of all peers, no more and no less. */
  lemma ElectIsMajority(c: ConfState, s: set<NodeId>)
    requires ConfInv(c)
    ensures CanElect(c, s) <==> IsMajority(c, s)
    ensures CanConfirm(c, s) <==> IsMajority(c, s)
  {
    AllPeersIsOne(c);
  }

  lemma CommitIsMajority(c: ConfState, idx: nat, matched: map<NodeId, nat>)
    requires ConfInv(c) && HeldByMost(c, matched, idx)
    ensures IsMajority(c, Holders(c.AllPeers(), matched, idx))
  {
    AllPeersIsOne(c);
  }

  lemma MajoritiesMeet(a: ConfState, b: ConfState, s: set<NodeId>, s': set<NodeId>) returns (p: NodeId)
    requires IsMajority(a, s) && IsMajority(b, s') && OneApart(a.AllPeers(), b.AllPeers())
    ensures p in s && p in s'
  {
    var x, y := a.AllPeers(), b.AllPeers();
    if x <= y && |y| <= |x| + 1 {
      p := QuorumsMeet(y, s, s');
    } else {
      p := QuorumsMeet(x, s, s');
    }
  }

  // ---- One transition ----

  /** The configurations a cluster passes through while one change is made. */
  ghost predicate InTransition(joint: ConfState, c: ConfState) {
    joint.InJoint() && (c == joint || c == ConfState(joint.joint, {}) || c == ConfState(joint.voters, {}))
  }

  lemma TransitionInv(joint: ConfState, c: ConfState)
    requires ConfInv(joint) && InTransition(joint, c)
    ensures ConfInv(c)
  {
  }

  lemma TransitionApart(joint: ConfState, a: ConfState, b: ConfState)
    requires ConfInv(joint) && InTransition(joint, a) && InTransition(joint, b)
    ensures OneApart(a.AllPeers(), b.AllPeers())
  {
    AllPeersIsOne(joint);
  }

  /** The joint configuration is entered from the old one and left for the new one. */
  lemma TransitionIsApplied(c: ConfState, cc: ConfChange)
    requires ConfInv(c) && c.ApplyConfChange(cc).Changed?
    ensures var c' := c.ApplyConfChange(cc).conf;
            if c.InJoint() then c' == ConfState(c.voters, {}) else InTransition(c', c) && c'.joint == c.voters
  {
  }

  /** A change and the LeaveJoint after it add or remove one voter. */
  lemma ChangeCompletes(c: ConfState, cc: ConfChange)
    requires !c.InJoint() && c.ApplyConfChange(cc).Changed?
    ensures cc.AddNode? || cc.RemoveNode?
    ensures c.ApplyConfChange(cc).conf.ApplyConfChange(LeaveJoint)
         == Changed(ConfState(if cc.AddNode? then c.voters + {cc.id} else c.voters - {cc.id}, {}))
  {
  }

  // ---- Membership after any list of changes ----

  /** The changes of the list that are accepted. */
  function Accepted(c: ConfState, changes: seq<ConfChange>): seq<ConfChange>
    decreases |changes|
  {
    if changes == [] then []
    else
      var n := |changes| - 1;
      Accepted(c, changes[..n])
      + (if ApplyAll(c, changes[..n]).ApplyConfChange(changes[n]).Changed? then [changes[n]] else [])
  }

  /** The last change on id added it, or there was none and it was a voter at the start. */
  ghost predicate AddedLast(voters: set<NodeId>, changes: seq<ConfChange>, id: NodeId) {
    || (exists k :: 0 <= k < |changes| && changes[k] == AddNode(id) && RemoveNode(id) !in changes[k + 1..])
    || (id in voters && RemoveNode(id) !in changes)
  }

  lemma AddedLastSnoc(voters: set<NodeId>, changes: seq<ConfChange>, cc: ConfChange, id: NodeId)
    ensures AddedLast(voters, changes + [cc], id) <==>
            cc == AddNode(id) || (cc != RemoveNode(id) && AddedLast(voters, changes, id))
  {
    var n, all := |changes|, changes + [cc];
    assert all[n] == cc && all[n + 1..] == [];
    assert forall k :: 0 <= k < n ==> all[k] == changes[k] && all[k + 1..] == changes[k + 1..] + [cc];
  }

  /**
   * After any list of changes a node is a voter if and only if the last accepted change on it added it,
   * or there was none and it was a voter at the start.
   */
  lemma {:induction false} MembershipIff(c: ConfState, changes: seq<ConfChange>, id: NodeId)
    ensures id in ApplyAll(c, changes).voters <==> AddedLast(c.voters, Accepted(c, changes), id)
    decreases |changes|
  {
    if changes != [] {
      var n := |changes| - 1;
      MembershipIff(c, changes[..n], id);
      var acc, b := Accepted(c, changes[..n]), ApplyAll(c, changes[..n]);
      AddedLastSnoc(c.voters, acc, changes[n], id);
      hide AddedLast;
      if !b.ApplyConfChange(changes[n]).Changed? { assert Accepted(c, changes) == acc; }
    }
  }

  /** A change is under way exactly if the last accepted one was not a LeaveJoint. */
  lemma {:induction false} JointIff(voters: set<NodeId>, changes: seq<ConfChange>)
    requires voters != {}
    ensures var acc := Accepted(ConfState(voters, {}), changes);
            ApplyAll(ConfState(voters, {}), changes).InJoint() <==> acc != [] && acc[|acc| - 1] != LeaveJoint
    decreases |changes|
  {
    if changes != [] {
      var n := |changes| - 1;
      JointIff(voters, changes[..n]);
      ReachableConf(voters, changes[..n]);
    }
  }

  /**
   * In a cluster with a voter, additions and removals are accepted only outside a joint configuration, where
   * every addition is, and every removal of a voter that is not the last; LeaveJoint only inside one.
   */
  lemma AcceptedIff(voters: set<NodeId>, changes: seq<ConfChange>, cc: ConfChange)
    requires voters != {}
    ensures var c := ApplyAll(ConfState(voters, {}), changes);
            c.ApplyConfChange(cc).Changed? <==>
              match cc
              case AddNode(_) => !c.InJoint()
              case RemoveNode(id) => !c.InJoint() && id in c.voters && c.voters != {id}
              case LeaveJoint => c.InJoint()
              case Unknown => false
  {
    ReachableConf(voters, changes);
    var c := ApplyAll(ConfState(voters, {}), changes);
    if cc.RemoveNode? && cc.id in c.voters && |c.voters| <= 1 {
      assert c.voters == {cc.id} by { assert |c.voters - {cc.id}| == 0; }
    }
  }

  /**
   * Any two of: a set that elects a leader, a set that holds a committed index, a set that confirms
   * a read, taken in any configurations of one transition, have a server in common.
   */
  lemma QuorumsIntersect(voters: set<NodeId>, changes: seq<ConfChange>, a: ConfState, b: ConfState,
                         s: set<NodeId>, s': set<NodeId>, idx: nat, matched: map<NodeId, nat>)
    requires voters != {}
    requires var joint := ApplyAll(ConfState(voters, {}), changes); InTransition(joint, a) && InTransition(joint, b)
    requires CanElect(a, s) || CanConfirm(a, s)
    ensures CanElect(b, s') || CanConfirm(b, s') ==> exists p :: p in s && p in s'
    ensures HeldByMost(b, matched, idx) ==> exists p :: p in s && p in b.AllPeers() && Get(matched, p) >= idx
  {
    var joint := ApplyAll(ConfState(voters, {}), changes);
    ReachableConf(voters, changes);
    TransitionInv(joint, a);
    TransitionInv(joint, b);
    TransitionApart(joint, a, b);
    ElectIsMajority(a, s);
    ElectIsMajority(b, s');
    hide ApplyAll, ConfInv, OneApart, InTransition, CanElect, CanConfirm, HeldByMost;
    if IsMajority(b, s') { var _ := MajoritiesMeet(a, b, s, s'); }
    if HeldByMost(b, matched, idx) {
      CommitIsMajority(b, idx, matched);
      var p := MajoritiesMeet(a, b, s, Holders(b.AllPeers(), matched, idx));
    }
  }

  /** The same inside one configuration that is not in transition. */
  lemma QuorumsIntersectStable(voters: set<NodeId>, changes: seq<ConfChange>,
                               s: set<NodeId>, s': set<NodeId>, idx: nat, matched: map<NodeId, nat>)
    requires voters != {}
    requires var c := ApplyAll(ConfState(voters, {}), changes); CanElect(c, s) || CanConfirm(c, s)
    ensures var c := ApplyAll(ConfState(voters, {}), changes);
            && (CanElect(c, s') || CanConfirm(c, s') ==> exists p :: p in s && p in s')
            && (HeldByMost(c, matched, idx) ==> exists p :: p in s && p in c.AllPeers() && Get(matched, p) >= idx)
  {
    var c := ApplyAll(ConfState(voters, {}), changes);
    ReachableConf(voters, changes);
    ElectIsMajority(c, s);
    ElectIsMajority(c, s');
    hide ApplyAll, ConfInv, CanElect, CanConfirm, HeldByMost;
    if IsMajority(c, s') { var _ := MajoritiesMeet(c, c, s, s'); }
    if HeldByMost(c, matched, idx) {
      CommitIsMajority(c, idx, matched);
      var p := MajoritiesMeet(c, c, s, Holders(c.AllPeers(), matched, idx));
    }
  }

  /** The count-only rule is weaker than joint consensus: it can elect without an old majority. */
  lemma CountOnlyIsWeaker()
    ensures var c := ConfState({1, 2}, {}).ApplyConfChange(AddNode(3)).conf;
            var s: set<NodeId> := {1, 3};
            CanElect(c, s) && !MoreThanHalf(|s * c.joint|, |c.joint|)
  {
    var c := ConfState({1, 2}, {}).ApplyConfChange(AddNode(3)).conf;
    var s: set<NodeId> := {1, 3};
    assert c.voters == {1, 2, 3} && |c.voters| == 3 && |c.joint| == 2;
    assert s * c.joint == {1};
  }
}
