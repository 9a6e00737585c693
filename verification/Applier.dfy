/**
 * From the commit index to the server: the applier of raft/node.go hands over every committed entry that a
 * snapshot does not stand for, in order and none twice, and a server fed with its messages stays on the log.
 */
module Applier {
  import opened RaftTypes
  import opened NodeSpec
  import opened Cluster
  import opened ClusterSafety
  import opened ClusterLogs
  import opened ClusterReads
  import opened StateMachine
  import RaftNode

  // ---- What one round hands over ----

  /** What a round is on record for are exactly its messages. */
  lemma HandedIsRecorded(s: NodeState)
    requires s.commitIndex <= |s.log| && forall k :: 0 <= k < |s.log| ==> s.log[k].index == k + 1
    ensures HandedOver(s) == set e | e in Handed(s) :: Applied(s.id, e.index, e)
  {
    var from := Max(s.lastApplied, s.snapIndex);
    forall a | a in HandedOver(s) ensures a.entry in Handed(s) && a == Applied(s.id, a.entry.index, a.entry) {
      assert Handed(s)[a.index - 1 - from] == a.entry;
    }
    forall e | e in Handed(s) ensures Applied(s.id, e.index, e) in HandedOver(s) {
      var x :| 0 <= x < |Handed(s)| && Handed(s)[x] == e;
      assert e == s.log[from + x];
    }
  }

  // ---- Over whole runs ----

  lemma AppendKeeps(s: NodeState, r: AppendRequest)
    ensures var s' := HandleAppendEntries(s, r).0; s'.snapIndex == s.snapIndex && s'.lastApplied == s.lastApplied
  {
    hide FirstNew, Overwrite, Consistent, Rejection;
  }

  lemma ReplyKeeps(s: NodeState, peer: NodeId, t: Term, prev: nat, count: nat, a: AppendReply)
    ensures var s' := HandleAppendReply(s, peer, t, prev, count, a);
            s'.snapIndex == s.snapIndex && s'.lastApplied == s.lastApplied
  {
    hide ScanBack;
  }

  lemma InstallSkips(s: NodeState, r: SnapRequest, k: nat)
    requires var s' := HandleInstallSnapshot(s, r).0; s'.snapIndex < k <= s'.lastApplied
    ensures s.snapIndex < k <= s.lastApplied
  {
    hide InstalledLog;
  }

  /** Outside the applier, a node's applied entries above its snapshot do not become more. */
  lemma OnlyApplyApplies(c: Cluster, a: Action, k: nat)
    requires Enabled(c, a) && !a.Apply?
    requires NextNode(c, a).snapIndex < k <= NextNode(c, a).lastApplied
    ensures c.nodes[a.i].snapIndex < k <= c.nodes[a.i].lastApplied
  {
    hide HandleAppendEntries, HandleAppendReply, HandleInstallSnapshot, Merge, UpToDate, TornAppend, Stands;
    var s := c.nodes[a.i];
    match a
    case RecvAppend(_, m) => AppendKeeps(s, m.areq);
    case RecvAppendResp(_, m) => ReplyKeeps(s, m.from, m.reqTerm, m.prevIndex, m.count, m.reply);
    case RecvSnap(_, m) => InstallSkips(s, m.sreq, k);
    case _ =>
  }

  /**
   * In every run, a node has handed over every entry between its snapshot and its applied index, and what
   * it handed over there is what its log has.
   */
  lemma {:induction false} AppliedIsHandedOver(
    voters: set<NodeId>, cs: seq<Cluster>, actions: seq<Action>, n: nat, i: NodeId, k: nat)
    requires IsRun(voters, cs, actions) && 0 !in voters && n < |cs| && i in cs[n].nodes
    requires cs[n].nodes[i].snapIndex < k <= cs[n].nodes[i].lastApplied
    ensures k <= |cs[n].nodes[i].log| && Applied(i, k, cs[n].nodes[i].log[k - 1]) in cs[n].applied
  {
    hide *;
    LogsWellFormed(voters, cs, actions, n, i);
    RunStarts(voters, cs, actions);
    if n == 0 {
      FirstNodes(voters, i);
    } else {
      StepOf(voters, cs, actions, n - 1);
      var c, a := cs[n - 1], actions[n - 1];
      NodesAfter(c, a);
      if a.Apply? { RoundKeeps(c, a); }
      LogsWellFormed(voters, cs, actions, n - 1, i);
      if a.i != i {
        AppliedIsHandedOver(voters, cs, actions, n - 1, i, k);
      } else if a.Apply? && k > c.nodes[i].lastApplied {
        NodeAt(voters, cs, actions, n - 1, i, n - 1);
        RoundRecords(c, a, k);
      } else {
        if !a.Apply? { OnlyApplyApplies(c, a, k); }
        AppliedIsHandedOver(voters, cs, actions, n - 1, i, k);
        RecordStays(voters, cs, actions, n, i, Applied(i, k, c.nodes[i].log[k - 1]));
      }
    }
  }

  lemma FirstNodes(voters: set<NodeId>, i: NodeId)
    requires i in Init(voters).nodes
    ensures Init(voters).nodes[i] == Fresh(i, voters) && Fresh(i, voters).lastApplied == 0
  {
  }

  lemma NodesAfter(c: Cluster, a: Action)
    requires Enabled(c, a)
    ensures Next(c, a).nodes == c.nodes[a.i := NextNode(c, a)] && c.applied <= Next(c, a).applied
  {
    hide NextNode, NextHist, Sent, NextReads;
  }

  lemma RoundKeeps(c: Cluster, a: Action)
    requires Enabled(c, a) && a.Apply?
    ensures var s := c.nodes[a.i];
            NextNode(c, a) == ApplyCommitted(s) == s.(lastApplied := ApplyCommitted(s).lastApplied)
  {
  }

  lemma RoundRecords(c: Cluster, a: Action, k: nat)
    requires Enabled(c, a) && a.Apply? && c.nodes[a.i].id == a.i
    requires var s := c.nodes[a.i]; s.snapIndex <= s.lastApplied <= s.commitIndex <= |s.log|
    requires c.nodes[a.i].lastApplied < k <= ApplyCommitted(c.nodes[a.i]).lastApplied
    ensures var s' := NextNode(c, a); k <= |s'.log| && Applied(a.i, k, s'.log[k - 1]) in Next(c, a).applied
  {
    hide NextHist, Sent, NextReads;
    var s := c.nodes[a.i];
    assert Applied(s.id, k - 1 + 1, s.log[k - 1]) in HandedOver(s);
  }

  /** The log still has, at the applied index of a record, the entry on record. */
  lemma RecordStays(voters: set<NodeId>, cs: seq<Cluster>, actions: seq<Action>, n: nat, i: NodeId, a: Applied)
    requires IsRun(voters, cs, actions) && 0 !in voters && n < |cs| && i in cs[n].nodes
    requires a in cs[n].applied && 0 < a.index <= cs[n].nodes[i].lastApplied
    ensures a.index <= |cs[n].nodes[i].log| && cs[n].nodes[i].log[a.index - 1] == a.entry
  {
    hide *;
    LogsWellFormed(voters, cs, actions, n, i);
    NodeAt(voters, cs, actions, n, i, n);
    AppliedAt(voters, cs, actions, n, a);
    AppliedInLog(cs[n].h, a, cs[n].nodes[i]);
  }

  /** In every run, a node can compact its log up to any index it has applied, and loses nothing of the log. */
  lemma CompactionReaches(voters: set<NodeId>, cs: seq<Cluster>, actions: seq<Action>, n: nat, i: NodeId, k: nat)
    requires IsRun(voters, cs, actions) && 0 !in voters && n < |cs| && i in cs[n].nodes
    requires k <= cs[n].nodes[i].lastApplied
    ensures var s := cs[n].nodes[i]; var s' := Compact(s, k);
            s'.snapIndex == Max(s.snapIndex, k) && s' == s.(snapIndex := s'.snapIndex, synced := s'.synced)
  {
    LogsWellFormed(voters, cs, actions, n, i);
  }

  // ---- Into the server ----

  /** A round is the stretch of the log from where the last one ended to the new applied index. */
  lemma RoundIsNext(s: NodeState)
    requires s.commitIndex <= |s.log| && Max(s.lastApplied, s.snapIndex) <= |s.log|
    ensures var from, to := Max(s.lastApplied, s.snapIndex), Max(ApplyCommitted(s).lastApplied, s.snapIndex);
            && from <= to <= |s.log| && s.commitIndex <= to && Handed(s) == s.log[from..to]
            && ApplyCommitted(s) == s.(lastApplied := ApplyCommitted(s).lastApplied)
  {
  }

  /**
   * One round of the applier and the apply loop over its messages: a server on the node's log stays on it
   * and gets to the node's new applied index, which the commit index is not above.
   */
  method ApplyRound(node: RaftNode.Node, srv: Server)
    requires node.Valid() && node.commitIndex <= |node.FullLog()|
    requires srv.sm.Valid() && srv.Answered() && srv.Covers(node.FullLog())
    requires srv.applied == Max(node.lastApplied, node.store.snapIndex)
    requires srv.RoomForAll(Handed(node.View()))
    modifies node`lastApplied, srv, srv.sm, srv.sm.engine, srv.sm.engine.mem, set x | x in srv.sm.engine.mem.nodes
    ensures node.Valid() && node.View() == old(node.View()).(lastApplied := node.lastApplied)
    ensures srv.sm.Valid() && srv.Answered() && srv.Covers(node.FullLog())
    ensures node.commitIndex <= srv.applied == Max(node.lastApplied, node.store.snapIndex)
  {
    hide StateMachine.Valid, Server.Answered, Server.Covers, Server.RoomForAll, Handed, RaftNode.Node.Valid,
         RaftNode.Node.View, RaftNode.Node.FullLog, ApplyCommitted;
    node.LogIs();
    node.ViewIs();
    ghost var s, log := node.View(), node.FullLog();
    srv.CoversWithin(log);
    RoundIsNext(s);
    var msgs := node.ApplyCommitted();
    node.ViewIs();
    FollowAll(srv, msgs, log);
  }
}
