/** Linearizable reads and acknowledged writes, for every run of the cluster. */
module ClusterReads {
  import opened Bytes
  import opened RaftTypes
  import opened RaftConf
  import opened NodeSpec
  import opened History
  import opened Cluster
  import opened ClusterInv
  import opened ClusterAppend
  import opened ClusterSteps
  import opened ClusterSafety
  import opened ClusterLogs

  // ---- ReadIndex ----

  /** A quorum still in the leader's term rules out every later leader that existed at the start. */
  lemma QuorumIsFresh(h: Hist, r: ReadCall, t: Term, k: nat)
    requires HistInv(h) && ReadInv(h, r) && r.done && r.settled && (t, k) in r.committed
    ensures k <= r.index
  {
    if t > r.term {
      assert t in h.reigns;
      ReignOf(h, t);
      hide HistInv;
      var acked := r.acked + {r.leader};
      var j := QuorumsMeet(h.voters, acked, h.reigns[t].winners);
      assert false;
    }
  }

  ghost predicate SameCall(r: ReadCall, r': ReadCall) {
    r' == r.(acked := r'.acked, done := r'.done)
  }

  /** Until a call returns, nothing recorded at its start changes. */
  lemma {:induction false} CallKept(voters: set<NodeId>, cs: seq<Cluster>, actions: seq<Action>, b: nat, q: nat, n: nat)
    requires IsRun(voters, cs, actions) && b <= n < |cs| && q in cs[b].calls
    ensures q in cs[n].calls && SameCall(cs[b].calls[q], cs[n].calls[q])
    decreases n
  {
    if b < n {
      CallKept(voters, cs, actions, b, q, n - 1);
      assert StepAt(cs, actions, n - 1);
    }
  }

  lemma CallAt(voters: set<NodeId>, cs: seq<Cluster>, actions: seq<Action>, n: nat, q: nat)
    requires IsRun(voters, cs, actions) && 0 !in voters && n < |cs| && q in cs[n].calls
    ensures HistInv(cs[n].h) && ReadInv(cs[n].h, cs[n].calls[q])
  {
    ReachableInv(voters, cs, actions, n);
    hide *;
    CallOf(cs[n], q);
    InvHist(cs[n]);
  }

  /** Everything committed before the call began lies at or below the index it returns. */
  lemma ReadCoversCommits(voters: set<NodeId>, cs: seq<Cluster>, actions: seq<Action>,
                          b: nat, i: NodeId, q: nat, n: nat, t: Term, k: nat)
    requires IsRun(voters, cs, actions) && 0 !in voters && b < n < |cs| && actions[b] == ReadStart(i, q)
    requires q in cs[n].calls && cs[n].calls[q].done
    requires i in cs[b].nodes && Settled(cs[b].nodes[i])
    requires (t, k) in cs[b].h.commits
    ensures cs[n].calls[q].index == cs[b].nodes[i].commitIndex && k <= cs[n].calls[q].index
  {
    hide HistInv, Inv, ReadInv;
    assert StepAt(cs, actions, b);
    CallKept(voters, cs, actions, b + 1, q, n);
    CallAt(voters, cs, actions, n, q);
    QuorumIsFresh(cs[n].h, cs[n].calls[q], t, k);
  }

  /**
   * ReadIndex freshness. If the leader had no entry of an earlier term above its commit index
   * when the call began, a call that returns yields an index no smaller than the commit index
   * of any node at any moment up to then.
   */
  lemma ReadIndexFresh(voters: set<NodeId>, cs: seq<Cluster>, actions: seq<Action>,
                       b: nat, i: NodeId, q: nat, n: nat, m: nat, j: NodeId)
    requires IsRun(voters, cs, actions) && 0 !in voters && b < n < |cs| && actions[b] == ReadStart(i, q)
    requires q in cs[n].calls && cs[n].calls[q].done
    requires i in cs[b].nodes && Settled(cs[b].nodes[i])
    requires m <= b && j in cs[m].nodes
    ensures cs[m].nodes[j].commitIndex <= cs[n].calls[q].index
  {
    hide HistInv, NodeInv, Inv, IsRun, Grows, Rooted;
    NodeAt(voters, cs, actions, m, j, b);
    var s := cs[m].nodes[j];
    if s.commitIndex > 0 {
      var t: Term, k: nat :| CommittedBy(cs[b].h, s.log[..s.commitIndex], s.term, t, k);
      ReadCoversCommits(voters, cs, actions, b, i, q, n, t, k);
    }
  }

  // ---- Acknowledged writes ----

  /**
   * What propose waits for: some entry was applied at the index Propose returned, and its
   * term is the one Propose returned. Then it is the proposed command.
   */
  lemma AcknowledgedIsApplied(voters: set<NodeId>, cs: seq<Cluster>, actions: seq<Action>,
                              b: nat, i: NodeId, data: Bytes, m: nat, a: Applied)
    requires IsRun(voters, cs, actions) && 0 !in voters && b < |actions| && actions[b] == Command(i, data)
    requires i in cs[b].nodes && m < |cs| && a in cs[m].applied
    requires a.index == |cs[b].nodes[i].log| + 1 && a.entry.term == cs[b].nodes[i].term
    ensures a.entry.data == data
  {
    var z := if m <= b then b + 1 else m;
    var p := Proposal(a.index, a.entry.term, data);
    assert p in cs[b + 1].proposed by { assert StepAt(cs, actions, b); }
    assert |cs| == |actions| + 1;
    hide *;
    RunGrows(voters, cs, actions, b + 1, z);
    RunGrows(voters, cs, actions, m, z);
    AppliedAt(voters, cs, actions, z, a);
    ProposalAt(voters, cs, actions, z, p);
    OneEntry(cs[z].h, p, a);
  }

  lemma ProposalAt(voters: set<NodeId>, cs: seq<Cluster>, actions: seq<Action>, n: nat, p: Proposal)
    requires IsRun(voters, cs, actions) && 0 !in voters && n < |cs| && p in cs[n].proposed
    ensures ProposalInv(cs[n].h, p)
  {
    hide HistInv, NodesInv, MsgsInv, ReadsInv, IsRun, ProposalInv;
    ReachableInv(voters, cs, actions, n);
  }

  /** An index and a term name one entry. */
  lemma OneEntry(h: Hist, p: Proposal, a: Applied)
    requires HistInv(h) && ProposalInv(h, p) && AppliedInv(h, a) && a.index == p.index && a.entry.term == p.term
    ensures a.entry == Entry(p.term, p.index, p.data)
  {
    hide HistInv;
    var t: Term, k: nat :| AppliedBy(h, a, t, k);
    ReignOf(h, t);
    assert RootedAt(h, h.reigns[t].log, a.index - 1);
    assert h.reigns[t].log[..a.index][a.index - 1] == h.reigns[p.term].log[..a.index][a.index - 1];
  }

  /**
   * A write acknowledged before a read began is visible to it: once the reading node has applied
   * through the index ReadIndex returned, it has applied that command at that position.
   */
  lemma AcknowledgedIsRead(voters: set<NodeId>, cs: seq<Cluster>, actions: seq<Action>,
                           w: nat, l: NodeId, data: Bytes, m: nat, a: Applied,
                           b: nat, i: NodeId, q: nat, n: nat, z: nat)
    requires IsRun(voters, cs, actions) && 0 !in voters
    requires w < m <= b < n <= z < |cs| && actions[w] == Command(l, data) && actions[b] == ReadStart(i, q)
    requires l in cs[w].nodes && a in cs[m].applied
    requires a.index == |cs[w].nodes[l].log| + 1 && a.entry.term == cs[w].nodes[l].term
    requires i in cs[b].nodes && Settled(cs[b].nodes[i])
    requires q in cs[n].calls && cs[n].calls[q].done
    requires i in cs[z].nodes && cs[z].nodes[i].lastApplied >= cs[n].calls[q].index
    ensures var s := cs[z].nodes[i];
            a.index <= cs[n].calls[q].index <= s.lastApplied <= |s.log| && s.log[a.index - 1].data == data
  {
    assert |cs| == |actions| + 1;
    hide *;
    AcknowledgedIsApplied(voters, cs, actions, w, l, data, m, a);
    RunGrows(voters, cs, actions, m, b);
    AppliedAt(voters, cs, actions, b, a);
    var t, k := AppliedCommit(cs[b].h, a);
    ReadCoversCommits(voters, cs, actions, b, i, q, n, t, k);
    NodeAt(voters, cs, actions, z, i, z);
    RunGrows(voters, cs, actions, m, z);
    AppliedAt(voters, cs, actions, z, a);
    LogsWellFormed(voters, cs, actions, z, i);
    AppliedInLog(cs[z].h, a, cs[z].nodes[i]);
  }

  lemma AppliedCommit(h: Hist, a: Applied) returns (t: Term, k: nat)
    requires AppliedInv(h, a)
    ensures (t, k) in h.commits && 0 < a.index <= k
  {
    t, k :| AppliedBy(h, a, t, k);
  }

  lemma AppliedInLog(h: Hist, a: Applied, s: NodeState)
    requires HistInv(h) && AppliedInv(h, a) && s.commitIndex <= |s.log|
    requires Committed(h, s.log[..s.commitIndex], s.term) && 0 < a.index <= s.commitIndex
    ensures s.log[a.index - 1] == a.entry
  {
    hide HistInv;
    var t: Term, c: nat :| AppliedBy(h, a, t, c);
    var u: Term, d: nat :| CommittedBy(h, s.log[..s.commitIndex], s.term, u, d);
    CommitsAgree(h, t, c, u, d);
    assert s.log[a.index - 1] == s.log[..s.commitIndex][a.index - 1];
  }
}
