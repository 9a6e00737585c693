/**
 * The safety properties of Figure 3 of the extended Raft paper, for every run of the
 * cluster. Each one relates two nodes at two moments of a run, in any order.
 */
module ClusterSafety {
  import opened RaftTypes
  import opened NodeSpec
  import opened History
  import opened Cluster
  import opened ClusterInv
  import opened ClusterAppend
  import opened ClusterSteps

  // ---- Runs ----

  /** Every state of every run satisfies the invariant. */
  lemma {:induction false} ReachableInv(voters: set<NodeId>, cs: seq<Cluster>, actions: seq<Action>, n: nat)
    requires IsRun(voters, cs, actions) && 0 !in voters && n < |cs|
    ensures Inv(cs[n])
  {
    if n == 0 {
      InitInv(voters);
    } else {
      ReachableInv(voters, cs, actions, n - 1);
      assert StepAt(cs, actions, n - 1);
      NextInv(cs[n - 1], actions[n - 1]);
    }
  }

  lemma GrowsTrans(a: Hist, b: Hist, c: Hist)
    requires Grows(a, b) && Grows(b, c)
    ensures Grows(a, c)
  {
    forall t | t in a.reigns ensures t in c.reigns && ReignGrows(a.reigns[t], c.reigns[t], t) {
      assert ReignGrows(a.reigns[t], b.reigns[t], t) && ReignGrows(b.reigns[t], c.reigns[t], t);
      var la, lb, lc := a.reigns[t].log, b.reigns[t].log, c.reigns[t].log;
      forall k | |la| <= k < |lc| ensures lc[k].term == t {
        if k < |lb| { assert lc[k] == lb[k]; }
      }
    }
  }

  lemma RunStarts(voters: set<NodeId>, cs: seq<Cluster>, actions: seq<Action>)
    requires IsRun(voters, cs, actions)
    ensures |cs| == |actions| + 1 && cs[0] == Init(voters)
  {
  }

  lemma StepOf(voters: set<NodeId>, cs: seq<Cluster>, actions: seq<Action>, n: nat)
    requires IsRun(voters, cs, actions) && n < |actions|
    ensures n + 1 < |cs| && Enabled(cs[n], actions[n]) && cs[n + 1] == Next(cs[n], actions[n])
  {
    assert StepAt(cs, actions, n);
  }

  lemma RecordsGrow(c: Cluster, a: Action)
    requires Enabled(c, a)
    ensures c.applied <= Next(c, a).applied && c.proposed <= Next(c, a).proposed
  {
    hide NextNode, NextHist, Sent, NextReads;
  }

  /** Nothing in the record of a run is ever taken back. */
  lemma {:induction false} RunGrows(voters: set<NodeId>, cs: seq<Cluster>, actions: seq<Action>, m: nat, n: nat)
    requires IsRun(voters, cs, actions) && 0 !in voters && m <= n < |cs|
    ensures Grows(cs[m].h, cs[n].h) && cs[m].applied <= cs[n].applied && cs[m].proposed <= cs[n].proposed
    decreases n - m
  {
    hide *;
    if m == n {
      GrowsRefl(cs[m].h);
    } else {
      RunStarts(voters, cs, actions);
      StepOf(voters, cs, actions, n - 1);
      RunGrows(voters, cs, actions, m, n - 1);
      ReachableInv(voters, cs, actions, n - 1);
      RecordsGrow(cs[n - 1], actions[n - 1]);
      NextInv(cs[n - 1], actions[n - 1]);
      GrowsTrans(cs[m].h, cs[n - 1].h, cs[n].h);
    }
  }

  /** A node's state at moment m, seen from the history of a later moment n. */
  lemma NodeAt(voters: set<NodeId>, cs: seq<Cluster>, actions: seq<Action>, m: nat, i: NodeId, n: nat)
    requires IsRun(voters, cs, actions) && 0 !in voters && m <= n < |cs| && i in cs[m].nodes
    ensures HistInv(cs[n].h) && Grows(cs[m].h, cs[n].h)
    ensures var s := cs[m].nodes[i];
            && s.id == i && NodeInv(cs[m].h, s) && s.commitIndex <= |s.log|
            && Committed(cs[n].h, s.log[..s.commitIndex], s.term)
  {
    ReachableInv(voters, cs, actions, m);
    ReachableInv(voters, cs, actions, n);
    RunGrows(voters, cs, actions, m, n);
    hide Inv, IsRun, HistInv, Grows, LogInv, Rooted, Committed, AcksHeld, PastTerms;
    NodeOf(cs[m], i);
    InvHist(cs[n]);
    var s, h, h' := cs[m].nodes[i], cs[m].h, cs[n].h;
    CommittedGrows(h, h', s.log[..s.commitIndex], s.log[..s.commitIndex], s.term, s.term);
  }

  lemma InvHist(c: Cluster)
    requires Inv(c)
    ensures HistInv(c.h)
  {
  }

  // ---- Election Safety ----

  /** At most one node is ever leader in a given term. */
  lemma ElectionSafety(
    voters: set<NodeId>, cs: seq<Cluster>, actions: seq<Action>, m: nat, i: NodeId, n: nat, j: NodeId)
    requires IsRun(voters, cs, actions) && 0 !in voters && m < |cs| && n < |cs|
    requires i in cs[m].nodes && j in cs[n].nodes
    requires cs[m].nodes[i].role == Leader && cs[n].nodes[j].role == Leader
    requires cs[m].nodes[i].term == cs[n].nodes[j].term
    ensures i == j
  {
    var z := if m <= n then n else m;
    NodeAt(voters, cs, actions, m, i, z);
    NodeAt(voters, cs, actions, n, j, z);
    hide HistInv, Rooted, AcksHeld, PastTerms, Committed;
    var t := cs[m].nodes[i].term;
    assert ReignGrows(cs[m].h.reigns[t], cs[z].h.reigns[t], t);
    assert ReignGrows(cs[n].h.reigns[t], cs[z].h.reigns[t], t);
  }

  // ---- Leader Completeness ----

  /** What some node ever knew to be committed is in the log of every leader of a later term. */
  lemma LeadersHaveCommitted(
    voters: set<NodeId>, cs: seq<Cluster>, actions: seq<Action>, m: nat, i: NodeId, n: nat, j: NodeId)
    requires IsRun(voters, cs, actions) && 0 !in voters && m < |cs| && n < |cs|
    requires i in cs[m].nodes && j in cs[n].nodes
    requires cs[n].nodes[j].role == Leader && cs[m].nodes[i].term < cs[n].nodes[j].term
    ensures var s := cs[m].nodes[i];
            s.commitIndex <= |s.log| && s.log[..s.commitIndex] <= cs[n].nodes[j].log
  {
    var z := if m <= n then n else m;
    hide *;
    NodeAt(voters, cs, actions, m, i, z);
    NodeAt(voters, cs, actions, n, j, z);
    NodeAt(voters, cs, actions, n, j, n);
    LeaderHas(cs[m].h, cs[m].nodes[i], cs[n].h, cs[n].nodes[j], cs[z].h);
  }

  lemma LeaderHas(h: Hist, s: NodeState, h': Hist, l: NodeState, z: Hist)
    requires NodeInv(h, s) && NodeInv(h', l) && l.role == Leader && s.term < l.term
    requires HistInv(h') && HistInv(z) && Grows(h', z) && Committed(z, s.log[..s.commitIndex], s.term)
    ensures s.log[..s.commitIndex] <= l.log
  {
    hide HistInv, Rooted, AcksHeld, PastTerms, Committed;
    var pre, u := s.log[..s.commitIndex], l.term;
    assert ReignGrows(h'.reigns[u], z.reigns[u], u);
    CommittedInReign(z, pre, s.term, u);
    ReignOf(h', u);
    EndsInOwnTerm(h', u, l.log);
    // The leader's log ends in its own term, and no committed entry is from that term.
    forall x | 0 <= x < |pre| ensures pre[x].term <= s.term { assert pre[x] == s.log[x]; }
    assert forall x :: 0 <= x < |pre| && x < |l.log| ==> pre[x] == l.log[x];
  }

  lemma EndsInOwnTerm(h: Hist, t: Term, log: Log)
    requires t in h.reigns && ReignInv(h, t) && log == h.reigns[t].log
    ensures |log| > 0 && log[|log| - 1].term == t
  {
  }

  // ---- State Machine Safety ----

  /** What two nodes ever knew to be committed, one is a prefix of the other. */
  lemma CommittedPrefixesAgree(
    voters: set<NodeId>, cs: seq<Cluster>, actions: seq<Action>, m: nat, i: NodeId, n: nat, j: NodeId, k: nat)
    requires IsRun(voters, cs, actions) && 0 !in voters && m < |cs| && n < |cs|
    requires i in cs[m].nodes && j in cs[n].nodes
    requires k < cs[m].nodes[i].commitIndex && k < cs[n].nodes[j].commitIndex
    ensures k < |cs[m].nodes[i].log| && k < |cs[n].nodes[j].log|
    ensures cs[m].nodes[i].log[k] == cs[n].nodes[j].log[k]
  {
    var z := if m <= n then n else m;
    hide *;
    NodeAt(voters, cs, actions, m, i, z);
    NodeAt(voters, cs, actions, n, j, z);
    var a, b := cs[m].nodes[i], cs[n].nodes[j];
    CommittedAgree(cs[z].h, a.log[..a.commitIndex], a.term, b.log[..b.commitIndex], b.term, k);
  }

  lemma CommittedAgree(h: Hist, a: Log, x: Term, b: Log, y: Term, k: nat)
    requires HistInv(h) && Committed(h, a, x) && Committed(h, b, y) && k < |a| && k < |b|
    ensures a[k] == b[k]
  {
    hide HistInv;
    var t: Term, c: nat :| CommittedBy(h, a, x, t, c);
    var u: Term, d: nat :| CommittedBy(h, b, y, u, d);
    CommitsAgree(h, t, c, u, d);
  }

  lemma CommitsAgree(h: Hist, t: Term, c: nat, u: Term, d: nat)
    requires HistInv(h) && (t, c) in h.commits && (u, d) in h.commits
    ensures t in h.reigns && u in h.reigns && c <= |h.reigns[t].log| && d <= |h.reigns[u].log|
    ensures forall k :: 0 <= k < c && k < d ==> h.reigns[t].log[k] == h.reigns[u].log[k]
  {
    assert CommitInv(h, t, c) && CommitInv(h, u, d);
    if t < u { LeaderCompleteness(h, t, c, u); }
    if u < t { LeaderCompleteness(h, u, d, t); }
  }

  /** State Machine Safety: no two nodes ever apply different entries at the same index. */
  lemma StateMachineSafety(
    voters: set<NodeId>, cs: seq<Cluster>, actions: seq<Action>, m: nat, a: Applied, n: nat, b: Applied)
    requires IsRun(voters, cs, actions) && 0 !in voters && m < |cs| && n < |cs|
    requires a in cs[m].applied && b in cs[n].applied && a.index == b.index
    ensures a.entry == b.entry
  {
    var z := if m <= n then n else m;
    hide *;
    RunGrows(voters, cs, actions, m, z);
    RunGrows(voters, cs, actions, n, z);
    AppliedAt(voters, cs, actions, z, a);
    AppliedAt(voters, cs, actions, z, b);
    AppliedAgree(cs[z].h, a, b);
  }

  lemma AppliedAt(voters: set<NodeId>, cs: seq<Cluster>, actions: seq<Action>, n: nat, a: Applied)
    requires IsRun(voters, cs, actions) && 0 !in voters && n < |cs| && a in cs[n].applied
    ensures HistInv(cs[n].h) && AppliedInv(cs[n].h, a)
  {
    hide HistInv, NodesInv, MsgsInv, ReadsInv, IsRun, AppliedInv;
    ReachableInv(voters, cs, actions, n);
  }

  lemma AppliedAgree(h: Hist, a: Applied, b: Applied)
    requires HistInv(h) && AppliedInv(h, a) && AppliedInv(h, b) && a.index == b.index
    ensures a.entry == b.entry
  {
    hide HistInv;
    var t: Term, c: nat :| AppliedBy(h, a, t, c);
    var u: Term, d: nat :| AppliedBy(h, b, u, d);
    CommitsAgree(h, t, c, u, d);
  }
}
