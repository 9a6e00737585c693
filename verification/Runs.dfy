/** Runs of a cluster, continued step by step. */
module Runs {
  import opened RaftTypes
  import opened Cluster

  datatype Trace = Trace(cs: seq<Cluster>, actions: seq<Action>) {
    ghost predicate Ok(voters: set<NodeId>) { |cs| == |actions| + 1 && IsRun(voters, cs, actions) }

    ghost function Last(): Cluster {
      if |actions| < |cs| then cs[|actions|] else Init({})
    }
  }

  lemma Parts(voters: set<NodeId>, r: Trace)
    requires r.Ok(voters)
    ensures |r.cs| == |r.actions| + 1 && IsRun(voters, r.cs, r.actions) && r.Last() == r.cs[|r.actions|]
  {
  }

  /** One more step. */
  lemma Extend(voters: set<NodeId>, r: Trace, a: Action) returns (r': Trace)
    requires r.Ok(voters) && Enabled(r.Last(), a)
    ensures r'.Ok(voters) && r'.Last() == Next(r.Last(), a) && r'.actions == r.actions + [a] && r.cs <= r'.cs
  {
    r' := Trace(r.cs + [Next(r.Last(), a)], r.actions + [a]);
    forall n | 0 <= n < |r'.actions| ensures StepAt(r'.cs, r'.actions, n) {
      if n < |r.actions| { assert StepAt(r.cs, r.actions, n); }
    }
  }

  /** A continuation in which only these nodes take steps. */
  ghost predicate Continues(r: Trace, r': Trace, q: set<NodeId>) {
    && r.cs <= r'.cs && r.actions <= r'.actions
    && forall n :: |r.actions| <= n < |r'.actions| ==> r'.actions[n].i in q
  }

  lemma Stays(r: Trace, q: set<NodeId>)
    ensures Continues(r, r, q)
  {
  }

  lemma ContinuesOn(r: Trace, r1: Trace, r2: Trace, q: set<NodeId>)
    requires Continues(r, r1, q) && Continues(r1, r2, q)
    ensures Continues(r, r2, q)
  {
    forall n | |r.actions| <= n < |r2.actions| ensures r2.actions[n].i in q {
      if n < |r1.actions| { assert r2.actions[n] == r1.actions[n]; }
    }
  }

  /** What a step changes, apart from the history. */
  ghost predicate After(c: Cluster, a: Action, c': Cluster) {
    && Enabled(c, a)
    && c'.nodes == c.nodes[a.i := NextNode(c, a)]
    && c'.net == c.net + Sent(c, a)
    && c'.applied == (if a.Apply? then c.applied + HandedOver(c.nodes[a.i]) else c.applied)
    && c'.calls == NextReads(c, a)
  }

  lemma Go(voters: set<NodeId>, q: set<NodeId>, r: Trace, a: Action) returns (r': Trace)
    requires r.Ok(voters) && Enabled(r.Last(), a) && a.i in q
    ensures r'.Ok(voters) && Continues(r, r', q) && After(r.Last(), a, r'.Last())
    ensures r'.cs == r.cs + [r'.Last()] && r'.actions == r.actions + [a]
  {
    hide Enabled, NextNode, NextHist, Sent, NextReads, IsRun;
    r' := Extend(voters, r, a);
    assert r'.cs == r.cs + [r'.Last()];
  }
}
