/** From any state of any run, any majority can give itself a leader none of them has passed. */
module ProgressLead {
  import opened RaftTypes
  import opened RaftConf
  import opened NodeSpec
  import opened Cluster
  import opened ClusterInv
  import opened ClusterPeers
  import opened Runs
  import opened ProgressVote

  /** i leads, and no node of q is in a later term. */
  ghost predicate Leads(c: Cluster, q: set<NodeId>, i: NodeId) {
    && q <= c.nodes.Keys && i in q && c.nodes[i].role == Leader
    && forall j :: j in q ==> c.nodes[j].term <= c.nodes[i].term
  }

  lemma {:induction false} LatestTerm(c: Cluster, q: set<NodeId>) returns (m: NodeId)
    requires q <= c.nodes.Keys && q != {}
    ensures m in q && forall j :: j in q ==> c.nodes[j].term <= c.nodes[m].term
  {
    var x :| x in q;
    m := x;
    if q != {x} {
      var m' := LatestTerm(c, q - {x});
      if c.nodes[m'].term >= c.nodes[x].term { m := m'; }
      assert forall j :: j in q ==> j == x || j in q - {x};
    }
  }

  /** i's log is at least as up to date as those of all of q. */
  ghost predicate Foremost(c: Cluster, q: set<NodeId>, i: NodeId) {
    && q <= c.nodes.Keys && i in c.nodes
    && forall j :: j in q ==> UpToDate(LastTerm(c.nodes[i].log), |c.nodes[i].log|, c.nodes[j].log)
  }

  lemma {:induction false} BestLog(c: Cluster, q: set<NodeId>) returns (i: NodeId)
    requires q <= c.nodes.Keys && q != {}
    ensures i in q && Foremost(c, q, i)
  {
    var x :| x in q;
    i := x;
    if q != {x} {
      var i' := BestLog(c, q - {x});
      if UpToDate(LastTerm(c.nodes[i'].log), |c.nodes[i'].log|, c.nodes[x].log) { i := i'; }
      assert forall j :: j in q ==> j == x || j in q - {x};
    }
  }

  /** Node i, not a leader, stands. */
  lemma StandOnce(voters: set<NodeId>, q: set<NodeId>, r: Trace, i: NodeId) returns (r': Trace)
    requires r.Ok(voters) && 0 !in voters && i in q && q <= voters && |voters| > 1
    requires r.Last().nodes.Keys == voters && r.Last().nodes[i].role != Leader
    ensures r'.Ok(voters) && Continues(r, r', q)
    ensures r'.Last().nodes == r.Last().nodes[i := StartElection(r.Last().nodes[i])]
    ensures VoteReq(CandidateRequest(StartElection(r.Last().nodes[i]))) in r'.Last().net
  {
    hide Trace.Ok, Trace.Last, Continues, NodeInv, Asked, NextOk, StartElection, CandidateRequest;
    Ready(voters, r, i);
    r' := Go(voters, q, r, Stand(i));
  }

  /** And again, until its term is beyond t. */
  lemma {:induction false} StandBeyond(voters: set<NodeId>, q: set<NodeId>, r: Trace, i: NodeId, t: Term)
    returns (r': Trace)
    requires r.Ok(voters) && 0 !in voters && i in q && q <= voters && |voters| > 1
    requires r.Last().nodes.Keys == voters && r.Last().nodes[i].role != Leader
    ensures r'.Ok(voters) && Continues(r, r', q) && r'.Last().nodes.Keys == voters
    ensures var s, s' := r.Last().nodes[i], r'.Last().nodes[i];
            s'.role == Candidate && s'.term > t && s'.term > s.term && SameEntries(s, s')
    ensures forall j :: j in voters && j != i ==> r'.Last().nodes[j] == r.Last().nodes[j]
    decreases t + 1 - r.Last().nodes[i].term
  {
    hide Trace.Ok, Trace.Last, Continues;
    r' := StandOnce(voters, q, r, i);
    if r'.Last().nodes[i].term <= t {
      var r1 := r';
      r' := StandBeyond(voters, q, r1, i, t);
      ContinuesOn(r, r1, r', q);
    }
  }

  lemma Deposed(s: NodeState, v: VoteRequest)
    requires v.term > s.term
    ensures var s' := HandleRequestVote(s, v).0; s'.role == Follower && s'.term == v.term && SameEntries(s, s')
  {
  }

  /** A leader steps down when a node of a later term stands. */
  lemma Depose(voters: set<NodeId>, q: set<NodeId>, r: Trace, m: NodeId, i: NodeId) returns (r': Trace)
    requires r.Ok(voters) && 0 !in voters && i in q && m in q && m != i && q <= voters && |voters| > 1
    requires r.Last().nodes.Keys == voters && r.Last().nodes[m].role != Leader
    requires r.Last().nodes[i].term <= r.Last().nodes[m].term
    ensures r'.Ok(voters) && Continues(r, r', q) && r'.Last().nodes.Keys == voters
    ensures var c, c' := r.Last(), r'.Last();
            && c'.nodes[i].role == Follower && c'.nodes[i].term == c'.nodes[m].term == c.nodes[m].term + 1
            && SameEntries(c.nodes[i], c'.nodes[i]) && SameEntries(c.nodes[m], c'.nodes[m])
            && forall j :: j in voters && j != i && j != m ==> c'.nodes[j] == c.nodes[j]
  {
    hide Trace.Ok, Trace.Last, Continues, HandleRequestVote, NodeInv, NextOk, Asked;
    Ready(voters, r, m);
    var r1 := StandOnce(voters, q, r, m);
    var v := CandidateRequest(StartElection(r.Last().nodes[m]));
    Deposed(r1.Last().nodes[i], v);
    r' := Go(voters, q, r1, RecvVoteReq(i, VoteReq(v)));
    ContinuesOn(r, r1, r', q);
  }

  /** A node with the foremost log that does not lead becomes the leader. */
  lemma Elect(voters: set<NodeId>, q: set<NodeId>, r: Trace, i: NodeId, t: Term) returns (r': Trace)
    requires r.Ok(voters) && 0 !in voters && i in q && q <= voters && MoreThanHalf(|q|, |voters|) && |voters| > 1
    requires r.Last().nodes.Keys == voters && r.Last().nodes[i].role != Leader && Foremost(r.Last(), q, i)
    requires forall j :: j in q ==> r.Last().nodes[j].term <= t
    ensures r'.Ok(voters) && Continues(r, r', q) && r'.Last().nodes.Keys == voters && Leads(r'.Last(), q, i)
  {
    hide Trace.Ok, Trace.Last, Continues, UpToDate;
    var r1 := StandBeyond(voters, q, r, i, t);
    assert forall j :: j in q && j != i ==> WouldVote(r1.Last().nodes[j], r1.Last().nodes[i]);
    r' := ElectionCanBeWon(voters, q, r1, i);
    ContinuesOn(r, r1, r', q);
  }

  /** Any majority, from any state: the run continues to one in which one of them leads and none has passed it. */
  lemma LeaderArises(voters: set<NodeId>, q: set<NodeId>, r: Trace) returns (r': Trace, i: NodeId)
    requires r.Ok(voters) && 0 !in voters && q <= voters && MoreThanHalf(|q|, |voters|) && |voters| > 1
    requires r.Last().nodes.Keys == voters
    ensures r'.Ok(voters) && Continues(r, r', q) && r'.Last().nodes.Keys == voters && Leads(r'.Last(), q, i)
  {
    var c := r.Last();
    var m := LatestTerm(c, q);
    hide Trace.Ok, Trace.Last, UpToDate;
    if l :| l in q && c.nodes[l].role == Leader && c.nodes[l].term == c.nodes[m].term {
      r', i := r, l;
    } else {
      i := BestLog(c, q);
      var r1 := r;
      if c.nodes[i].role == Leader {
        r1 := Depose(voters, q, r, m, i);
        assert Foremost(r1.Last(), q, i);
      }
      r' := Elect(voters, q, r1, i, c.nodes[m].term + 1);
      ContinuesOn(r, r1, r', q);
    }
  }
}
