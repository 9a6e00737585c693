/**
 * Elections can be won. A candidate whose log is at least as up to date as those of a majority, none of
 * which has gone on to a later term or voted for another, can be continued into the leader of its term.
 */
module ProgressVote {
  import opened RaftTypes
  import opened RaftConf
  import opened NodeSpec
  import opened History
  import opened Cluster
  import opened ClusterInv
  import opened ClusterSafety
  import opened ClusterPeers
  import opened Runs

  /** f has not passed s's term, has not voted for another in it, and is not ahead of s's log. */
  predicate WouldVote(f: NodeState, s: NodeState) {
    && f.term <= s.term && (f.term == s.term ==> f.votedFor == 0 || f.votedFor == s.id)
    && UpToDate(LastTerm(s.log), |s.log|, f.log)
  }

  /** The log and everything that points into it are the same. */
  predicate SameEntries(f: NodeState, f': NodeState) {
    && f'.id == f.id && f'.log == f.log && f'.snapIndex == f.snapIndex
    && f'.commitIndex == f.commitIndex && f'.lastApplied == f.lastApplied
  }

  lemma Grants(f: NodeState, s: NodeState)
    requires WouldVote(f, s) && f.id in f.voters
    ensures var (f', v) := HandleRequestVote(f, CandidateRequest(s));
            v == VoteReply(s.term, true) && SameEntries(f, f') && f'.term == s.term
  {
  }

  /** s after it counted the vote of q. */
  predicate Counts(s: NodeState, q: NodeId, s': NodeState) {
    && s'.id == s.id && s'.term == s.term && s'.voters == s.voters
    && if Conf(s).HasVoteQuorum(s.votes + 1) then s'.role == Leader && s'.log == s.log + [Noop(s)]
       else s'.role == Candidate && s'.log == s.log && s'.votes == s.votes + 1 && s'.counted == s.counted + {q}
  }

  lemma Counted(s: NodeState, q: NodeId)
    requires s.role == Candidate
    ensures Counts(s, q, HandleVoteReply(s, q, s.term, VoteReply(s.term, true)))
  {
  }

  /** What is known of a node at the end of a run. */
  lemma Ready(voters: set<NodeId>, r: Trace, i: NodeId)
    requires r.Ok(voters) && 0 !in voters && i in voters
    ensures r.Last().nodes.Keys == voters
    ensures var s := r.Last().nodes[i];
            s.id == i && s.voters == voters && Asked(s, r.Last().net) && NextOk(s) && NodeInv(r.Last().h, s)
  {
    hide *;
    Parts(voters, r);
    var n := |r.actions|;
    SameVoters(voters, r.cs, r.actions, n, i);
    NodeAt(voters, r.cs, r.actions, n, i, n);
    ReachablePeers(voters, r.cs, r.actions, n);
    PeersOf(r.cs[n], i);
  }

  lemma VoteStep(c: Cluster, i: NodeId, j: NodeId, c': Cluster)
    requires i in c.nodes && j in c.nodes && i != j && c.nodes[j].id == j && c.nodes[i].id == i
    requires c.nodes[j].id in c.nodes[j].voters && WouldVote(c.nodes[j], c.nodes[i])
    requires After(c, RecvVoteReq(j, VoteReq(CandidateRequest(c.nodes[i]))), c')
    ensures var s := c.nodes[i];
            && c'.nodes == c.nodes[j := c'.nodes[j]]
            && SameEntries(c.nodes[j], c'.nodes[j]) && c'.nodes[j].term == s.term
            && VoteResp(j, i, s.term, VoteReply(s.term, true)) in c'.net
  {
    hide HandleRequestVote, WouldVote, SameEntries, NextReads;
    Grants(c.nodes[j], c.nodes[i]);
  }

  lemma CountStep(c: Cluster, i: NodeId, j: NodeId, c': Cluster)
    requires i in c.nodes && c.nodes[i].role == Candidate
    requires var t := c.nodes[i].term; After(c, RecvVoteResp(i, VoteResp(j, i, t, VoteReply(t, true))), c')
    ensures c'.nodes == c.nodes[i := c'.nodes[i]] && Counts(c.nodes[i], j, c'.nodes[i])
  {
    hide HandleVoteReply, Counts, NextReads;
    Counted(c.nodes[i], j);
  }

  lemma CanAsk(c: Cluster, i: NodeId, j: NodeId)
    requires i in c.nodes && j in c.nodes && i != j && c.nodes[i].id == i
    requires c.nodes[i].role == Candidate && Asked(c.nodes[i], c.net)
    ensures Enabled(c, RecvVoteReq(j, VoteReq(CandidateRequest(c.nodes[i]))))
  {
  }

  lemma CanCount(c: Cluster, i: NodeId, j: NodeId, t: Term)
    requires i in c.nodes && j !in c.nodes[i].counted && VoteResp(j, i, t, VoteReply(t, true)) in c.net
    ensures Enabled(c, RecvVoteResp(i, VoteResp(j, i, t, VoteReply(t, true))))
  {
  }

  /** Candidate i asks j and gets its vote. */
  lemma AskOne(voters: set<NodeId>, q: set<NodeId>, r: Trace, i: NodeId, j: NodeId) returns (r': Trace)
    requires r.Ok(voters) && 0 !in voters && i in q && j in q && i != j && q <= voters
    requires r.Last().nodes.Keys == voters
    requires var s := r.Last().nodes[i];
             s.role == Candidate && j !in s.counted && WouldVote(r.Last().nodes[j], s)
    ensures r'.Ok(voters) && Continues(r, r', q)
    ensures var c, c' := r.Last(), r'.Last();
            && c'.nodes.Keys == voters && Counts(c.nodes[i], j, c'.nodes[i])
            && SameEntries(c.nodes[j], c'.nodes[j]) && c'.nodes[j].term == c.nodes[i].term
            && forall p :: p in voters && p != i && p != j ==> c'.nodes[p] == c.nodes[p]
  {
    hide *;
    Ready(voters, r, i);
    Ready(voters, r, j);
    var c := r.Last();
    var s := c.nodes[i];
    CanAsk(c, i, j);
    var r1 := Go(voters, q, r, RecvVoteReq(j, VoteReq(CandidateRequest(s))));
    VoteStep(c, i, j, r1.Last());
    CanCount(r1.Last(), i, j, s.term);
    r' := Go(voters, q, r1, RecvVoteResp(i, VoteResp(j, i, s.term, VoteReply(s.term, true))));
    CountStep(r1.Last(), i, j, r'.Last());
    ContinuesOn(r, r1, r', q);
  }

  lemma VotesAre(h: Hist, s: NodeState)
    requires NodeInv(h, s) && s.role == Candidate
    ensures s.id !in s.counted && s.votes == |s.counted| + 1
  {
    hide CoreInv, VoteKept;
  }

  /** A candidate that has not won has not counted a majority. */
  lemma SomeoneLeft(h: Hist, s: NodeState, q: set<NodeId>)
    requires NodeInv(h, s) && NextOk(s) && s.role == Candidate && |s.voters| > 1
    requires s.id in q && MoreThanHalf(|q|, |s.voters|)
    ensures q - {s.id} - s.counted != {}
  {
    VotesAre(h, s);
    hide NodeInv;
    if q - {s.id} - s.counted == {} {
      assert q <= s.counted + {s.id};
      SubsetCard(q, s.counted + {s.id});
    }
  }

  /** What an election leaves of the others: everything but their terms and votes. */
  ghost predicate OnlyVoted(c: Cluster, c': Cluster, q: set<NodeId>, i: NodeId)
    requires q <= c.nodes.Keys && q <= c'.nodes.Keys && i in q
  {
    forall j :: j in q && j != i ==>
      SameEntries(c.nodes[j], c'.nodes[j]) && c'.nodes[j].term <= Max(c.nodes[j].term, c.nodes[i].term)
  }

  /**
   * Elections can be won. In any run, let candidate i and others with whom it is more than half of the
   * voters be such that those whose votes it has not counted yet are in no later term, have not voted for another
   * in its term, and have logs no more up to date than its own. Then the run continues, with steps of those nodes
   * only, to one in which i leads its term.
   */
  lemma {:induction false} ElectionCanBeWon(voters: set<NodeId>, q: set<NodeId>, r: Trace, i: NodeId)
    returns (r': Trace)
    requires r.Ok(voters) && 0 !in voters && i in q && q <= voters && MoreThanHalf(|q|, |voters|) && |voters| > 1
    requires r.Last().nodes.Keys == voters && r.Last().nodes[i].role == Candidate
    requires forall j :: j in q && j != i && j !in r.Last().nodes[i].counted ==>
               WouldVote(r.Last().nodes[j], r.Last().nodes[i])
    ensures r'.Ok(voters) && Continues(r, r', q) && r'.Last().nodes.Keys == voters
    ensures var s, s' := r.Last().nodes[i], r'.Last().nodes[i];
            s'.role == Leader && s'.term == s.term && s'.log == s.log + [Noop(s)]
    ensures OnlyVoted(r.Last(), r'.Last(), q, i)
    decreases q - r.Last().nodes[i].counted
  {
    hide Trace.Ok, Trace.Last, Continues, NodeInv, Asked, NextOk, WouldVote, SameEntries, Inv;
    Ready(voters, r, i);
    var c := r.Last();
    var s := c.nodes[i];
    SomeoneLeft(c.h, s, q);
    var j :| j in q - {i} - s.counted;
    var r1 := AskOne(voters, q, r, i, j);
    assert OnlyVoted(c, r1.Last(), q, i) by { Unchanged(c, r1.Last(), q, i, j); }
    if r1.Last().nodes[i].role == Leader {
      r' := r1;
    } else {
      StillVotes(c, r1.Last(), q, i, j);
      r' := ElectionCanBeWon(voters, q, r1, i);
      ContinuesOn(r, r1, r', q);
      VotedTwice(c, r1.Last(), r'.Last(), q, i);
    }
  }

  lemma Unchanged(c: Cluster, c': Cluster, q: set<NodeId>, i: NodeId, j: NodeId)
    requires q <= c.nodes.Keys && q <= c'.nodes.Keys && i in q && j in q
    requires SameEntries(c.nodes[j], c'.nodes[j]) && c'.nodes[j].term == c.nodes[i].term
    requires forall p :: p in q && p != i && p != j ==> c'.nodes[p] == c.nodes[p]
    ensures OnlyVoted(c, c', q, i)
  {
  }

  lemma StillVotes(c: Cluster, c': Cluster, q: set<NodeId>, i: NodeId, j: NodeId)
    requires q <= c.nodes.Keys && q <= c'.nodes.Keys && i in q && j in q
    requires Counts(c.nodes[i], j, c'.nodes[i]) && c'.nodes[i].role == Candidate
    requires forall p :: p in q && p != i && p != j ==> c'.nodes[p] == c.nodes[p]
    requires forall p :: p in q && p != i && p !in c.nodes[i].counted ==> WouldVote(c.nodes[p], c.nodes[i])
    ensures forall p :: p in q && p != i && p !in c'.nodes[i].counted ==> WouldVote(c'.nodes[p], c'.nodes[i])
  {
  }

  lemma VotedTwice(c: Cluster, c1: Cluster, c': Cluster, q: set<NodeId>, i: NodeId)
    requires q <= c.nodes.Keys && q <= c1.nodes.Keys && q <= c'.nodes.Keys && i in q
    requires c1.nodes[i].term == c.nodes[i].term && OnlyVoted(c, c1, q, i) && OnlyVoted(c1, c', q, i)
    ensures OnlyVoted(c, c', q, i)
  {
  }
}
