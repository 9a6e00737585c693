/**
 * Availability. From any state of any run, any majority that keeps taking steps can get a new command
 * committed and applied by all of its members, above everything that was ever committed, and answer a read.
 */
module ProgressCommit {
  import opened Bytes
  import opened RaftTypes
  import opened RaftConf
  import opened NodeSpec
  import opened History
  import opened Cluster
  import opened ClusterInv
  import opened ClusterSteps
  import opened ClusterSafety
  import opened ClusterLogs
  import opened ClusterPeers
  import opened Runs
  import opened ProgressVote
  import opened ProgressLead
  import opened ProgressAppend
  import opened Applier

  // ---- Round the peers ----

  /** A leader at the end of a run that no node of q has passed. */
  ghost predicate Reigns(voters: set<NodeId>, q: set<NodeId>, r: Trace, i: NodeId) {
    r.Ok(voters) && 0 !in voters && q <= voters && r.Last().nodes.Keys == voters && Leads(r.Last(), q, i)
  }

  /** The nodes of `done` follow the leader of c, hold its log as far as it knows, and know its commit index. */
  ghost predicate Synchronized(c: Cluster, c': Cluster, i: NodeId, done: set<NodeId>)
    requires i in c.nodes && done <= c.nodes.Keys
  {
    && c'.nodes.Keys == c.nodes.Keys && Kept(c.nodes[i], c'.nodes[i]) && KnowsMore(c.nodes[i], c'.nodes[i])
    && forall j :: j in done && j != i ==>
         && Get(c'.nodes[i].matchIndex, j) >= |c.nodes[i].log|
         && Obeys(c.nodes[i], c.nodes[j], c'.nodes[j])
         && c'.nodes[j].commitIndex >= c.nodes[i].commitIndex
  }

  /** The leader brings every node of `todo` up to date, one after the other; the rest do not change. */
  lemma {:induction false} Round(voters: set<NodeId>, q: set<NodeId>, r: Trace, i: NodeId, todo: set<NodeId>)
    returns (r': Trace)
    requires Reigns(voters, q, r, i) && todo <= q && i !in todo
    ensures Reigns(voters, q, r', i) && Continues(r, r', q) && Synchronized(r.Last(), r'.Last(), i, todo)
    ensures todo != {} ==> Closed(r'.Last().nodes[i])
    ensures forall p :: p in voters && p != i && p !in todo ==> r'.Last().nodes[p] == r.Last().nodes[p]
    decreases |todo|
  {
    hide Trace.Ok, Trace.Last, Continues, Kept, Obeys, KnowsMore, Closed;
    if todo == {} {
      r' := r;
      Stays(r, q);
      Same(r.Last().nodes[i]);
    } else {
      var j :| j in todo;
      var r1 := Round(voters, q, r, i, todo - {j});
      r' := CatchUp(voters, q, r1, i, j);
      ContinuesOn(r, r1, r', q);
      OneMore(r.Last(), r1.Last(), r'.Last(), i, j, todo);
      StillLeads(r1.Last(), r'.Last(), q, i, j);
    }
  }

  lemma Same(s: NodeState)
    requires s.role == Leader
    ensures Kept(s, s) && KnowsMore(s, s)
  {
  }

  lemma OneMore(c: Cluster, c1: Cluster, c': Cluster, i: NodeId, j: NodeId, todo: set<NodeId>)
    requires i in c.nodes && i in c1.nodes && j in c1.nodes && todo <= c.nodes.Keys && j in todo && i !in todo
    requires Synchronized(c, c1, i, todo - {j}) && CaughtUp(c1, c', i, j) && c1.nodes[j] == c.nodes[j]
    ensures Synchronized(c, c', i, todo)
  {
  }

  lemma StillLeads(c: Cluster, c': Cluster, q: set<NodeId>, i: NodeId, j: NodeId)
    requires Leads(c, q, i) && j in q && j != i && Told(c, c', i, j)
    ensures Leads(c', q, i)
  {
  }

  // ---- What was committed ----

  /** A commit is acknowledged by someone in q, so its term is not past the leader's. */
  lemma CommitReached(c: Cluster, q: set<NodeId>, i: NodeId, t: Term, k: nat)
    requires Inv(c) && Leads(c, q, i) && q <= c.h.voters && MoreThanHalf(|q|, |c.h.voters|) && (t, k) in c.h.commits
    ensures t <= c.nodes[i].term && t in c.h.reigns && |c.h.reigns[t].log| >= k
    ensures c.h.reigns[t].log[..k] <= c.nodes[i].log
  {
    hide Inv, HistInv, NodeInv, Rooted;
    InvHist(c);
    CommitOf(c.h, t, k);
    var j := QuorumsMeet(c.h.voters, AckHolders(c.h, t, k), q);
    NodeOf(c, j);
    NodeOf(c, i);
    HasAcked(c.h, c.nodes[j], t);
    LeaderOf(c.h, c.nodes[i]);
    if t < c.nodes[i].term { LeaderCompleteness(c.h, t, k, c.nodes[i].term); }
  }

  lemma CommitOf(h: Hist, t: Term, k: nat)
    requires HistInv(h) && (t, k) in h.commits
    ensures CommitInv(h, t, k)
  {
  }

  lemma HasAcked(h: Hist, s: NodeState, t: Term)
    requires NodeInv(h, s) && (s.id, t) in h.acks
    ensures t <= s.term
  {
  }

  /**
   * A leader that no node of a majority has passed holds everything that any node, of that majority or not, has
   * ever known to be committed.
   */
  lemma LeaderHoldsCommits(
    voters: set<NodeId>, q: set<NodeId>, r: Trace, i: NodeId, m: nat, x: NodeId)
    requires Reigns(voters, q, r, i) && MoreThanHalf(|q|, |voters|) && m < |r.cs| && x in r.cs[m].nodes
    ensures var s := r.cs[m].nodes[x];
            s.commitIndex <= |s.log| && s.log[..s.commitIndex] <= r.Last().nodes[i].log
  {
    hide IsRun, Inv, HistInv, NodeInv, Grows, Rooted, Leads;
    var n := |r.actions|;
    ReachableInv(voters, r.cs, r.actions, n);
    SameVoters(voters, r.cs, r.actions, n, i);
    NodeAt(voters, r.cs, r.actions, m, x, n);
    var s := r.cs[m].nodes[x];
    if s.commitIndex > 0 {
      var t: Term, k: nat :| CommittedBy(r.Last().h, s.log[..s.commitIndex], s.term, t, k);
      CommitReached(r.Last(), q, i, t, k);
    }
  }

  // ---- Committing ----

  /** Every node of q knows that the first n entries are committed, and follows the leader. */
  ghost predicate AllKnow(c: Cluster, q: set<NodeId>, i: NodeId, n: nat)
    requires q <= c.nodes.Keys && i in q
  {
    forall j :: j in q ==>
      && c.nodes[j].commitIndex >= n && c.nodes[j].term == c.nodes[i].term
      && (j != i ==> c.nodes[j].role == Follower)
  }

  lemma QuorumHolds(s: NodeState, q: set<NodeId>, n: nat)
    requires q <= s.voters && MoreThanHalf(|q|, |s.voters|) && forall p :: p in q ==> Get(s.matchIndex, p) >= n
    ensures HeldByMost(Conf(s), s.matchIndex, n)
  {
    assert q <= Holders(s.voters, s.matchIndex, n);
    SubsetCard(q, Holders(s.voters, s.matchIndex, n));
  }

  /** One round commits the leader's whole log; a second one tells everybody. */
  lemma CommitAll(voters: set<NodeId>, q: set<NodeId>, r: Trace, i: NodeId) returns (r': Trace)
    requires Reigns(voters, q, r, i) && MoreThanHalf(|q|, |voters|) && |voters| > 1
    ensures Reigns(voters, q, r', i) && Continues(r, r', q)
    ensures Kept(r.Last().nodes[i], r'.Last().nodes[i]) && AllKnow(r'.Last(), q, i, |r.Last().nodes[i].log|)
    ensures forall j :: j in q ==>
              r'.Last().nodes[j].snapIndex <= Max(r.Last().nodes[j].snapIndex, r.Last().nodes[i].snapIndex)
  {
    hide Trace.Ok, Trace.Last, Continues, NodeInv, Asked, NextOk, Synchronized, Kept, AllKnow, Closed;
    AnotherOne(q, i);
    var r1 := Round(voters, q, r, i, q - {i});
    Ready(voters, r1, i);
    OwnMatch(r1.Last().nodes[i]);
    FirstRound(r.Last(), r1.Last(), q, i);
    r' := Round(voters, q, r1, i, q - {i});
    ContinuesOn(r, r1, r', q);
    TwoRounds(r.Last(), r1.Last(), r'.Last(), q, i);
  }

  lemma AnotherOne(q: set<NodeId>, i: NodeId)
    requires i in q && |q| > 1
    ensures q - {i} != {} && |q - {i}| == |q| - 1
  {
  }

  lemma OwnMatch(s: NodeState)
    requires NextOk(s) && s.role == Leader
    ensures Get(s.matchIndex, s.id) == |s.log|
  {
  }

  lemma FirstRound(c: Cluster, c1: Cluster, q: set<NodeId>, i: NodeId)
    requires q <= c.nodes.Keys && i in q && q - {i} <= c.nodes.Keys && Synchronized(c, c1, i, q - {i})
    requires var s := c1.nodes[i];
             && s.id == i && Get(s.matchIndex, i) == |s.log| && Closed(s)
             && q <= s.voters && MoreThanHalf(|q|, |s.voters|)
    ensures c1.nodes[i].commitIndex >= |c.nodes[i].log|
  {
    hide KnowsMore, Obeys, HeldByMost;
    var s := c1.nodes[i];
    forall p | p in q ensures Get(s.matchIndex, p) >= |s.log| { if p != i { assert p in q - {i}; } }
    QuorumHolds(s, q, |s.log|);
  }

  lemma TwoRounds(c: Cluster, c1: Cluster, c': Cluster, q: set<NodeId>, i: NodeId)
    requires q <= c.nodes.Keys && i in q && c1.nodes.Keys == c.nodes.Keys
    requires Synchronized(c, c1, i, q - {i}) && Synchronized(c1, c', i, q - {i})
    requires c1.nodes[i].commitIndex >= |c.nodes[i].log|
    ensures q <= c'.nodes.Keys && Kept(c.nodes[i], c'.nodes[i]) && AllKnow(c', q, i, |c.nodes[i].log|)
    ensures forall j :: j in q ==> c'.nodes[j].snapIndex <= Max(c.nodes[j].snapIndex, c.nodes[i].snapIndex)
  {
    hide KnowsMore;
    assert forall j :: j in q && j != i ==> j in q - {i};
  }

  // ---- Applying ----

  /** Applying changes the applied index and nothing else. */
  ghost predicate OnlyApplied(c: Cluster, c': Cluster, done: set<NodeId>)
    requires done <= c.nodes.Keys
  {
    && c'.nodes.Keys == c.nodes.Keys
    && (forall j :: j in c.nodes && j !in done ==> c'.nodes[j] == c.nodes[j])
    && (forall j :: j in done ==> c'.nodes[j] == ApplyCommitted(c.nodes[j]))
  }

  lemma {:induction false} ApplyEach(voters: set<NodeId>, q: set<NodeId>, r: Trace, todo: set<NodeId>)
    returns (r': Trace)
    requires r.Ok(voters) && todo <= q <= voters && r.Last().nodes.Keys == voters
    ensures r'.Ok(voters) && Continues(r, r', q) && OnlyApplied(r.Last(), r'.Last(), todo)
    decreases |todo|
  {
    hide Trace.Ok, Trace.Last, Continues, ApplyCommitted, HandedOver, NextReads;
    if todo == {} {
      r' := r;
      Stays(r, q);
    } else {
      var j :| j in todo;
      var r1 := ApplyEach(voters, q, r, todo - {j});
      r' := Go(voters, q, r1, Apply(j));
      ContinuesOn(r, r1, r', q);
    }
  }

  /** The command is applied by every node of q, at the same index. */
  ghost predicate AppliedByAll(c: Cluster, q: set<NodeId>, e: Entry) {
    && q <= c.nodes.Keys
    && forall j :: j in q ==>
         && e.index <= c.nodes[j].lastApplied <= |c.nodes[j].log| && 0 < e.index && c.nodes[j].log[e.index - 1] == e
         && Applied(j, e.index, e) in c.applied
  }

  /** What holds at the end: the command at the leader, its commit known to all, and no snapshot past it. */
  ghost predicate Settling(voters: set<NodeId>, q: set<NodeId>, r: Trace, i: NodeId, e: Entry) {
    && Reigns(voters, q, r, i) && AllKnow(r.Last(), q, i, e.index)
    && 0 < e.index <= |r.Last().nodes[i].log| && r.Last().nodes[i].log[e.index - 1] == e
    && forall j :: j in q ==> r.Last().nodes[j].snapIndex < e.index
  }

  /** The leader takes the command, and all of q come to know that it is committed. */
  lemma ProposeNew(voters: set<NodeId>, q: set<NodeId>, r: Trace, i: NodeId, data: Bytes) returns (r': Trace, e: Entry)
    requires Reigns(voters, q, r, i) && MoreThanHalf(|q|, |voters|) && |voters| > 1
    ensures Continues(r, r', q) && Settling(voters, q, r', i, e)
    ensures e == Entry(r.Last().nodes[i].term, |r.Last().nodes[i].log| + 1, data)
  {
    hide Trace.Ok, Trace.Last, Continues, AllKnow;
    var s := r.Last().nodes[i];
    e := Entry(s.term, |s.log| + 1, data);
    var r1 := Go(voters, q, r, Command(i, data));
    CommandNow(r.Last(), i, data, r1.Last());
    forall j | j in q ensures r.Last().nodes[j].snapIndex <= |s.log| { SnapBelow(voters, q, r, i, j); }
    r' := CommitAll(voters, q, r1, i);
    ContinuesOn(r, r1, r', q);
  }

  lemma CommandNow(c: Cluster, i: NodeId, data: Bytes, c': Cluster)
    requires After(c, Command(i, data), c')
    ensures c'.nodes == c.nodes[i := Propose(c.nodes[i], data)]
  {
    hide NextReads;
  }

  lemma SnapBelow(voters: set<NodeId>, q: set<NodeId>, r: Trace, i: NodeId, j: NodeId)
    requires Reigns(voters, q, r, i) && MoreThanHalf(|q|, |voters|) && j in q
    ensures r.Last().nodes[j].snapIndex <= |r.Last().nodes[i].log|
  {
    hide IsRun, Leads;
    LeaderHoldsCommits(voters, q, r, i, |r.actions|, j);
    LogsWellFormed(voters, r.cs, r.actions, |r.actions|, j);
  }

  /** Then each of them applies it. */
  lemma ApplyNew(voters: set<NodeId>, q: set<NodeId>, r: Trace, i: NodeId, e: Entry) returns (r': Trace)
    requires Settling(voters, q, r, i, e)
    ensures Continues(r, r', q) && Settling(voters, q, r', i, e) && AppliedByAll(r'.Last(), q, e)
    ensures r'.Last().nodes[i].log == r.Last().nodes[i].log && r'.Last().nodes[i].term == r.Last().nodes[i].term
  {
    hide Trace.Ok, Trace.Last, Continues;
    r' := ApplyEach(voters, q, r, q);
    AppliesAll(r.Last(), r'.Last(), q, i, e);
    forall j | j in q
      ensures var s := r'.Last().nodes[j];
              && e.index <= s.lastApplied <= |s.log| && s.log[e.index - 1] == e
              && Applied(j, e.index, e) in r'.Last().applied
    {
      OneApplied(voters, r', i, j, e);
    }
  }

  lemma AppliesAll(c: Cluster, c': Cluster, q: set<NodeId>, i: NodeId, e: Entry)
    requires q <= c.nodes.Keys && Leads(c, q, i) && OnlyApplied(c, c', q) && AllKnow(c, q, i, e.index)
    ensures q <= c'.nodes.Keys && Leads(c', q, i) && AllKnow(c', q, i, e.index)
    ensures forall j :: j in q ==>
              && c'.nodes[j].lastApplied >= e.index
              && c'.nodes[j].snapIndex == c.nodes[j].snapIndex && c'.nodes[j].log == c.nodes[j].log
  {
  }

  lemma OneApplied(voters: set<NodeId>, r: Trace, i: NodeId, j: NodeId, e: Entry)
    requires r.Ok(voters) && 0 !in voters && i in r.Last().nodes && j in r.Last().nodes
    requires var s := r.Last().nodes[i];
             0 < e.index <= s.commitIndex && e.index <= |s.log| && s.log[e.index - 1] == e
    requires r.Last().nodes[j].snapIndex < e.index <= r.Last().nodes[j].lastApplied
    ensures var s := r.Last().nodes[j];
            && e.index <= s.lastApplied <= |s.log| && s.log[e.index - 1] == e
            && Applied(j, e.index, e) in r.Last().applied
  {
    hide *;
    Parts(voters, r);
    var n := |r.actions|;
    LogsWellFormed(voters, r.cs, r.actions, n, j);
    CommittedPrefixesAgree(voters, r.cs, r.actions, n, i, n, j, e.index - 1);
    AppliedIsHandedOver(voters, r.cs, r.actions, n, j, e.index);
  }

  /**
   * Availability. Take any run, any majority q of at least two voters and any command. The run continues, with steps
   * of q alone, to one in which every node of q has applied the command, at one index; and that index lies above
   * everything any node, in q or not, had ever known to be committed.
   */
  lemma MajorityCommits(voters: set<NodeId>, q: set<NodeId>, r: Trace, data: Bytes)
    returns (r': Trace, i: NodeId, e: Entry)
    requires r.Ok(voters) && 0 !in voters && q <= voters && MoreThanHalf(|q|, |voters|) && |voters| > 1
    ensures r'.Ok(voters) && Continues(r, r', q) && e.data == data
    ensures AppliedByAll(r'.Last(), q, e) && Settling(voters, q, r', i, e)
    ensures forall m, x :: 0 <= m < |r.cs| && x in r.cs[m].nodes ==> r.cs[m].nodes[x].commitIndex < e.index
  {
    hide Continues, Settling, AppliedByAll, IsRun;
    SameVoters(voters, r.cs, r.actions, |r.actions|, 0);
    var r1;
    r1, i := LeaderArises(voters, q, r);
    forall m, x | 0 <= m < |r.cs| && x in r.cs[m].nodes
      ensures r.cs[m].nodes[x].commitIndex <= |r1.Last().nodes[i].log|
    {
      EarlierState(r, r1, q, m);
      LeaderHoldsCommits(voters, q, r1, i, m, x);
    }
    hide Trace.Ok, Trace.Last;
    var r2;
    r2, e := ProposeNew(voters, q, r1, i, data);
    r' := ApplyNew(voters, q, r2, i, e);
    ContinuesOn(r, r1, r2, q);
    ContinuesOn(r, r2, r', q);
    SettlingOk(voters, q, r', i, e);
  }

  lemma EarlierState(r: Trace, r': Trace, q: set<NodeId>, m: nat)
    requires Continues(r, r', q) && m < |r.cs|
    ensures m < |r'.cs| && r'.cs[m] == r.cs[m]
  {
  }

  lemma SettlingOk(voters: set<NodeId>, q: set<NodeId>, r: Trace, i: NodeId, e: Entry)
    requires Settling(voters, q, r, i, e)
    ensures r.Ok(voters)
  {
  }

  /** And what a node once knew to be committed, all come to know. */
  lemma CommitReachesAll(voters: set<NodeId>, r: Trace, m: nat, x: NodeId) returns (r': Trace)
    requires r.Ok(voters) && 0 !in voters && |voters| > 1 && m < |r.cs| && x in r.cs[m].nodes
    ensures r'.Ok(voters) && r.cs <= r'.cs && r'.Last().nodes.Keys == voters
    ensures forall j :: j in voters ==> r'.Last().nodes[j].commitIndex >= r.cs[m].nodes[x].commitIndex
  {
    hide Trace.Ok, Trace.Last;
    var i, e;
    r', i, e := MajorityCommits(voters, voters, r, []);
  }

  // ---- Reading ----

  /** The call is under way, and these have confirmed it. */
  ghost predicate Reading(c: Cluster, i: NodeId, call: nat, t: Term, index: nat, done: set<NodeId>) {
    && i in c.nodes && c.nodes[i].role == Leader && c.nodes[i].term == t && ReadReq(call, i, t) in c.net
    && call in c.calls
    && var r := c.calls[call];
    && r.leader == i && r.term == t && r.index == index && done <= r.acked
  }

  /** j is in no later term and, if in this one, not a candidate. */
  predicate Confirms(f: NodeState, t: Term) {
    f.term < t || (f.term == t && f.role != Candidate)
  }

  lemma StartNow(c: Cluster, i: NodeId, call: nat, c': Cluster)
    requires After(c, ReadStart(i, call), c')
    ensures c'.nodes == c.nodes && Reading(c', i, call, c.nodes[i].term, c.nodes[i].commitIndex, {})
  {
  }

  lemma ConfirmNow(c: Cluster, i: NodeId, j: NodeId, call: nat, t: Term, index: nat, done: set<NodeId>, c': Cluster)
    requires Reading(c, i, call, t, index, done) && i != j && After(c, RecvReadReq(j, ReadReq(call, i, t)), c')
    requires Confirms(c.nodes[j], t)
    ensures Reading(c', i, call, t, index, done) && ReadResp(j, call, c.nodes[j].term, true) in c'.net
    ensures c'.nodes == c.nodes[j := c'.nodes[j]]
  {
  }

  lemma CountNow(c: Cluster, i: NodeId, j: NodeId, call: nat, t: Term, index: nat, done: set<NodeId>, u: Term,
                 c': Cluster)
    requires Reading(c, i, call, t, index, done) && u <= t && After(c, RecvReadResp(i, ReadResp(j, call, u, true)), c')
    ensures Reading(c', i, call, t, index, done + {j}) && c'.nodes == c.nodes
  {
  }

  lemma ReturnNow(c: Cluster, i: NodeId, call: nat, t: Term, index: nat, done: set<NodeId>, c': Cluster)
    requires Reading(c, i, call, t, index, done) && After(c, ReadReturn(i, call), c')
    ensures call in c'.calls && c'.calls[call].done && c'.calls[call].index == index
  {
  }

  lemma EnoughConfirmed(c: Cluster, i: NodeId, call: nat, t: Term, index: nat, q: set<NodeId>)
    requires Reading(c, i, call, t, index, q - {i}) && i in q && MoreThanHalf(|q|, |c.nodes[i].voters|)
    ensures Enabled(c, ReadReturn(i, call))
  {
    SubsetCard(q - {i}, c.calls[call].acked);
    assert |q - {i}| == |q| - 1;
  }

  lemma {:induction false} ConfirmEach(voters: set<NodeId>, q: set<NodeId>, r: Trace, i: NodeId, call: nat, t: Term,
                                       index: nat, done: set<NodeId>, todo: set<NodeId>) returns (r': Trace)
    requires r.Ok(voters) && i in q && i !in todo && todo <= q <= voters && r.Last().nodes.Keys == voters
    requires Reading(r.Last(), i, call, t, index, done)
    requires forall j :: j in todo ==> Confirms(r.Last().nodes[j], t)
    ensures r'.Ok(voters) && Continues(r, r', q) && r'.Last().nodes.Keys == voters
    ensures Reading(r'.Last(), i, call, t, index, done + todo)
    decreases |todo|
  {
    hide Trace.Ok, Trace.Last, Continues, After, NextReads, Sent, NextNode, Confirms;
    if todo == {} {
      r' := r;
      Stays(r, q);
      assert done + todo == done;
    } else {
      var j :| j in todo;
      var u := r.Last().nodes[j].term;
      assert u <= t by { TermOk(r.Last().nodes[j], t); }
      var r1 := Go(voters, q, r, RecvReadReq(j, ReadReq(call, i, t)));
      ConfirmNow(r.Last(), i, j, call, t, index, done, r1.Last());
      var r2 := Go(voters, q, r1, RecvReadResp(i, ReadResp(j, call, u, true)));
      CountNow(r1.Last(), i, j, call, t, index, done, u, r2.Last());
      r' := ConfirmEach(voters, q, r2, i, call, t, index, done + {j}, todo - {j});
      assert done + {j} + (todo - {j}) == done + todo;
      ContinuesOn(r, r1, r2, q);
      ContinuesOn(r, r2, r', q);
    }
  }

  lemma TermOk(f: NodeState, t: Term)
    requires Confirms(f, t)
    ensures f.term <= t
  {
  }

  /**
   * Reads return. A leader and others with whom it is more than half of the voters, none of them in a later term and
   * none a candidate in its own: a new call of ReadIndex can be continued, with steps of those alone, until it
   * returns the commit index the leader had when it began.
   */
  lemma ReadReturns(voters: set<NodeId>, q: set<NodeId>, r: Trace, i: NodeId, call: nat) returns (r': Trace)
    requires Reigns(voters, q, r, i) && MoreThanHalf(|q|, |voters|) && call !in r.Last().calls
    requires forall j :: j in q && j != i ==> Confirms(r.Last().nodes[j], r.Last().nodes[i].term)
    ensures r'.Ok(voters) && Continues(r, r', q)
    ensures var c' := r'.Last();
            call in c'.calls && c'.calls[call].done && c'.calls[call].index == r.Last().nodes[i].commitIndex
  {
    hide Trace.Ok, Trace.Last, Continues, After, NextReads, Sent, NextNode, Confirms, Reading, NodeInv, NextOk, Asked;
    var t, k := r.Last().nodes[i].term, r.Last().nodes[i].commitIndex;
    var r1 := Go(voters, q, r, ReadStart(i, call));
    StartNow(r.Last(), i, call, r1.Last());
    var r2 := ConfirmEach(voters, q, r1, i, call, t, k, {}, q - {i});
    assert {} + (q - {i}) == q - {i};
    Ready(voters, r2, i);
    EnoughConfirmed(r2.Last(), i, call, t, k, q);
    r' := Go(voters, q, r2, ReadReturn(i, call));
    ReturnNow(r2.Last(), i, call, t, k, q - {i}, r'.Last());
    ContinuesOn(r, r1, r2, q);
    ContinuesOn(r, r2, r', q);
  }

  /** In particular once a command is settled: the read then covers it. */
  lemma ReadAfterCommit(voters: set<NodeId>, q: set<NodeId>, r: Trace, i: NodeId, e: Entry, call: nat)
    returns (r': Trace)
    requires Settling(voters, q, r, i, e) && MoreThanHalf(|q|, |voters|) && call !in r.Last().calls
    ensures r'.Ok(voters) && Continues(r, r', q)
    ensures call in r'.Last().calls && r'.Last().calls[call].done && r'.Last().calls[call].index >= e.index
  {
    hide Trace.Ok, Trace.Last, Continues;
    r' := ReadReturns(voters, q, r, i, call);
  }
}
