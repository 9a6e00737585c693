/**
 * A leader brings any follower that has not passed its term up to its whole log: by backtracking, or by its
 * snapshot where the follower needs entries it no longer has. The follower learns what is committed.
 */
module ProgressAppend {
  import opened RaftTypes
  import opened RaftConf
  import opened NodeSpec
  import opened History
  import opened Cluster
  import opened ClusterInv
  import opened ClusterAppend
  import opened ClusterSteps
  import opened ClusterSafety
  import opened ClusterLogs
  import opened ClusterPeers
  import opened Backtracking
  import opened InstallSnapshot
  import opened Runs
  import opened ProgressVote

  // ---- What is sent is learned ----

  /** What the follower of a leader's request is afterwards. */
  predicate Obeys(s: NodeState, f: NodeState, f': NodeState) {
    && f'.id == f.id && f'.term == s.term && f'.role == Follower && f'.leaderId == s.id
    && f'.snapIndex <= Max(f.snapIndex, s.snapIndex)
  }

  /** The leader's request carries everything from the next index on. */
  lemma RequestIs(s: NodeState, j: NodeId)
    requires NextOk(s) && s.role == Leader && j in s.voters && j != s.id
    requires s.snapIndex < Get(s.nextIndex, j)
    ensures CanSend(s, j)
    ensures var r := SendAppend(s, j);
            && r.term == s.term && r.leader == s.id && r.commit == s.commitIndex
            && r.prevIndex == Get(s.nextIndex, j) - 1 && r.prevIndex + |r.entries| == |s.log|
  {
  }

  lemma Delivered(s: NodeState, f: NodeState, r: AppendRequest)
    requires r.term == s.term && r.leader == s.id && f.term <= s.term && r.commit <= r.prevIndex + |r.entries|
    ensures var (f', a) := HandleAppendEntries(f, r);
            && Obeys(s, f, f') && a.term == s.term
            && (if a.success then f'.commitIndex >= r.commit else f'.log == f.log && f'.snapIndex == f.snapIndex)
  {
    hide FirstNew, Overwrite, Consistent, RunStart;
  }

  /**
   * In every run: once a follower accepts a request, its commit index is no less than the leader's was when
   * it sent it.
   */
  lemma CommitSpreads(voters: set<NodeId>, cs: seq<Cluster>, actions: seq<Action>, b: nat, i: NodeId, j: NodeId, n: nat)
    requires IsRun(voters, cs, actions) && 0 !in voters && b < n < |actions| && actions[b] == Send(i, j)
    requires i in cs[b].nodes && CanSend(cs[b].nodes[i], j) && j in cs[n].nodes
    requires var r := SendAppend(cs[b].nodes[i], j);
             actions[n] == RecvAppend(j, AppReq(j, r)) && HandleAppendEntries(cs[n].nodes[j], r).1.success
    ensures n + 1 < |cs| && j in cs[n + 1].nodes && cs[n + 1].nodes[j].commitIndex >= cs[b].nodes[i].commitIndex
  {
    RunStarts(voters, cs, actions);
    StepOf(voters, cs, actions, n);
    hide HandleAppendEntries, IsRun;
    var s, f := cs[b].nodes[i], cs[n].nodes[j];
    NodeAt(voters, cs, actions, b, i, b);
    LogsWellFormed(voters, cs, actions, b, i);
    TermNotLater(f, SendAppend(s, j));
    Delivered(s, f, SendAppend(s, j));
    HistoryOf(cs[n], actions[n]);
  }

  lemma TermNotLater(f: NodeState, r: AppendRequest)
    requires HandleAppendEntries(f, r).1.success
    ensures f.term <= r.term
  {
  }

  // ---- What the leader makes of the reply ----

  /** The leader goes on as it was, knowing no less. */
  predicate Kept(s: NodeState, s': NodeState) {
    && s'.id == s.id && s'.voters == s.voters && s'.term == s.term && s'.role == s.role == Leader
    && s'.log == s.log && s'.snapIndex == s.snapIndex && s'.lastApplied == s.lastApplied && s'.leaderId == s.leaderId
    && s'.commitIndex >= s.commitIndex
  }

  ghost predicate KnowsMore(s: NodeState, s': NodeState) {
    forall p :: Get(s.matchIndex, p) <= Get(s'.matchIndex, p)
  }

  /** If more than half hold the whole log, it is committed. */
  ghost predicate Closed(s: NodeState) {
    HeldByMost(Conf(s), s.matchIndex, |s.log|) ==> s.commitIndex >= |s.log|
  }

  /** The leader's log ends in its own term, and nobody is known to hold more than it. */
  ghost predicate InCharge(s: NodeState) {
    && s.role == Leader && s.log != [] && LastTerm(s.log) == s.term && s.snapIndex <= |s.log|
    && forall p :: p in s.voters ==> Get(s.matchIndex, p) <= |s.log|
  }

  lemma Confirmed(s: NodeState, j: NodeId, prev: nat, count: nat, a: AppendReply)
    requires InCharge(s) && a.success && a.term == s.term && prev + count == |s.log|
    ensures var s' := HandleAppendReply(s, j, s.term, prev, count, a);
            Kept(s, s') && KnowsMore(s, s') && Get(s'.matchIndex, j) >= |s.log| && Closed(s')
  {
    var s1 := s.(matchIndex := Raise(s.matchIndex, j, |s.log|), nextIndex := Raise(s.nextIndex, j, |s.log| + 1));
    var m := MaxCommit(Conf(s1), s1.matchIndex);
    forall x: nat | x > |s.log| ensures !HeldByMost(Conf(s1), s1.matchIndex, x) {
      NoneAbove(Conf(s1), s1.matchIndex, x);
    }
    hide HeldByMost;
    assert m <= |s.log|;
  }

  lemma TakesCharge(voters: set<NodeId>, r: Trace, i: NodeId)
    requires r.Ok(voters) && 0 !in voters && i in voters && i in r.Last().nodes && r.Last().nodes[i].role == Leader
    ensures InCharge(r.Last().nodes[i]) && r.Last().nodes[i].commitIndex <= |r.Last().nodes[i].log|
  {
    hide *;
    Parts(voters, r);
    var n, c := |r.actions|, r.Last();
    var s := c.nodes[i];
    ReachableInv(voters, r.cs, r.actions, n);
    LogsWellFormed(voters, r.cs, r.actions, n, i);
    Ready(voters, r, i);
    InvHist(c);
    LeaderLog(c.h, s);
    forall p | p in s.voters ensures Get(s.matchIndex, p) <= |s.log| { MatchWithin(c, i, p); }
    InChargeIs(s);
  }

  lemma InChargeIs(s: NodeState)
    requires s.role == Leader && s.log != [] && LastTerm(s.log) == s.term && s.snapIndex <= |s.log|
    requires forall p :: p in s.voters ==> Get(s.matchIndex, p) <= |s.log|
    ensures InCharge(s)
  {
  }

  lemma LeaderLog(h: Hist, s: NodeState)
    requires HistInv(h) && NodeInv(h, s) && s.role == Leader
    ensures s.log != [] && LastTerm(s.log) == s.term
  {
    hide HistInv, CoreInv, Rooted;
    ReignOf(h, s.term);
    EndsInOwnTerm(h, s.term, s.log);
  }

  // ---- One request and its reply ----

  /** The leader at the end of a run, a peer in no later term, and who else may take steps. */
  ghost predicate Pair(voters: set<NodeId>, q: set<NodeId>, r: Trace, i: NodeId, j: NodeId) {
    && r.Ok(voters) && 0 !in voters && q <= voters && i in q && j in q && i != j
    && r.Last().nodes.Keys == voters
    && r.Last().nodes[i].role == Leader && r.Last().nodes[j].term <= r.Last().nodes[i].term
  }

  /** Of the nodes, only the leader and that peer changed, the leader as Kept says. */
  ghost predicate Told(c: Cluster, c': Cluster, i: NodeId, j: NodeId)
    requires i in c.nodes && j in c.nodes
  {
    && c'.nodes.Keys == c.nodes.Keys
    && Kept(c.nodes[i], c'.nodes[i]) && KnowsMore(c.nodes[i], c'.nodes[i]) && Obeys(c.nodes[i], c.nodes[j], c'.nodes[j])
    && forall p :: p in c.nodes && p != i && p != j ==> c'.nodes[p] == c.nodes[p]
  }

  lemma PairFacts(voters: set<NodeId>, q: set<NodeId>, r: Trace, i: NodeId, j: NodeId)
    requires Pair(voters, q, r, i, j)
    ensures var s, f := r.Last().nodes[i], r.Last().nodes[j];
            && s.id == i && f.id == j && s.voters == voters && NextOk(s) && InCharge(s) && s.commitIndex <= |s.log|
            && 1 <= Get(s.nextIndex, j) <= |s.log| + 1
  {
    hide Trace.Ok, Trace.Last, NodeInv, Asked, InCharge;
    Ready(voters, r, i);
    Ready(voters, r, j);
    TakesCharge(voters, r, i);
  }

  lemma SendNow(c: Cluster, i: NodeId, j: NodeId, c': Cluster)
    requires After(c, Send(i, j), c')
    ensures c'.nodes == c.nodes[i := Sync(c.nodes[i])] && AppReq(j, SendAppend(c.nodes[i], j)) in c'.net
  {
    hide NextReads;
  }

  lemma ReceiveNow(c: Cluster, j: NodeId, r: AppendRequest, c': Cluster)
    requires After(c, RecvAppend(j, AppReq(j, r)), c')
    ensures var (f', a) := HandleAppendEntries(c.nodes[j], r);
            && c'.nodes == c.nodes[j := f']
            && AppResp(j, r.leader, r.term, r.prevIndex, |r.entries|, a) in c'.net
  {
    hide NextReads, HandleAppendEntries;
  }

  lemma AnswerNow(c: Cluster, i: NodeId, j: NodeId, r: AppendRequest, a: AppendReply, c': Cluster)
    requires After(c, RecvAppendResp(i, AppResp(j, i, r.term, r.prevIndex, |r.entries|, a)), c')
    ensures c'.nodes == c.nodes[i := HandleAppendReply(c.nodes[i], j, r.term, r.prevIndex, |r.entries|, a)]
  {
    hide NextReads, HandleAppendReply;
  }

  lemma CanReceive(c: Cluster, j: NodeId, r: AppendRequest)
    requires j in c.nodes && AppReq(j, r) in c.net
    ensures Enabled(c, RecvAppend(j, AppReq(j, r)))
  {
  }

  lemma CanAnswer(c: Cluster, i: NodeId, j: NodeId, r: AppendRequest, a: AppendReply)
    requires i in c.nodes && AppResp(j, i, r.term, r.prevIndex, |r.entries|, a) in c.net
    ensures Enabled(c, RecvAppendResp(i, AppResp(j, i, r.term, r.prevIndex, |r.entries|, a)))
  {
  }

  lemma CanSendNow(c: Cluster, i: NodeId, j: NodeId)
    requires i in c.nodes && c.nodes[i].role == Leader && c.nodes[i].id == i && j in c.nodes[i].voters && j != i
    requires CanSend(c.nodes[i], j)
    ensures Enabled(c, Send(i, j))
  {
  }

  /** The leader sends, the peer replies; the reply is on its way. */
  lemma Exchange(voters: set<NodeId>, q: set<NodeId>, r: Trace, i: NodeId, j: NodeId) returns (r1: Trace, r2: Trace)
    requires Pair(voters, q, r, i, j) && r.Last().nodes[i].snapIndex < Get(r.Last().nodes[i].nextIndex, j)
    ensures CanSend(r.Last().nodes[i], j)
    ensures r1.Ok(voters) && r2.Ok(voters) && Continues(r, r2, q)
    ensures var c, c1, c2, req := r.Last(), r1.Last(), r2.Last(), SendAppend(r.Last().nodes[i], j);
            && c1.nodes == c.nodes[i := Sync(c.nodes[i])] && Enabled(c1, RecvAppend(j, AppReq(j, req)))
            && r2.cs == r1.cs + [c2] && r2.actions == r1.actions + [RecvAppend(j, AppReq(j, req))]
            && c2.nodes == c1.nodes[j := HandleAppendEntries(c.nodes[j], req).0]
            && AppResp(j, i, req.term, req.prevIndex, |req.entries|, HandleAppendEntries(c.nodes[j], req).1) in c2.net
  {
    hide *;
    PairIs(voters, q, r, i, j);
    PairFacts(voters, q, r, i, j);
    var c := r.Last();
    RequestIs(c.nodes[i], j);
    CanSendNow(c, i, j);
    r1 := Go(voters, q, r, Send(i, j));
    SendNow(c, i, j, r1.Last());
    var req := SendAppend(c.nodes[i], j);
    CanReceive(r1.Last(), j, req);
    r2 := Go(voters, q, r1, RecvAppend(j, AppReq(j, req)));
    ReceiveNow(r1.Last(), j, req, r2.Last());
    ContinuesOn(r, r1, r2, q);
  }

  lemma PairIs(voters: set<NodeId>, q: set<NodeId>, r: Trace, i: NodeId, j: NodeId)
    requires Pair(voters, q, r, i, j)
    ensures r.Ok(voters) && 0 !in voters && q <= voters && i in q && j in q && i != j
    ensures r.Last().nodes.Keys == voters
    ensures r.Last().nodes[i].role == Leader && r.Last().nodes[j].term <= r.Last().nodes[i].term
  {
  }

  /** The peer holds the leader's whole log, the leader knows it, and the peer knows what the leader had committed. */
  ghost predicate CaughtUp(c: Cluster, c': Cluster, i: NodeId, j: NodeId)
    requires i in c.nodes && j in c.nodes
  {
    && Told(c, c', i, j)
    && Get(c'.nodes[i].matchIndex, j) >= |c.nodes[i].log| && Closed(c'.nodes[i])
    && c'.nodes[j].commitIndex >= c.nodes[i].commitIndex
  }

  /** A rejection: the leader tries again from further down. */
  ghost predicate SteppedBack(c: Cluster, c': Cluster, i: NodeId, j: NodeId)
    requires i in c.nodes && j in c.nodes
  {
    && Told(c, c', i, j)
    && 1 <= Get(c'.nodes[i].nextIndex, j) < Get(c.nodes[i].nextIndex, j)
    && c'.nodes[j].log == c.nodes[j].log && c'.nodes[j].snapIndex == c.nodes[j].snapIndex
  }

  lemma AfterSuccess(c: Cluster, i: NodeId, j: NodeId, req: AppendRequest, c3: Cluster)
    requires i in c.nodes && j in c.nodes && i != j && c.nodes[j].term <= c.nodes[i].term && InCharge(c.nodes[i])
    requires c.nodes[i].id == i && c.nodes[i].commitIndex <= |c.nodes[i].log|
    requires req.term == c.nodes[i].term && req.leader == i && req.commit == c.nodes[i].commitIndex
    requires req.prevIndex + |req.entries| == |c.nodes[i].log| && HandleAppendEntries(c.nodes[j], req).1.success
    requires var (f', a) := HandleAppendEntries(c.nodes[j], req);
             c3.nodes == c.nodes[i := Sync(c.nodes[i])][j := f']
               [i := HandleAppendReply(Sync(c.nodes[i]), j, req.term, req.prevIndex, |req.entries|, a)]
    ensures CaughtUp(c, c3, i, j)
  {
    var s := c.nodes[i];
    assert InCharge(Sync(s));
    Delivered(s, c.nodes[j], req);
    Confirmed(Sync(s), j, req.prevIndex, |req.entries|, HandleAppendEntries(c.nodes[j], req).1);
    hide InCharge, HandleAppendEntries, HandleAppendReply, Closed;
  }

  lemma AfterRejection(c: Cluster, i: NodeId, j: NodeId, req: AppendRequest, c3: Cluster)
    requires i in c.nodes && j in c.nodes && i != j && c.nodes[j].term <= c.nodes[i].term && c.nodes[i].role == Leader
    requires c.nodes[i].id == i && req.term == c.nodes[i].term && req.leader == i
    requires req.commit <= req.prevIndex + |req.entries| && req.prevIndex + 1 == Get(c.nodes[i].nextIndex, j)
    requires !HandleAppendEntries(c.nodes[j], req).1.success
    requires var (f', a) := HandleAppendEntries(c.nodes[j], req);
             && c3.nodes == c.nodes[i := Sync(c.nodes[i])][j := f']
                  [i := HandleAppendReply(Sync(c.nodes[i]), j, req.term, req.prevIndex, |req.entries|, a)]
             && 1 <= Get(Backtrack(Sync(c.nodes[i]), j, a).nextIndex, j) < req.prevIndex + 1
    ensures SteppedBack(c, c3, i, j)
  {
    var s, a := c.nodes[i], HandleAppendEntries(c.nodes[j], req).1;
    Delivered(s, c.nodes[j], req);
    BacktrackOnly(Sync(s), j, a);
    hide HandleAppendEntries, Backtrack;
  }

  /** One request: it catches the peer up, or the leader steps back. */
  lemma TryAppend(voters: set<NodeId>, q: set<NodeId>, r: Trace, i: NodeId, j: NodeId) returns (r': Trace)
    requires Pair(voters, q, r, i, j) && r.Last().nodes[i].snapIndex < Get(r.Last().nodes[i].nextIndex, j)
    ensures r'.Ok(voters) && Continues(r, r', q) && CanSend(r.Last().nodes[i], j)
    ensures if HandleAppendEntries(r.Last().nodes[j], SendAppend(r.Last().nodes[i], j)).1.success
            then CaughtUp(r.Last(), r'.Last(), i, j) else SteppedBack(r.Last(), r'.Last(), i, j)
  {
    hide *;
    PairIs(voters, q, r, i, j);
    PairFacts(voters, q, r, i, j);
    var r1, r2 := Exchange(voters, q, r, i, j);
    var c := r.Last();
    var req, a := SendAppend(c.nodes[i], j), HandleAppendEntries(c.nodes[j], SendAppend(c.nodes[i], j)).1;
    RequestIs(c.nodes[i], j);
    Synced(c.nodes[i]);
    CanAnswer(r2.Last(), i, j, req, a);
    r' := Go(voters, q, r2, RecvAppendResp(i, AppResp(j, i, req.term, req.prevIndex, |req.entries|, a)));
    AnswerNow(r2.Last(), i, j, req, a, r'.Last());
    ContinuesOn(r, r2, r', q);
    if a.success {
      AfterSuccess(c, i, j, req, r'.Last());
    } else {
      Parts(voters, r1);
      Parts(voters, r2);
      RejectionBacktracks(voters, r2.cs, r2.actions, |r1.actions|, j, AppReq(j, req), |r2.actions|, i);
      AfterRejection(c, i, j, req, r'.Last());
    }
  }

  lemma Synced(s: NodeState)
    ensures Sync(s) == s.(synced := |s.log|)
  {
  }

  // ---- The snapshot ----

  /** The peer holds what the snapshot stands for, and the leader goes on right above it. */
  ghost predicate Installed(c: Cluster, c': Cluster, i: NodeId, j: NodeId)
    requires i in c.nodes && j in c.nodes
  {
    && Told(c, c', i, j)
    && c.nodes[i].snapIndex <= |c.nodes[i].log| && c.nodes[i].log[..c.nodes[i].snapIndex] <= c'.nodes[j].log
    && Get(c'.nodes[i].nextIndex, j) == c.nodes[i].snapIndex + 1
  }

  /** A peer that holds everything before the next index accepts what comes after it. */
  lemma PrefixAccepts(s: NodeState, f: NodeState, j: NodeId)
    requires CanSend(s, j) && f.term <= s.term && Get(s.nextIndex, j) - 1 <= |s.log|
    requires s.log[..Get(s.nextIndex, j) - 1] <= f.log
    ensures HandleAppendEntries(f, SendAppend(s, j)).1.success
  {
    var n := Get(s.nextIndex, j) - 1;
    if n > 0 { assert s.log[..n][n - 1] == f.log[n - 1]; }
  }

  lemma SendSnapNow(c: Cluster, i: NodeId, j: NodeId, c': Cluster)
    requires After(c, SendSnap(i, j), c')
    ensures c'.nodes == c.nodes[i := Sync(c.nodes[i])] && SnapReq(j, SendSnapshot(c.nodes[i])) in c'.net
  {
    hide NextReads;
  }

  lemma ReceiveSnapNow(c: Cluster, j: NodeId, r: SnapRequest, c': Cluster)
    requires After(c, RecvSnap(j, SnapReq(j, r)), c')
    ensures var (f', t) := HandleInstallSnapshot(c.nodes[j], r);
            c'.nodes == c.nodes[j := f'] && SnapResp(j, r.leader, r.term, r.lastIndex, t) in c'.net
  {
    hide NextReads, HandleInstallSnapshot;
  }

  lemma AnswerSnapNow(c: Cluster, i: NodeId, j: NodeId, t: Term, n: nat, c': Cluster)
    requires After(c, RecvSnapResp(i, SnapResp(j, i, t, n, t)), c')
    ensures c'.nodes == c.nodes[i := HandleSnapshotReply(c.nodes[i], j, t, n, t)]
  {
    hide NextReads, HandleSnapshotReply;
  }

  lemma CanGive(c: Cluster, i: NodeId, j: NodeId)
    requires i in c.nodes && c.nodes[i].role == Leader && c.nodes[i].id == i && j in c.nodes[i].voters && j != i
    requires Get(c.nodes[i].nextIndex, j) <= c.nodes[i].snapIndex <= |c.nodes[i].log|
    ensures Enabled(c, SendSnap(i, j))
  {
  }

  lemma CanInstall(c: Cluster, j: NodeId, r: SnapRequest)
    requires j in c.nodes && SnapReq(j, r) in c.net
    ensures Enabled(c, RecvSnap(j, SnapReq(j, r)))
  {
  }

  lemma CanAnswerSnap(c: Cluster, i: NodeId, j: NodeId, t: Term, n: nat)
    requires i in c.nodes && SnapResp(j, i, t, n, t) in c.net
    ensures Enabled(c, RecvSnapResp(i, SnapResp(j, i, t, n, t)))
  {
  }

  /** Whatever the peer held, it then holds the snapshot's entries. */
  lemma SnapReceived(h: Hist, s: NodeState, f: NodeState, j: NodeId)
    requires HistInv(h) && NodeInv(h, f) && f.id == j && f.term <= s.term && s.snapIndex <= |s.log|
    requires MsgInv(h, SnapReq(j, SendSnapshot(s)))
    ensures var (f', t) := HandleInstallSnapshot(f, SendSnapshot(s));
            Obeys(s, f, f') && t == s.term && s.log[..s.snapIndex] <= f'.log
  {
    hide HistInv, NodeInv, Committed, InstalledLog;
    var r := SendSnapshot(s);
    AcceptTermInv(h, f, r.term, r.leader);
    InstallInv(h, AcceptTerm(f, r.term, r.leader), r);
  }

  lemma SnapAnswered(s: NodeState, j: NodeId)
    requires s.role == Leader && Get(s.nextIndex, j) <= s.snapIndex
    ensures var s' := HandleSnapshotReply(Sync(s), j, s.term, s.snapIndex, s.term);
            Kept(s, s') && KnowsMore(s, s') && Get(s'.nextIndex, j) == s.snapIndex + 1
  {
  }

  lemma GiveSnapshot(voters: set<NodeId>, q: set<NodeId>, r: Trace, i: NodeId, j: NodeId) returns (r': Trace)
    requires Pair(voters, q, r, i, j) && Get(r.Last().nodes[i].nextIndex, j) <= r.Last().nodes[i].snapIndex
    ensures r'.Ok(voters) && Continues(r, r', q) && Installed(r.Last(), r'.Last(), i, j)
  {
    hide *;
    PairIs(voters, q, r, i, j);
    PairFacts(voters, q, r, i, j);
    var c := r.Last();
    var s, f := c.nodes[i], c.nodes[j];
    SnapWithin(s);
    CanGive(c, i, j);
    var r1 := Go(voters, q, r, SendSnap(i, j));
    SendSnapNow(c, i, j, r1.Last());
    SnapIs(s);
    var req := SendSnapshot(s);
    Ready(voters, r1, j);
    Parts(voters, r1);
    ReachableInv(voters, r1.cs, r1.actions, |r1.actions|);
    InvHist(r1.Last());
    MsgOf(r1.Last(), SnapReq(j, req));
    SnapReceived(r1.Last().h, s, f, j);
    CanInstall(r1.Last(), j, req);
    var r2 := Go(voters, q, r1, RecvSnap(j, SnapReq(j, req)));
    ReceiveSnapNow(r1.Last(), j, req, r2.Last());
    CanAnswerSnap(r2.Last(), i, j, s.term, s.snapIndex);
    r' := Go(voters, q, r2, RecvSnapResp(i, SnapResp(j, i, s.term, s.snapIndex, s.term)));
    AnswerSnapNow(r2.Last(), i, j, s.term, s.snapIndex, r'.Last());
    SnapAnswered(s, j);
    InstalledIs(c, r'.Last(), i, j);
    ContinuesOn(r, r1, r2, q);
    ContinuesOn(r, r2, r', q);
  }

  lemma SnapWithin(s: NodeState)
    requires InCharge(s)
    ensures s.snapIndex <= |s.log|
  {
  }

  lemma SnapIs(s: NodeState)
    requires s.snapIndex <= |s.log|
    ensures var r := SendSnapshot(s); r.term == s.term && r.leader == s.id && r.lastIndex == s.snapIndex
  {
  }

  lemma InstalledIs(c: Cluster, c': Cluster, i: NodeId, j: NodeId)
    requires i in c.nodes && j in c.nodes && i != j && c.nodes[i].snapIndex <= |c.nodes[i].log|
    requires j in c'.nodes && i in c'.nodes && c'.nodes == c.nodes[j := c'.nodes[j]][i := c'.nodes[i]]
    requires Kept(c.nodes[i], c'.nodes[i]) && KnowsMore(c.nodes[i], c'.nodes[i])
    requires Obeys(c.nodes[i], c.nodes[j], c'.nodes[j]) && c.nodes[i].log[..c.nodes[i].snapIndex] <= c'.nodes[j].log
    requires Get(c'.nodes[i].nextIndex, j) == c.nodes[i].snapIndex + 1
    ensures Installed(c, c', i, j)
  {
    hide Kept, Obeys, KnowsMore;
  }

  // ---- The whole log ----

  /** The leader brings a peer up to date, however far behind or astray it is. */
  lemma {:induction false} CatchUp(voters: set<NodeId>, q: set<NodeId>, r: Trace, i: NodeId, j: NodeId)
    returns (r': Trace)
    requires Pair(voters, q, r, i, j)
    ensures r'.Ok(voters) && Continues(r, r', q) && CaughtUp(r.Last(), r'.Last(), i, j)
    decreases Get(r.Last().nodes[i].nextIndex, j)
  {
    hide *;
    PairIs(voters, q, r, i, j);
    PairFacts(voters, q, r, i, j);
    var c := r.Last();
    if Get(c.nodes[i].nextIndex, j) <= c.nodes[i].snapIndex {
      var r1 := GiveSnapshot(voters, q, r, i, j);
      InstalledHas(c, r1.Last(), i, j);
      PairAgain(voters, q, r, r1, i, j);
      PairIs(voters, q, r1, i, j);
      r' := TryAppend(voters, q, r1, i, j);
      PrefixAccepts(r1.Last().nodes[i], r1.Last().nodes[j], j);
      ContinuesOn(r, r1, r', q);
      ToldTwice(c, r1.Last(), r'.Last(), i, j);
    } else {
      r' := TryAppend(voters, q, r, i, j);
      if !HandleAppendEntries(c.nodes[j], SendAppend(c.nodes[i], j)).1.success {
        var r1 := r';
        SteppedBackHas(c, r1.Last(), i, j);
        PairAgain(voters, q, r, r1, i, j);
        r' := CatchUp(voters, q, r1, i, j);
        ContinuesOn(r, r1, r', q);
        ToldTwice(c, r1.Last(), r'.Last(), i, j);
      }
    }
  }

  lemma InstalledHas(c: Cluster, c': Cluster, i: NodeId, j: NodeId)
    requires i in c.nodes && j in c.nodes && Installed(c, c', i, j)
    ensures Told(c, c', i, j) && i in c'.nodes && j in c'.nodes
    ensures var s := c'.nodes[i];
            && 0 < Get(s.nextIndex, j) == s.snapIndex + 1 <= |s.log| + 1
            && s.log[..Get(s.nextIndex, j) - 1] <= c'.nodes[j].log
  {
  }

  lemma SteppedBackHas(c: Cluster, c': Cluster, i: NodeId, j: NodeId)
    requires i in c.nodes && j in c.nodes && SteppedBack(c, c', i, j)
    ensures Told(c, c', i, j) && i in c'.nodes && Get(c'.nodes[i].nextIndex, j) < Get(c.nodes[i].nextIndex, j)
  {
  }

  lemma PairAgain(voters: set<NodeId>, q: set<NodeId>, r: Trace, r': Trace, i: NodeId, j: NodeId)
    requires Pair(voters, q, r, i, j) && r'.Ok(voters) && Told(r.Last(), r'.Last(), i, j)
    ensures Pair(voters, q, r', i, j)
  {
    hide Trace.Ok, Trace.Last;
  }

  lemma ToldTwice(c: Cluster, c1: Cluster, c': Cluster, i: NodeId, j: NodeId)
    requires i in c.nodes && j in c.nodes && i in c1.nodes && j in c1.nodes
    requires Told(c, c1, i, j) && CaughtUp(c1, c', i, j)
    ensures CaughtUp(c, c', i, j)
  {
  }
}
