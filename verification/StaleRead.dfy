/**
 * Why ReadIndex needs a leader with no older entry above its commit index: a run of three
 * nodes in which a new leader answers a read below an index that was already committed.
 */
module StaleRead {
  import opened RaftTypes
  import opened RaftConf
  import opened NodeSpec
  import opened History
  import opened Cluster
  import opened ClusterInv
  import opened ClusterSafety
  import opened Runs

  const VOTERS: set<NodeId> := {1, 2, 3}

  const N1 := Entry(1, 1, [])
  const X := Entry(1, 2, [7])

  /** Node 1 leads term 1 and holds a client's command that nobody else has yet. */
  function LeaderOne(): NodeState { Propose(ElectedOne(), [7]) }

  function ElectedOne(): NodeState {
    HandleVoteReply(StartElection(Fresh(1, VOTERS)), 2, 1, VoteReply(1, true))
  }

  lemma ElectedOneIs()
    ensures ElectedOne().role == Leader
  {
    LeaderOneIs();
  }

  lemma LeaderOneIs()
    ensures var s := LeaderOne();
            && s.role == Leader && s.term == 1 && s.log == [N1, X] && s.commitIndex == 0 && s.snapIndex == 0
            && s.id == 1 && s.voters == VOTERS && Get(s.nextIndex, 2) == 1
            && Get(s.matchIndex, 1) == 2 && Get(s.matchIndex, 2) == 0 && Get(s.matchIndex, 3) == 0
  {
    var s := StartElection(Fresh(1, VOTERS));
    assert |VOTERS| == 3;
    assert s.votes == 1 && Conf(s).HasVoteQuorum(2);
  }

  /** Node 1 stands in term 1 and node 2 votes for it. */
  lemma VoteForOne() returns (r: Trace)
    ensures r.Ok(VOTERS)
    ensures var c := r.Last();
            && c.nodes.Keys == VOTERS && c.nodes[1] == StartElection(Fresh(1, VOTERS))
            && c.nodes[2] == Fresh(2, VOTERS).(term := 1, votedFor := 1)
            && c.nodes[3] == Fresh(3, VOTERS) && c.calls == map[] && c.h.commits == {}
            && VoteResp(2, 1, 1, VoteReply(1, true)) in c.net
  {
    r := Trace([Init(VOTERS)], []);
    assert r.Ok(VOTERS);
    hide IsRun;
    r := Extend(VOTERS, r, Stand(1));
    var req := VoteReq(VoteRequest(1, 1, 0, 0));
    assert req in r.Last().net;
    r := Extend(VOTERS, r, RecvVoteReq(2, req));
  }

  /** Node 1 wins term 1 and takes a command. */
  lemma ElectOne() returns (r: Trace)
    ensures r.Ok(VOTERS)
    ensures var c := r.Last();
            && c.nodes.Keys == VOTERS && c.nodes[1] == LeaderOne()
            && c.nodes[2] == Fresh(2, VOTERS).(term := 1, votedFor := 1)
            && c.nodes[3] == Fresh(3, VOTERS) && c.calls == map[] && c.h.commits == {}
  {
    hide IsRun, HandleVoteReply, Propose, BecomeLeader;
    r := VoteForOne();
    r := Extend(VOTERS, r, RecvVoteResp(1, VoteResp(2, 1, 1, VoteReply(1, true))));
    ElectedOneIs();
    r := Extend(VOTERS, r, Command(1, [7]));
  }

  lemma TwoOfThree(matched: map<NodeId, nat>)
    requires Get(matched, 1) == 2 && Get(matched, 2) == 2 && Get(matched, 3) == 0
    ensures MaxCommit(ConfState(VOTERS, {}), matched) == 2
  {
    var c := ConfState(VOTERS, {});
    assert |VOTERS| == 3;
    assert Holders(VOTERS, matched, 2) == {1, 2};
    forall i | i > 2 ensures !HeldByMost(c, matched, i) { NoneAbove(c, matched, i); }
    MaxCommitUnique(c, matched, 2, MaxCommit(c, matched));
  }

  const REPLICATE := AppendRequest(1, 1, 0, 0, [N1, X], 0)

  lemma SendTwo() returns (r: Trace)
    ensures r.Ok(VOTERS)
    ensures var c := r.Last();
            && c.nodes.Keys == VOTERS && c.nodes[1] == Sync(LeaderOne())
            && c.nodes[2] == Fresh(2, VOTERS).(term := 1, votedFor := 1)
            && c.nodes[3] == Fresh(3, VOTERS) && c.calls == map[] && c.h.commits == {}
            && AppReq(2, REPLICATE) in c.net
  {
    hide IsRun, LeaderOne, SendAppend, CanSend;
    r := ElectOne();
    LeaderOneIs();
    FirstRequest();
    r := Extend(VOTERS, r, Send(1, 2));
    assert AppReq(2, REPLICATE) in r.Last().net;
  }

  lemma FirstRequest()
    ensures CanSend(LeaderOne(), 2) && SendAppend(LeaderOne(), 2) == REPLICATE
  {
    hide LeaderOne;
    LeaderOneIs();
  }

  /** Node 2 has both entries on disk and has acknowledged them. */
  lemma ReplicateTwo() returns (r: Trace)
    ensures r.Ok(VOTERS)
    ensures var c := r.Last();
            && c.nodes.Keys == VOTERS && c.nodes[1] == Sync(LeaderOne())
            && c.nodes[2] == Fresh(2, VOTERS).(term := 1, votedFor := 1, log := [N1, X], synced := 2, leaderId := 1)
            && c.nodes[3] == Fresh(3, VOTERS) && c.calls == map[] && c.h.commits == {}
            && AppResp(2, 1, 1, 0, 2, AppendReply(1, true, 0, 0)) in c.net
  {
    hide IsRun, LeaderOne, HandleAppendEntries;
    r := SendTwo();
    AcceptTwo(r.Last().nodes[2]);
    r := Extend(VOTERS, r, RecvAppend(2, AppReq(2, REPLICATE)));
  }

  /** Node 1 commits index 2; node 2 does not learn of the commit. */
  lemma CommitTwo() returns (r: Trace)
    ensures r.Ok(VOTERS)
    ensures var c := r.Last();
            && c.nodes.Keys == VOTERS && c.nodes[1].commitIndex == 2
            && c.nodes[2] == Fresh(2, VOTERS).(term := 1, votedFor := 1, log := [N1, X], synced := 2, leaderId := 1)
            && c.nodes[3] == Fresh(3, VOTERS) && c.calls == map[]
  {
    hide IsRun, LeaderOne, MaxCommit;
    r := ReplicateTwo();
    LeaderOneIs();
    TwoOfThree(Raise(LeaderOne().matchIndex, 2, 2));
    r := Extend(VOTERS, r, RecvAppendResp(1, AppResp(2, 1, 1, 0, 2, AppendReply(1, true, 0, 0))));
  }

  lemma AcceptTwo(s: NodeState)
    requires s == Fresh(2, VOTERS).(term := 1, votedFor := 1)
    ensures HandleAppendEntries(s, REPLICATE)
         == (s.(log := [N1, X], synced := 2, leaderId := 1), AppendReply(1, true, 0, 0))
  {
    assert FirstNew([], 0, 0, [N1, X], 0) == 0;
    assert [] + [N1, X][0..] == [N1, X];
  }

  /** Node 2 once it leads term 2; its commit index is still 0. */
  function LeaderTwo(): NodeState {
    HandleVoteReply(StartElection(Follower2()), 3, 2, VoteReply(2, true))
  }

  function Follower2(): NodeState {
    Fresh(2, VOTERS).(term := 1, votedFor := 1, log := [N1, X], synced := 2, leaderId := 1)
  }

  lemma LeaderTwoIs()
    ensures var s := LeaderTwo();
            s.role == Leader && s.term == 2 && s.commitIndex == 0 && s.voters == VOTERS && s.id == 2
  {
    var s := StartElection(Follower2());
    assert |VOTERS| == 3;
    assert Conf(s).HasVoteQuorum(2);
  }

  /** Node 2 wins term 2 with node 3's vote, whether or not node 1 has committed. */
  lemma ElectTwo(r0: Trace) returns (r: Trace)
    requires r0.Ok(VOTERS)
    requires var c := r0.Last();
             c.nodes.Keys == VOTERS && c.nodes[2] == Follower2() && c.nodes[3] == Fresh(3, VOTERS) && c.calls == map[]
    ensures r.Ok(VOTERS)
    ensures var c := r.Last();
            && c.nodes.Keys == VOTERS && c.nodes[1] == r0.Last().nodes[1] && c.nodes[2] == LeaderTwo()
            && c.nodes[3] == Fresh(3, VOTERS).(term := 2, votedFor := 2) && c.calls == map[]
            && c.h.commits == r0.Last().h.commits
  {
    hide IsRun, HandleVoteReply;
    r := Extend(VOTERS, r0, Stand(2));
    var req := VoteReq(VoteRequest(2, 2, 2, 1));
    assert req in r.Last().net;
    r := Extend(VOTERS, r, RecvVoteReq(3, req));
    var resp := VoteResp(3, 2, 2, VoteReply(2, true));
    assert resp in r.Last().net;
    r := Extend(VOTERS, r, RecvVoteResp(2, resp));
  }

  lemma BeginTwo(r0: Trace) returns (r: Trace)
    requires r0.Ok(VOTERS)
    requires 2 in r0.Last().nodes && r0.Last().nodes[2] == LeaderTwo() && r0.Last().calls == map[]
    ensures r.Ok(VOTERS) && r.actions == r0.actions + [ReadStart(2, 0)] && r0.cs <= r.cs
    ensures r.Last().nodes == r0.Last().nodes
    ensures var c := r.Last();
            && 0 in c.calls && c.calls[0].leader == 2 && c.calls[0].term == 2 && c.calls[0].index == 0
            && c.calls[0].acked == {} && ReadReq(0, 2, 2) in c.net
  {
    hide IsRun, LeaderTwo;
    LeaderTwoIs();
    r := Extend(VOTERS, r0, ReadStart(2, 0));
    assert r.Last().nodes == r0.Last().nodes;
  }

  /** Node 2 asks for a read index and node 3 acknowledges it. */
  lemma AskTwo(r0: Trace) returns (r: Trace, b: nat)
    requires r0.Ok(VOTERS)
    requires var c := r0.Last();
             && c.nodes.Keys == VOTERS && c.nodes[2] == LeaderTwo() && c.calls == map[]
             && c.nodes[3] == Fresh(3, VOTERS).(term := 2, votedFor := 2)
    ensures r.Ok(VOTERS) && b < |r.actions| && r.actions[b] == ReadStart(2, 0) && r.cs[b] == r0.Last()
    ensures var c := r.Last();
            && 2 in c.nodes && c.nodes[2] == LeaderTwo()
            && 0 in c.calls && c.calls[0].leader == 2 && c.calls[0].term == 2 && c.calls[0].index == 0
            && ReadResp(3, 0, 2, true) in c.net && c.calls[0].acked == {}
  {
    b := |r0.actions|;
    assert b < |r0.cs|;
    hide IsRun, LeaderTwo;
    var r1 := BeginTwo(r0);
    assert r1.cs[b] == r0.Last();
    r := Extend(VOTERS, r1, RecvReadReq(3, ReadReq(0, 2, 2)));
    assert r.cs[b] == r1.cs[b];
  }

  /** From an elected node 2 to its answer. */
  lemma ReadTwo(r0: Trace) returns (r: Trace, b: nat)
    requires r0.Ok(VOTERS)
    requires var c := r0.Last();
             && c.nodes.Keys == VOTERS && c.nodes[2] == LeaderTwo() && c.calls == map[]
             && c.nodes[3] == Fresh(3, VOTERS).(term := 2, votedFor := 2)
    ensures r.Ok(VOTERS) && b < |r.actions| && r.actions[b] == ReadStart(2, 0) && r.cs[b] == r0.Last()
    ensures var c := r.Last(); 0 in c.calls && c.calls[0].done && c.calls[0].index == 0
  {
    var c := r0.Last();
    r, b := AskTwo(r0);
    hide IsRun, LeaderTwo;
    LeaderTwoIs();
    r := Extend(VOTERS, r, RecvReadResp(2, ReadResp(3, 0, 2, true)));
    assert r.Last().calls[0].acked == {3};
    assert |VOTERS| == 3;
    r := Extend(VOTERS, r, ReadReturn(2, 0));
    assert r.cs[b] == c;
  }

  /**
   * Without its hypothesis ReadIndex freshness is false: the call by node 2 returns 0 although
   * node 1 had committed index 2 before the call began.
   */
  lemma StaleReadExists() returns (cs: seq<Cluster>, actions: seq<Action>, b: nat, n: nat)
    ensures IsRun(VOTERS, cs, actions) && b < n < |cs| && actions[b] == ReadStart(2, 0)
    ensures cs[b].nodes.Keys == VOTERS && cs[b].nodes[1].commitIndex == 2 && cs[b].nodes[2] == LeaderTwo()
    ensures 0 in cs[n].calls && cs[n].calls[0].done && cs[n].calls[0].index == 0
  {
    var r := CommitTwo();
    r := ElectTwo(r);
    r, b := ReadTwo(r);
    cs, actions, n := r.cs, r.actions, |r.actions|;
  }

  /**
   * And no condition on what the leader itself holds could be exact. In this run node 2 is in the very
   * same state when it begins the call, the answer is the same, and it is fresh: nobody
   * has committed anything yet.
   */
  lemma FreshTwinExists() returns (cs: seq<Cluster>, actions: seq<Action>, b: nat, n: nat)
    ensures IsRun(VOTERS, cs, actions) && b < n < |cs| && actions[b] == ReadStart(2, 0)
    ensures cs[b].nodes.Keys == VOTERS && cs[b].nodes[2] == LeaderTwo()
    ensures 0 in cs[n].calls && cs[n].calls[0].done && cs[n].calls[0].index == 0
    ensures forall m, j :: 0 <= m <= b && j in cs[m].nodes ==> cs[m].nodes[j].commitIndex == 0
  {
    var r := ReplicateTwo();
    r := ElectTwo(r);
    r, b := ReadTwo(r);
    cs, actions, n := r.cs, r.actions, |r.actions|;
    forall m, j | 0 <= m <= b && j in cs[m].nodes ensures cs[m].nodes[j].commitIndex == 0 {
      NothingCommitted(cs, actions, m, j, b);
    }
  }

  lemma NothingCommitted(cs: seq<Cluster>, actions: seq<Action>, m: nat, j: NodeId, b: nat)
    requires IsRun(VOTERS, cs, actions) && m <= b < |cs| && j in cs[m].nodes && cs[b].h.commits == {}
    ensures cs[m].nodes[j].commitIndex == 0
  {
    NodeAt(VOTERS, cs, actions, m, j, b);
    hide IsRun, HistInv, NodeInv, Rooted, Grows;
    var s := cs[m].nodes[j];
    assert forall t, k :: !CommittedBy(cs[b].h, s.log[..s.commitIndex], s.term, t, k);
  }
}
