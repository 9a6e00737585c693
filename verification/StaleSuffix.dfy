/**
 * A run of three nodes in which a deposed leader installs a snapshot below its own stale entries. Terms
 * then decrease along its log, and Log Matching is lost there.
 */
module StaleSuffix {
  import opened RaftTypes
  import opened RaftConf
  import opened NodeSpec
  import opened History
  import opened Cluster
  import opened Runs
  import opened StaleRead

  const M := Entry(2, 1, [])

  /** Node 2 leads term 2 with a log of its own. */
  function LeaderTwo(): NodeState {
    HandleVoteReply(StartElection(Voter()), 3, 2, VoteReply(2, true))
  }

  /** Node 2 after its vote for node 1 in term 1. */
  function Voter(): NodeState { Fresh(2, VOTERS).(term := 1, votedFor := 1) }

  lemma LeaderTwoIs()
    ensures var s := LeaderTwo();
            && s.role == Leader && s.term == 2 && s.log == [M] && s.synced == 1
            && s.commitIndex == 0 && s.lastApplied == 0 && s.snapIndex == 0
            && s.id == 2 && s.voters == VOTERS && Get(s.nextIndex, 1) == 1 && Get(s.nextIndex, 3) == 1
            && Get(s.matchIndex, 1) == 0 && Get(s.matchIndex, 2) == 1 && Get(s.matchIndex, 3) == 0
  {
    var s := StartElection(Voter());
    assert |VOTERS| == 3;
    assert s.votes == 1 && Conf(s).HasVoteQuorum(2);
  }

  /** Node 1 keeps leading term 1 by itself while nodes 2 and 3 elect node 2. */
  lemma ElectAnother() returns (r: Trace)
    ensures r.Ok(VOTERS)
    ensures var c := r.Last();
            && c.nodes.Keys == VOTERS && c.nodes[1] == LeaderOne() && c.nodes[2] == LeaderTwo()
            && c.nodes[3] == Fresh(3, VOTERS).(term := 2, votedFor := 2)
  {
    hide IsRun, HandleVoteReply, LeaderOne;
    r := ElectOne();
    r := Extend(VOTERS, r, Stand(2));
    var req := VoteReq(VoteRequest(2, 2, 0, 0));
    assert req in r.Last().net;
    r := Extend(VOTERS, r, RecvVoteReq(3, req));
    var resp := VoteResp(3, 2, 2, VoteReply(2, true));
    assert resp in r.Last().net;
    r := Extend(VOTERS, r, RecvVoteResp(2, resp));
  }

  const COPY := AppendRequest(2, 2, 0, 0, [M], 0)

  lemma AcceptM(s: NodeState)
    requires s == Fresh(3, VOTERS).(term := 2, votedFor := 2)
    ensures HandleAppendEntries(s, COPY).1 == AppendReply(2, true, 0, 0)
  {
  }

  lemma CopyThree() returns (r: Trace)
    ensures r.Ok(VOTERS)
    ensures var c := r.Last();
            && c.nodes.Keys == VOTERS && c.nodes[1] == LeaderOne() && c.nodes[2] == Sync(LeaderTwo())
            && AppResp(3, 2, 2, 0, 1, AppendReply(2, true, 0, 0)) in c.net
  {
    hide IsRun, LeaderOne, LeaderTwo, HandleAppendEntries;
    r := ElectAnother();
    LeaderTwoIs();
    assert SendAppend(LeaderTwo(), 3) == COPY;
    r := Extend(VOTERS, r, Send(2, 3));
    assert AppReq(3, COPY) in r.Last().net;
    AcceptM(r.Last().nodes[3]);
    r := Extend(VOTERS, r, RecvAppend(3, AppReq(3, COPY)));
  }

  lemma OneByTwo(matched: map<NodeId, nat>)
    requires Get(matched, 1) == 0 && Get(matched, 2) == 1 && Get(matched, 3) == 1
    ensures MaxCommit(ConfState(VOTERS, {}), matched) == 1
  {
    var c := ConfState(VOTERS, {});
    assert |VOTERS| == 3;
    assert Holders(VOTERS, matched, 1) == {2, 3};
    forall i | i > 1 ensures !HeldByMost(c, matched, i) { NoneAbove(c, matched, i); }
    MaxCommitUnique(c, matched, 1, MaxCommit(c, matched));
  }

  /** Node 2 commits its entry, applies it and compacts its log. */
  lemma CompactTwo() returns (r: Trace)
    ensures r.Ok(VOTERS)
    ensures var c := r.Last();
            && c.nodes.Keys == VOTERS && c.nodes[1] == LeaderOne()
            && c.nodes[2].role == Leader && c.nodes[2].term == 2 && c.nodes[2].id == 2 && c.nodes[2].log == [M]
            && c.nodes[2].voters == VOTERS && c.nodes[2].snapIndex == 1 && Get(c.nodes[2].nextIndex, 1) == 1
  {
    hide IsRun, LeaderOne, LeaderTwo, MaxCommit;
    r := CopyThree();
    LeaderTwoIs();
    OneByTwo(Raise(LeaderTwo().matchIndex, 3, 1));
    r := Extend(VOTERS, r, RecvAppendResp(2, AppResp(3, 2, 2, 0, 1, AppendReply(2, true, 0, 0))));
    r := Extend(VOTERS, r, Apply(2));
    r := Extend(VOTERS, r, Snapshot(2, 1));
  }

  /**
   * Node 1 ends with an entry of term 1 above one of term 2. It had that entry before, with another
   * one below it.
   */
  lemma StaleSuffixExists() returns (cs: seq<Cluster>, actions: seq<Action>)
    ensures IsRun(VOTERS, cs, actions) && |actions| > 0
    ensures var c, c' := cs[|actions| - 1], cs[|actions|];
            && 1 in c.nodes && 1 in c'.nodes
            && c.nodes[1].log == [N1, X] && c'.nodes[1].log == [M, X] && !Sorted(c'.nodes[1].log)
  {
    hide IsRun, LeaderOne, HandleInstallSnapshot, NextHist;
    var r := CompactTwo();
    r := SendTheSnapshot(r);
    var r' := Extend(VOTERS, r, RecvSnap(1, SnapReq(1, SNAPSHOT)));
    InstallOne();
    cs, actions := r'.cs, r'.actions;
    assert cs[|actions| - 1] == r.Last();
  }

  const SNAPSHOT := SnapRequest(2, 2, 1, 2, [M])

  lemma InstallOne()
    ensures LeaderOne().log == [N1, X] && HandleInstallSnapshot(LeaderOne(), SNAPSHOT).0.log == [M, X]
    ensures !Sorted([M, X])
  {
    LeaderOneIs();
    hide LeaderOne;
    assert InstalledLog([N1, X], SNAPSHOT) == [M, X];
    assert !InOrder([M, X], 0, 1);
  }

  lemma SendTheSnapshot(r0: Trace) returns (r: Trace)
    requires r0.Ok(VOTERS)
    requires var c := r0.Last();
             && c.nodes.Keys == VOTERS
             && c.nodes[2].role == Leader && c.nodes[2].term == 2 && c.nodes[2].id == 2 && c.nodes[2].log == [M]
             && c.nodes[2].voters == VOTERS && c.nodes[2].snapIndex == 1 && Get(c.nodes[2].nextIndex, 1) == 1
    ensures r.Ok(VOTERS) && r.Last().nodes == r0.Last().nodes[2 := Sync(r0.Last().nodes[2])]
    ensures SnapReq(1, SNAPSHOT) in r.Last().net
  {
    hide IsRun;
    r := Extend(VOTERS, r0, SendSnap(2, 1));
    assert [M][..1] == [M];
    assert SendSnapshot(r0.Last().nodes[2]) == SNAPSHOT;
  }
}
