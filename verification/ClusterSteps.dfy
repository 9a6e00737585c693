/** Every step of the cluster keeps the invariant. */
module ClusterSteps {
  import opened Bytes
  import opened RaftTypes
  import opened RaftConf
  import opened NodeSpec
  import opened History
  import opened Cluster
  import opened ClusterInv
  import opened ClusterAppend
  import opened ClusterElection
  import opened ClusterCommit
  import opened InstallSnapshot

  lemma NothingNew(h: Hist, i: NodeId)
    ensures Grows(h, h) && OthersKept(h, h, i) && AcksFresh(h, h) && NewItemsInv(h, h)
  {
    GrowsRefl(h);
  }

  /** A step that only adds messages and history about node i. */
  lemma LoudStep(c: Cluster, c': Cluster, i: NodeId, s': NodeState)
    requires Inv(c) && i in c.nodes && c'.nodes == c.nodes[i := s']
    requires Grows(c.h, c'.h) && OthersKept(c.h, c'.h, i) && AcksFresh(c.h, c'.h) && NewItemsInv(c.h, c'.h)
    requires s'.id == i && NodeInv(c'.h, s')
    requires forall m :: m in c'.net && m !in c.net ==> MsgInv(c'.h, m) && !m.ReadReq? && !m.ReadResp?
    requires forall p :: p in c'.proposed && p !in c.proposed ==> ProposalInv(c'.h, p)
    requires c'.applied == c.applied && c'.calls == c.calls
    ensures Inv(c')
  {
    hide HistInv, NodeInv, MsgInv, Grows, OthersKept, AcksFresh, NewItemsInv, ReadInv;
    ReadsKept(c.h, c'.h, c.calls, c.net, c'.net);
    RecordsKept(c.h, c'.h, c.proposed, c.applied);
    StepKeepsInv(c, c', i, s');
  }

  lemma NodeOf(c: Cluster, i: NodeId)
    requires Inv(c) && i in c.nodes
    ensures HistInv(c.h) && i in c.h.voters && c.nodes[i].id == i && NodeInv(c.h, c.nodes[i])
  {
    hide HistInv, NodeInv;
  }

  lemma MsgOf(c: Cluster, m: Msg)
    requires Inv(c) && m in c.net
    ensures MsgInv(c.h, m) && ReadMsgInv(c.h, c.calls, m)
  {
    hide HistInv, NodesInv, MsgInv, ReadMsgInv;
  }

  // ---- Elections ----

  lemma StandStep(c: Cluster, a: Action)
    requires Inv(c) && a.Stand? && Enabled(c, a)
    ensures Inv(Next(c, a)) && Grows(c.h, Next(c, a).h)
  {
    hide Inv, HistInv, NodeInv, Grows, OthersKept, AcksFresh, NewItemsInv;
    var s := c.nodes[a.i];
    NodeOf(c, a.i);
    StandGrows(c.h, s);
    StandItems(c.h, s);
    StandNode(c.h, s);
    LoudStep(c, Next(c, a), a.i, StartElection(s));
  }

  lemma VoteReqStep(c: Cluster, a: Action)
    requires Inv(c) && a.RecvVoteReq? && Enabled(c, a)
    ensures Inv(Next(c, a)) && Grows(c.h, Next(c, a).h)
  {
    hide Inv, HistInv, NodeInv, Grows, OthersKept, AcksFresh, NewItemsInv;
    var s, r := c.nodes[a.i], a.m.vreq;
    NodeOf(c, a.i);
    MsgOf(c, a.m);
    var s1 := if r.term > s.term then StepDown(s, r.term) else s;
    if r.term > s.term { StepDownInv(c.h, s, r.term); }
    var (s', v) := HandleRequestVote(s, r);
    if v.granted {
      GrantGrows(c.h, s1, r.cand);
      GrantItems(c.h, s1, r);
      GrantNode(c.h, s1, r);
    } else {
      NothingNew(c.h, a.i);
    }
    LoudStep(c, Next(c, a), a.i, s');
  }

  lemma VoteRespStep(c: Cluster, a: Action)
    requires Inv(c) && a.RecvVoteResp? && Enabled(c, a)
    ensures Inv(Next(c, a)) && Grows(c.h, Next(c, a).h)
  {
    hide Inv, HistInv, NodeInv, Grows, OthersKept, AcksFresh, NewItemsInv, BecomeLeader;
    var s, m := c.nodes[a.i], a.m;
    NodeOf(c, a.i);
    MsgOf(c, m);
    var s' := HandleVoteReply(s, m.voter, m.reqTerm, m.vote);
    NothingNew(c.h, a.i);
    if m.vote.term > s.term {
      StepDownInv(c.h, s, m.vote.term);
    } else if s.role == Candidate && s.term == m.reqTerm && m.vote.granted {
      CountVote(c.h, s, m.voter);
      var s1 := s.(votes := s.votes + 1, counted := s.counted + {m.voter});
      VotersOf(c.h, s);
      if s1.votes >= Majority(|s.voters|) {
        FirstLeader(c.h, s1);
        WinGrows(c.h, s1);
        WinItems(c.h, s1);
        WinNode(c.h, s1);
        LeaderRole(s1);
      }
    }
    LoudStep(c, Next(c, a), a.i, s');
  }

  lemma LeaderRole(s: NodeState)
    ensures BecomeLeader(s).role == Leader && BecomeLeader(s).id == s.id
  {
  }

  lemma VotersOf(h: Hist, s: NodeState)
    requires NodeInv(h, s)
    ensures s.voters == h.voters
  {
  }

  lemma AdoptStep(c: Cluster, a: Action)
    requires Inv(c) && a.AdoptTerm? && Enabled(c, a)
    ensures Inv(Next(c, a)) && Grows(c.h, Next(c, a).h)
  {
    hide Inv, HistInv, NodeInv, Grows, OthersKept, AcksFresh, NewItemsInv;
    NodeOf(c, a.i);
    NothingNew(c.h, a.i);
    StepDownInv(c.h, c.nodes[a.i], RequestTerm(a.m));
    LoudStep(c, Next(c, a), a.i, StepDown(c.nodes[a.i], RequestTerm(a.m)));
  }

  // ---- Replication ----

  lemma SendStep(c: Cluster, a: Action)
    requires Inv(c) && a.Send? && Enabled(c, a)
    ensures Inv(Next(c, a)) && Grows(c.h, Next(c, a).h)
  {
    hide Inv, HistInv, NodeInv, Grows, OthersKept, AcksFresh, NewItemsInv;
    var s := c.nodes[a.i];
    NodeOf(c, a.i);
    NothingNew(c.h, a.i);
    SyncInv(c.h, s);
    SentInv(c.h, s, a.peer);
    LoudStep(c, Next(c, a), a.i, Sync(s));
  }

  lemma AppendStep(c: Cluster, a: Action)
    requires Inv(c) && a.RecvAppend? && Enabled(c, a)
    ensures Inv(Next(c, a)) && Grows(c.h, Next(c, a).h)
  {
    hide Inv, HistInv, NodeInv, Grows, OthersKept, AcksFresh, NewItemsInv, Accept, AcceptTerm, Consistent, Committed;
    var s, r := c.nodes[a.i], a.m.areq;
    NodeOf(c, a.i);
    MsgOf(c, a.m);
    NothingNew(c.h, a.i);
    var (s', reply) := HandleAppendEntries(s, r);
    if r.term >= s.term {
      AcceptTermInv(c.h, s, r.term, r.leader);
      var s1 := AcceptTerm(s, r.term, r.leader);
      if Consistent(s1, r) {
        AcceptVouched(c.h, s1, r);
      }
    }
    LoudStep(c, Next(c, a), a.i, s');
  }

  /** A step of node s.id from history h to h' keeps the rest, and n is vouched for afterwards. */
  ghost predicate Vouches(h: Hist, h': Hist, s': NodeState, t: Term, n: nat) {
    && Grows(h, h') && OthersKept(h, h', s'.id) && AcksFresh(h, h') && NewItemsInv(h, h')
    && NodeInv(h', s') && Vouched(h', s'.id, t, n)
  }

  /** Acknowledging with everything on disk, or with a stale suffix and only what is committed. */
  lemma AckWholeVouches(h: Hist, s': NodeState, t: Term, n: nat)
    requires HistInv(h) && NodeInv(h, s') && s'.role != Leader && s'.term == t && t in h.reigns
    requires n <= |h.reigns[t].log| && h.reigns[t].log[..n] <= s'.log
    requires !Rooted(h, s'.log) ==> n <= s'.snapIndex
    ensures Vouches(h, AckWhole(h, s', t, n), s', t, n)
  {
    hide HistInv, Rooted, AcksHeld, Grows, OthersKept, AcksFresh, NewItemsInv, Acked, StaleNode;
    if Rooted(h, s'.log) {
      assert s'.log[..s'.synced] == s'.log;
      AckUpToGrows(h, s', n);
      AckUpToInv(h, s', n);
    } else {
      NothingNew(h, s'.id);
      StaleRoleSame(h, s');
      var u: Term, k: nat :| CommittedBy(h, s'.log[..s'.commitIndex], s'.term, u, k);
      assert Covered(h, t, n);
    }
  }

  /** A follower that accepts has everything up to the last entry sent on disk, and says so. */
  lemma AcceptVouched(h: Hist, s: NodeState, r: AppendRequest)
    requires Follows(h, s, r)
    ensures var s', n := Accept(s, r), r.prevIndex + |r.entries|;
            s'.id == s.id && Vouches(h, AckWhole(h, s', r.term, n), s', r.term, n)
  {
    hide HistInv, Rooted, LogInv, AcksHeld, Committed, PastTerms, Consistent, FirstNew, Overwrite, Vouches;
    AcceptInv(h, s, r);
    var s', n := Accept(s, r), r.prevIndex + |r.entries|;
    var f, p := AcceptedLog(h, s, r);
    if f == |r.entries| {
      if !Rooted(h, s.log) { StaleCovers(h, s, r, f, p); }
    } else {
      ReignOf(h, r.term);
      RootedPrefix(h, h.reigns[r.term].log, s'.log);
    }
    AckWholeVouches(h, s', r.term, n);
  }

  lemma AppendRespStep(c: Cluster, a: Action)
    requires Inv(c) && a.RecvAppendResp? && Enabled(c, a)
    ensures Inv(Next(c, a)) && Grows(c.h, Next(c, a).h)
  {
    hide Inv, HistInv, NodeInv, Grows, OthersKept, AcksFresh, NewItemsInv, Backtrack, AdvanceCommit;
    var s, m := c.nodes[a.i], a.m;
    NodeOf(c, a.i);
    MsgOf(c, m);
    NothingNew(c.h, a.i);
    if m.reply.term > s.term {
      StepDownInv(c.h, s, m.reply.term);
    } else if s.role == Leader && s.term == m.reqTerm {
      if m.reply.success {
        var n := m.prevIndex + m.count;
        RaiseMatch(c.h, s, m.from, n);
        var s1 := s.(matchIndex := Raise(s.matchIndex, m.from, n), nextIndex := Raise(s.nextIndex, m.from, n + 1));
        AdvanceInv(c.h, s1);
      } else {
        BacktrackInv(c.h, s, m.from, m.reply);
        BacktrackFrame(s, m.from, m.reply);
      }
    }
    LoudStep(c, Next(c, a), a.i, NextNode(c, a));
  }

  lemma BacktrackFrame(s: NodeState, p: NodeId, a: AppendReply)
    ensures Backtrack(s, p, a).commitIndex == s.commitIndex && Backtrack(s, p, a).id == s.id
  {
  }

  lemma AdvanceInv(h: Hist, s: NodeState)
    requires HistInv(h) && NodeInv(h, s) && s.role == Leader
    ensures var s' := AdvanceCommit(s); var h' := if s'.commitIndex > s.commitIndex then RecordCommit(h, s') else h;
            && Grows(h, h') && OthersKept(h, h', s.id) && AcksFresh(h, h') && NewItemsInv(h, h')
            && s'.id == s.id && NodeInv(h', s')
  {
    hide HistInv, Rooted, AcksHeld, Committed, Grows, OthersKept, AcksFresh, NewItemsInv, PastTerms;
    var m := MaxCommit(Conf(s), s.matchIndex);
    NothingNew(h, s.id);
    if m > s.commitIndex {
      SyncInv(h, s);
      if TermAt(s, m) == Some(s.term) {
        CommitGrows(h, s, Sync(s).(commitIndex := m));
        CommitItems(h, s, m);
        CommitNode(h, s, m);
      }
    }
  }

  // ---- Snapshots for lagging followers ----

  lemma SendSnapStep(c: Cluster, a: Action)
    requires Inv(c) && a.SendSnap? && Enabled(c, a)
    ensures Inv(Next(c, a)) && Grows(c.h, Next(c, a).h)
  {
    hide Inv, HistInv, NodeInv, Grows, OthersKept, AcksFresh, NewItemsInv, SnapInv;
    var s := c.nodes[a.i];
    NodeOf(c, a.i);
    NothingNew(c.h, a.i);
    SyncInv(c.h, s);
    SnapSent(c.h, s);
    LoudStep(c, Next(c, a), a.i, Sync(s));
  }

  lemma SnapSent(h: Hist, s: NodeState)
    requires NodeInv(h, s) && s.role == Leader
    ensures SnapInv(h, SendSnapshot(s))
  {
    hide AcksHeld, Rooted, PastTerms;
    GrowsRefl(h);
    CommittedGrows(h, h, s.log[..s.commitIndex], s.log[..s.snapIndex], s.term, s.term);
  }

  lemma SnapStep(c: Cluster, a: Action)
    requires Inv(c) && a.RecvSnap? && Enabled(c, a)
    ensures Inv(Next(c, a)) && Grows(c.h, Next(c, a).h)
  {
    hide Inv, HistInv, NodeInv, Grows, OthersKept, AcksFresh, NewItemsInv, Install, AcceptTerm, Committed,
         SuffixMatches;
    var s, r := c.nodes[a.i], a.m.sreq;
    NodeOf(c, a.i);
    MsgOf(c, a.m);
    NothingNew(c.h, a.i);
    if r.term >= s.term {
      AcceptTermInv(c.h, s, r.term, r.leader);
      SnapVouched(c.h, AcceptTerm(s, r.term, r.leader), r);
    }
    LoudStep(c, Next(c, a), a.i, NextNode(c, a));
  }

  /** A follower that took a snapshot has everything the snapshot stands for, and says so. */
  lemma SnapVouched(h: Hist, s: NodeState, r: SnapRequest)
    requires HistInv(h) && NodeInv(h, s) && SnapInv(h, r) && s.term == r.term && s.role == Follower
    ensures var s' := Install(s, r); var h' := AckWhole(h, s', r.term, r.lastIndex);
            s'.id == s.id && s'.term == r.term && Vouches(h, h', s', r.term, r.lastIndex)
  {
    hide HistInv, Rooted, LogInv, AcksHeld, Committed, InstalledLog, AckWhole, Vouches;
    var s', n := Install(s, r), r.lastIndex;
    InstallInv(h, s, r);
    assert h.reigns[r.term].log[..n] == r.prefix;
    AckWholeVouches(h, s', r.term, n);
  }

  lemma SnapRespStep(c: Cluster, a: Action)
    requires Inv(c) && a.RecvSnapResp? && Enabled(c, a)
    ensures Inv(Next(c, a)) && Grows(c.h, Next(c, a).h)
  {
    hide Inv, HistInv, NodeInv, Grows, OthersKept, AcksFresh, NewItemsInv;
    var s, m := c.nodes[a.i], a.m;
    NodeOf(c, a.i);
    MsgOf(c, m);
    NothingNew(c.h, a.i);
    if m.sterm > s.term {
      StepDownInv(c.h, s, m.sterm);
    } else if s.role == Leader && s.term == m.reqTerm {
      RaiseMatch(c.h, s, m.from, m.lastIndex);
    }
    LoudStep(c, Next(c, a), a.i, NextNode(c, a));
  }

  lemma CommandStep(c: Cluster, a: Action)
    requires Inv(c) && a.Command? && Enabled(c, a)
    ensures Inv(Next(c, a)) && Grows(c.h, Next(c, a).h)
  {
    hide Inv, HistInv, NodeInv, Grows, OthersKept, AcksFresh, NewItemsInv, LeaderInv;
    var s := c.nodes[a.i];
    NodeOf(c, a.i);
    LeaderOf(c.h, s);
    ProposeGrows(c.h, s, a.data);
    ProposeItems(c.h, s, a.data);
    ProposeNode(c.h, s, a.data);
    LoudStep(c, Next(c, a), a.i, Propose(s, a.data));
  }

  lemma LeaderOf(h: Hist, s: NodeState)
    requires NodeInv(h, s) && s.role == Leader
    ensures LeaderInv(h, s) && Rooted(h, s.log)
  {
  }

  lemma ProposeItems(h: Hist, s: NodeState, data: Bytes)
    requires HistInv(h) && LeaderInv(h, s) && Rooted(h, s.log)
    ensures var h' := RecordLog(h, Propose(s, data));
            NewItemsInv(h, h') && ProposalInv(h', Proposal(|s.log| + 1, s.term, data))
  {
    hide HistInv, ReignInv, Rooted;
    ProposeReign(h, s, data);
  }

  // ---- Applying, compaction, crashes ----

  lemma ApplyStep(c: Cluster, a: Action)
    requires Inv(c) && a.Apply? && Enabled(c, a)
    ensures Inv(Next(c, a)) && Grows(c.h, Next(c, a).h)
  {
    hide HistInv, NodeInv, Grows, OthersKept, AcksFresh, NewItemsInv, MsgInv, ReadsInv, NodesInv;
    var s := c.nodes[a.i];
    NodeOf(c, a.i);
    NothingNew(c.h, a.i);
    ApplyInv(c.h, s);
    assert Next(c, a).net == c.net;
    StepKeepsInv(c, Next(c, a), a.i, ApplyCommitted(s));
  }

  lemma ApplyInv(h: Hist, s: NodeState)
    requires NodeInv(h, s)
    ensures NodeInv(h, ApplyCommitted(s))
    ensures forall x :: x in HandedOver(s) ==> AppliedInv(h, x)
  {
    hide Rooted, AcksHeld, PastTerms;
    var s' := ApplyCommitted(s);
    VolatileChange(h, s, s');
    forall x | x in HandedOver(s) ensures AppliedInv(h, x) {
      var t, k :| CommittedBy(h, s.log[..s.commitIndex], s.term, t, k);
      assert x.entry == s.log[..s.commitIndex][x.index - 1];
      assert AppliedBy(h, x, t, k);
    }
  }

  /** The invariant mentions only these parts of a node. */
  lemma VolatileChange(h: Hist, s: NodeState, s': NodeState)
    requires NodeInv(h, s) && Bounds(s') && (s'.snapIndex == s.snapIndex || Rooted(h, s.log))
    requires s' == s.(leaderId := s'.leaderId, lastApplied := s'.lastApplied, snapIndex := s'.snapIndex)
    ensures NodeInv(h, s')
  {
    hide Rooted, AcksHeld, PastTerms, Committed;
    assert AcksHeld(h, s') by { CoreSame(h, s, s'); }
    CoreSame(h, s, s');
    assert forall j :: VotesFor(h, j, s) ==> VotesFor(h, j, s');
    assert forall p :: Matched(h, s, p) ==> Matched(h, s', p);
  }

  lemma SnapshotStep(c: Cluster, a: Action)
    requires Inv(c) && a.Snapshot? && Enabled(c, a)
    ensures Inv(Next(c, a)) && Grows(c.h, Next(c, a).h)
  {
    hide Inv, HistInv, NodeInv, Grows, OthersKept, AcksFresh, NewItemsInv;
    NodeOf(c, a.i);
    NothingNew(c.h, a.i);
    CompactInv(c.h, c.nodes[a.i], a.index);
    LoudStep(c, Next(c, a), a.i, Compact(c.nodes[a.i], a.index));
  }

  lemma CompactInv(h: Hist, s: NodeState, index: nat)
    requires HistInv(h) && NodeInv(h, s)
    ensures NodeInv(h, Compact(s, index)) && Compact(s, index).id == s.id
  {
    hide HistInv, Rooted, AcksHeld, PastTerms, Committed;
    var s' := Compact(s, index);
    if s' != s {
      var s1 := s.(snapIndex := index);
      SnapshotOfRooted(h, s, index);
      VolatileChange(h, s, s1);
      if s.role == Leader { SyncInv(h, s1); }
    }
  }

  /** A node with a stale suffix has applied nothing above its snapshot, so it takes no newer one. */
  lemma SnapshotOfRooted(h: Hist, s: NodeState, index: nat)
    requires NodeInv(h, s) && s.snapIndex < index <= s.lastApplied
    ensures Rooted(h, s.log)
  {
    hide Rooted;
  }

  /** Reopening the storage on a log that has everything durable, and nothing foreign. */
  lemma RestartInv(h: Hist, s: NodeState, log: Log)
    requires HistInv(h) && CoreInv(h, s) && VoteKept(h, s) && LogInv(h, Restart(s, log))
    requires s.snapIndex <= |log| && log[..s.snapIndex] == s.log[..s.snapIndex]
    requires forall k :: 0 <= k < |log| ==> log[k].term <= s.term
    requires forall t :: (s.id, t) in h.acks ==> AckInv(h, log, s.id, t, s.term)
    ensures NodeInv(h, Restart(s, log))
  {
    hide HistInv, LogInv, PastTerms, AckInv;
    var s' := Restart(s, log);
    assert s'.log[..s'.synced] == log;
    GrowsRefl(h);
    assert s'.log[..s'.commitIndex] == s.log[..s.commitIndex][..s.snapIndex];
    CommittedGrows(h, h, s.log[..s.commitIndex], s'.log[..s'.commitIndex], s.term, s.term);
    assert PastTerms(h, s') by { PastTermsSame(h, s, s'); }
  }

  lemma PastTermsSame(h: Hist, s: NodeState, s': NodeState)
    requires PastTerms(h, s) && s'.id == s.id && s'.term == s.term
    ensures PastTerms(h, s')
  {
  }

  lemma CrashInv(h: Hist, s: NodeState, keep: nat)
    requires HistInv(h) && NodeInv(h, s) && s.synced <= keep <= |s.log|
    ensures NodeInv(h, Restart(s, s.log[..keep]))
  {
    hide HistInv, Rooted, PastTerms, Committed, StaleNode;
    var log := s.log[..keep];
    GrowsRefl(h);
    if Rooted(h, s.log) {
      RootedPrefix(h, s.log, log);
    } else {
      StaleRoleSame(h, s);
      assert log == s.log;
      StaleNodeGrows(h, h, s, Restart(s, log));
    }
    assert s.log[..s.synced] <= log;
    forall t | (s.id, t) in h.acks ensures AckInv(h, log, s.id, t, s.term) {
      AckGrows(h, h, s.log[..s.synced], log, s.id, t, s.term, s.term);
    }
    RestartInv(h, s, log);
  }

  lemma CrashStep(c: Cluster, a: Action)
    requires Inv(c) && a.Crash? && Enabled(c, a)
    ensures Inv(Next(c, a)) && Grows(c.h, Next(c, a).h)
  {
    hide Inv, HistInv, NodeInv, Grows, OthersKept, AcksFresh, NewItemsInv;
    var s := c.nodes[a.i];
    NodeOf(c, a.i);
    NothingNew(c.h, a.i);
    CrashInv(c.h, s, a.keep);
    LoudStep(c, Next(c, a), a.i, Restart(s, s.log[..a.keep]));
  }

  /** A crash after the metadata of a local snapshot was replaced, with the old log file and its unsynced tail. */
  lemma CrashInSnapshotStep(c: Cluster, a: Action)
    requires Inv(c) && a.CrashInSnapshot? && Enabled(c, a)
    ensures Inv(Next(c, a)) && Grows(c.h, Next(c, a).h)
  {
    hide Inv, HistInv, NodeInv, Grows, OthersKept, AcksFresh, NewItemsInv;
    var s := c.nodes[a.i];
    var s1 := s.(snapIndex := a.index);
    NodeOf(c, a.i);
    NothingNew(c.h, a.i);
    SnapshotOfRooted(c.h, s, a.index);
    NodeBounds(c.h, s);
    VolatileChange(c.h, s, s1);
    CrashInv(c.h, s1, a.keep);
    LoudStep(c, Next(c, a), a.i, Restart(s1, s.log[..a.keep]));
  }

  lemma NodeBounds(h: Hist, s: NodeState)
    requires NodeInv(h, s)
    ensures Bounds(s)
  {
  }

  /** A crash between the append and the fsync leaves part of the new entries, or none. */
  lemma TornInv(h: Hist, s: NodeState, r: AppendRequest, keep: nat)
    requires Follows(h, s, r)
    requires var f := FirstNew(s.log, s.snapIndex, r.prevIndex, r.entries, 0);
             f < |r.entries| && r.prevIndex + f <= keep <= |Overwrite(s.log, r.prevIndex, r.entries, f)|
    ensures NodeInv(h, Restart(s, Merge(s.log, s.snapIndex, r.prevIndex, r.entries)[..keep]))
  {
    hide HistInv, Rooted, StaleNode, AcksHeld, Committed, FirstNew, AckInv;
    var f, p := AcceptedLog(h, s, r);
    var reign, n := h.reigns[r.term].log, r.prevIndex + |r.entries|;
    var merged := Merge(s.log, s.snapIndex, r.prevIndex, r.entries);
    assert merged == reign[..n];
    var log := merged[..keep];
    assert log == reign[..keep];
    ReignOf(h, r.term);
    RootedPrefix(h, reign, log);
    assert s.log[..p] == reign[..p] <= log;
    OverwriteKeepsAcks(h, s, r.term, p, log);
    assert log[..s.snapIndex] == reign[..p][..s.snapIndex] == s.log[..p][..s.snapIndex] == s.log[..s.snapIndex];
    RestartInv(h, s, log);
  }

  lemma TornStep(c: Cluster, a: Action)
    requires Inv(c) && a.CrashInAppend? && Enabled(c, a)
    ensures Inv(Next(c, a)) && Grows(c.h, Next(c, a).h)
  {
    hide Inv, HistInv, NodeInv, Grows, OthersKept, AcksFresh, NewItemsInv, FirstNew, AcceptTerm, Consistent, Committed;
    var s, r := c.nodes[a.i], a.m.areq;
    NodeOf(c, a.i);
    MsgOf(c, a.m);
    NothingNew(c.h, a.i);
    AcceptTermInv(c.h, s, r.term, r.leader);
    TornInv(c.h, AcceptTerm(s, r.term, r.leader), r, a.keep);
    LoudStep(c, Next(c, a), a.i, NextNode(c, a));
  }

  // ---- Reads ----

  lemma ReadStartStep(c: Cluster, a: Action)
    requires Inv(c) && a.ReadStart? && Enabled(c, a)
    ensures Inv(Next(c, a)) && Grows(c.h, Next(c, a).h)
  {
    hide HistInv, NodeInv, Grows, OthersKept, AcksFresh, NewItemsInv, MsgInv, NodesInv, ReadInv, RecordsInv;
    var s, c' := c.nodes[a.i], Next(c, a);
    NodeOf(c, a.i);
    NothingNew(c.h, a.i);
    NewReadInv(c.h, s, c'.calls[a.call]);
    assert MsgInv(c.h, ReadReq(a.call, a.i, s.term)) by { ReadMsgsHold(c.h, ReadReq(a.call, a.i, s.term)); }
    StepKeepsInv(c, c', a.i, s);
  }

  lemma ReadMsgsHold(h: Hist, m: Msg)
    requires m.ReadReq? || m.ReadResp?
    ensures MsgInv(h, m)
  {
  }

  /** A node that is in term t helped elect nobody after t. */
  lemma LoyalIn(h: Hist, s: NodeState, r: ReadCall)
    requires HistInv(h) && PastTerms(h, s) && s.term <= r.term && r.elected <= h.reigns.Keys
    ensures Loyal(h, r, s.id)
  {
    forall u | u in r.elected && u > r.term ensures u in h.reigns && s.id !in h.reigns[u].winners {
      assert ReignInv(h, u);
      assert s.id in h.reigns[u].winners ==> Elected(h, u, s.id);
    }
  }

  /** What earlier terms committed lies below every entry of the leader's own term. */
  lemma EarlierCommitsBelow(h: Hist, t: Term, k: nat, u: Term, i: nat)
    requires HistInv(h) && (t, k) in h.commits && t < u && u in h.reigns
    requires i < |h.reigns[u].log| ==> h.reigns[u].log[i].term == u
    ensures k <= |h.reigns[u].log| && (i <= |h.reigns[u].log| ==> k <= i)
  {
    LeaderCompleteness(h, t, k, u);
    assert ReignInv(h, u) && CommitInv(h, t, k);
    hide HistInv;
    assert h.reigns[u].log[k - 1] == h.reigns[t].log[..k][k - 1];
    var log := h.reigns[u].log;
    forall x | i < x < |log| ensures log[x].term >= u { assert InOrder(log, i, x); }
  }

  lemma CommitReigned(h: Hist, t: Term, k: nat)
    requires HistInv(h) && (t, k) in h.commits
    ensures t in h.reigns
  {
    assert CommitInv(h, t, k);
  }

  lemma NewReadInv(h: Hist, s: NodeState, r: ReadCall)
    requires HistInv(h) && NodeInv(h, s) && s.role == Leader
    requires r == ReadCall(s.id, s.term, s.commitIndex, {}, false, Settled(s),
                           h.reigns.Keys, h.commits)
    ensures ReadInv(h, r)
  {
    hide HistInv, Rooted, AcksHeld, Committed, Loyal;
    LoyalIn(h, s, r);
    forall t, k | (t, k) in h.commits ensures t in h.reigns { CommitReigned(h, t, k); }
    ReignOf(h, s.term);
    if r.settled {
      forall t, k | (t, k) in h.commits && t <= s.term ensures k <= s.commitIndex {
        if t < s.term { EarlierCommitsBelow(h, t, k, s.term, s.commitIndex); }
      }
    }
  }

  lemma ReadHandled(h: Hist, s: NodeState, leader: NodeId, term: Term)
    requires HistInv(h) && NodeInv(h, s)
    ensures var (s', t, ack) := HandleReadIndex(s, leader, term);
            NodeInv(h, s') && s'.id == s.id && (ack ==> s'.term == term)
  {
    hide HistInv, Rooted, AcksHeld, Committed, PastTerms;
    if term >= s.term {
      var s1 := if term > s.term then StepDown(s, term) else s;
      if term > s.term { StepDownInv(h, s, term); }
      LeaderIdIrrelevant(h, s1, leader);
    }
  }

  lemma PastTermsOf(h: Hist, s: NodeState)
    requires NodeInv(h, s)
    ensures PastTerms(h, s)
  {
  }

  lemma CallOf(c: Cluster, q: nat)
    requires Inv(c) && q in c.calls
    ensures ReadInv(c.h, c.calls[q])
  {
    hide HistInv, NodesInv, MsgsInv, RecordsInv, ReadInv;
  }

  lemma ReadReqStep(c: Cluster, a: Action)
    requires Inv(c) && a.RecvReadReq? && Enabled(c, a)
    ensures Inv(Next(c, a)) && Grows(c.h, Next(c, a).h)
  {
    hide HistInv, NodeInv, Grows, OthersKept, AcksFresh, NewItemsInv, MsgInv, NodesInv, ReadInv, RecordsInv,
         HandleReadIndex, PastTerms, Loyal;
    var s, m, c' := c.nodes[a.i], a.m, Next(c, a);
    NodeOf(c, a.i);
    MsgOf(c, m);
    CallOf(c, m.call);
    NothingNew(c.h, a.i);
    ReadHandled(c.h, s, m.leader, m.rterm);
    var (s', t, ack) := HandleReadIndex(s, m.leader, m.rterm);
    var reply := ReadResp(a.i, m.call, t, ack);
    if ack {
      PastTermsOf(c.h, s');
      ElectedBefore(c.h, c.calls[m.call]);
      LoyalIn(c.h, s', c.calls[m.call]);
    }
    ReadMsgsHold(c.h, reply);
    assert ReadMsgInv(c.h, c.calls, reply);
    StepKeepsInv(c, c', a.i, s');
  }

  lemma ElectedBefore(h: Hist, r: ReadCall)
    requires ReadInv(h, r)
    ensures r.elected <= h.reigns.Keys
  {
  }

  lemma ReadRespStep(c: Cluster, a: Action)
    requires Inv(c) && a.RecvReadResp? && Enabled(c, a)
    ensures Inv(Next(c, a)) && Grows(c.h, Next(c, a).h)
  {
    hide HistInv, NodeInv, Grows, OthersKept, AcksFresh, NewItemsInv, MsgInv, NodesInv, RecordsInv, Loyal, ReadInv;
    var s, m, c' := c.nodes[a.i], a.m, Next(c, a);
    NodeOf(c, a.i);
    MsgOf(c, m);
    CallOf(c, m.call);
    NothingNew(c.h, a.i);
    if m.rterm > s.term { StepDownInv(c.h, s, m.rterm); }
    assert c'.net == c.net;
    if m.ack { AckCounted(c.h, c.calls[m.call], m.from); }
    CallsUpdated(c.h, c.calls, c'.calls, m.call, c.net);
    StepKeepsInv(c, c', a.i, NextNode(c, a));
  }

  lemma AckCounted(h: Hist, r: ReadCall, j: NodeId)
    requires ReadInv(h, r) && j in h.voters && j != r.leader && Loyal(h, r, j)
    ensures ReadInv(h, r.(acked := r.acked + {j}))
  {
    var r' := r.(acked := r.acked + {j});
    SubsetCard(r.acked, r'.acked);
    assert forall x :: Loyal(h, r, x) ==> Loyal(h, r', x);
  }

  /** A call that gained acknowledgements or finished is the same call to the messages. */
  lemma CallsUpdated(h: Hist, calls: map<nat, ReadCall>, calls': map<nat, ReadCall>, q: nat, net: set<Msg>)
    requires ReadsInv(h, calls, net) && q in calls && q in calls' && calls' == calls[q := calls'[q]]
    requires ReadInv(h, calls'[q])
    requires calls'[q] == calls[q].(acked := calls'[q].acked, done := calls'[q].done)
    ensures ReadsInv(h, calls', net)
  {
    hide ReadInv;
    forall m | m in net ensures ReadMsgInv(h, calls', m) {
      assert ReadMsgInv(h, calls, m);
    }
  }

  lemma ReadReturnStep(c: Cluster, a: Action)
    requires Inv(c) && a.ReadReturn? && Enabled(c, a)
    ensures Inv(Next(c, a)) && Grows(c.h, Next(c, a).h)
  {
    hide HistInv, NodeInv, Grows, OthersKept, AcksFresh, NewItemsInv, MsgInv, NodesInv, RecordsInv, Loyal, ReadInv;
    var s, c' := c.nodes[a.i], Next(c, a);
    NodeOf(c, a.i);
    CallOf(c, a.call);
    NothingNew(c.h, a.i);
    VotersOf(c.h, s);
    assert c'.net == c.net;
    CallDone(c.h, c.calls[a.call]);
    CallsUpdated(c.h, c.calls, c'.calls, a.call, c.net);
    StepKeepsInv(c, c', a.i, s);
  }

  lemma CallDone(h: Hist, r: ReadCall)
    requires ReadInv(h, r) && |r.acked| + 1 >= Majority(|h.voters|)
    ensures ReadInv(h, r.(done := true))
  {
    assert forall x :: Loyal(h, r, x) ==> Loyal(h, r.(done := true), x);
  }

  // ---- All steps, all runs ----

  lemma InitInv(voters: set<NodeId>)
    requires 0 !in voters
    ensures Inv(Init(voters))
  {
  }

  lemma NextInv(c: Cluster, a: Action)
    requires Inv(c) && Enabled(c, a)
    ensures Inv(Next(c, a)) && Grows(c.h, Next(c, a).h)
  {
    hide *;
    match a
    case Stand(_) => StandStep(c, a);
    case RecvVoteReq(_, _) => VoteReqStep(c, a);
    case RecvVoteResp(_, _) => VoteRespStep(c, a);
    case Send(_, _) => SendStep(c, a);
    case RecvAppend(_, _) => AppendStep(c, a);
    case RecvAppendResp(_, _) => AppendRespStep(c, a);
    case SendSnap(_, _) => SendSnapStep(c, a);
    case RecvSnap(_, _) => SnapStep(c, a);
    case RecvSnapResp(_, _) => SnapRespStep(c, a);
    case Command(_, _) => CommandStep(c, a);
    case Apply(_) => ApplyStep(c, a);
    case Snapshot(_, _) => SnapshotStep(c, a);
    case CrashInSnapshot(_, _, _) => CrashInSnapshotStep(c, a);
    case Crash(_, _) => CrashStep(c, a);
    case CrashInAppend(_, _, _) => TornStep(c, a);
    case AdoptTerm(_, _) => AdoptStep(c, a);
    case ReadStart(_, _) => ReadStartStep(c, a);
    case RecvReadReq(_, _) => ReadReqStep(c, a);
    case RecvReadResp(_, _) => ReadRespStep(c, a);
    case ReadReturn(_, _) => ReadReturnStep(c, a);
  }
}
