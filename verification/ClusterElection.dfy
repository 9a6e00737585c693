/** Elections: standing, voting and winning keep the cluster's invariant. */
module ClusterElection {
  import opened RaftTypes
  import opened RaftConf
  import opened NodeSpec
  import opened History
  import opened Cluster
  import opened ClusterInv
  import opened ClusterAppend

  /** In a term without a leader, nothing the node acknowledged was lost in that term. */
  lemma AckBeforeElection(h: Hist, log: Log, log': Log, j: NodeId, u: Term, t: Term)
    requires (j, u) in h.acks && AckInv(h, log, j, u, t) && t !in h.reigns && t >= 1 && log <= log'
    ensures AckInv(h, log', j, u, t - 1)
  {
    var hi := t - 1;
    forall k | 0 < k <= h.acks[(j, u)] ensures Held(h, log', u, k, hi) {
      assert Held(h, log, u, k, t);
    }
  }

  lemma FirmBeforeElection(h: Hist, log: Log, j: NodeId, u: Term, t: Term)
    requires (j, u) in h.acks && u in h.reigns && h.acks[(j, u)] <= |h.reigns[u].log|
    requires AckFirm(h, log, j, u, t) && t !in h.reigns && t >= 1
    ensures AckFirm(h, log, j, u, t - 1)
  {
    var hi := t - 1;
    forall k | 0 < k <= h.acks[(j, u)] ensures FirmAt(h, log, u, k, hi) { assert FirmAt(h, log, u, k, t); }
  }

  /** A vote cast by a node that satisfies its invariant is a good ballot. */
  lemma NewBallotInv(h: Hist, h': Hist, s: NodeState, cand: NodeId)
    requires HistInv(h) && Grows(h, h') && NodeInv(h, s) && h'.acks == h.acks && h'.reigns == h.reigns
    requires s.term >= 1 && cand in h.voters && (cand, s.term) in h'.runs
    requires UpToDate(LastTerm(h'.runs[(cand, s.term)]), |h'.runs[(cand, s.term)]|, s.log)
    requires (s.id, s.term) in h'.ballots && h'.ballots[(s.id, s.term)] == Ballot(cand, s.log, s.term in h.reigns)
    ensures BallotInv(h', s.id, s.term)
  {
    hide HistInv, LogInv, Committed, Held, FirmAt;
    if s.term !in h.reigns {
      forall u | u < s.term && (s.id, u) in h'.acks
        ensures AckInv(h', s.log, s.id, u, s.term - 1) && AckFirm(h', s.log, s.id, u, s.term - 1)
      {
        BallotAck(h, h', s, u);
      }
    }
  }

  lemma BallotAck(h: Hist, h': Hist, s: NodeState, u: Term)
    requires HistInv(h) && Grows(h, h') && NodeInv(h, s) && h'.acks == h.acks
    requires s.term >= 1 && s.term !in h.reigns && (s.id, u) in h.acks
    ensures AckInv(h', s.log, s.id, u, s.term - 1) && AckFirm(h', s.log, s.id, u, s.term - 1)
  {
    hide HistInv, LogInv, Committed;
    NodeFirm(h, s, u);
    AckBeforeElection(h, s.log[..s.synced], s.log, s.id, u, s.term);
    AckGrows(h, h', s.log, s.log, s.id, u, s.term - 1, s.term - 1);
    FirmBeforeElection(h, s.log, s.id, u, s.term);
    AckFirmGrows(h, h', s.log, s.id, u, s.term - 1, s.term - 1);
  }

  lemma RunOf(h: Hist, i: NodeId, t: Term)
    requires HistInv(h) && (i, t) in h.runs
    ensures RunInv(h, i, t)
  {
  }

  lemma BallotCand(h: Hist, j: NodeId, t: Term)
    requires HistInv(h) && (j, t) in h.ballots
    ensures h.ballots[(j, t)].cand != 0
  {
    assert BallotInv(h, j, t);
  }

  lemma NoReignNoCommit(h: Hist, t: Term)
    requires HistInv(h) && t !in h.reigns
    ensures forall k :: (t, k) !in h.commits
  {
    assert forall k :: (t, k) in h.commits ==> CommitInv(h, t, k);
  }

  lemma VoterIds(h: Hist, i: NodeId)
    requires HistInv(h) && i in h.voters
    ensures i != 0
  {
  }

  ghost predicate VotedFor(h: Hist, j: NodeId, t: Term, cand: NodeId) {
    (j, t) in h.ballots && h.ballots[(j, t)].cand == cand
  }

  // ---- Standing ----

  lemma StandGrows(h: Hist, s: NodeState)
    requires NodeInv(h, s)
    ensures var s' := StartElection(s); var h' := RecordVote(RecordRun(h, s'), s', s.id);
            && Grows(h, h') && OthersKept(h, h', s.id) && AcksFresh(h, h')
            && (s.id, s'.term) !in h.ballots && (s.id, s'.term) !in h.runs
  {
    var s' := StartElection(s);
    assert (s.id, s'.term) in h.ballots ==> s'.term <= s.term;
    assert (s.id, s'.term) in h.runs ==> s'.term <= s.term;
  }

  lemma StandItems(h: Hist, s: NodeState)
    requires HistInv(h) && NodeInv(h, s) && s.role != Leader
    ensures var s' := StartElection(s); NewItemsInv(h, RecordVote(RecordRun(h, s'), s', s.id))
  {
    hide HistInv, LogInv, Committed, AcksHeld, Grows, OthersKept, AcksFresh, Sane;
    var s' := StartElection(s);
    var h' := RecordVote(RecordRun(h, s'), s', s.id);
    StandGrows(h, s);
    StepDownInv(h, s, s'.term);
    NodeSane(h, s);
    SaneGrows(h, h', s.log, s.term);
    NewBallotInv(h, h', StepDown(s, s'.term), s.id);
    assert RunInv(h', s.id, s'.term);
  }

  lemma NodeSane(h: Hist, s: NodeState)
    requires NodeInv(h, s)
    ensures Sane(h, s.log, s.term)
  {
  }

  lemma StandNode(h: Hist, s: NodeState)
    requires HistInv(h) && NodeInv(h, s) && s.role != Leader
    ensures var s' := StartElection(s); NodeInv(RecordVote(RecordRun(h, s'), s', s.id), s')
  {
    hide HistInv, LogInv, Committed, AcksHeld, OthersKept, AcksFresh;
    var s' := StartElection(s);
    var h' := RecordVote(RecordRun(h, s'), s', s.id);
    StandGrows(h, s);
    LogInvGrows(h, h', s, s');
    VoterIds(h, s.id);
    assert VotesFor(h', s.id, s');
    CoreGrows(h, h', s, s');
  }

  // ---- Voting ----

  /** Granting a vote: the ballot is new, or it repeats one for the same candidate. */
  lemma GrantGrows(h: Hist, s: NodeState, cand: NodeId)
    requires NodeInv(h, s) && (s.votedFor == 0 || s.votedFor == cand)
    ensures var s' := SetHardState(s, s.term, cand); var h' := RecordVote(h, s', cand);
            Grows(h, h') && OthersKept(h, h', s.id) && AcksFresh(h, h')
  {
    hide Rooted, Committed, AcksHeld, LeaderInv;
    assert forall u :: (s.id, u) in h.acks ==> u <= s.term;
  }

  lemma GrantItems(h: Hist, s: NodeState, r: VoteRequest)
    requires HistInv(h) && NodeInv(h, s) && Stood(h, r) && r.term == s.term
    requires UpToDate(r.lastTerm, r.lastIndex, s.log) && (s.votedFor == 0 || s.votedFor == r.cand)
    ensures NewItemsInv(h, RecordVote(h, SetHardState(s, s.term, r.cand), r.cand))
  {
    hide HistInv, Rooted, Committed, AcksHeld, LeaderInv, CandidateInv, AcksFresh, OthersKept;
    var s' := SetHardState(s, s.term, r.cand);
    var h' := RecordVote(h, s', r.cand);
    RunOf(h, r.cand, r.term);
    GrantGrows(h, s, r.cand);
    if (s.id, s.term) !in h.ballots {
      NewBallotInv(h, h', s, r.cand);
    }
  }

  lemma GrantNode(h: Hist, s: NodeState, r: VoteRequest)
    requires HistInv(h) && NodeInv(h, s) && Stood(h, r) && r.term == s.term && r.cand != s.id
    requires UpToDate(r.lastTerm, r.lastIndex, s.log) && (s.votedFor == 0 || s.votedFor == r.cand)
    ensures var s' := SetHardState(s, s.term, r.cand); var h' := RecordVote(h, s', r.cand);
            NodeInv(h', s') && VotedFor(h', s.id, s.term, r.cand)
  {
    hide HistInv, LogInv, Committed, AcksHeld, AcksFresh, OthersKept;
    var s' := SetHardState(s, s.term, r.cand);
    var h' := RecordVote(h, s', r.cand);
    RunOf(h, r.cand, r.term);
    VoterIds(h, s.id);
    VoterIds(h, r.cand);
    if (s.id, s.term) in h.ballots { BallotCand(h, s.id, s.term); }
    assert VotesFor(h, s.id, s) ==> s.votedFor == s.id;
    GrantGrows(h, s, r.cand);
    if s.role == Leader { LeaderRooted(h, s); }
    LogInvGrows(h, h', s, s');
    CoreGrows(h, h', s, s');
  }

  lemma LeaderRooted(h: Hist, s: NodeState)
    requires NodeInv(h, s) && s.role == Leader
    ensures Rooted(h, s.log)
  {
  }

  // ---- Winning ----

  lemma CountVote(h: Hist, s: NodeState, j: NodeId)
    requires NodeInv(h, s) && s.role == Candidate && j in h.voters && j != s.id && j !in s.counted
    requires VotedFor(h, j, s.term, s.id)
    ensures NodeInv(h, s.(votes := s.votes + 1, counted := s.counted + {j}))
  {
    var s' := s.(votes := s.votes + 1, counted := s.counted + {j});
    forall x | x in s'.counted ensures VotesFor(h, x, s') {
      if x != j { assert VotesFor(h, x, s); }
    }
    assert VotesFor(h, s.id, s);
    assert VotesFor(h, s.id, s');
  }

  /** Election Safety: a candidate with a majority of votes is the first leader of its term. */
  lemma FirstLeader(h: Hist, s: NodeState)
    requires HistInv(h) && NodeInv(h, s) && s.role == Candidate && s.votes >= Majority(|h.voters|)
    ensures s.term !in h.reigns
  {
    if s.term in h.reigns {
      ReignOf(h, s.term);
      hide HistInv;
      var mine := s.counted + {s.id};
      var j := QuorumsMeet(h.voters, mine, h.reigns[s.term].winners);
      assert false;
    }
  }

  lemma WinGrows(h: Hist, s: NodeState)
    requires s.term !in h.reigns
    ensures var h' := RecordReign(h, BecomeLeader(s));
            Grows(h, h') && OthersKept(h, h', s.id) && AcksFresh(h, h')
  {
  }

  lemma WinnersElected(h: Hist, s: NodeState, j: NodeId)
    requires HistInv(h) && CandidateInv(h, s) && s.term !in h.reigns && (j in s.counted || j == s.id)
    ensures Elected(RecordReign(h, BecomeLeader(s)), s.term, j)
  {
    assert VotesFor(h, j, s);
    assert BallotInv(h, j, s.term);
  }

  lemma SortedSnoc(log: Log, e: Entry)
    requires Sorted(log) && Contiguous(log) && e.index == |log| + 1
    requires forall k :: 0 <= k < |log| ==> log[k].term <= e.term
    ensures Sorted(log + [e]) && Contiguous(log + [e])
  {
    forall a, b | 0 <= a < b < |log| + 1 ensures InOrder(log + [e], a, b) {
      if b < |log| { assert InOrder(log, a, b); }
    }
  }

  /** In a term whose voters include one that helped commit, the candidate's log ends in a term at least that new. */
  lemma WinnerIsCurrent(h: Hist, s: NodeState, t: Term, k: nat)
    requires HistInv(h) && NodeInv(h, s) && s.role == Candidate && s.votes >= Majority(|h.voters|)
    requires s.term !in h.reigns && (t, k) in h.commits && t < s.term
    ensures LastTerm(s.log) >= t
  {
    assert CommitInv(h, t, k);
    var j := QuorumsMeet(h.voters, AckHolders(h, t, k), s.counted + {s.id});
    assert VotesFor(h, j, s);
    assert BallotInv(h, j, s.term);
    var vlog := h.ballots[(j, s.term)].vlog;
    assert AckFirm(h, vlog, j, t, s.term - 1);
    assert FirmAt(h, vlog, t, k, s.term - 1);
    forall v | t < v < s.term && v in h.reigns ensures !Diverges(h, t, k, v) { LeaderCompleteness(h, t, k, v); }
  }

  /** A stale suffix is older than the commit of the prefix below it. */
  lemma StaleIsOlder(h: Hist, log: Log, c: nat, hi: Term, t: Term, k: nat)
    requires HistInv(h) && StaleLog(h, log, c, hi) && CommittedBy(h, log[..c], hi, t, k)
    ensures LastTerm(log) < t
  {
    assert StaleAt(h, log, c, |log| - 1);
    forall u | u in h.reigns && t < u ensures c <= |h.reigns[u].log| && h.reigns[u].log[..c] == log[..c] {
      LeaderCompleteness(h, t, k, u);
      assert h.reigns[u].log[..c] == h.reigns[t].log[..k][..c];
    }
  }

  /** So a candidate with a stale suffix does not win. */
  lemma WinnerRooted(h: Hist, s: NodeState)
    requires HistInv(h) && NodeInv(h, s) && s.role == Candidate && s.votes >= Majority(|h.voters|)
    requires s.term !in h.reigns
    ensures Rooted(h, s.log)
  {
    hide HistInv, Rooted, AcksHeld;
    if StaleNode(h, s) {
      var pre := s.log[..s.snapIndex];
      var t: Term, k: nat :| CommittedBy(h, pre, s.term, t, k);
      StaleIsOlder(h, s.log, s.snapIndex, s.term, t, k);
      WinnerIsCurrent(h, s, t, k);
    }
  }

  lemma NewReignInv(h: Hist, s: NodeState)
    requires HistInv(h) && NodeInv(h, s) && s.role == Candidate && s.votes >= Majority(|h.voters|)
    requires s.term !in h.reigns
    ensures var s' := BecomeLeader(s); var h' := RecordReign(h, s'); ReignInv(h', s.term) && Rooted(h', s'.log)
  {
    var s' := BecomeLeader(s);
    var h' := RecordReign(h, s');
    hide HistInv, LogInv, AcksHeld, Committed, Grows, PastTerms, OthersKept, AcksFresh, Elected, Rooted;
    WinGrows(h, s);
    WinnerRooted(h, s);
    RootedSorted(h, s.log);
    RunOf(h, s.id, s.term);
    forall j | j in s.counted + {s.id} ensures Elected(h', s.term, j) { WinnersElected(h, s, j); }
    SortedSnoc(s.log, Noop(s));
    RootedGrows(h, h', s.log);
    ExtendRooted(h', s.log, s'.log, s.term);
  }

  /** A log that grew to the whole log of a reign is still rooted. */
  lemma ExtendRooted(h: Hist, log: Log, log': Log, t: Term)
    requires Rooted(h, log) && log <= log' && t in h.reigns && h.reigns[t].log == log'
    requires forall k :: |log| <= k < |log'| ==> log'[k].term == t
    ensures Rooted(h, log')
  {
    forall k | 0 <= k < |log'| ensures RootedAt(h, log', k) {
      if k < |log| {
        assert RootedAt(h, log, k);
        assert log'[..k + 1] == log[..k + 1];
      }
    }
  }

  lemma WinItems(h: Hist, s: NodeState)
    requires HistInv(h) && NodeInv(h, s) && s.role == Candidate && s.votes >= Majority(|h.voters|)
    requires s.term !in h.reigns
    ensures NewItemsInv(h, RecordReign(h, BecomeLeader(s)))
  {
    hide HistInv, NodeInv;
    NewReignInv(h, s);
  }

  lemma WinLeader(h: Hist, s: NodeState)
    requires HistInv(h) && CandidateInv(h, s) && s.term !in h.reigns
    ensures var s' := BecomeLeader(s); LeaderInv(RecordReign(h, s'), s')
  {
    hide HistInv;
    var s' := BecomeLeader(s);
    var h' := RecordReign(h, s');
    NoReignNoCommit(h, s.term);
    assert VotesFor(h, s.id, s);
    assert VotesFor(h', s.id, s');
  }

  lemma WinCore(h: Hist, s: NodeState)
    requires HistInv(h) && CoreInv(h, s) && s.term !in h.reigns
    requires Rooted(RecordReign(h, BecomeLeader(s)), BecomeLeader(s).log)
    ensures var s' := BecomeLeader(s); CoreInv(RecordReign(h, s'), s')
  {
    hide HistInv, AcksHeld, Committed, Rooted;
    var s' := BecomeLeader(s);
    var h' := RecordReign(h, s');
    WinGrows(h, s);
    assert s.log[..s.synced] <= s'.log[..s'.synced];
    CoreGrows(h, h', s, s');
  }

  lemma WinNode(h: Hist, s: NodeState)
    requires HistInv(h) && NodeInv(h, s) && s.role == Candidate && s.votes >= Majority(|h.voters|)
    requires s.term !in h.reigns
    ensures var s' := BecomeLeader(s); NodeInv(RecordReign(h, s'), s')
  {
    hide HistInv, ReignInv, CoreInv, LeaderInv, CandidateInv, Rooted;
    NewReignInv(h, s);
    WinLeader(h, s);
    WinCore(h, s);
  }
}
