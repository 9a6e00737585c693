/** The leader's side: sending, extending its log and committing. */
module ClusterCommit {
  import opened Bytes
  import opened RaftTypes
  import opened RaftConf
  import opened NodeSpec
  import opened History
  import opened Cluster
  import opened ClusterInv
  import opened ClusterAppend
  import opened ClusterElection

  /** Two leader states that agree on everything the invariant of leaders mentions. */
  lemma LeaderSame(h: Hist, s: NodeState, s': NodeState)
    requires LeaderInv(h, s)
    requires s'.id == s.id && s'.term == s.term && s'.log == s.log && s'.commitIndex >= s.commitIndex
    requires forall p :: p in h.voters && p != s.id && Matched(h, s, p) ==> Matched(h, s', p)
    requires Get(s'.matchIndex, s.id) <= |s.log|
    ensures LeaderInv(h, s')
  {
    assert VotesFor(h, s.id, s);
    assert VotesFor(h, s.id, s');
  }

  lemma SyncInv(h: Hist, s: NodeState)
    requires HistInv(h) && NodeInv(h, s) && s.role == Leader
    ensures NodeInv(h, Sync(s))
  {
    hide HistInv, Rooted, AcksHeld, Committed;
    GrowsRefl(h);
    CoreGrows(h, h, s, Sync(s));
    assert forall p :: Matched(h, s, p) ==> Matched(h, Sync(s), p);
    LeaderSame(h, s, Sync(s));
  }

  lemma SentInv(h: Hist, s: NodeState, peer: NodeId)
    requires NodeInv(h, s) && s.role == Leader && CanSend(s, peer)
    ensures AppendInv(h, SendAppend(s, peer))
  {
    hide AcksHeld, Rooted, PastTerms;
    var r := SendAppend(s, peer);
    assert r.entries == s.log[r.prevIndex..r.prevIndex + |r.entries|];
  }

  // ---- Proposing ----

  lemma ProposeGrows(h: Hist, s: NodeState, data: Bytes)
    requires LeaderInv(h, s)
    ensures var h' := RecordLog(h, Propose(s, data));
            Grows(h, h') && OthersKept(h, h', s.id) && AcksFresh(h, h')
            && ReignGrows(h.reigns[s.term], h'.reigns[s.term], s.term)
  {
  }

  lemma ProposeReign(h: Hist, s: NodeState, data: Bytes)
    requires HistInv(h) && LeaderInv(h, s) && Rooted(h, s.log)
    ensures var s' := Propose(s, data); var h' := RecordLog(h, s');
            ReignInv(h', s.term) && Rooted(h', s'.log)
  {
    hide HistInv, Grows, OthersKept, AcksFresh, Elected;
    var s' := Propose(s, data);
    var h' := RecordLog(h, s');
    ReignOf(h, s.term);
    ProposeGrows(h, s, data);
    RootedGrows(h, h', s.log);
    ExtendRooted(h', s.log, s'.log, s.term);
    SortedSnoc(s.log, s'.log[|s.log|]);
    forall j | j in h.reigns[s.term].winners ensures Elected(h', s.term, j) { ElectedKept(h, h', s.term, j); }
  }

  lemma ElectedKept(h: Hist, h': Hist, t: Term, j: NodeId)
    requires Grows(h, h') && t in h.reigns && Elected(h, t, j)
    ensures Elected(h', t, j)
  {
    assert ReignGrows(h.reigns[t], h'.reigns[t], t);
  }

  lemma ProposeNode(h: Hist, s: NodeState, data: Bytes)
    requires HistInv(h) && NodeInv(h, s) && s.role == Leader
    ensures var s' := Propose(s, data); NodeInv(RecordLog(h, s'), s')
  {
    hide HistInv, ReignInv, Rooted, AcksHeld, Committed, OthersKept, AcksFresh, Matched;
    var s' := Propose(s, data);
    var h' := RecordLog(h, s');
    ProposeGrows(h, s, data);
    ProposeReign(h, s, data);
    assert s'.log[..s'.synced] == s.log[..s.synced];
    CoreGrows(h, h', s, s');
    assert VotesFor(h, s.id, s);
    assert VotesFor(h', s.id, s');
    forall p | p in h'.voters && p != s.id ensures Matched(h', s', p) { MatchedGrows(h, h', s, s', p); }
  }

  // ---- Committing ----

  lemma RaiseMatch(h: Hist, s: NodeState, p: NodeId, n: nat)
    requires NodeInv(h, s) && s.role == Leader && p != s.id && Vouched(h, p, s.term, n)
    ensures NodeInv(h, s.(matchIndex := Raise(s.matchIndex, p, n), nextIndex := Raise(s.nextIndex, p, n + 1)))
  {
    hide Rooted, AcksHeld, Committed, PastTerms;
    var s' := s.(matchIndex := Raise(s.matchIndex, p, n), nextIndex := Raise(s.nextIndex, p, n + 1));
    LeaderSame(h, s, s');
    assert CoreInv(h, s') by { CoreSame(h, s, s'); }
  }

  lemma CoreSame(h: Hist, s: NodeState, s': NodeState)
    requires CoreInv(h, s)
    requires s'.id == s.id && s'.voters == s.voters && s'.term == s.term && s'.log == s.log && s'.synced == s.synced
    requires s'.commitIndex == s.commitIndex && Bounds(s') && LogInv(h, s')
    ensures CoreInv(h, s')
  {
  }

  lemma BacktrackInv(h: Hist, s: NodeState, p: NodeId, a: AppendReply)
    requires NodeInv(h, s) && s.role == Leader
    ensures NodeInv(h, Backtrack(s, p, a))
  {
    hide Rooted, AcksHeld, Committed, PastTerms, ScanBack;
    var s' := Backtrack(s, p, a);
    assert forall q :: Matched(h, s, q) ==> Matched(h, s', q);
    LeaderSame(h, s, s');
    CoreSame(h, s, s');
  }

  /** The nodes whose match index reached m have acknowledged m entries, once the leader has too. */
  lemma QuorumAcked(h: Hist, s: NodeState, m: nat)
    requires HistInv(h) && LeaderInv(h, s) && s.voters == h.voters && s.commitIndex < m <= |s.log|
    requires s.log[m - 1].term == s.term && Conf(s).CanCommit(m, s.matchIndex)
    ensures var h' := AckUpTo(h, s.id, s.term, m); |AckHolders(h', s.term, m)| >= Majority(|h.voters|)
  {
    hide HistInv;
    var h' := AckUpTo(h, s.id, s.term, m);
    NotCovered(h, s, m);
    forall p | p in Holders(s.voters, s.matchIndex, m) ensures p in AckHolders(h', s.term, m) {
      if p != s.id {
        assert Matched(h, s, p);
        if Covered(h, s.term, Get(s.matchIndex, p)) { CoveredBelow(h, s.term, Get(s.matchIndex, p), m); }
      }
    }
    SubsetCard(Holders(s.voters, s.matchIndex, m), AckHolders(h', s.term, m));
  }

  lemma CoveredBelow(h: Hist, t: Term, n: nat, m: nat)
    requires Covered(h, t, n) && m <= n
    ensures Covered(h, t, m)
  {
    var u, k :| (u, k) in h.commits && u <= t && n <= k;
    assert (u, k) in h.commits && m <= k;
  }

  /** What a leader is about to commit in its own term has not been committed before. */
  lemma NotCovered(h: Hist, s: NodeState, m: nat)
    requires HistInv(h) && LeaderInv(h, s) && s.commitIndex < m <= |s.log| && s.log[m - 1].term == s.term
    ensures !Covered(h, s.term, m)
  {
    forall u, k | (u, k) in h.commits && u <= s.term ensures k < m {
      if u < s.term {
        LeaderCompleteness(h, u, k, s.term);
        assert ReignInv(h, u);
        assert forall x :: 0 <= x < k ==> s.log[x] == h.reigns[u].log[..k][x] && s.log[x].term <= u;
      }
    }
  }

  lemma CommitGrows(h: Hist, s: NodeState, s': NodeState)
    requires PastTerms(h, s) && LeaderInv(h, s) && s'.id == s.id && s'.term == s.term
    ensures var h' := RecordCommit(h, s');
            Grows(h, h') && OthersKept(h, h', s.id) && AcksFresh(h, h')
  {
    AckUpToGrows(h, s, s'.commitIndex);
  }

  lemma CommitItems(h: Hist, s: NodeState, m: nat)
    requires HistInv(h) && LeaderInv(h, s) && s.voters == h.voters && s.commitIndex < m <= |s.log|
    requires s.log[m - 1].term == s.term && Conf(s).CanCommit(m, s.matchIndex)
    ensures NewItemsInv(h, RecordCommit(h, Sync(s).(commitIndex := m)))
  {
    hide HistInv, Holders;
    var h' := RecordCommit(h, Sync(s).(commitIndex := m));
    QuorumAcked(h, s, m);
    var h1 := AckUpTo(h, s.id, s.term, m);
    assert AckHolders(h', s.term, m) == AckHolders(h1, s.term, m);
    assert CommitInv(h', s.term, m);
  }

  lemma AcksGrowWithCommits(h: Hist, h': Hist, s: NodeState, s': NodeState)
    requires s.synced <= |s.log| && AcksHeld(h, s) && h' == h.(commits := h'.commits)
    requires s'.id == s.id && s'.term == s.term && s'.log == s.log && s'.synced == s.synced
    ensures AcksHeld(h', s')
  {
    var log := s.log[..s.synced];
    forall t | (s.id, t) in h'.acks ensures AckInv(h', log, s.id, t, s.term) {
      assert AckInv(h, log, s.id, t, s.term);
      forall k | 0 < k <= h'.acks[(s.id, t)] ensures Held(h', log, t, k, s.term) {
        assert Held(h, log, t, k, s.term);
        if !(h.reigns[t].log[..k] <= log) {
          var u :| t < u <= s.term && Diverges(h, t, k, u);
          assert Diverges(h', t, k, u);
        }
      }
    }
  }

  lemma RootedSameReigns(h: Hist, h': Hist, log: Log)
    requires Rooted(h, log) && h'.reigns == h.reigns
    ensures Rooted(h', log)
  {
    forall k | 0 <= k < |log| ensures RootedAt(h', log, k) { assert RootedAt(h, log, k); }
  }

  lemma CommitNode(h: Hist, s: NodeState, m: nat)
    requires HistInv(h) && NodeInv(h, s) && s.role == Leader && s.commitIndex < m <= |s.log|
    ensures var s' := Sync(s).(commitIndex := m); NodeInv(RecordCommit(h, s'), s')
  {
    hide HistInv, Rooted, AcksHeld;
    var s1, s' := Sync(s), Sync(s).(commitIndex := m);
    var h1, h' := AckUpTo(h, s.id, s.term, m), RecordCommit(h, s');
    SyncInv(h, s);
    assert s1.log[..s1.synced] == s1.log;
    assert h.reigns[s.term].log[..m] <= s1.log;
    AckUpToInv(h, s1, m);
    AcksGrowWithCommits(h1, h', s1, s');
    RootedSameReigns(h1, h', s'.log);
    assert CommittedBy(h', s'.log[..m], s.term, s.term, m);
    assert VotesFor(h1, s.id, s1);
    assert VotesFor(h', s.id, s');
    forall p | p in h'.voters && p != s.id ensures Matched(h', s', p) { assert Matched(h1, s1, p); }
  }
}
