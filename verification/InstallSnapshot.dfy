/**
 * HandleInstallSnapshot (raft/node.go) keeps every entry above the snapshot without comparing
 * terms, where section 7 of the extended Raft paper discards the log unless it has the
 * snapshot's last entry. This module shows exactly when the result is a log of leaders' entries,
 * and that the stale suffix it leaves otherwise does no harm: the cluster's invariant is kept.
 * StaleSuffix has a run that leaves one.
 */
module InstallSnapshot {
  import opened RaftTypes
  import opened NodeSpec
  import opened History
  import opened ClusterInv
  import opened ClusterAppend

  /** The installed log goes back to leaders' logs if and only if the retained suffix matches. */
  lemma InstalledRootedIff(h: Hist, log: Log, r: SnapRequest)
    requires Rooted(h, log) && Rooted(h, r.prefix) && |r.prefix| == r.lastIndex && r.lastTerm == LastTerm(r.prefix)
    ensures Rooted(h, InstalledLog(log, r)) <==> SuffixMatches(log, r)
  {
    var n, log' := r.lastIndex, InstalledLog(log, r);
    if |log| <= n {
      assert log' == r.prefix;
    } else if n == 0 {
      assert log' == log;
    } else if log[n - 1].term == r.lastTerm {
      LogMatching(h, log, r.prefix, n - 1);
      assert log' == log;
    } else {
      assert log'[n] == log[n];
      assert log[n - 1] == log[..n + 1][n - 1] && log'[n - 1] == log'[..n + 1][n - 1];
      if Rooted(h, log') {
        // The first retained entry vouches for everything before it, in both logs.
        LogMatching(h, log, log', n);
      }
    }
  }

  // ---- Installing keeps the invariant ----

  /** A follower of the snapshot's term, and a snapshot newer than its last. */
  ghost predicate Installs(h: Hist, s: NodeState, r: SnapRequest) {
    && HistInv(h) && NodeInv(h, s) && SnapInv(h, r)
    && s.term == r.term && s.role == Follower && r.lastIndex > s.snapIndex
  }

  /** The snapshot goes back to the leader's log, and the follower's log agrees with it up to its own. */
  lemma SnapshotRooted(h: Hist, s: NodeState, r: SnapRequest)
    requires Installs(h, s, r)
    ensures Rooted(h, r.prefix) && s.log[..s.snapIndex] == r.prefix[..s.snapIndex]
    ensures forall k :: 0 <= k < |r.prefix| ==> r.prefix[k].term <= s.term
  {
    hide HistInv, Rooted, LogInv, AcksHeld, PastTerms;
    ReignOf(h, r.term);
    RootedPrefix(h, h.reigns[r.term].log, r.prefix);
    CommittedInReign(h, s.log[..s.commitIndex], s.term, r.term);
    var c := s.snapIndex;
    assert s.log[..c] == s.log[..s.commitIndex][..c] == h.reigns[r.term].log[..c] == r.prefix[..c];
  }

  /** Replacing a log that ends at or below the snapshot by the snapshot's entries. */
  lemma ReplaceKeepsAcks(h: Hist, s: NodeState, r: SnapRequest)
    requires Installs(h, s, r) && |s.log| <= r.lastIndex
    ensures forall u :: (s.id, u) in h.acks ==> AckInv(h, r.prefix, s.id, u, s.term)
  {
    hide HistInv, LogInv, AckInv, Committed, Rooted;
    SnapshotRooted(h, s, r);
    LogAgrees(h, s, r.term);
    var reign, p := h.reigns[r.term].log, CommonPrefix(s.log, r.prefix);
    assert forall x :: 0 <= x < s.snapIndex ==> s.log[x] == s.log[..s.snapIndex][x] == r.prefix[x];
    if p < |s.log| {
      assert AgreeAt(s.log, reign, p);
      assert s.log[p] == s.log[..p + 1][p] && reign[p] == reign[..p + 1][p];
    }
    OverwriteKeepsAcks(h, s, r.term, p, r.prefix);
  }

  /** A suffix that matches is the log's own continuation of the snapshot, in a log that is not stale. */
  lemma MatchedSuffix(h: Hist, s: NodeState, r: SnapRequest)
    requires Installs(h, s, r) && |s.log| > r.lastIndex && s.log[r.lastIndex - 1].term == r.lastTerm
    ensures Rooted(h, s.log) && s.log[..r.lastIndex] == r.prefix
  {
    hide HistInv, Committed, AcksHeld, PastTerms, Rooted;
    var n := r.lastIndex;
    SnapshotRooted(h, s, r);
    if Rooted(h, s.log) {
      LogMatching(h, s.log, r.prefix, n - 1);
    } else {
      assert StaleAt(h, s.log, s.snapIndex, n - 1);
      StaleMismatch(h, s.log, s.snapIndex, n - 1, r.prefix);
    }
  }

  /** Otherwise what is kept above the snapshot is stale: its leaders did not have the snapshot's entries. */
  lemma KeptIsStale(h: Hist, s: NodeState, r: SnapRequest)
    requires Installs(h, s, r) && |s.log| > r.lastIndex && s.log[r.lastIndex - 1].term != r.lastTerm
    ensures StaleLog(h, InstalledLog(s.log, r), r.lastIndex, s.term)
  {
    hide HistInv, Committed, AcksHeld, PastTerms;
    var n, c, log, log' := r.lastIndex, s.snapIndex, s.log, InstalledLog(s.log, r);
    SnapshotRooted(h, s, r);
    assert log'[..n] == r.prefix;
    forall x | n <= x < |log'| ensures StaleAt(h, log', n, x) {
      assert log'[x] == log[x];
      if Rooted(h, log) {
        assert RootedAt(h, log, x);
        var reign := h.reigns[log[x].term].log;
        assert reign[..n] == reign[..x + 1][..n] == log[..x + 1][..n] == log[..n];
        assert reign[x] == reign[..x + 1][x] == log[..x + 1][x];
        assert log[..n][n - 1] != r.prefix[n - 1];
      } else {
        assert StaleAt(h, log, c, x);
        var reign := h.reigns[log[x].term].log;
        assert reign[..c] == reign[..n][..c] && log[..c] == log'[..n][..c];
      }
    }
  }

  /** A reign that lacks part of what the node acknowledged to an earlier one stands behind the snapshot. */
  lemma KeptOrDiverged(h: Hist, s: NodeState, r: SnapRequest, t: Term, k: nat)
    requires HistInv(h) && SnapInv(h, r) && s.term == r.term && 0 < r.lastIndex < |s.log|
    requires s.log[..r.lastIndex] != r.prefix
    requires t in h.reigns && k <= |h.reigns[t].log| && Held(h, s.log, t, k, s.term)
    ensures Held(h, InstalledLog(s.log, r), t, k, s.term)
  {
    hide HistInv;
    var mine := h.reigns[t].log[..k];
    if mine <= s.log {
      var u: Term, m: nat :| CommittedBy(h, r.prefix, r.term, u, m);
      if u <= t {
        if u < t { LeaderCompleteness(h, u, m, t); }
        assert r.prefix == h.reigns[u].log[..m][..r.lastIndex];
        PrefixKept(mine, s.log, r.prefix, h.reigns[t].log);
      } else if mine <= h.reigns[u].log {
        PrefixKept(mine, s.log, r.prefix, h.reigns[u].log);
      } else {
        assert Diverges(h, t, k, u);
      }
    }
  }

  /** What a log shares with a log that has the snapshot's entries, it shares with the snapshot. */
  lemma PrefixKept(mine: Log, log: Log, prefix: Log, good: Log)
    requires mine <= log && mine <= good && prefix <= good && |prefix| < |log| && log[..|prefix|] != prefix
    ensures mine <= prefix
  {
  }

  lemma StaleInstall(h: Hist, s: NodeState, r: SnapRequest)
    requires Installs(h, s, r) && |s.log| > r.lastIndex && s.log[r.lastIndex - 1].term != r.lastTerm
    ensures CoreInv(h, Install(s, r))
  {
    hide HistInv, Committed, LogInv, Rooted;
    var s', n := Install(s, r), r.lastIndex;
    SnapshotRooted(h, s, r);
    KeptIsStale(h, s, r);
    assert s'.log[..n] == r.prefix && s'.log[..s'.synced] == s'.log && s.log[..s.synced] == s.log;
    assert s.log[..n][n - 1] != r.prefix[n - 1];
    assert LastTerm(s'.log) == LastTerm(s.log);
    forall t | (s.id, t) in h.acks
      ensures AckInv(h, s'.log, s.id, t, s.term) && AckFirm(h, s'.log, s.id, t, s.term)
    {
      NodeFirm(h, s, t);
      forall k | 0 < k <= h.acks[(s.id, t)] ensures Held(h, s'.log, t, k, s.term) && FirmAt(h, s'.log, t, k, s.term) {
        assert Held(h, s.log, t, k, s.term) && FirmAt(h, s.log, t, k, s.term);
        KeptOrDiverged(h, s, r, t, k);
      }
    }
    assert StaleNode(h, s');
    assert LogInv(h, s') by { StaleIsLog(h, s'); }
  }

  lemma StaleIsLog(h: Hist, s: NodeState)
    requires StaleNode(h, s)
    ensures LogInv(h, s)
  {
  }

  lemma InstallCore(h: Hist, s: NodeState, r: SnapRequest)
    requires Installs(h, s, r)
    ensures CoreInv(h, Install(s, r)) && r.prefix <= Install(s, r).log
  {
    hide HistInv, AckInv, Committed, Rooted;
    var s', n := Install(s, r), r.lastIndex;
    if |s.log| > n && s.log[n - 1].term != r.lastTerm {
      StaleInstall(h, s, r);
    } else {
      SnapshotRooted(h, s, r);
      assert s'.log[..s'.synced] == s'.log && s.log[..s.synced] == s.log;
      if |s.log| > n {
        MatchedSuffix(h, s, r);
        assert s'.log == s.log;
      } else {
        ReplaceKeepsAcks(h, s, r);
        assert s'.log == r.prefix;
      }
      assert s'.log[..n] == r.prefix;
    }
  }

  /** Whatever the suffix, installing keeps the node's invariant, and the log then has what the snapshot stands for. */
  lemma InstallInv(h: Hist, s: NodeState, r: SnapRequest)
    requires HistInv(h) && NodeInv(h, s) && SnapInv(h, r) && s.term == r.term && s.role == Follower
    ensures NodeInv(h, Install(s, r)) && Install(s, r).id == s.id
    ensures r.prefix <= Install(s, r).log
  {
    hide HistInv, CoreInv, SnapInv;
    if r.lastIndex > s.snapIndex {
      InstallCore(h, s, r);
    } else {
      OldSnapshot(h, s, r);
    }
  }

  /** What an old snapshot stands for is already in the log. */
  lemma OldSnapshot(h: Hist, s: NodeState, r: SnapRequest)
    requires HistInv(h) && NodeInv(h, s) && SnapInv(h, r) && s.term == r.term && r.lastIndex <= s.snapIndex
    ensures r.prefix <= s.log
  {
    hide HistInv, LogInv, AcksHeld;
    CommittedInReign(h, s.log[..s.commitIndex], s.term, r.term);
    assert s.log[..s.commitIndex][..r.lastIndex] == r.prefix;
  }
}
