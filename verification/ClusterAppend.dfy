/** Replication: a follower accepting entries keeps the cluster's invariant. */
module ClusterAppend {
  import opened RaftTypes
  import opened NodeSpec
  import opened History
  import opened Cluster
  import opened ClusterInv

  lemma GrowsRefl(h: Hist)
    ensures Grows(h, h)
  {
  }

  lemma ReignOf(h: Hist, t: Term)
    requires HistInv(h) && t in h.reigns
    ensures ReignInv(h, t)
  {
  }

  /** What a node knows to be committed is in the log of every leader of its term or later. */
  lemma CommittedInReign(h: Hist, pre: Log, hi: Term, t: Term)
    requires HistInv(h) && Committed(h, pre, hi) && hi <= t && t in h.reigns
    ensures pre <= h.reigns[t].log
  {
    hide HistInv;
    if pre != [] {
      var u: Term, k: nat :| CommittedBy(h, pre, hi, u, k);
      if u < t { LeaderCompleteness(h, u, k, t); }
    }
  }

  /** Stepping down for a higher term fsyncs the log and forgets the vote. */
  lemma StepDownInv(h: Hist, s: NodeState, t: Term)
    requires HistInv(h) && NodeInv(h, s) && (t > s.term || s.role != Leader)
    ensures NodeInv(h, StepDown(s, t))
  {
    hide HistInv, Rooted, Committed, AckInv, StaleNode;
    var s' := StepDown(s, t);
    GrowsRefl(h);
    if !Rooted(h, s.log) { StaleRoleSame(h, s); StaleNodeGrows(h, h, s, s'); }
    CommittedGrows(h, h, s.log[..s.commitIndex], s.log[..s.commitIndex], s.term, s'.term);
    forall u | (s.id, u) in h.acks ensures AckInv(h, s'.log[..s'.synced], s.id, u, s'.term) {
      assert s.log[..s.synced] <= s'.log[..s'.synced];
      AckGrows(h, h, s.log[..s.synced], s'.log[..s'.synced], s.id, u, s.term, s'.term);
    }
  }

  /** No leader hears from another leader of its own term. */
  lemma AcceptTermInv(h: Hist, s: NodeState, term: Term, leader: NodeId)
    requires HistInv(h) && NodeInv(h, s) && term in h.reigns && leader == h.reigns[term].leader
    requires term >= s.term && leader != s.id
    ensures var s1 := AcceptTerm(s, term, leader);
            NodeInv(h, s1) && s1.term == term && s1.role == Follower && s1.log == s.log && s1.id == s.id
            && s1.snapIndex == s.snapIndex
  {
    StepDownInv(h, s, term);
    var s0 := if term > s.term || s.role != Follower then StepDown(s, term) else s;
    LeaderIdIrrelevant(h, s0, leader);
  }

  lemma StaleRoleSame(h: Hist, s: NodeState)
    requires StaleNode(h, s)
    ensures s.role != Leader && s.commitIndex == s.snapIndex && 0 < s.snapIndex < |s.log|
  {
  }

  lemma LeaderIdIrrelevant(h: Hist, s: NodeState, l: NodeId)
    requires NodeInv(h, s)
    ensures NodeInv(h, s.(leaderId := l))
  {
    var s' := s.(leaderId := l);
    assert forall j :: VotesFor(h, j, s) ==> VotesFor(h, j, s');
    assert forall p :: Matched(h, s, p) ==> Matched(h, s', p);
  }

  /** Whether or not its suffix is stale, a node's log ends no earlier than what it acknowledged. */
  lemma NodeFirm(h: Hist, s: NodeState, u: Term)
    requires HistInv(h) && NodeInv(h, s) && (s.id, u) in h.acks
    ensures AckInv(h, s.log[..s.synced], s.id, u, s.term) && AckFirm(h, s.log, s.id, u, s.term)
  {
    hide HistInv, Rooted, Committed;
    if Rooted(h, s.log) {
      GrowsRefl(h);
      forall k | 0 < k <= h.acks[(s.id, u)] ensures FirmAt(h, s.log, u, k, s.term) {
        assert Held(h, s.log[..s.synced], u, k, s.term);
        HeldGrows(h, h, s.log[..s.synced], s.log, u, k, s.term, s.term);
        RootedFirm(h, s.log, u, k, s.term);
      }
    }
  }

  ghost predicate AgreeAt(mine: Log, log: Log, x: nat)
    requires x < |mine|
  {
    x < |log| && mine[x].term == log[x].term ==> mine[..x + 1] == log[..x + 1]
  }

  /** Above `from`, an entry of the same term as the leader's comes with everything before it. */
  ghost predicate Agrees(mine: Log, log: Log, from: nat) {
    forall x :: from <= x < |mine| ==> AgreeAt(mine, log, x)
  }

  lemma RootedAgrees(h: Hist, mine: Log, log: Log, from: nat)
    requires Rooted(h, mine) && Rooted(h, log)
    ensures Agrees(mine, log, from)
  {
    forall x | from <= x < |mine| ensures AgreeAt(mine, log, x) {
      if x < |log| && mine[x].term == log[x].term { LogMatching(h, mine, log, x); }
    }
  }

  /** Also where the node has a stale suffix: it then has no entry of the same term. */
  lemma LogAgrees(h: Hist, s: NodeState, t: Term)
    requires HistInv(h) && NodeInv(h, s) && s.term <= t && t in h.reigns
    ensures Agrees(s.log, h.reigns[t].log, s.snapIndex)
    ensures !Rooted(h, s.log) ==>
              forall x :: s.snapIndex <= x < |s.log| && x < |h.reigns[t].log| ==>
                s.log[x].term != h.reigns[t].log[x].term
  {
    hide HistInv, Rooted, Committed, AcksHeld, PastTerms;
    ReignOf(h, t);
    var log, c := h.reigns[t].log, s.snapIndex;
    if Rooted(h, s.log) {
      RootedAgrees(h, s.log, log, c);
    } else {
      CommittedInReign(h, s.log[..c], s.term, t);
      forall x | c <= x < |s.log| && x < |log| ensures s.log[x].term != log[x].term {
        assert StaleAt(h, s.log, c, x);
        StaleMismatch(h, s.log, c, x, log);
      }
    }
  }

  /** A follower that passes the consistency check agrees with the leader up to prevIndex. */
  lemma PrefixAgrees(h: Hist, s: NodeState, r: AppendRequest)
    requires HistInv(h) && NodeInv(h, s) && AppendInv(h, r) && s.term <= r.term && Consistent(s, r)
    ensures s.log[..r.prevIndex] == h.reigns[r.term].log[..r.prevIndex]
    ensures s.log[..s.commitIndex] <= h.reigns[r.term].log
  {
    hide HistInv, Rooted, Committed, AcksHeld, PastTerms;
    var log, p := h.reigns[r.term].log, r.prevIndex;
    CommittedInReign(h, s.log[..s.commitIndex], s.term, r.term);
    if p <= s.snapIndex {
      assert s.log[..p] == s.log[..s.commitIndex][..p];
    } else {
      LogAgrees(h, s, r.term);
      assert AgreeAt(s.log, log, p - 1);
    }
  }

  /** FirstNew stops exactly where the follower's log first departs from the leader's. */
  lemma {:induction false} FirstNewSpec(mine: Log, snap: nat, log: Log, prev: nat, entries: Log, i: nat)
    requires Agrees(mine, log, snap)
    requires prev + |entries| <= |log| && entries == log[prev..prev + |entries|]
    requires snap <= |mine| && mine[..snap] <= log
    requires i <= |entries| && prev + i <= |mine| && mine[..prev + i] == log[..prev + i]
    ensures var f := FirstNew(mine, snap, prev, entries, i);
            var p := prev + f;
            && i <= f <= |entries| && p <= |mine|
            && mine[..p] == log[..p]
            && (f < |entries| ==> snap <= p)
            && (f < |entries| ==> p == |mine| || mine[p].term != log[p].term)
    decreases |entries| - i
  {
    var q := prev + i;
    if i < |entries| {
      assert entries[i] == log[q];
      if q + 1 <= snap {
        assert mine[..q + 1] == mine[..snap][..q + 1] == log[..q + 1];
        FirstNewSpec(mine, snap, log, prev, entries, i + 1);
      } else if q + 1 <= |mine| && mine[q].term == entries[i].term {
        assert AgreeAt(mine, log, q);
        FirstNewSpec(mine, snap, log, prev, entries, i + 1);
      }
    }
  }

  /**
   * Replacing the log from p on by the leader's entries drops an acknowledged prefix only
   * if the leader of that later term does not have the prefix.
   */
  lemma OverwriteKeepsAck(h: Hist, s: NodeState, t: Term, p: nat, log': Log, u: Term)
    requires HistInv(h) && t in h.reigns && s.term <= t && s.synced == |s.log| && u <= s.term
    requires p <= |s.log| && s.log[..p] <= log'
    requires p == |s.log| || (p < |h.reigns[t].log| && s.log[p].term != h.reigns[t].log[p].term)
    requires (s.id, u) in h.acks && AckInv(h, s.log[..s.synced], s.id, u, s.term)
    ensures AckInv(h, log', s.id, u, t)
  {
    hide HistInv;
    assert s.log[..s.synced] == s.log;
    forall k | 0 < k <= h.acks[(s.id, u)] ensures Held(h, log', u, k, t) {
      var prefix := h.reigns[u].log[..k];
      assert Held(h, s.log[..s.synced], u, k, s.term);
      if prefix <= s.log {
        if k <= p {
          assert prefix <= s.log[..p];
        } else {
          assert prefix[p] == s.log[p];
          assert u != t;
          assert Diverges(h, u, k, t);
        }
      } else {
        var v :| u < v <= s.term && Diverges(h, u, k, v);
        assert v <= t;
      }
    }
  }

  lemma OverwriteKeepsAcks(h: Hist, s: NodeState, t: Term, p: nat, log': Log)
    requires HistInv(h) && t in h.reigns && s.term <= t && s.synced == |s.log|
    requires p <= |s.log| && s.log[..p] <= log'
    requires p == |s.log| || (p < |h.reigns[t].log| && s.log[p].term != h.reigns[t].log[p].term)
    requires AcksHeld(h, s) && PastTerms(h, s)
    ensures forall u :: (s.id, u) in h.acks ==> AckInv(h, log', s.id, u, t)
  {
    hide HistInv;
    forall u | (s.id, u) in h.acks ensures AckInv(h, log', s.id, u, t) {
      OverwriteKeepsAck(h, s, t, p, log', u);
    }
  }

  lemma OverwriteIs(mine: Log, log: Log, prev: nat, entries: Log, f: nat)
    requires prev + |entries| <= |log| && entries == log[prev..prev + |entries|]
    requires f <= |entries| && prev + f <= |mine| && mine[..prev + f] == log[..prev + f]
    ensures var n, log' := prev + |entries|, Overwrite(mine, prev, entries, f);
            && (f == |entries| ==> log' == mine)
            && (f < |entries| ==> log' == log[..n])
            && n <= |log'| && log'[..n] == log[..n]
  {
    var p, n := prev + f, prev + |entries|;
    assert entries[f..] == log[p..n];
    assert log[..p] + log[p..n] == log[..n];
  }

  /** The merged log in terms of the leader's: p is where the two first differ. */
  lemma MergeIs(mine: Log, snap: nat, ci: nat, log: Log, prev: nat, entries: Log) returns (f: nat, p: nat)
    requires Agrees(mine, log, snap) && snap <= ci <= |mine| && mine[..ci] <= log
    requires prev <= |mine| && prev + |entries| <= |log| && mine[..prev] == log[..prev]
    requires entries == log[prev..prev + |entries|]
    ensures f == FirstNew(mine, snap, prev, entries, 0) && p == prev + f && p <= |mine|
    ensures var n, log' := prev + |entries|, Merge(mine, snap, prev, entries);
            && mine[..p] == log[..p]
            && (f == |entries| ==> log' == mine && p == n)
            && (f < |entries| ==> log' == log[..n] && ci <= p < n && (p == |mine| || mine[p].term != log[p].term))
            && n <= |log'| && log'[..n] == log[..n]
  {
    hide Agrees;
    assert mine[..snap] == mine[..ci][..snap];
    FirstNewSpec(mine, snap, log, prev, entries, 0);
    f := FirstNew(mine, snap, prev, entries, 0);
    p := prev + f;
    OverwriteIs(mine, log, prev, entries, f);
    assert forall x :: 0 <= x < ci ==> mine[x] == mine[..ci][x] == log[x];
  }

  ghost predicate Follows(h: Hist, s: NodeState, r: AppendRequest) {
    HistInv(h) && NodeInv(h, s) && AppendInv(h, r) && s.term == r.term && s.role == Follower && Consistent(s, r)
  }

  /** The log after accepting, in terms of the leader's log; p is where the follower's first departed from it. */
  ghost predicate AcceptsAs(s: NodeState, log: Log, r: AppendRequest, f: nat, p: nat) {
    && f == FirstNew(s.log, s.snapIndex, r.prevIndex, r.entries, 0) && p == r.prevIndex + f
    && p <= |s.log| && p <= |log| && s.log[..p] == log[..p]
    && var n, log' := r.prevIndex + |r.entries|, Accept(s, r).log;
    && n <= |log'| && n <= |log| && log'[..n] == log[..n]
    && (f == |r.entries| ==> log' == s.log && p == n)
    && (f < |r.entries| ==>
          log' == log[..n] && s.commitIndex <= p < n && (p == |s.log| || s.log[p].term != log[p].term))
  }

  lemma AcceptedLog(h: Hist, s: NodeState, r: AppendRequest) returns (f: nat, p: nat)
    requires Follows(h, s, r)
    ensures AcceptsAs(s, h.reigns[r.term].log, r, f, p)
  {
    hide HistInv;
    LogAgrees(h, s, r.term);
    PrefixAgrees(h, s, r);
    hide *;
    f, p := AcceptedMerge(h, s, r);
  }

  lemma AcceptedMerge(h: Hist, s: NodeState, r: AppendRequest) returns (f: nat, p: nat)
    requires Follows(h, s, r)
    requires s.log[..r.prevIndex] == h.reigns[r.term].log[..r.prevIndex]
    requires s.log[..s.commitIndex] <= h.reigns[r.term].log
    requires Agrees(s.log, h.reigns[r.term].log, s.snapIndex)
    ensures AcceptsAs(s, h.reigns[r.term].log, r, f, p)
  {
    hide HistInv, Rooted, Agrees, Committed, AcksHeld, PastTerms;
    f, p := MergeIs(s.log, s.snapIndex, s.commitIndex, h.reigns[r.term].log, r.prevIndex, r.entries);
  }

  /** A node with a stale suffix accepts without writing only what lies below the suffix. */
  lemma StaleCovers(h: Hist, s: NodeState, r: AppendRequest, f: nat, p: nat)
    requires Follows(h, s, r) && !Rooted(h, s.log) && AcceptsAs(s, h.reigns[r.term].log, r, f, p) && f == |r.entries|
    ensures p <= s.snapIndex
  {
    hide HistInv, Rooted, Committed, Consistent, AcksHeld, PastTerms, FirstNew, Overwrite;
    var log := h.reigns[r.term].log;
    LogAgrees(h, s, r.term);
    if p > 0 { assert s.log[p - 1] == s.log[..p][p - 1] == log[..p][p - 1] == log[p - 1]; }
  }

  lemma AcceptBounds(h: Hist, s: NodeState, r: AppendRequest)
    requires Follows(h, s, r)
    ensures Bounds(Accept(s, r)) && LogInv(h, Accept(s, r))
  {
    hide HistInv, Rooted, Committed, Consistent, AcksHeld, PastTerms, FirstNew, Overwrite, StaleNode;
    var f, p := AcceptedLog(h, s, r);
    var log, n := h.reigns[r.term].log, r.prevIndex + |r.entries|;
    ReignOf(h, r.term);
    RootedPrefix(h, log, log[..n]);
    if f == |r.entries| && !Rooted(h, s.log) {
      StaleCovers(h, s, r, f, p);
      StaleRoleSame(h, s);
      GrowsRefl(h);
      StaleNodeGrows(h, h, s, Accept(s, r));
    }
  }

  lemma AcceptCommitted(h: Hist, s: NodeState, r: AppendRequest)
    requires Follows(h, s, r)
    ensures var s' := Accept(s, r);
            s'.commitIndex <= |s'.log| && Committed(h, s'.log[..s'.commitIndex], s'.term)
  {
    hide HistInv, Rooted, LogInv, AcksHeld, PastTerms, FirstNew, Overwrite;
    var f, p := AcceptedLog(h, s, r);
    var s', log, n := Accept(s, r), h.reigns[r.term].log, r.prevIndex + |r.entries|;
    var c := s'.commitIndex;
    if c > s.commitIndex {
      assert c <= n && c <= r.commit;
      assert s'.log[..c] == s'.log[..n][..c] == log[..n][..c] == log[..c];
      GrowsRefl(h);
      CommittedGrows(h, h, log[..r.commit], log[..c], r.term, r.term);
    } else if f < |r.entries| {
      assert s'.log[..c] == log[..n][..c] == log[..p][..c] == s.log[..p][..c] == s.log[..c];
    }
  }

  lemma AcceptInv(h: Hist, s: NodeState, r: AppendRequest)
    requires Follows(h, s, r)
    ensures NodeInv(h, Accept(s, r))
    ensures h.reigns[r.term].log[..r.prevIndex + |r.entries|] <= Accept(s, r).log
  {
    hide HistInv, LogInv, Committed, Consistent, AckInv, FirstNew, Overwrite;
    AcceptBounds(h, s, r);
    AcceptCommitted(h, s, r);
    var f, p := AcceptedLog(h, s, r);
    var s' := Accept(s, r);
    assert s'.log[..s'.synced] == s'.log;
    if f == |r.entries| {
      assert s.log[..s.synced] == s'.log[..s'.synced];
    } else {
      assert s.log[..p] <= s'.log;
      OverwriteKeepsAcks(h, s, r.term, p, s'.log);
    }
  }

  lemma AckUpToGrows(h: Hist, s: NodeState, n: nat)
    requires PastTerms(h, s)
    ensures var h' := AckUpTo(h, s.id, s.term, n);
            && Grows(h, h') && OthersKept(h, h', s.id) && AcksFresh(h, h') && NewItemsInv(h, h')
            && Acked(h', s.id, s.term, n)
  {
  }

  lemma AckUpToHeld(h: Hist, s: NodeState, n: nat)
    requires HistInv(h) && PastTerms(h, s) && s.synced <= |s.log| && AcksHeld(h, s) && s.term in h.reigns
    requires n <= |h.reigns[s.term].log| && h.reigns[s.term].log[..n] <= s.log[..s.synced]
    ensures AcksHeld(AckUpTo(h, s.id, s.term, n), s)
  {
    hide HistInv;
    var h' := AckUpTo(h, s.id, s.term, n);
    AckUpToGrows(h, s, n);
    var log := s.log[..s.synced];
    forall u | (s.id, u) in h'.acks ensures AckInv(h', log, s.id, u, s.term) {
      if u == s.term {
        forall k | 0 < k <= h'.acks[(s.id, u)] ensures Held(h', log, u, k, s.term) {
          if k <= n {
            assert h.reigns[u].log[..k] <= h.reigns[u].log[..n];
          } else {
            assert AckInv(h, log, s.id, u, s.term);
            HeldGrows(h, h', log, log, u, k, s.term, s.term);
          }
        }
      } else {
        AckGrows(h, h', log, log, s.id, u, s.term, s.term);
      }
    }
  }

  /** Acknowledging n entries to the leader of the node's term, with those entries on disk. */
  lemma AckUpToInv(h: Hist, s: NodeState, n: nat)
    requires HistInv(h) && NodeInv(h, s) && s.term in h.reigns && Rooted(h, s.log)
    requires n <= |h.reigns[s.term].log| && h.reigns[s.term].log[..n] <= s.log[..s.synced]
    ensures NodeInv(AckUpTo(h, s.id, s.term, n), s)
  {
    hide HistInv, AcksHeld, Rooted, Committed, OthersKept, AcksFresh, NewItemsInv, Matched;
    var h' := AckUpTo(h, s.id, s.term, n);
    AckUpToGrows(h, s, n);
    AckUpToHeld(h, s, n);
    RootedGrows(h, h', s.log);
    CommittedGrows(h, h', s.log[..s.commitIndex], s.log[..s.commitIndex], s.term, s.term);
    assert forall j :: VotesFor(h, j, s) ==> VotesFor(h', j, s);
    if s.role == Leader {
      forall p | p in h'.voters && p != s.id ensures Matched(h', s, p) { MatchedGrows(h, h', s, s, p); }
    }
  }
}
