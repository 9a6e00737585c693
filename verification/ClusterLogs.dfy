/**
 * What logs look like in every run. Log Matching and sortedness fail where a node holds entries above a
 * snapshot that does not lead to them. This module says exactly when that is so, in terms of
 * the steps of the run, and proves both properties of every node that is not in that position.
 */
module ClusterLogs {
  import opened RaftTypes
  import opened RaftConfCode
  import opened NodeSpec
  import opened History
  import opened Cluster
  import opened ClusterInv
  import opened ClusterAppend
  import opened ClusterSteps
  import opened ClusterSafety
  import opened InstallSnapshot

  // ---- Stale suffixes come and go ----

  /** The node installs a snapshot and keeps entries above it that do not match its last term. */
  predicate Stains(c: Cluster, a: Action)
    requires Enabled(c, a)
  {
    && a.RecvSnap?
    && var s, r := c.nodes[a.i], a.m.sreq;
    && r.term >= s.term && r.lastIndex > s.snapIndex && !SuffixMatches(s.log, r)
  }

  /** The node writes entries a leader sent, or installs a snapshot in place of its whole log. */
  predicate Repairs(c: Cluster, a: Action)
    requires Enabled(c, a)
  {
    var s := c.nodes[a.i];
    match a
    case RecvAppend(_, m) =>
      && HandleAppendEntries(s, m.areq).1.success
      && FirstNew(s.log, s.snapIndex, m.areq.prevIndex, m.areq.entries, 0) < |m.areq.entries|
    case RecvSnap(_, m) => m.sreq.term >= s.term && m.sreq.lastIndex > s.snapIndex && |s.log| <= m.sreq.lastIndex
    case CrashInAppend(_, _, _) => true
    case _ => false
  }

  /** In the run up to moment n, node i kept a stale suffix at step b and wrote nothing over it since. */
  ghost predicate StaleSince(cs: seq<Cluster>, actions: seq<Action>, i: NodeId, b: nat, n: nat) {
    && b < n <= |actions| && |actions| < |cs|
    && StainAt(cs, actions, i, b)
    && forall x :: b < x < n ==> !RepairAt(cs, actions, i, x)
  }

  ghost predicate StainAt(cs: seq<Cluster>, actions: seq<Action>, i: NodeId, b: nat)
    requires b < |actions| < |cs|
  {
    actions[b].i == i && Enabled(cs[b], actions[b]) && Stains(cs[b], actions[b])
  }

  ghost predicate RepairAt(cs: seq<Cluster>, actions: seq<Action>, i: NodeId, b: nat)
    requires b < |actions| < |cs|
  {
    actions[b].i == i && Enabled(cs[b], actions[b]) && Repairs(cs[b], actions[b])
  }

  ghost predicate HasStale(cs: seq<Cluster>, actions: seq<Action>, i: NodeId, n: nat) {
    exists b :: StaleSince(cs, actions, i, b, n)
  }

  lemma HasStaleStep(cs: seq<Cluster>, actions: seq<Action>, i: NodeId, n: nat)
    requires n < |actions| < |cs|
    ensures HasStale(cs, actions, i, n + 1) <==>
            StainAt(cs, actions, i, n) || (HasStale(cs, actions, i, n) && !RepairAt(cs, actions, i, n))
  {
    hide Stains, Repairs, Enabled;
    if HasStale(cs, actions, i, n + 1) {
      var b: nat :| StaleSince(cs, actions, i, b, n + 1);
      if b < n { assert StaleSince(cs, actions, i, b, n); }
    }
    if StainAt(cs, actions, i, n) {
      assert StaleSince(cs, actions, i, n, n + 1);
    } else if HasStale(cs, actions, i, n) && !RepairAt(cs, actions, i, n) {
      var b: nat :| StaleSince(cs, actions, i, b, n);
      assert StaleSince(cs, actions, i, b, n + 1);
    }
  }

  // ---- What a step does to a log ----

  lemma StaleNotRooted(h: Hist, log: Log, c: nat, hi: Term)
    requires StaleLog(h, log, c, hi)
    ensures !Rooted(h, log)
  {
    assert StaleAt(h, log, c, c);
    var reign := h.reigns[log[c].term].log;
    assert log[..c + 1][..c] == log[..c] && reign[..c + 1][..c] == reign[..c];
    assert !RootedAt(h, log, c);
  }

  /** A log stays stale, or not, as the history grows. */
  lemma SameLog(h: Hist, h': Hist, s: NodeState)
    requires NodeInv(h, s) && Grows(h, h')
    ensures Rooted(h, s.log) <==> Rooted(h', s.log)
  {
    hide Rooted, Committed, AcksHeld, PastTerms;
    if Rooted(h, s.log) {
      RootedGrows(h, h', s.log);
    } else {
      StaleLogGrows(h, h', s.log, s.snapIndex, s.term, s.term);
      StaleNotRooted(h', s.log, s.snapIndex, s.term);
    }
  }

  /** Every node before and after a step, with the two histories. */
  ghost predicate Stepped(c: Cluster, a: Action) {
    && Enabled(c, a)
    && var s, s', h' := c.nodes[a.i], NextNode(c, a), NextHist(c, a);
    && HistInv(c.h) && Grows(c.h, h') && HistInv(h') && s.id == a.i && NodeInv(c.h, s) && NodeInv(h', s')
  }

  lemma StepFacts(c: Cluster, a: Action)
    requires Inv(c) && Enabled(c, a)
    ensures Stepped(c, a)
  {
    NextInv(c, a);
    hide Inv, HistInv, NodeInv, Grows, NextNode, NextHist;
    NodeOf(c, a.i);
    NodeOf(Next(c, a), a.i);
  }

  lemma FateOfAppend(c: Cluster, a: Action)
    requires Stepped(c, a) && a.RecvAppend? && MsgInv(c.h, a.m)
    ensures Repairs(c, a) ==> Rooted(NextHist(c, a), NextNode(c, a).log)
    ensures !Repairs(c, a) ==> NextNode(c, a).log == c.nodes[a.i].log
  {
    hide HistInv, NodeInv, Grows, Rooted, Committed, FirstNew;
    var s, r := c.nodes[a.i], a.m.areq;
    if Repairs(c, a) {
      AcceptTermInv(c.h, s, r.term, r.leader);
      var s1 := AcceptTerm(s, r.term, r.leader);
      var f, p := AcceptedLog(c.h, s1, r);
      ReignOf(c.h, r.term);
      var log := Accept(s1, r).log;
      RootedPrefix(c.h, c.h.reigns[r.term].log, log);
      RootedGrows(c.h, NextHist(c, a), log);
    }
  }

  lemma FateOfTorn(c: Cluster, a: Action)
    requires Stepped(c, a) && a.CrashInAppend? && MsgInv(c.h, a.m)
    ensures Rooted(NextHist(c, a), NextNode(c, a).log)
  {
    hide HistInv, NodeInv, Grows, Rooted, Committed, FirstNew, Consistent;
    var s, r := c.nodes[a.i], a.m.areq;
    AcceptTermInv(c.h, s, r.term, r.leader);
    var s1 := AcceptTerm(s, r.term, r.leader);
    var f, p := AcceptedLog(c.h, s1, r);
    ReignOf(c.h, r.term);
    RootedPrefix(c.h, c.h.reigns[r.term].log, NextNode(c, a).log);
  }

  lemma FateOfSnap(c: Cluster, a: Action)
    requires Stepped(c, a) && a.RecvSnap? && MsgInv(c.h, a.m)
    ensures Stains(c, a) ==> !Rooted(c.h, NextNode(c, a).log)
    ensures Repairs(c, a) ==> Rooted(c.h, NextNode(c, a).log)
    ensures !Stains(c, a) && !Repairs(c, a) ==> NextNode(c, a).log == c.nodes[a.i].log
  {
    hide HistInv, NodeInv, Grows, Rooted, Committed;
    var s, r := c.nodes[a.i], a.m.sreq;
    if r.term >= s.term && r.lastIndex > s.snapIndex {
      AcceptTermInv(c.h, s, r.term, r.leader);
      var s1 := AcceptTerm(s, r.term, r.leader);
      SnapshotRooted(c.h, s1, r);
      if Stains(c, a) {
        KeptIsStale(c.h, s1, r);
        StaleNotRooted(c.h, InstalledLog(s.log, r), r.lastIndex, s1.term);
      } else if Repairs(c, a) {
        assert InstalledLog(s.log, r) == r.prefix;
      } else {
        MatchedSuffix(c.h, s1, r);
        assert InstalledLog(s.log, r) == s.log;
      }
    }
  }

  /** A crash keeps a prefix of a log that is not stale, and all of a stale one. */
  lemma FateOfCrash(h: Hist, s: NodeState, keep: nat)
    requires NodeInv(h, s) && s.synced <= keep <= |s.log|
    ensures Rooted(h, s.log[..keep]) <==> Rooted(h, s.log)
  {
    hide Rooted, Committed, AcksHeld, PastTerms;
    if Rooted(h, s.log) {
      RootedPrefix(h, s.log, s.log[..keep]);
    } else {
      assert s.log[..keep] == s.log;
    }
  }

  /** A leader's log is rooted, and so was what it extends. */
  lemma FateOfLeader(c: Cluster, a: Action)
    requires Stepped(c, a) && NextNode(c, a).role == Leader && c.nodes[a.i].log <= NextNode(c, a).log
    ensures Rooted(c.h, c.nodes[a.i].log) && Rooted(NextHist(c, a), NextNode(c, a).log)
  {
    hide HistInv, NodeInv, Grows, Rooted, NextNode, NextHist;
    var s, s', h' := c.nodes[a.i], NextNode(c, a), NextHist(c, a);
    LeaderOf(h', s');
    RootedPrefix(h', s'.log, s.log);
    SameLog(c.h, h', s);
  }

  lemma LogUnchanged(c: Cluster, a: Action)
    requires Enabled(c, a) && !a.RecvAppend? && !a.RecvSnap? && !a.CrashInAppend? && !a.Crash? && !a.CrashInSnapshot?
    ensures var s, s' := c.nodes[a.i], NextNode(c, a);
            s'.log == s.log || (s'.role == Leader && s.log <= s'.log)
  {
    hide ScanBack;
  }

  /** A step of a node leaves it with a stale suffix if it stains, without one if it repairs, else as it was. */
  lemma Fate(c: Cluster, a: Action)
    requires Inv(c) && Enabled(c, a)
    ensures Rooted(NextHist(c, a), NextNode(c, a).log) <==>
            !Stains(c, a) && (Repairs(c, a) || Rooted(c.h, c.nodes[a.i].log))
  {
    hide Inv, HistInv, NodeInv, Grows, Rooted, MsgInv, HandleAppendEntries, HandleInstallSnapshot, FirstNew,
         SuffixMatches, NextHist;
    StepFacts(c, a);
    var s, s', h' := c.nodes[a.i], NextNode(c, a), NextHist(c, a);
    SameLog(c.h, h', s);
    match a
    case RecvAppend(_, m) => MsgOf(c, m); FateOfAppend(c, a);
    case RecvSnap(_, m) => MsgOf(c, m); FateOfSnap(c, a); SnapHistory(c, a);
    case CrashInAppend(_, m, _) => MsgOf(c, m); FateOfTorn(c, a);
    case Crash(_, keep) => FateOfCrash(c.h, s, keep); CrashHistory(c, a);
    case CrashInSnapshot(_, _, keep) => FateOfCrash(c.h, s, keep); CrashHistory(c, a);
    case _ =>
      LogUnchanged(c, a);
      if s'.log != s.log { FateOfLeader(c, a); }
  }

  /** These steps add no reign, so they change no log's standing. */
  lemma SameReigns(h: Hist, h': Hist, log: Log)
    requires h'.reigns == h.reigns
    ensures Rooted(h, log) <==> Rooted(h', log)
  {
    assert forall k :: 0 <= k < |log| ==> (RootedAt(h, log, k) <==> RootedAt(h', log, k));
  }

  lemma SnapHistory(c: Cluster, a: Action)
    requires Enabled(c, a) && a.RecvSnap?
    ensures forall log :: Rooted(c.h, log) <==> Rooted(NextHist(c, a), log)
  {
    hide Rooted, HandleInstallSnapshot;
    forall log: Log ensures Rooted(c.h, log) <==> Rooted(NextHist(c, a), log) {
      SameReigns(c.h, NextHist(c, a), log);
    }
  }

  lemma CrashHistory(c: Cluster, a: Action)
    requires Enabled(c, a) && (a.Crash? || a.CrashInSnapshot?)
    ensures NextHist(c, a) == c.h
  {
  }

  // ---- Exactly when a log goes back to leaders' logs ----

  lemma HistoryOf(c: Cluster, a: Action)
    requires Enabled(c, a)
    ensures Next(c, a).h == NextHist(c, a) && Next(c, a).nodes == c.nodes[a.i := NextNode(c, a)]
  {
  }

  /** In every run, at every moment: a node's log goes back to leaders' logs, unless it has a stale suffix now. */
  lemma {:induction false} StaleIff(voters: set<NodeId>, cs: seq<Cluster>, actions: seq<Action>, n: nat, i: NodeId)
    requires IsRun(voters, cs, actions) && 0 !in voters && n < |cs| && i in cs[n].nodes
    ensures Rooted(cs[n].h, cs[n].nodes[i].log) <==> !HasStale(cs, actions, i, n)
  {
    RunStarts(voters, cs, actions);
    if n == 0 {
      FirstLogs(voters, i);
      assert forall b :: !StaleSince(cs, actions, i, b, 0);
    } else {
      hide *;
      var c, a := cs[n - 1], actions[n - 1];
      StepOf(voters, cs, actions, n - 1);
      ReachableInv(voters, cs, actions, n - 1);
      HistoryOf(c, a);
      StaleIff(voters, cs, actions, n - 1, i);
      HasStaleStep(cs, actions, i, n - 1);
      StainsOrNot(cs, actions, i, n - 1);
      if a.i == i {
        Fate(c, a);
      } else {
        NextInv(c, a);
        NodeOf(c, i);
        SameLog(c.h, cs[n].h, c.nodes[i]);
      }
    }
  }

  lemma FirstLogs(voters: set<NodeId>, i: NodeId)
    requires i in Init(voters).nodes
    ensures Rooted(Init(voters).h, Init(voters).nodes[i].log)
  {
  }

  lemma StainsOrNot(cs: seq<Cluster>, actions: seq<Action>, i: NodeId, b: nat)
    requires b < |actions| < |cs| && Enabled(cs[b], actions[b])
    ensures StainAt(cs, actions, i, b) <==> actions[b].i == i && Stains(cs[b], actions[b])
    ensures RepairAt(cs, actions, i, b) <==> actions[b].i == i && Repairs(cs[b], actions[b])
    ensures Stains(cs[b], actions[b]) ==> !Repairs(cs[b], actions[b])
  {
  }

  /** Where the log has an entry of that leader's term, it has everything the leader had before it. */
  ghost predicate MatchesReign(h: Hist, log: Log, t: Term)
    requires t in h.reigns
  {
    Agrees(log, h.reigns[t].log, 0)
  }

  /**
   * Log Matching, exactly: at any moment of any run, a node's log matches every log that any leader has had
   * so far, if and only if it has no stale suffix now.
   */
  lemma MatchesLeadersIff(voters: set<NodeId>, cs: seq<Cluster>, actions: seq<Action>, n: nat, i: NodeId)
    requires IsRun(voters, cs, actions) && 0 !in voters && n < |cs| && i in cs[n].nodes
    ensures (forall t :: t in cs[n].h.reigns ==> MatchesReign(cs[n].h, cs[n].nodes[i].log, t))
            <==> !HasStale(cs, actions, i, n)
  {
    StaleIff(voters, cs, actions, n, i);
    NodeAt(voters, cs, actions, n, i, n);
    hide IsRun, HasStale, Grows;
    MatchesIff(cs[n].h, cs[n].nodes[i]);
  }

  lemma MatchesIff(h: Hist, s: NodeState)
    requires HistInv(h) && NodeInv(h, s)
    ensures (forall t :: t in h.reigns ==> MatchesReign(h, s.log, t)) <==> Rooted(h, s.log)
  {
    hide HistInv, Rooted, Committed, AcksHeld, PastTerms;
    if Rooted(h, s.log) {
      forall t | t in h.reigns ensures MatchesReign(h, s.log, t) {
        ReignOf(h, t);
        RootedAgrees(h, s.log, h.reigns[t].log, 0);
      }
    } else {
      var c := s.snapIndex;
      assert StaleAt(h, s.log, c, c);
      var reign := h.reigns[s.log[c].term].log;
      assert s.log[..c + 1][..c] == s.log[..c] && reign[..c + 1][..c] == reign[..c];
      assert !AgreeAt(s.log, reign, c);
      assert !MatchesReign(h, s.log, s.log[c].term);
    }
  }

  // ---- Log Matching and order ----

  /** How much of a node's log goes back to leaders' logs. */
  ghost function Trusted(cs: seq<Cluster>, actions: seq<Action>, n: nat, i: NodeId): nat
    requires n < |cs| && i in cs[n].nodes
  {
    if HasStale(cs, actions, i, n) then cs[n].nodes[i].snapIndex else |cs[n].nodes[i].log|
  }

  lemma TrustedRooted(voters: set<NodeId>, cs: seq<Cluster>, actions: seq<Action>, m: nat, i: NodeId, n: nat)
    requires IsRun(voters, cs, actions) && 0 !in voters && m <= n < |cs| && i in cs[m].nodes
    ensures var s, k := cs[m].nodes[i], Trusted(cs, actions, m, i);
            HistInv(cs[n].h) && k <= |s.log| && Rooted(cs[n].h, s.log[..k])
  {
    StaleIff(voters, cs, actions, m, i);
    NodeAt(voters, cs, actions, m, i, n);
    hide IsRun, HistInv, Rooted, HasStale, AcksHeld, PastTerms, Committed, Grows;
    var s, k := cs[m].nodes[i], Trusted(cs, actions, m, i);
    assert k == |s.log| ==> s.log[..k] == s.log;
    RootedGrows(cs[m].h, cs[n].h, s.log[..k]);
  }

  /**
   * Indices are contiguous, no entry is from the future, and terms never decrease, the last up to a stale
   * suffix if there is one. StaleSuffix has a run in which they decrease there.
   */
  lemma LogsWellFormed(voters: set<NodeId>, cs: seq<Cluster>, actions: seq<Action>, n: nat, i: NodeId)
    requires IsRun(voters, cs, actions) && 0 !in voters && n < |cs| && i in cs[n].nodes
    ensures var s := cs[n].nodes[i];
            && (forall a, b :: 0 <= a < b < Trusted(cs, actions, n, i) <= |s.log| ==> s.log[a].term <= s.log[b].term)
            && (forall k :: 0 <= k < |s.log| ==> s.log[k].index == k + 1 && 1 <= s.log[k].term <= s.term)
            && s.snapIndex <= s.lastApplied <= s.commitIndex <= s.synced <= |s.log|
  {
    hide *;
    TrustedRooted(voters, cs, actions, n, i, n);
    NodeAt(voters, cs, actions, n, i, n);
    var s, h := cs[n].nodes[i], cs[n].h;
    LogNumbered(h, s);
    var good := s.log[..Trusted(cs, actions, n, i)];
    RootedSorted(h, good);
    forall a, b | 0 <= a < b < |good| ensures s.log[a].term <= s.log[b].term { SortedAt(good, a, b); }
  }

  lemma SortedAt(log: Log, a: nat, b: nat)
    requires Sorted(log) && a < b < |log|
    ensures log[a].term <= log[b].term
  {
    assert InOrder(log, a, b);
  }

  lemma LogNumbered(h: Hist, s: NodeState)
    requires HistInv(h) && NodeInv(h, s)
    ensures forall k :: 0 <= k < |s.log| ==> s.log[k].index == k + 1 && 1 <= s.log[k].term <= s.term
    ensures s.snapIndex <= s.lastApplied <= s.commitIndex <= s.synced <= |s.log|
  {
    hide HistInv, Rooted, AcksHeld, PastTerms, Committed;
    if Rooted(h, s.log) {
      RootedSorted(h, s.log);
    } else {
      var c := s.snapIndex;
      RootedSorted(h, s.log[..c]);
      forall k | 0 <= k < |s.log| ensures s.log[k].index == k + 1 && s.log[k].term >= 1 {
        if k < c {
          assert s.log[k] == s.log[..c][k];
        } else {
          assert StaleAt(h, s.log, c, k);
          ReignOf(h, s.log[k].term);
        }
      }
    }
  }

  /**
   * Log Matching, across nodes and across time: two entries with the same index and term, neither in a suffix
   * that is stale at that moment, are the same entry, and so are all entries before them.
   */
  lemma LogMatchingInRuns(
    voters: set<NodeId>, cs: seq<Cluster>, actions: seq<Action>, m: nat, i: NodeId, n: nat, j: NodeId, k: nat)
    requires IsRun(voters, cs, actions) && 0 !in voters && m < |cs| && n < |cs|
    requires i in cs[m].nodes && j in cs[n].nodes
    requires k < Trusted(cs, actions, m, i) <= |cs[m].nodes[i].log|
    requires k < Trusted(cs, actions, n, j) <= |cs[n].nodes[j].log|
    requires cs[m].nodes[i].log[k].term == cs[n].nodes[j].log[k].term
    ensures cs[m].nodes[i].log[..k + 1] == cs[n].nodes[j].log[..k + 1]
  {
    hide *;
    var z := if m <= n then n else m;
    TrustedRooted(voters, cs, actions, m, i, z);
    TrustedRooted(voters, cs, actions, n, j, z);
    var a, b := cs[m].nodes[i].log, cs[n].nodes[j].log;
    var x, y := Trusted(cs, actions, m, i), Trusted(cs, actions, n, j);
    LogMatching(cs[z].h, a[..x], b[..y], k);
    assert a[..x][..k + 1] == a[..k + 1] && b[..y][..k + 1] == b[..k + 1];
  }

  // ---- The commit rule, for every leader ----

  /** No match index is past the end of the leader's log. */
  lemma MatchWithin(c: Cluster, i: NodeId, p: NodeId)
    requires Inv(c) && i in c.nodes && c.nodes[i].role == Leader && p in c.nodes[i].voters
    ensures Get(c.nodes[i].matchIndex, p) <= |c.nodes[i].log|
  {
    var s := c.nodes[i];
    NodeOf(c, i);
    VotersOf(c.h, s);
    hide Inv, HistInv, Rooted, PastTerms, Committed;
    assert LeaderInv(c.h, s);
    if p != i {
      AllNodes(c);
      NodeOf(c, p);
      assert Matched(c.h, s, p);
      if Covered(c.h, s.term, Get(s.matchIndex, p)) { CoveredWithin(c.h, s.term, Get(s.matchIndex, p)); }
    }
  }

  lemma AllNodes(c: Cluster)
    requires Inv(c)
    ensures c.nodes.Keys == c.h.voters
  {
  }

  lemma CoveredWithin(h: Hist, t: Term, n: nat)
    requires HistInv(h) && Covered(h, t, n) && t in h.reigns
    ensures n <= |h.reigns[t].log|
  {
    hide HistInv;
    var u: Term, k: nat :| (u, k) in h.commits && u <= t && n <= k;
    if u < t { LeaderCompleteness(h, u, k, t); } else { CommitsAgree(h, u, k, u, k); }
  }

  /**
   * In every run, looking only at the highest majority index serves every leader as well as any search would:
   * it advances exactly when some higher index of its own term is held by a majority, and to the greatest such.
   */
  lemma CommitsOptimally(voters: set<NodeId>, cs: seq<Cluster>, actions: seq<Action>, n: nat, i: NodeId)
    requires IsRun(voters, cs, actions) && 0 !in voters && n < |cs| && i in cs[n].nodes && cs[n].nodes[i].role == Leader
    ensures var s := cs[n].nodes[i]; var s' := AdvanceCommit(s);
            && (s'.commitIndex > s.commitIndex <==> exists x: nat :: s.commitIndex < x && Committable(Conf(s), s, x))
            && (s'.commitIndex > s.commitIndex ==> Committable(Conf(s), s, s'.commitIndex))
            && (forall x: nat :: Committable(Conf(s), s, x) ==> x <= s'.commitIndex)
  {
    ReachableInv(voters, cs, actions, n);
    LogsWellFormed(voters, cs, actions, n, i);
    var s := cs[n].nodes[i];
    hide Inv, IsRun, HistInv, NodeInv, Committable, Rooted;
    NodeOf(cs[n], i);
    InvHist(cs[n]);
    LeaderOf(cs[n].h, s);
    RootedSorted(cs[n].h, s.log);
    forall p | p in s.voters ensures Get(s.matchIndex, p) <= |s.log| { MatchWithin(cs[n], i, p); }
    CommitRuleIsOptimal(Conf(s), s);
  }
}
