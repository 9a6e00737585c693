/**
 * What has happened in a cluster so far: candidacies, votes, reigns, acknowledgements and
 * commits. None of it is stored by any node. It is the vocabulary in which the
 * cluster's invariants are stated, and Leader Completeness is proved from it alone.
 */
module History {
  import opened RaftTypes
  import opened RaftConf

  /** A vote, the voter's log when it was cast, and whether its term already had a leader. */
  datatype Ballot = Ballot(cand: NodeId, vlog: Log, late: bool)

  /** The leader of a term, everything it ever had in its log, and who elected it. */
  datatype Reign = Reign(leader: NodeId, log: Log, winners: set<NodeId>)

  datatype Hist = Hist(
    voters: set<NodeId>,
    runs: map<(NodeId, Term), Log>,        // log of a candidate when it stood in a term
    ballots: map<(NodeId, Term), Ballot>,  // (voter, term)
    reigns: map<Term, Reign>,
    acks: map<(NodeId, Term), nat>,        // length a node acknowledged to the leader of a term
    commits: set<(Term, nat)>              // (term, index) pairs committed by advanceCommitLocked
  )

  // ---- Logs ----

  ghost predicate InOrder(log: Log, a: nat, b: nat)
    requires a < |log| && b < |log|
  {
    log[a].term <= log[b].term
  }

  ghost predicate Sorted(log: Log) {
    forall a, b :: 0 <= a < b < |log| ==> InOrder(log, a, b)
  }

  ghost predicate Contiguous(log: Log) {
    forall k :: 0 <= k < |log| ==> log[k].index == k + 1
  }

  /** Entry k of the log, and all before it, come from the reign of entry k's term. */
  ghost predicate RootedAt(h: Hist, log: Log, k: nat)
    requires k < |log|
  {
    var t := log[k].term;
    t in h.reigns && k < |h.reigns[t].log| && log[..k + 1] == h.reigns[t].log[..k + 1]
  }

  ghost predicate Rooted(h: Hist, log: Log) {
    forall k :: 0 <= k < |log| ==> RootedAt(h, log, k)
  }

  /** The reign of u does not contain the first k entries of the reign of t. */
  ghost predicate Diverges(h: Hist, t: Term, k: nat, u: Term) {
    && t in h.reigns && u in h.reigns
    && k <= |h.reigns[t].log|
    && !(h.reigns[t].log[..k] <= h.reigns[u].log)
  }

  /** The log still has the first k entries of reign t, unless a reign in (t, hi] diverged. */
  ghost predicate Held(h: Hist, log: Log, t: Term, k: nat, hi: Term)
    requires t in h.reigns && k <= |h.reigns[t].log|
  {
    h.reigns[t].log[..k] <= log || exists u :: t < u <= hi && Diverges(h, t, k, u)
  }

  /** The number of entries two logs share before they first differ. */
  function CommonPrefix(a: Log, b: Log): (n: nat)
    ensures n <= |a| && n <= |b| && a[..n] == b[..n]
    ensures n < |a| && n < |b| ==> a[n] != b[n]
  {
    if a == [] || b == [] || a[0] != b[0] then 0
    else
      var n := CommonPrefix(a[1..], b[1..]);
      assert a[..n + 1] == [a[0]] + a[1..][..n];
      assert b[..n + 1] == [b[0]] + b[1..][..n];
      n + 1
  }

  // ---- Committed prefixes ----

  ghost predicate CommittedBy(h: Hist, pre: Log, hi: Term, t: Term, k: nat) {
    && (t, k) in h.commits
    && t <= hi
    && t in h.reigns
    && |pre| <= k <= |h.reigns[t].log|
    && pre == h.reigns[t].log[..|pre|]
  }

  /** pre is part of what was committed in some term up to hi. */
  ghost predicate Committed(h: Hist, pre: Log, hi: Term) {
    pre == [] || exists t, k :: CommittedBy(h, pre, hi, t, k)
  }

  // ---- Stale suffixes ----

  /** Entry x comes from a reign that does not have the first c entries of this log. */
  ghost predicate StaleAt(h: Hist, log: Log, c: nat, x: nat)
    requires c <= x < |log|
  {
    var t := log[x].term;
    t in h.reigns && x < |h.reigns[t].log| && h.reigns[t].log[x] == log[x] && h.reigns[t].log[..c] != log[..c]
  }

  /**
   * What an installed snapshot can leave behind: a committed prefix of length c, and above it entries
   * of leaders that did not have that prefix.
   */
  ghost predicate StaleLog(h: Hist, log: Log, c: nat, hi: Term) {
    && 0 < c < |log|
    && Rooted(h, log[..c]) && Committed(h, log[..c], hi)
    && forall x :: c <= x < |log| ==> StaleAt(h, log, c, x)
  }

  ghost predicate Sane(h: Hist, log: Log, hi: Term) {
    Rooted(h, log) || exists c :: StaleLog(h, log, c, hi)
  }

  /** Unless a reign in (t, hi] diverged, the log ends in a term no older than what was acknowledged in t. */
  ghost predicate FirmAt(h: Hist, log: Log, t: Term, k: nat, hi: Term)
    requires t in h.reigns && 0 < k <= |h.reigns[t].log|
  {
    h.reigns[t].log[k - 1].term == t ==>
      LastTerm(log) >= t || exists u :: t < u <= hi && Diverges(h, t, k, u)
  }

  // ---- Invariants of the history ----

  ghost predicate RunInv(h: Hist, i: NodeId, t: Term)
    requires (i, t) in h.runs
  {
    var log := h.runs[(i, t)];
    i in h.voters && t >= 1 && Sane(h, log, t - 1) && forall k :: 0 <= k < |log| ==> log[k].term < t
  }

  ghost predicate Elected(h: Hist, t: Term, j: NodeId)
    requires t in h.reigns
  {
    && (j, t) in h.ballots
    && h.ballots[(j, t)].cand == h.reigns[t].leader
    && !h.ballots[(j, t)].late
  }

  ghost predicate ReignInv(h: Hist, t: Term)
    requires t in h.reigns
  {
    var r := h.reigns[t];
    && t >= 1
    && r.leader in h.voters
    && (r.leader, t) in h.runs
    && h.runs[(r.leader, t)] <= r.log
    && |h.runs[(r.leader, t)]| < |r.log|
    && (forall k :: |h.runs[(r.leader, t)]| <= k < |r.log| ==> r.log[k].term == t)
    && (forall k :: 0 <= k < |r.log| ==> 1 <= r.log[k].term <= t)
    && Sorted(r.log) && Contiguous(r.log) && Rooted(h, r.log)
    && r.winners <= h.voters && |r.winners| >= Majority(|h.voters|)
    && forall j :: j in r.winners ==> Elected(h, t, j)
  }

  ghost predicate AckInv(h: Hist, log: Log, j: NodeId, t: Term, hi: Term)
    requires (j, t) in h.acks
  {
    && t in h.reigns
    && h.acks[(j, t)] <= |h.reigns[t].log|
    && forall k :: 0 < k <= h.acks[(j, t)] ==> Held(h, log, t, k, hi)
  }

  ghost predicate AckFirm(h: Hist, log: Log, j: NodeId, t: Term, hi: Term)
    requires (j, t) in h.acks && t in h.reigns && h.acks[(j, t)] <= |h.reigns[t].log|
  {
    forall k :: 0 < k <= h.acks[(j, t)] ==> FirmAt(h, log, t, k, hi)
  }

  ghost predicate BallotInv(h: Hist, j: NodeId, t: Term)
    requires (j, t) in h.ballots
  {
    var b := h.ballots[(j, t)];
    && j in h.voters && b.cand in h.voters && t >= 1
    && (b.cand, t) in h.runs
    && UpToDate(LastTerm(h.runs[(b.cand, t)]), |h.runs[(b.cand, t)]|, b.vlog)
    && (b.late ==> t in h.reigns)
    && (!b.late ==>
          forall t' :: t' < t && (j, t') in h.acks ==>
            AckInv(h, b.vlog, j, t', t - 1) && AckFirm(h, b.vlog, j, t', t - 1))
  }

  ghost function AckHolders(h: Hist, t: Term, k: nat): set<NodeId> {
    set j | j in h.voters && (j, t) in h.acks && h.acks[(j, t)] >= k
  }

  ghost predicate CommitInv(h: Hist, t: Term, k: nat) {
    && t in h.reigns
    && 0 < k <= |h.reigns[t].log|
    && h.reigns[t].log[k - 1].term == t
    && |AckHolders(h, t, k)| >= Majority(|h.voters|)
  }

  ghost predicate HistInv(h: Hist) {
    && 0 !in h.voters
    && (forall i, t :: (i, t) in h.runs ==> RunInv(h, i, t))
    && (forall t :: t in h.reigns ==> ReignInv(h, t))
    && (forall j, t :: (j, t) in h.ballots ==> BallotInv(h, j, t))
    && (forall t, k :: (t, k) in h.commits ==> CommitInv(h, t, k))
  }

  // ---- Consequences ----

  lemma RootedSorted(h: Hist, log: Log)
    requires HistInv(h) && Rooted(h, log)
    ensures Sorted(log) && Contiguous(log)
    ensures forall k :: 0 <= k < |log| ==> log[k].term >= 1
  {
    forall a, b | 0 <= a < b < |log| ensures InOrder(log, a, b) {
      assert RootedAt(h, log, b);
      var r := h.reigns[log[b].term].log;
      assert ReignInv(h, log[b].term);
      assert log[a] == log[..b + 1][a] == r[..b + 1][a] == r[a];
      assert InOrder(r, a, b);
    }
    forall k | 0 <= k < |log| ensures log[k].term >= 1 && log[k].index == k + 1 {
      assert RootedAt(h, log, k);
      var r := h.reigns[log[k].term].log;
      assert ReignInv(h, log[k].term);
      assert log[k] == log[..k + 1][k] == r[k];
    }
  }

  /** Log Matching: two rooted logs with the same term at an index agree up to it. */
  lemma LogMatching(h: Hist, a: Log, b: Log, k: nat)
    requires Rooted(h, a) && Rooted(h, b)
    requires k < |a| && k < |b| && a[k].term == b[k].term
    ensures a[..k + 1] == b[..k + 1]
  {
    assert RootedAt(h, a, k) && RootedAt(h, b, k);
  }

  lemma RootedPrefix(h: Hist, log: Log, pre: Log)
    requires Rooted(h, log) && pre <= log
    ensures Rooted(h, pre)
  {
    forall k | 0 <= k < |pre| ensures RootedAt(h, pre, k) {
      assert RootedAt(h, log, k);
      assert pre[..k + 1] == log[..k + 1];
    }
  }

  /** A log of leaders' entries ends in a term no older than any entry it has. */
  lemma RootedFirm(h: Hist, log: Log, t: Term, k: nat, hi: Term)
    requires HistInv(h) && Rooted(h, log) && t in h.reigns && 0 < k <= |h.reigns[t].log| && Held(h, log, t, k, hi)
    ensures FirmAt(h, log, t, k, hi)
  {
    var prefix := h.reigns[t].log[..k];
    if prefix <= log {
      RootedSorted(h, log);
      assert log[k - 1] == prefix[k - 1];
      assert k < |log| ==> InOrder(log, k - 1, |log| - 1);
    }
  }

  /** No leader's log has an entry of a stale suffix together with the prefix below the suffix. */
  lemma StaleMismatch(h: Hist, log: Log, c: nat, x: nat, good: Log)
    requires c <= x < |log| && StaleAt(h, log, c, x) && Rooted(h, good) && x < |good| && good[..c] == log[..c]
    ensures good[x].term != log[x].term
  {
    var t := good[x].term;
    assert RootedAt(h, good, x);
    assert good[..c] == good[..x + 1][..c] == h.reigns[t].log[..x + 1][..c] == h.reigns[t].log[..c];
  }

  /**
   * Leader Completeness: what was committed in term t is in the log of every later leader.
   * Some voter both acknowledged the committed prefix and elected the later leader. By
   * induction no leader in between made that voter drop the prefix, so it had the prefix
   * when it voted, and the vote rule makes the winner's log at least as up to date.
   */
  lemma {:induction false} LeaderCompleteness(h: Hist, t: Term, k: nat, u: Term)
    requires HistInv(h) && (t, k) in h.commits && u in h.reigns && t < u
    ensures t in h.reigns && k <= |h.reigns[t].log| && h.reigns[t].log[..k] <= h.reigns[u].log
    decreases u
  {
    assert CommitInv(h, t, k) && ReignInv(h, u) && ReignInv(h, t);
    var j := QuorumsMeet(h.voters, AckHolders(h, t, k), h.reigns[u].winners);
    assert Elected(h, u, j) && BallotInv(h, j, u);
    var vlog := h.ballots[(j, u)].vlog;
    var prefix := h.reigns[t].log[..k];
    assert AckInv(h, vlog, j, t, u - 1) && AckFirm(h, vlog, j, t, u - 1);
    assert Held(h, vlog, t, k, u - 1) && FirmAt(h, vlog, t, k, u - 1);
    forall v | t < v < u && v in h.reigns ensures !Diverges(h, t, k, v) { LeaderCompleteness(h, t, k, v); }
    CandidateHasPrefix(h, t, k, u, vlog);
  }

  /** The winner of u was at least as up to date as a log holding the committed prefix. */
  lemma {:induction false} CandidateHasPrefix(h: Hist, t: Term, k: nat, u: Term, vlog: Log)
    requires HistInv(h) && (t, k) in h.commits && u in h.reigns && t < u
    requires CommitInv(h, t, k) && ReignInv(h, u)
    requires h.reigns[t].log[..k] <= vlog && LastTerm(vlog) >= t
    requires var run := h.runs[(h.reigns[u].leader, u)]; UpToDate(LastTerm(run), |run|, vlog)
    ensures h.reigns[t].log[..k] <= h.reigns[u].log
    decreases u, 0
  {
    var prefix := h.reigns[t].log[..k];
    var run := h.runs[(h.reigns[u].leader, u)];
    assert RunInv(h, h.reigns[u].leader, u);
    RootedPrefix(h, h.reigns[u].log, run);
    var ct := LastTerm(run);
    assert |run| > 0 && ct >= t && ct < u;
    assert RootedAt(h, run, |run| - 1);
    assert run == run[..|run|] == h.reigns[ct].log[..|run|];
    if ct == t {
      assert |run| >= |vlog| >= k;
    } else {
      LeaderCompleteness(h, t, k, ct);
      assert ReignInv(h, t);
      assert forall x :: 0 <= x < k ==> h.reigns[ct].log[x] == prefix[x] && prefix[x].term <= t;
      assert |run| - 1 >= k;
    }
  }
}
