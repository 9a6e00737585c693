/**
 * The conflict-term backtracking of sendAppend and HandleAppendEntries: a rejection always
 * moves the leader's next index down, never past what the two logs share, so repair ends.
 */
module Backtracking {
  import opened RaftTypes
  import opened NodeSpec
  import opened History
  import opened Cluster
  import opened ClusterInv
  import opened ClusterAppend
  import opened ClusterSteps
  import opened ClusterSafety
  import opened ClusterLogs

  /** All entries from the start of the run to index ci have one term. */
  lemma {:induction false} RunStartSpec(log: Log, first: nat, ci: nat)
    requires ci <= |log|
    ensures var q := RunStart(log, first, ci);
            && q <= ci && (ci >= 1 ==> q >= 1)
            && forall x :: 0 <= x < ci && q <= x + 1 ==> log[x].term == TermOf(log, ci)
    decreases ci
  {
    if ci > first && ci >= 2 && log[ci - 2].term == log[ci - 1].term {
      RunStartSpec(log, first, ci - 1);
    }
  }

  /** The scan finds the last entry of the conflicting term, or there is none it can see. */
  lemma {:induction false} ScanBackSpec(log: Log, first: nat, i: nat, ct: Term, default: nat)
    requires i <= |log| && Sorted(log) && first >= 1
    ensures var n := ScanBack(log, first, i, ct, default);
            || (n == default && forall x :: 0 <= x < i && first <= x + 1 ==> log[x].term != ct)
            || (first <= n - 1 <= i && log[n - 2].term == ct && forall x :: n - 1 <= x < i ==> log[x].term > ct)
    decreases i
  {
    if i >= first && log[i - 1].term < ct {
      forall x | 0 <= x < i && first <= x + 1 ensures log[x].term != ct {
        if x < i - 1 { assert InOrder(log, x, i - 1); }
      }
    } else if i >= first && log[i - 1].term != ct {
      ScanBackSpec(log, first, i - 1, ct, default);
    }
  }

  /** Entry x is the one its term's leader had there. Stale suffixes consist of such entries too. */
  ghost predicate SourcedAt(h: Hist, log: Log, x: nat)
    requires x < |log|
  {
    var t := log[x].term;
    t in h.reigns && x < |h.reigns[t].log| && h.reigns[t].log[x] == log[x]
  }

  ghost predicate Sourced(h: Hist, log: Log) {
    forall x :: 0 <= x < |log| ==> SourcedAt(h, log, x)
  }

  lemma RootedSourced(h: Hist, log: Log)
    requires Rooted(h, log)
    ensures Sourced(h, log)
  {
    forall x | 0 <= x < |log| ensures SourcedAt(h, log, x) {
      assert RootedAt(h, log, x);
      assert log[x] == log[..x + 1][x];
    }
  }

  lemma NodeSourced(h: Hist, s: NodeState)
    requires NodeInv(h, s)
    ensures Sourced(h, s.log)
  {
    hide Rooted, Committed, AcksHeld, PastTerms;
    if Rooted(h, s.log) {
      RootedSourced(h, s.log);
    } else {
      var c := s.snapIndex;
      RootedSourced(h, s.log[..c]);
      forall x | 0 <= x < |s.log| ensures SourcedAt(h, s.log, x) {
        if x < c {
          assert SourcedAt(h, s.log[..c], x);
        } else {
          assert StaleAt(h, s.log, c, x);
        }
      }
    }
  }

  lemma SourcedGrows(h: Hist, h': Hist, log: Log)
    requires Grows(h, h') && Sourced(h, log)
    ensures Sourced(h', log)
  {
    forall x | 0 <= x < |log| ensures SourcedAt(h', log, x) {
      assert SourcedAt(h, log, x);
      assert ReignGrows(h.reigns[log[x].term], h'.reigns[log[x].term], log[x].term);
    }
  }

  /** If the follower has term t where the leader does not, the leader has term t only below. */
  lemma TermOnlyBelow(h: Hist, leader: Log, follower: Log, prev: nat, x: nat)
    requires Rooted(h, leader) && Sourced(h, follower)
    requires 0 < prev <= |follower| && prev <= |leader| && leader[prev - 1].term != follower[prev - 1].term
    requires 0 < x <= |leader| && leader[x - 1].term == follower[prev - 1].term
    ensures x < prev
  {
    assert RootedAt(h, leader, x - 1) && SourcedAt(h, follower, prev - 1);
    var log := h.reigns[leader[x - 1].term].log;
    assert leader[..x] == log[..x];
    assert forall y :: 0 <= y < x ==> leader[y] == leader[..x][y] == log[y];
  }

  /** One round between a leader and a follower whose logs come from the same cluster. */
  ghost predicate Rejected(h: Hist, l: NodeState, f: NodeState, r: AppendRequest) {
    && HistInv(h) && Rooted(h, l.log) && Sourced(h, f.log)
    && l.snapIndex <= |l.log| && f.snapIndex <= |f.log|
    && r.prevIndex <= |l.log| && r.prevTerm == TermOf(l.log, r.prevIndex)
    && !Consistent(f, r)
  }

  ghost function NextAfter(l: NodeState, peer: NodeId, f: NodeState, r: AppendRequest): nat
    requires !Consistent(f, r)
  {
    Get(Backtrack(l, peer, Rejection(f, r)).nextIndex, peer)
  }

  lemma SharedEntries(a: Log, b: Log)
    ensures forall x :: 0 <= x < CommonPrefix(a, b) ==> a[x] == b[x]
  {
    var c := CommonPrefix(a, b);
    assert forall x :: 0 <= x < c ==> a[x] == a[..c][x] == b[..c][x] == b[x];
  }

  /** The leader has the conflicting term, last at index next - 1. */
  lemma TermFound(h: Hist, l: Log, f: Log, p: nat, next: nat)
    requires Rooted(h, l) && Sourced(h, f)
    requires 0 < p <= |f| && p <= |l| && l[p - 1].term != f[p - 1].term
    requires 2 <= next <= |l| + 1 && l[next - 2].term == f[p - 1].term
    requires forall x :: next - 1 <= x < |l| ==> l[x].term > f[p - 1].term
    ensures next <= p && (Sorted(f) ==> CommonPrefix(l, f) < next)
  {
    TermOnlyBelow(h, l, f, p, next - 1);
    SharedEntries(l, f);
    assert Sorted(f) && next < p ==> InOrder(f, next - 1, p - 1);
  }

  /** The leader sees nothing of the conflicting term above its snapshot; the follower has it from index q on. */
  lemma TermMissing(l: Log, snap: nat, f: Log, t: Term, q: nat)
    requires 0 < q <= |f| && f[q - 1].term == t
    requires forall x :: snap <= x < |l| ==> l[x].term != t
    ensures CommonPrefix(l, f) < q || q <= snap
  {
    SharedEntries(l, f);
  }

  lemma SourcedTerm(h: Hist, log: Log, p: nat)
    requires HistInv(h) && Sourced(h, log) && 0 < p <= |log|
    ensures log[p - 1].term >= 1
  {
    assert SourcedAt(h, log, p - 1);
    assert ReignInv(h, log[p - 1].term);
  }

  lemma ConflictTermCase(h: Hist, l: NodeState, f: NodeState, r: AppendRequest)
    requires Rejected(h, l, f, r) && r.prevIndex <= |f.log|
    ensures var a := Rejection(f, r);
            var next := ScanBack(l.log, l.snapIndex + 1, |l.log|, a.conflictTerm, a.conflictIndex);
            && a.conflictTerm >= 1 && 1 <= next <= r.prevIndex
            && (Rooted(h, f.log) ==> CommonPrefix(l.log, f.log) < next || next <= l.snapIndex)
  {
    var a, p := Rejection(f, r), r.prevIndex;
    RootedSorted(h, l.log);
    if Rooted(h, f.log) { RootedSorted(h, f.log); }
    SourcedTerm(h, f.log, p);
    hide HistInv, Rooted, CommonPrefix, Sorted, Contiguous, RunStart, ScanBack;
    RunStartSpec(f.log, f.snapIndex + 1, p);
    ScanBackSpec(l.log, l.snapIndex + 1, |l.log|, a.conflictTerm, a.conflictIndex);
    var next := ScanBack(l.log, l.snapIndex + 1, |l.log|, a.conflictTerm, a.conflictIndex);
    if 2 <= next <= |l.log| + 1 && l.log[next - 2].term == a.conflictTerm
       && forall x :: next - 1 <= x < |l.log| ==> l.log[x].term > a.conflictTerm {
      TermFound(h, l.log, f.log, p, next);
    } else {
      TermMissing(l.log, l.snapIndex, f.log, a.conflictTerm, next);
    }
  }

  /**
   * A rejection makes the next index strictly smaller than the one the request used; and with a follower
   * that has no stale suffix, it stays above the common prefix or falls to where the leader sends its
   * snapshot instead.
   */
  lemma BacktrackExact(h: Hist, l: NodeState, peer: NodeId, f: NodeState, r: AppendRequest)
    requires Rejected(h, l, f, r)
    ensures var next := NextAfter(l, peer, f, r);
            && 1 <= next < r.prevIndex + 1
            && (Rooted(h, f.log) ==> CommonPrefix(l.log, f.log) + 1 <= next || next <= l.snapIndex)
  {
    hide HistInv, Rooted, Sourced, CommonPrefix, ScanBack, RunStart;
    if r.prevIndex <= |f.log| { ConflictTermCase(h, l, f, r); }
  }

  // ---- In every run ----

  /**
   * In every run: follower j rejects request m, and the leader handles that reply later in the
   * same term. Its next index for j drops below the request's. If j had no stale suffix then, it stays above
   * the common prefix of the leader's log and the log j had, or the leader sends its snapshot next.
   */
  lemma RejectionBacktracks(voters: set<NodeId>, cs: seq<Cluster>, actions: seq<Action>,
                            b: nat, j: NodeId, m: Msg, e: nat, i: NodeId)
    requires IsRun(voters, cs, actions) && 0 !in voters && b <= e < |cs| && b < |actions|
    requires actions[b] == RecvAppend(j, m) && Enabled(cs[b], actions[b])
    requires m.areq.term >= cs[b].nodes[j].term && !HandleAppendEntries(cs[b].nodes[j], m.areq).1.success
    requires i in cs[e].nodes && cs[e].nodes[i].role == Leader && cs[e].nodes[i].term == m.areq.term
    ensures var l, f, reply := cs[e].nodes[i], cs[b].nodes[j], HandleAppendEntries(cs[b].nodes[j], m.areq).1;
            var next := Get(Backtrack(l, j, reply).nextIndex, j);
            && 1 <= next < m.areq.prevIndex + 1
            && (!HasStale(cs, actions, j, b) ==> CommonPrefix(l.log, f.log) + 1 <= next || next <= l.snapIndex)
  {
    hide *;
    EnabledRequest(cs[b], actions[b]);
    NodeAt(voters, cs, actions, b, j, e);
    NodeAt(voters, cs, actions, e, i, e);
    RequestSeen(voters, cs, actions, b, m, e);
    NodeSourced(cs[b].h, cs[b].nodes[j]);
    SourcedGrows(cs[b].h, cs[e].h, cs[b].nodes[j].log);
    StaleIff(voters, cs, actions, b, j);
    SameLog(cs[b].h, cs[e].h, cs[b].nodes[j]);
    OneRejection(cs[b].h, cs[b].nodes[j], cs[e].h, cs[e].nodes[i], m.areq, j);
  }

  lemma EnabledRequest(c: Cluster, a: Action)
    requires a.RecvAppend? && Enabled(c, a)
    ensures a.m in c.net && a.m.AppReq? && a.i in c.nodes
  {
  }

  lemma RequestSeen(voters: set<NodeId>, cs: seq<Cluster>, actions: seq<Action>, b: nat, m: Msg, e: nat)
    requires IsRun(voters, cs, actions) && 0 !in voters && b <= e < |cs| && m in cs[b].net && m.AppReq?
    ensures AppendInv(cs[e].h, m.areq)
  {
    hide *;
    ReachableInv(voters, cs, actions, b);
    RunGrows(voters, cs, actions, b, e);
    MsgOf(cs[b], m);
    MsgKept(cs[b].h, cs[e].h, m);
    AppendOf(cs[e].h, m);
  }

  lemma AppendOf(h: Hist, m: Msg)
    requires MsgInv(h, m) && m.AppReq?
    ensures AppendInv(h, m.areq)
  {
  }

  lemma OneRejection(h0: Hist, f: NodeState, h: Hist, l: NodeState, r: AppendRequest, j: NodeId)
    requires NodeInv(h0, f) && HistInv(h) && Sourced(h, f.log) && NodeInv(h, l) && l.role == Leader && l.term == r.term
    requires AppendInv(h, r) && r.term >= f.term && !HandleAppendEntries(f, r).1.success
    ensures var next := Get(Backtrack(l, j, HandleAppendEntries(f, r).1).nextIndex, j);
            && 1 <= next < r.prevIndex + 1
            && (Rooted(h, f.log) ==> CommonPrefix(l.log, f.log) + 1 <= next || next <= l.snapIndex)
  {
    hide Backtrack, Rejection, CommonPrefix, HistInv, Rooted, Sourced, AcksHeld, PastTerms, Committed;
    BacktrackExact(h, l, j, AcceptTerm(f, r.term, r.leader), r);
  }

  // ---- Repair ----

  /** The request a leader with this log sends when its next index for a peer is `next`. */
  function RequestAt(l: NodeState, next: nat): AppendRequest
    requires 1 <= next <= |l.log| + 1
  {
    AppendRequest(l.term, l.id, next - 1, TermOf(l.log, next - 1), l.log[next - 1..], l.commitIndex)
  }

  ghost predicate CanRepair(h: Hist, l: NodeState, f: NodeState, next: nat) {
    && HistInv(h) && Rooted(h, l.log) && Rooted(h, f.log)
    && l.snapIndex == 0 && f.snapIndex == 0
    && 1 <= next <= |l.log| + 1
  }

  datatype Outcome = Outcome(rejections: nat, next: nat)

  /**
   * The exchange between a leader and one follower whose logs do not change in the meantime:
   * how many requests are rejected, and the next index of the one that is accepted. There
   * are at most as many rejections as entries between the first request and the common prefix, and
   * none if the first request starts inside it.
   */
  ghost function Repair(h: Hist, l: NodeState, peer: NodeId, f: NodeState, next: nat): (o: Outcome)
    requires CanRepair(h, l, f, next)
    ensures var c := CommonPrefix(l.log, f.log);
            if next <= c + 1 then o == Outcome(0, next) else o.rejections <= next - 1 - c && c + 1 <= o.next <= next
    ensures 1 <= o.next <= |l.log| + 1 && Consistent(f, RequestAt(l, o.next))
    decreases next
  {
    var r := RequestAt(l, next);
    SharedEntries(l.log, f.log);
    if Consistent(f, r) then Outcome(0, next)
    else
      RootedSourced(h, f.log);
      assert Rejected(h, l, f, r);
      BacktrackExact(h, l, peer, f, r);
      var o := Repair(h, l, peer, f, NextAfter(l, peer, f, r));
      Outcome(o.rejections + 1, o.next)
  }

  /** Repair ends with the follower holding the leader's whole log. */
  lemma RepairEqualizes(h: Hist, l: NodeState, peer: NodeId, f: NodeState, next: nat)
    requires CanRepair(h, l, f, next)
    ensures var o := Repair(h, l, peer, f, next);
            l.log <= Accept(f, RequestAt(l, o.next)).log
  {
    hide HistInv, Rooted, CommonPrefix, Repair;
    var o := Repair(h, l, peer, f, next);
    var r := RequestAt(l, o.next);
    if r.prevIndex > 0 { LogMatching(h, f.log, l.log, r.prevIndex - 1); }
    assert r.entries == l.log[r.prevIndex..r.prevIndex + |r.entries|];
    RootedAgrees(h, f.log, l.log, 0);
    var _, _ := MergeIs(f.log, 0, 0, l.log, r.prevIndex, r.entries);
    assert l.log == l.log[..|l.log|];
  }

  // ---- Log Matching alone is not enough ----

  /**
   * Two logs can satisfy Log Matching between themselves and still make backtracking stall: the
   * leader finds the conflicting term after the rejected position and asks for a higher index.
   * No cluster reaches such a pair, because one leader wrote all entries of a term.
   */
  lemma PairwiseMatchingIsNotEnough(l: NodeState, f: NodeState, peer: NodeId)
    requires l.snapIndex == 0 && f.snapIndex == 0
    requires l.log == [Entry(1, 1, []), Entry(1, 2, []), Entry(3, 3, [])]
    requires f.log == [Entry(1, 1, []), Entry(3, 2, [])]
    ensures forall k :: 0 <= k < |l.log| && k < |f.log| && l.log[k].term == f.log[k].term ==>
              l.log[..k + 1] == f.log[..k + 1]
    ensures var r := RequestAt(l, 3);
            !Consistent(f, r) && NextAfter(l, peer, f, r) == 4
  {
    assert l.log[..1] == f.log[..1];
    assert RunStart(f.log, 1, 2) == 2;
    assert ScanBack(l.log, 1, 3, 3, 2) == 4;
  }
}
