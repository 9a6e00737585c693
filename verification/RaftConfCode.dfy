/** The loops of raft/confstate.go, proved against the definitions in RaftConf. */
module RaftConfCode {
  import opened Sequences
  import opened RaftTypes
  import opened RaftConf
  import opened NodeSpec
  import opened History

  // ---- sortedKeys ----

  ghost predicate Ascending(s: seq<NodeId>) {
    forall a, b :: 0 <= a < b < |s| ==> s[a] < s[b]
  }

  function Elems(s: seq<NodeId>): set<NodeId> { set x | x in s }

  method InsertAscending(s: seq<NodeId>, x: NodeId) returns (r: seq<NodeId>)
    requires Ascending(s) && x !in s
    ensures Ascending(r) && Elems(r) == Elems(s) + {x} && |r| == |s| + 1
  {
    var k := 0;
    while k < |s| && s[k] < x
      invariant 0 <= k <= |s|
      invariant forall a :: 0 <= a < k ==> s[a] < x
    {
      k := k + 1;
    }
    InsertMembers(s, k, x);
    r := Insert(s, k, x);
  }

  method SortedKeys(m: set<NodeId>) returns (out: seq<NodeId>)
    ensures Ascending(out) && Elems(out) == m && |out| == |m|
  {
    out := [];
    var rest := m;
    while rest != {}
      invariant rest <= m && Ascending(out) && Elems(out) == m - rest
      invariant |out| == |m| - |rest|
      decreases |rest|
    {
      var x :| x in rest;
      assert x !in Elems(out);
      rest := rest - {x};
      out := InsertAscending(out, x);
      assert m - rest == Elems(out);
    }
  }

  // ---- countGE, canCommit, MaxCommitIndex ----

  lemma HoldersAdd(ids: set<NodeId>, x: NodeId, matched: map<NodeId, nat>, idx: nat)
    requires x !in ids
    ensures |Holders(ids + {x}, matched, idx)|
         == |Holders(ids, matched, idx)| + if Get(matched, x) >= idx then 1 else 0
  {
    assert Holders(ids + {x}, matched, idx)
        == Holders(ids, matched, idx) + if Get(matched, x) >= idx then {x} else {};
  }

  lemma HoldersSnoc(ids: seq<NodeId>, k: nat, matched: map<NodeId, nat>, idx: nat)
    requires Ascending(ids) && k < |ids|
    ensures |Holders(Elems(ids[..k + 1]), matched, idx)|
         == |Holders(Elems(ids[..k]), matched, idx)| + if Get(matched, ids[k]) >= idx then 1 else 0
  {
    var seen, x := Elems(ids[..k]), ids[k];
    assert Elems(ids[..k + 1]) == seen + {x} && x !in seen by { assert ids[..k + 1] == ids[..k] + [x]; }
    HoldersAdd(seen, x, matched, idx);
  }

  method CountGE(ids: seq<NodeId>, matched: map<NodeId, nat>, idx: nat) returns (n: nat)
    requires Ascending(ids)
    ensures n == |Holders(Elems(ids), matched, idx)|
  {
    n := 0;
    var k := 0;
    assert Holders(Elems(ids[..0]), matched, idx) == {};
    while k < |ids|
      invariant 0 <= k <= |ids|
      invariant n == |Holders(Elems(ids[..k]), matched, idx)|
    {
      HoldersSnoc(ids, k, matched, idx);
      if Get(matched, ids[k]) >= idx {
        n := n + 1;
      }
      k := k + 1;
    }
    assert ids[..k] == ids;
  }

  method CanCommit(c: ConfState, idx: nat, matched: map<NodeId, nat>) returns (ok: bool)
    ensures ok == c.CanCommit(idx, matched) == HeldByMost(c, matched, idx)
  {
    var voters := SortedKeys(c.voters);
    var n := CountGE(voters, matched, idx);
    if !c.InJoint() {
      return n >= Majority(|c.voters|);
    }
    var joint := SortedKeys(c.joint);
    var nj := CountGE(joint, matched, idx);
    ok := nj >= Majority(|c.joint|) && n >= Majority(|c.voters|);
  }

  ghost predicate Descending(s: seq<nat>) {
    forall a, b :: 0 <= a < b < |s| ==> s[a] >= s[b]
  }

  method InsertDescending(s: seq<nat>, x: nat) returns (r: seq<nat>)
    requires Descending(s)
    ensures Descending(r) && multiset(r) == multiset(s) + multiset{x}
  {
    var k := 0;
    while k < |s| && s[k] >= x
      invariant 0 <= k <= |s|
      invariant forall a :: 0 <= a < k ==> s[a] >= x
    {
      k := k + 1;
    }
    InsertBag(s, k, x);
    r := Insert(s, k, x);
  }

  /** sort.Slice in descending order. */
  method SortDescending(s: seq<nat>) returns (r: seq<nat>)
    ensures Descending(r) && multiset(r) == multiset(s)
  {
    r := [];
    var i := 0;
    while i < |s|
      invariant 0 <= i <= |s| && Descending(r) && multiset(r) == multiset(s[..i])
    {
      assert s[..i + 1] == s[..i] + [s[i]];
      r := InsertDescending(r, s[i]);
      i := i + 1;
    }
    assert s[..i] == s;
  }

  /** Among the holders of an index there is one with the least match index. */
  lemma {:induction false} LeastHolder(s: set<NodeId>, matched: map<NodeId, nat>) returns (p: NodeId)
    requires s != {}
    ensures p in s && forall q :: q in s ==> Get(matched, p) <= Get(matched, q)
  {
    var x :| x in s;
    if s == {x} {
      p := x;
    } else {
      var p' := LeastHolder(s - {x}, matched);
      p := if Get(matched, p') <= Get(matched, x) then p' else x;
      forall q | q in s ensures Get(matched, p) <= Get(matched, q) {
        if q != x { assert q in s - {x}; }
      }
    }
  }

  /** If some index can be committed, so can one of the recorded match indices at or above it. */
  lemma SomeMatchCommits(c: ConfState, matched: map<NodeId, nat>, i: nat) returns (p: NodeId)
    requires HeldByMost(c, matched, i)
    ensures p in c.AllPeers() && Get(matched, p) >= i && HeldByMost(c, matched, Get(matched, p))
  {
    var all := Holders(c.AllPeers(), matched, i);
    assert Holders(c.voters, matched, i) <= all;
    assert |Holders(c.voters, matched, i)| >= 1;
    p := LeastHolder(all, matched);
    var v := Get(matched, p);
    assert Holders(c.voters, matched, i) == Holders(c.voters, matched, v) by {
      assert forall q :: q in Holders(c.voters, matched, i) ==> q in all;
    }
    if c.InJoint() {
      assert Holders(c.joint, matched, i) == Holders(c.joint, matched, v) by {
        assert forall q :: q in Holders(c.joint, matched, i) ==> q in all;
      }
    }
  }

  /** Tries the recorded match indices from the greatest down. */
  method MaxCommitIndex(c: ConfState, matched: map<NodeId, nat>) returns (r: nat)
    ensures IsMaxCommit(c, matched, r) && r == MaxCommit(c, matched)
  {
    var ids := SortedKeys(c.AllPeers());
    var vals: seq<nat> := [];
    var k := 0;
    while k < |ids|
      invariant 0 <= k <= |ids| && |vals| == k
      invariant forall a :: 0 <= a < k ==> vals[a] == Get(matched, ids[a])
    {
      vals := vals + [Get(matched, ids[k])];
      k := k + 1;
    }
    var sorted := SortDescending(vals);
    k := 0;
    while k < |sorted|
      invariant 0 <= k <= |sorted|
      invariant forall a :: 0 <= a < k && sorted[a] > 0 ==> !HeldByMost(c, matched, sorted[a])
    {
      if sorted[k] != 0 {
        var ok := CanCommit(c, sorted[k], matched);
        if ok {
          r := sorted[k];
          NoneGreater(c, matched, ids, vals, sorted, k, r);
          MaxCommitUnique(c, matched, r, MaxCommit(c, matched));
          return;
        }
      }
      k := k + 1;
    }
    r := 0;
    NoneGreater(c, matched, ids, vals, sorted, k, r);
    MaxCommitUnique(c, matched, r, MaxCommit(c, matched));
  }

  lemma NoneGreater(c: ConfState, matched: map<NodeId, nat>, ids: seq<NodeId>, vals: seq<nat>, sorted: seq<nat>,
                    k: nat, r: nat)
    requires Elems(ids) == c.AllPeers() && |vals| == |ids|
    requires forall a :: 0 <= a < |ids| ==> vals[a] == Get(matched, ids[a])
    requires Descending(sorted) && multiset(sorted) == multiset(vals)
    requires k <= |sorted| && (k < |sorted| ==> r == sorted[k])
    requires forall a :: 0 <= a < k && sorted[a] > 0 ==> !HeldByMost(c, matched, sorted[a])
    ensures forall i :: i > r ==> !HeldByMost(c, matched, i)
  {
    forall i | i > r ensures !HeldByMost(c, matched, i) {
      if HeldByMost(c, matched, i) {
        var p := SomeMatchCommits(c, matched, i);
        var b := SortedAway(matched, ids, vals, sorted, p);
      }
    }
  }

  /** Sorting lost no match index. */
  lemma SortedAway(matched: map<NodeId, nat>, ids: seq<NodeId>, vals: seq<nat>, sorted: seq<nat>, p: NodeId)
    returns (b: nat)
    requires p in Elems(ids) && |vals| == |ids| && multiset(sorted) == multiset(vals)
    requires forall a :: 0 <= a < |ids| ==> vals[a] == Get(matched, ids[a])
    ensures b < |sorted| && sorted[b] == Get(matched, p)
  {
    var a :| 0 <= a < |ids| && ids[a] == p;
    assert vals[a] in multiset(vals);
    assert vals[a] in sorted;
    b :| 0 <= b < |sorted| && sorted[b] == vals[a];
  }

  // ---- The commit rule ----

  /**
   * Looking only at the highest index a majority holds is enough: on a log with nondecreasing
   * terms, advanceCommitLocked advances exactly when some index above the commit index is
   * held by a majority and is of the current term, and then it advances to the greatest such.
   */
  lemma CommitRuleIsOptimal(c: ConfState, s: NodeState)
    requires Sorted(s.log) && s.snapIndex <= s.commitIndex
    requires forall k :: 0 <= k < |s.log| ==> s.log[k].term <= s.term
    requires forall p :: p in c.voters ==> Get(s.matchIndex, p) <= |s.log|
    ensures var s' := AdvanceIn(c, s);
            && (s'.commitIndex > s.commitIndex <==> exists i: nat :: s.commitIndex < i && Committable(c, s, i))
            && (s'.commitIndex > s.commitIndex ==> Committable(c, s, s'.commitIndex))
            && (forall i: nat :: Committable(c, s, i) ==> i <= s'.commitIndex)
            && s'.commitIndex >= s.commitIndex
  {
    var s' := AdvanceIn(c, s);
    var m := MaxCommit(c, s.matchIndex);
    forall i: nat | i > |s.log| ensures !HeldByMost(c, s.matchIndex, i) { NoneAbove(c, s.matchIndex, i); }
    assert s'.commitIndex > s.commitIndex ==> Committable(c, s, s'.commitIndex);
    forall i: nat | Committable(c, s, i) ensures i <= s'.commitIndex {
      assert i <= m;
      if i < m { assert InOrder(s.log, i - 1, m - 1); }
    }
  }

  /** The required majorities hold index i and its entry is of the current term. */
  ghost predicate Committable(c: ConfState, s: NodeState, i: nat) {
    HeldByMost(c, s.matchIndex, i) && 0 < i <= |s.log| && s.log[i - 1].term == s.term
  }
}
