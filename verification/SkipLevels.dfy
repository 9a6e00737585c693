/**
 * The arithmetic of a skip list's levels. `hs` lists the heights of the nodes in level-0 order,
 * the head first; at level j a node's successor is the next one taller than j.
 */
module SkipLevels {
  import opened Sequences

  /** The next position after a with height above j, or the length when there is none. */
  function Succ(hs: seq<nat>, a: nat, j: nat): (r: nat)
    requires a < |hs|
    ensures a < r <= |hs|
    ensures r < |hs| ==> hs[r] > j
    ensures forall c :: a < c < r ==> hs[c] <= j
    decreases |hs| - a
  {
    if a + 1 == |hs| || hs[a + 1] > j then a + 1 else Succ(hs, a + 1, j)
  }

  lemma SuccUnique(hs: seq<nat>, a: nat, j: nat, r: nat)
    requires a < r <= |hs| && (r < |hs| ==> hs[r] > j) && forall c :: a < c < r ==> hs[c] <= j
    ensures Succ(hs, a, j) == r
  {
  }

  /** Where position a of the old list is after an insertion at p. */
  function Shift(a: nat, p: nat): nat {
    if a < p then a else a + 1
  }

  lemma InsertAt<T>(s: seq<T>, p: nat, x: T)
    requires p <= |s|
    ensures |Insert(s, p, x)| == |s| + 1 && Insert(s, p, x)[p] == x
    ensures forall a :: 0 <= a < |s| ==> Insert(s, p, x)[Shift(a, p)] == s[a]
  {
  }

  /** The successor of an old node: unchanged, unless the new node steps in between. */
  lemma SuccOfOld(hs: seq<nat>, p: nat, h: nat, a: nat, j: nat)
    requires 0 < p <= |hs| && a < |hs|
    ensures Succ(Insert(hs, p, h), Shift(a, p), j)
         == if a < p <= Succ(hs, a, j) && h > j then p else Shift(Succ(hs, a, j), p)
  {
    var s := Succ(hs, a, j);
    var hs' := Insert(hs, p, h);
    var r := if a < p <= s && h > j then p else Shift(s, p);
    forall c | Shift(a, p) < c < r ensures hs'[c] <= j {
      if c < p { assert hs'[c] == hs[c]; } else if c > p { assert hs'[c] == hs[c - 1]; }
    }
    SuccUnique(hs', Shift(a, p), j, r);
  }

  /** The successor of the new node is that of the last taller node before it. */
  lemma SuccOfNew(hs: seq<nat>, p: nat, h: nat, u: nat, j: nat)
    requires u < p <= |hs| && Succ(hs, u, j) >= p
    ensures Succ(Insert(hs, p, h), p, j) == Succ(hs, u, j) + 1
  {
    var s := Succ(hs, u, j);
    var hs' := Insert(hs, p, h);
    forall c | p < c < s + 1 ensures hs'[c] <= j { assert hs'[c] == hs[c - 1]; }
    SuccUnique(hs', p, j, s + 1);
  }

  /** Only one node before p reaches past p at level j. */
  lemma OneReaches(hs: seq<nat>, p: nat, u: nat, a: nat, j: nat)
    requires u < p <= |hs| && a < p && hs[u] > j && hs[a] > j
    requires Succ(hs, u, j) >= p && Succ(hs, a, j) >= p
    ensures a == u
  {
  }
}
