/** The skip list of storage/memtable.go, node by node, proved against a sorted list. */
module Memtable {
  import opened Bytes
  import opened Keys
  import opened Sequences
  import opened SkipLevels

  const MAX_HEIGHT: nat := 12

  class SkipNode {
    const key: Bytes
    var value: Bytes
    var tombstone: bool
    var next: seq<SkipNode?>

    constructor (key: Bytes, value: Bytes, tombstone: bool, height: nat)
      ensures this.key == key && this.value == value && this.tombstone == tombstone
      ensures next == seq(height, i => null)
    {
      this.key, this.value, this.tombstone := key, value, tombstone;
      next := seq(height, i => null);
    }
  }

  /** A height between 1 and the maximum; nothing else is known of it. */
  method RandomHeight() returns (h: nat)
    ensures 1 <= h <= MAX_HEIGHT
  {
    h := 1;
    var more: bool := *;
    while h < MAX_HEIGHT && more
      invariant 1 <= h <= MAX_HEIGHT
    {
      h := h + 1;
      more := *;
    }
  }

  /** Bytes charged for a list of entries: key, value and 32 for each. */
  function Cost(s: seq<KV>): nat {
    if s == [] then 0 else Cost(s[..|s| - 1]) + |s[|s| - 1].key| + |s[|s| - 1].value| + 32
  }

  lemma {:induction false} CostSplit(a: seq<KV>, b: seq<KV>)
    ensures Cost(a + b) == Cost(a) + Cost(b)
  {
    if b == [] {
      assert a + b == a;
    } else {
      var n := |b| - 1;
      CostSplit(a, b[..n]);
      assert (a + b)[..|a + b| - 1] == a + b[..n];
    }
  }

  lemma CostOne(e: KV)
    ensures Cost([e]) == |e.key| + |e.value| + 32
  {
    assert Cost([e][..0]) == 0;
  }

  lemma CostInsert(s: seq<KV>, k: nat, e: KV)
    requires k <= |s|
    ensures Cost(Insert(s, k, e)) == Cost(s) + |e.key| + |e.value| + 32
  {
    CostSplit(s[..k] + [e], s[k..]);
    CostSplit(s[..k], [e]);
    CostSplit(s[..k], s[k..]);
    assert s[..k] + s[k..] == s;
    CostOne(e);
  }

  lemma CostReplace(s: seq<KV>, k: nat, e: KV)
    requires k < |s| && e.key == s[k].key
    ensures Cost(s[k := e]) == Cost(s) - |s[k].value| + |e.value|
  {
    var rest := s[..k] + s[k + 1..];
    assert s[k := e] == Insert(rest, k, e);
    assert s == Insert(rest, k, s[k]);
    CostInsert(rest, k, e);
    CostInsert(rest, k, s[k]);
  }

  class Memtable {
    const head: SkipNode
    var size: int
    var count: nat

    ghost var nodes: seq<SkipNode>  // level 0, the head first
    ghost var heights: seq<nat>
    ghost var items: seq<KV>        // what the nodes after the head hold

    /** The node at position b, or null past the end. */
    ghost function At(b: nat): SkipNode?
      reads this
    {
      if b < |nodes| then nodes[b] else null
    }

    ghost predicate LinkOk(a: nat, j: nat)
      requires a < |nodes| && |heights| == |nodes| && j < |nodes[a].next|
      reads this, nodes
    {
      nodes[a].next[j] == At(Succ(heights, a, j))
    }

    ghost predicate NodeOk(a: nat)
      requires a < |nodes| && |heights| == |nodes|
      reads this, nodes
    {
      heights[a] == |nodes[a].next| && 1 <= heights[a] <= MAX_HEIGHT
    }

    ghost predicate ItemOk(a: nat)
      requires a < |items| && |nodes| == |items| + 1
      reads this, nodes
    {
      items[a] == KV(nodes[a + 1].key, nodes[a + 1].value, nodes[a + 1].tombstone)
    }

    ghost predicate Shape()
      reads this
    {
      && |nodes| == |items| + 1 && |heights| == |nodes|
      && nodes[0] == head && heights[0] == MAX_HEIGHT
      && (forall a, b :: 0 <= a < b < |nodes| ==> nodes[a] != nodes[b])
      && Ordered(items)
      && size == Cost(items) && count == |items|
    }

    ghost predicate Valid()
      reads this, nodes
    {
      && Shape()
      && (forall a :: 0 <= a < |nodes| ==> NodeOk(a))
      && (forall a :: 0 <= a < |items| ==> ItemOk(a))
      && (forall a, j :: 0 <= a < |nodes| && 0 <= j < |nodes[a].next| ==> LinkOk(a, j))
    }

    lemma ItemsOrdered()
      requires Valid()
      ensures Ordered(items)
    {
    }

    constructor ()
      ensures Valid() && fresh(nodes) && items == []
    {
      var h := new SkipNode([], [], false, MAX_HEIGHT);
      head := h;
      size, count := 0, 0;
      nodes, heights, items := [h], [MAX_HEIGHT], [];
    }

    /**
     * One level of the search: from node x at position a, go right while the next key is smaller.
     */
    method SearchLevel(x: SkipNode, ghost a: nat, key: Bytes, i: nat) returns (y: SkipNode, ghost b: nat)
      requires Valid() && a < |nodes| && nodes[a] == x && i < heights[a]
      requires a == 0 || Less(items[a - 1].key, key)
      ensures a <= b < |nodes| && nodes[b] == y && i < heights[b]
      ensures b == 0 || Less(items[b - 1].key, key)
      ensures Succ(heights, b, i) < |nodes| ==> !Less(items[Succ(heights, b, i) - 1].key, key)
    {
      y, b := x, a;
      assert NodeOk(b) && LinkOk(b, i);
      while y.next[i] != null && Less(y.next[i].key, key)
        invariant a <= b < |nodes| && nodes[b] == y && i < heights[b]
        invariant i < |y.next| && y.next[i] == At(Succ(heights, b, i))
        invariant b == 0 || Less(items[b - 1].key, key)
        decreases |nodes| - b
      {
        y := y.next[i];
        b := Succ(heights, b, i);
        assert NodeOk(b) && LinkOk(b, i) && ItemOk(b - 1);
      }
      if Succ(heights, b, i) < |nodes| { assert ItemOk(Succ(heights, b, i) - 1); }
    }

    /** At level 0 the search ends where the key splits the list. */
    lemma SplitsHere(a: nat, key: Bytes)
      requires Valid() && a < |nodes| && (a == 0 || Less(items[a - 1].key, key))
      requires Succ(heights, a, 0) < |nodes| ==> !Less(items[Succ(heights, a, 0) - 1].key, key)
      ensures Splits(items, key, a) && Succ(heights, a, 0) == a + 1
    {
      assert a + 1 < |nodes| ==> NodeOk(a + 1);
      forall c | 0 <= c < a ensures Less(items[c].key, key) {
        if c < a - 1 {
          assert Before(items, c, a - 1);
          LessTransitive(items[c].key, items[a - 1].key, key);
        }
      }
      forall c | a <= c < |items| ensures !Less(items[c].key, key) {
        if c > a && Less(items[c].key, key) {
          assert Before(items, a, c);
          LessTransitive(items[a].key, items[c].key, key);
        }
      }
    }

    method Get(key: Bytes) returns (r: Option<KV>)
      requires Valid()
      ensures r == Find(items, key)
    {
      var x := head;
      ghost var a := 0;
      var i := MAX_HEIGHT;
      assert NodeOk(0);
      while i > 0
        invariant 0 <= i <= MAX_HEIGHT && a < |nodes| && nodes[a] == x
        invariant i > 0 ==> i - 1 < heights[a]
        invariant a == 0 || Less(items[a - 1].key, key)
        invariant i == 0 ==> Succ(heights, a, 0) < |nodes| ==> !Less(items[Succ(heights, a, 0) - 1].key, key)
      {
        i := i - 1;
        x, a := SearchLevel(x, a, key, i);
      }
      SplitsHere(a, key);
      assert NodeOk(a) && LinkOk(a, 0);
      FindIs(items, key);
      var n := x.next[0];
      if n != null {
        assert ItemOk(a);
      }
      if n != null && n.key == key {
        FindAt(items, a);
        return Some(KV(n.key, n.value, n.tombstone));
      }
      if Find(items, key).Some? {
        var c :| 0 <= c < |items| && items[c] == Find(items, key).value;
        LessIrreflexive(key);
        if c > a { AfterSplit(items, key, a, c); }
      }
      r := None;
    }

    /** All entries in key order, by walking level 0. */
    method Entries() returns (out: seq<KV>)
      requires Valid()
      ensures out == items
    {
      out := [];
      assert NodeOk(0) && LinkOk(0, 0);
      var n := head.next[0];
      ghost var a := 0;
      assert |nodes| > 1 ==> NodeOk(1);
      while n != null
        invariant a < |nodes| && out == items[..a] && n == At(a + 1)
        decreases |nodes| - a
      {
        assert ItemOk(a) && NodeOk(a + 1) && LinkOk(a + 1, 0);
        assert a + 2 < |nodes| ==> NodeOk(a + 2);
        out := out + [KV(n.key, n.value, n.tombstone)];
        n := n.next[0];
        a := a + 1;
      }
    }

    // ---- put ----

    /** u is where a search for the key leaves level j: the last node before p taller than j. */
    ghost predicate StopsAt(u: nat, j: nat, p: nat)
      requires |heights| == |nodes|
      reads this
    {
      u < p <= |nodes| && heights[u] > j && Succ(heights, u, j) >= p
    }

    /** The search of put, which also remembers the node where each level stopped. */
    method FindPath(key: Bytes) returns (update: seq<SkipNode>, x: SkipNode, ghost stops: seq<nat>, ghost a: nat)
      requires Valid()
      ensures a < |nodes| && nodes[a] == x && Splits(items, key, a)
      ensures |update| == |stops| == MAX_HEIGHT
      ensures forall j :: 0 <= j < MAX_HEIGHT ==> StopsAt(stops[j], j, a + 1) && update[j] == nodes[stops[j]]
    {
      x, a := head, 0;
      update, stops := seq(MAX_HEIGHT, j => head), seq(MAX_HEIGHT, j => 0);
      var i := MAX_HEIGHT;
      assert NodeOk(0);
      while i > 0
        invariant 0 <= i <= MAX_HEIGHT && a < |nodes| && nodes[a] == x
        invariant i > 0 ==> i - 1 < heights[a]
        invariant a == 0 || Less(items[a - 1].key, key)
        invariant i == 0 ==> Succ(heights, a, 0) < |nodes| ==> !Less(items[Succ(heights, a, 0) - 1].key, key)
        invariant |update| == |stops| == MAX_HEIGHT
        invariant forall j :: i <= j < MAX_HEIGHT ==> Passed(stops[j], j, a, key) && update[j] == nodes[stops[j]]
      {
        i := i - 1;
        x, a := SearchLevel(x, a, key, i);
        update, stops := update[i := x], stops[i := a];
      }
      SplitsHere(a, key);
      forall j | 0 <= j < MAX_HEIGHT ensures StopsAt(stops[j], j, a + 1) {
        assert Passed(stops[j], j, a, key);
      }
    }

    /** Level j stopped at u, at or before position a, with nothing smaller than the key to its right. */
    ghost predicate Passed(u: nat, j: nat, a: nat, key: Bytes)
      requires |heights| == |nodes| == |items| + 1
      reads this
    {
      && u <= a < |nodes| && heights[u] > j
      && (Succ(heights, u, j) < |nodes| ==> !Less(items[Succ(heights, u, j) - 1].key, key))
    }

    /** Node a at level j after the first `upTo` levels have been linked. */
    ghost predicate Linked(a: nat, j: nat, upTo: nat, n: SkipNode, stops: seq<nat>)
      requires a < |nodes| && |heights| == |nodes| && upTo <= |stops|
      reads this, nodes
    {
      && j < |nodes[a].next|
      && nodes[a].next[j] == if j < upTo && a == stops[j] then n else At(Succ(heights, a, j))
    }

    /** The new node at level j takes over the successor of the node where the search stopped. */
    ghost predicate Inherits(n: SkipNode, j: nat, stops: seq<nat>)
      requires |heights| == |nodes|
      reads this, n
    {
      j < |n.next| && j < |stops| && stops[j] < |nodes| && n.next[j] == At(Succ(heights, stops[j], j))
    }

    /** The loop that links a new node in: level by level, after the node where the search stopped. */
    method Splice(n: SkipNode, h: nat, update: seq<SkipNode>, ghost stops: seq<nat>, ghost p: nat)
      requires Valid() && n !in nodes && |n.next| == h <= MAX_HEIGHT && p <= |nodes|
      requires |update| == |stops| == MAX_HEIGHT
      requires forall j :: 0 <= j < h ==> StopsAt(stops[j], j, p) && update[j] == nodes[stops[j]]
      modifies n`next, (set x | x in nodes)`next
      ensures |n.next| == h && forall j :: 0 <= j < h ==> Inherits(n, j, stops)
      ensures forall a :: 0 <= a < |nodes| ==> NodeOk(a)
      ensures forall a, j :: 0 <= a < |nodes| && 0 <= j < heights[a] ==> Linked(a, j, h, n, stops)
    {
      forall a, j | 0 <= a < |nodes| && 0 <= j < heights[a] ensures Linked(a, j, 0, n, stops) {
        assert NodeOk(a) && LinkOk(a, j);
      }
      var i := 0;
      while i < h
        invariant 0 <= i <= h && |n.next| == h
        invariant forall j :: 0 <= j < i ==> Inherits(n, j, stops)
        invariant forall a :: 0 <= a < |nodes| ==> NodeOk(a)
        invariant forall a, j :: 0 <= a < |nodes| && 0 <= j < heights[a] ==> Linked(a, j, i, n, stops)
      {
        SpliceLevel(n, i, i + 1, update[i], stops, p);
        i := i + 1;
      }
    }

    method SpliceLevel(n: SkipNode, i: nat, ghost i1: nat, u: SkipNode, ghost stops: seq<nat>, ghost p: nat)
      requires Shape() && n !in nodes && i < |n.next| <= MAX_HEIGHT == |stops| && p <= |nodes| && i1 == i + 1
      requires StopsAt(stops[i], i, p) && u == nodes[stops[i]]
      requires forall j :: 0 <= j < i ==> Inherits(n, j, stops)
      requires forall a :: 0 <= a < |nodes| ==> NodeOk(a)
      requires forall a, j :: 0 <= a < |nodes| && 0 <= j < heights[a] ==> Linked(a, j, i, n, stops)
      modifies n`next, u`next
      ensures |n.next| == old(|n.next|)
      ensures forall j :: 0 <= j < i1 ==> Inherits(n, j, stops)
      ensures forall a :: 0 <= a < |nodes| ==> NodeOk(a)
      ensures forall a, j :: 0 <= a < |nodes| && 0 <= j < heights[a] ==> Linked(a, j, i1, n, stops)
    {
      assert NodeOk(stops[i]) && Linked(stops[i], i, i, n, stops);
      n.next := n.next[i := u.next[i]];
      u.next := u.next[i := n];
      forall j | 0 <= j < i1 ensures Inherits(n, j, stops) {
        if j < i { assert old(Inherits(n, j, stops)); }
      }
      forall a | 0 <= a < |nodes| ensures NodeOk(a) { assert old(NodeOk(a)); }
      forall a, j | 0 <= a < |nodes| && 0 <= j < heights[a] ensures Linked(a, j, i1, n, stops) {
        assert old(Linked(a, j, i, n, stops));
      }
    }

    /** Replaces the entry at position a + 1, whose key is the one searched for. */
    method Overwrite(n: SkipNode, value: Bytes, tombstone: bool, ghost a: nat)
      requires Valid() && a < |items| && n == nodes[a + 1]
      modifies this`size, this`items, n`value, n`tombstone
      ensures Valid() && items == old(items)[a := KV(n.key, value, tombstone)]
    {
      assert ItemOk(a);
      ghost var e := KV(n.key, value, tombstone);
      CostReplace(items, a, e);
      size := size + |value| - |n.value|;
      n.value := value;
      n.tombstone := tombstone;
      items := items[a := e];
      forall x, y | 0 <= x < y < |items| ensures Before(items, x, y) { assert Before(old(items), x, y); }
      forall x | 0 <= x < |nodes| ensures NodeOk(x) { assert old(NodeOk(x)); }
      forall x | 0 <= x < |items| ensures ItemOk(x) { assert old(ItemOk(x)); }
      forall x, j | 0 <= x < |nodes| && 0 <= j < |nodes[x].next| ensures LinkOk(x, j) { assert old(LinkOk(x, j)); }
    }

    static function Pick(ns: seq<SkipNode>, b: nat): SkipNode? {
      if b < |ns| then ns[b] else null
    }

    /** Positions after the new node n was put at p. */
    ghost predicate Inserted(ns: seq<SkipNode>, hs: seq<nat>, p: nat, n: SkipNode, h: nat)
      reads this
    {
      |hs| == |ns| && 0 < p <= |ns| && nodes == Insert(ns, p, n) && heights == Insert(hs, p, h)
    }

    lemma NewLink(ns: seq<SkipNode>, hs: seq<nat>, p: nat, n: SkipNode, h: nat, u: nat, j: nat)
      requires Inserted(ns, hs, p, n, h) && u < p && Succ(hs, u, j) >= p
      requires j < |n.next| && n.next[j] == Pick(ns, Succ(hs, u, j))
      ensures nodes[p] == n && LinkOk(p, j)
    {
      InsertAt(ns, p, n);
      SuccOfNew(hs, p, h, u, j);
    }

    lemma OldLink(ns: seq<SkipNode>, hs: seq<nat>, p: nat, n: SkipNode, h: nat, u: nat, a: nat, j: nat)
      requires Inserted(ns, hs, p, n, h) && a < |ns| && j < hs[a] && j < |ns[a].next|
      requires j < h ==> u < p && hs[u] > j && Succ(hs, u, j) >= p
      requires ns[a].next[j] == if j < h && a == u then n else Pick(ns, Succ(hs, a, j))
      ensures var b := Shift(a, p); b < |nodes| && nodes[b] == ns[a] && LinkOk(b, j)
    {
      InsertAt(ns, p, n);
      SuccOfOld(hs, p, h, a, j);
      if a < p <= Succ(hs, a, j) && j < h { OneReaches(hs, p, u, a, j); }
    }

    /** Every link of the old nodes and of n is already the one it must be once n is at p. */
    static ghost predicate Ready(ns: seq<SkipNode>, hs: seq<nat>, p: nat, n: SkipNode, h: nat, stops: seq<nat>)
      reads ns, n
    {
      && |hs| == |ns| && 0 < p <= |ns| && |stops| == MAX_HEIGHT && 1 <= h == |n.next| <= MAX_HEIGHT
      && (forall a :: 0 <= a < |ns| ==> HeightIs(ns, hs, a))
      && (forall j :: 0 <= j < h ==> NewReady(ns, hs, p, n, stops, j))
      && (forall a, j :: 0 <= a < |ns| && 0 <= j < hs[a] ==> OldReady(ns, hs, n, h, stops, a, j))
    }

    static ghost predicate HeightIs(ns: seq<SkipNode>, hs: seq<nat>, a: nat)
      requires |hs| == |ns| && a < |ns|
      reads ns
    {
      hs[a] == |ns[a].next| && 1 <= hs[a] <= MAX_HEIGHT
    }

    static ghost predicate NewReady(ns: seq<SkipNode>, hs: seq<nat>, p: nat, n: SkipNode, stops: seq<nat>, j: nat)
      requires |hs| == |ns| && j < |n.next| && j < |stops| && p <= |ns|
      reads n
    {
      var u := stops[j];
      u < p && hs[u] > j && Succ(hs, u, j) >= p && n.next[j] == Pick(ns, Succ(hs, u, j))
    }

    static ghost predicate OldReady(ns: seq<SkipNode>, hs: seq<nat>, n: SkipNode, h: nat, stops: seq<nat>,
                                    a: nat, j: nat)
      requires |hs| == |ns| && h <= |stops| && a < |ns|
      reads ns
    {
      j < |ns[a].next| && ns[a].next[j] == if j < h && a == stops[j] then n else Pick(ns, Succ(hs, a, j))
    }

    lemma SplicedIsReady(p: nat, n: SkipNode, h: nat, stops: seq<nat>)
      requires |heights| == |nodes| && 0 < p <= |nodes| && |stops| == MAX_HEIGHT && 1 <= h == |n.next| <= MAX_HEIGHT
      requires forall a :: 0 <= a < |nodes| ==> NodeOk(a)
      requires forall j :: 0 <= j < h ==> Inherits(n, j, stops) && StopsAt(stops[j], j, p)
      requires forall a, j :: 0 <= a < |nodes| && 0 <= j < heights[a] ==> Linked(a, j, h, n, stops)
      ensures Ready(nodes, heights, p, n, h, stops)
    {
      forall a | 0 <= a < |nodes| ensures HeightIs(nodes, heights, a) { assert NodeOk(a); }
      forall j | 0 <= j < h ensures NewReady(nodes, heights, p, n, stops, j) {
        assert Inherits(n, j, stops) && StopsAt(stops[j], j, p);
      }
      forall a, j | 0 <= a < |nodes| && 0 <= j < heights[a] ensures OldReady(nodes, heights, n, h, stops, a, j) {
        assert Linked(a, j, h, n, stops);
      }
    }

    lemma ReadyIsLinked(ns: seq<SkipNode>, hs: seq<nat>, p: nat, n: SkipNode, h: nat, stops: seq<nat>)
      requires Inserted(ns, hs, p, n, h) && Ready(ns, hs, p, n, h, stops)
      ensures |heights| == |nodes|
      ensures forall b :: 0 <= b < |nodes| ==> NodeOk(b)
      ensures forall b, j :: 0 <= b < |nodes| && 0 <= j < |nodes[b].next| ==> LinkOk(b, j)
    {
      InsertAt(ns, p, n);
      InsertAt(hs, p, h);
      forall b | 0 <= b < |nodes| ensures NodeOk(b) {
        if b != p { assert HeightIs(ns, hs, if b < p then b else b - 1); }
      }
      forall b, j | 0 <= b < |nodes| && 0 <= j < |nodes[b].next| ensures LinkOk(b, j) {
        if b == p {
          assert NewReady(ns, hs, p, n, stops, j);
          NewLink(ns, hs, p, n, h, stops[j], j);
        } else {
          var a := if b < p then b else b - 1;
          assert Shift(a, p) == b && HeightIs(ns, hs, a) && OldReady(ns, hs, n, h, stops, a, j);
          if j < h { assert NewReady(ns, hs, p, n, stops, j); }
          OldLink(ns, hs, p, n, h, if j < MAX_HEIGHT then stops[j] else 0, a, j);
        }
      }
    }

    /** Items and nodes correspond, as a fact about fixed lists. */
    static ghost predicate Holds(ns: seq<SkipNode>, its: seq<KV>)
      reads ns
    {
      |ns| == |its| + 1 && forall a :: 0 <= a < |its| ==> HoldsAt(ns, its, a)
    }

    static ghost predicate HoldsAt(ns: seq<SkipNode>, its: seq<KV>, a: nat)
      requires a < |its| && |ns| == |its| + 1
      reads ns
    {
      its[a] == KV(ns[a + 1].key, ns[a + 1].value, ns[a + 1].tombstone)
    }

    lemma ItemsHold()
      requires |nodes| == |items| + 1 && forall a :: 0 <= a < |items| ==> ItemOk(a)
      ensures Holds(nodes, items)
    {
      forall a | 0 <= a < |items| ensures HoldsAt(nodes, items, a) { assert ItemOk(a); }
    }

    lemma ItemsAfterInsert(ns: seq<SkipNode>, its: seq<KV>, a: nat, n: SkipNode)
      requires Holds(ns, its) && a <= |its|
      requires nodes == Insert(ns, a + 1, n) && items == Insert(its, a, KV(n.key, n.value, n.tombstone))
      ensures |nodes| == |items| + 1 && forall b :: 0 <= b < |items| ==> ItemOk(b)
    {
      forall b | 0 <= b < |items| ensures ItemOk(b) {
        if b < a { assert HoldsAt(ns, its, b); } else if b > a { assert HoldsAt(ns, its, b - 1); }
      }
    }

    lemma DistinctAfterInsert(ns: seq<SkipNode>, p: nat, n: SkipNode)
      requires p <= |ns| && n !in ns && forall a, b :: 0 <= a < b < |ns| ==> ns[a] != ns[b]
      requires nodes == Insert(ns, p, n)
      ensures forall a, b :: 0 <= a < b < |nodes| ==> nodes[a] != nodes[b]
    {
    }

    method InsertNode(key: Bytes, value: Bytes, tombstone: bool, h: nat, update: seq<SkipNode>,
                      ghost stops: seq<nat>, ghost a: nat)
      requires Valid() && 1 <= h <= MAX_HEIGHT && a < |nodes| && Splits(items, key, a)
      requires a < |items| ==> items[a].key != key
      requires |update| == |stops| == MAX_HEIGHT
      requires forall j :: 0 <= j < MAX_HEIGHT ==> StopsAt(stops[j], j, a + 1) && update[j] == nodes[stops[j]]
      modifies this, nodes
      ensures Valid() && items == PutAt(old(items), KV(key, value, tombstone), a)
      ensures forall x :: x in nodes ==> x in old(nodes) || fresh(x)
    {
      hide StopsAt, NodeOk, LinkOk, Linked, Inherits, Ready, Holds, Splits, Ordered;
      var n := new SkipNode(key, value, tombstone, h);
      ghost var ns, hs, its, p, e := nodes, heights, items, a + 1, KV(key, value, tombstone);
      Splice(n, h, update, stops, p);
      SplicedIsReady(p, n, h, stops);
      forall x | 0 <= x < |items| ensures ItemOk(x) { assert old(ItemOk(x)); }
      ItemsHold();
      PutOrdered(items, e, a);
      CostInsert(items, a, e);
      size := size + |key| + |value| + 32;
      count := count + 1;
      nodes, heights, items := Insert(ns, p, n), Insert(hs, p, h), Insert(its, a, e);
      ReadyIsLinked(ns, hs, p, n, h, stops);
      ItemsAfterInsert(ns, its, a, n);
      DistinctAfterInsert(ns, p, n);
      InsertAt(ns, p, n);
      InsertAt(hs, p, h);
    }

    /** put, whatever height the random generator chooses. */
    method Put(key: Bytes, value: Bytes, tombstone: bool)
      requires Valid()
      modifies this, set x | x in nodes
      ensures Valid() && items == PutSorted(old(items), KV(key, value, tombstone))
      ensures forall x :: x in nodes ==> x in old(nodes) || fresh(x)
    {
      var update, x, stops, a := FindPath(key);
      SplitUnique(items, key, a);
      assert NodeOk(a) && LinkOk(a, 0);
      assert a + 1 < |nodes| ==> NodeOk(a + 1);
      var n := x.next[0];
      if n != null {
        assert ItemOk(a);
      }
      if n != null && n.key == key {
        Overwrite(n, value, tombstone, a);
        return;
      }
      var h := RandomHeight();
      InsertNode(key, value, tombstone, h, update, stops, a);
    }

    method ApproxSize() returns (n: int)
      requires Valid()
      ensures n == Cost(items)
    {
      n := size;
    }

    /** Every level is a strictly sorted sublist of level 0. */
    lemma LevelsSorted(a: nat, j: nat)
      requires Valid() && a < |nodes| && j < |nodes[a].next|
      ensures nodes[a].next[j] == null ==> forall b :: a < b < |nodes| ==> heights[b] <= j
      ensures nodes[a].next[j] != null ==>
                exists b :: a < b < |nodes| && nodes[a].next[j] == nodes[b] && j < |nodes[b].next|
                            && (a > 0 ==> Less(nodes[a].key, nodes[b].key))
    {
      assert LinkOk(a, j) && NodeOk(a);
      var b := Succ(heights, a, j);
      if b < |nodes| {
        assert NodeOk(b);
        if a > 0 { assert ItemOk(a - 1) && ItemOk(b - 1) && Before(items, a - 1, b - 1); }
      }
    }
  }
}
