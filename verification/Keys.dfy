/** The order of keys (Go compares strings byte by byte) and lists of entries sorted by it. */
module Keys {
  import opened Bytes

  predicate Less(a: Bytes, b: Bytes) {
    b != [] && (a == [] || a[0] < b[0] || (a[0] == b[0] && Less(a[1..], b[1..])))
  }

  lemma {:induction false} LessIrreflexive(a: Bytes)
    ensures !Less(a, a)
  {
    if a != [] { LessIrreflexive(a[1..]); }
  }

  lemma {:induction false} LessTransitive(a: Bytes, b: Bytes, c: Bytes)
    requires Less(a, b) && Less(b, c)
    ensures Less(a, c)
  {
    if a != [] && a[0] == b[0] == c[0] { LessTransitive(a[1..], b[1..], c[1..]); }
  }

  lemma {:induction false} LessTotal(a: Bytes, b: Bytes)
    ensures Less(a, b) || a == b || Less(b, a)
  {
    if a != [] && b != [] && a[0] == b[0] {
      LessTotal(a[1..], b[1..]);
      if a[1..] == b[1..] { assert a == [a[0]] + a[1..] && b == [b[0]] + b[1..]; }
    }
  }

  /** One entry of a table; a tombstone marks a deletion. */
  datatype KV = KV(key: Bytes, value: Bytes, tombstone: bool)

  ghost predicate Before(s: seq<KV>, a: nat, b: nat)
    requires a < |s| && b < |s|
  {
    Less(s[a].key, s[b].key)
  }

  /** Strictly sorted by key. */
  ghost predicate Ordered(s: seq<KV>) {
    forall a, b :: 0 <= a < b < |s| ==> Before(s, a, b)
  }

  /** The entry for a key, by looking at every entry in turn. */
  function Find(s: seq<KV>, key: Bytes): Option<KV> {
    if s == [] then None
    else if s[0].key == key then Some(s[0])
    else Find(s[1..], key)
  }

  lemma {:induction false} FindIs(s: seq<KV>, key: Bytes)
    ensures match Find(s, key)
            case Some(e) => e in s && e.key == key
            case None => forall k :: 0 <= k < |s| ==> s[k].key != key
  {
    if s != [] && s[0].key != key {
      FindIs(s[1..], key);
      if Find(s[1..], key).None? {
        forall k | 0 <= k < |s| ensures s[k].key != key {
          if k > 0 { assert s[k] == s[1..][k - 1]; }
        }
      }
    }
  }

  /** In a sorted list a key occurs at most once. */
  lemma KeyOnce(s: seq<KV>, a: nat, b: nat)
    requires Ordered(s) && a < |s| && b < |s| && s[a].key == s[b].key
    ensures a == b
  {
    LessIrreflexive(s[a].key);
    assert a < b ==> Before(s, a, b);
    assert b < a ==> Before(s, b, a);
  }

  lemma FindAt(s: seq<KV>, k: nat)
    requires Ordered(s) && k < |s|
    ensures Find(s, s[k].key) == Some(s[k])
  {
    FindIs(s, s[k].key);
    var r := Find(s, s[k].key);
    if r.Some? {
      var j :| 0 <= j < |s| && s[j] == r.value;
      KeyOnce(s, j, k);
    }
  }

  /** Everything before position k is below the key, nothing from k on is. */
  ghost predicate Splits(s: seq<KV>, key: Bytes, k: nat) {
    && k <= |s|
    && (forall a :: 0 <= a < k ==> Less(s[a].key, key))
    && (forall a :: k <= a < |s| ==> !Less(s[a].key, key))
  }

  /** The list with the entry for its key put in place k, replacing an older one. */
  function PutAt(s: seq<KV>, e: KV, k: nat): seq<KV>
    requires k <= |s|
  {
    if k < |s| && s[k].key == e.key then s[k := e] else s[..k] + [e] + s[k..]
  }

  lemma AfterSplit(s: seq<KV>, key: Bytes, k: nat, a: nat)
    requires Ordered(s) && Splits(s, key, k) && k <= a < |s| && (s[k].key == key ==> a > k)
    ensures Less(key, s[a].key)
  {
    LessTotal(s[k].key, key);
    if a > k {
      assert Before(s, k, a);
      if s[k].key != key { LessTransitive(key, s[k].key, s[a].key); }
    }
  }

  lemma PutOrdered(s: seq<KV>, e: KV, k: nat)
    requires Ordered(s) && Splits(s, e.key, k)
    ensures Ordered(PutAt(s, e, k))
  {
    var t := PutAt(s, e, k);
    if k < |s| && s[k].key == e.key {
      forall a, b | 0 <= a < b < |t| ensures Before(t, a, b) { assert Before(s, a, b); }
    } else {
      forall a, b | 0 <= a < b < |t| ensures Before(t, a, b) {
        if a < k && b > k {
          assert Before(s, a, b - 1);
        } else if a < k && b < k {
          assert Before(s, a, b);
        } else if a > k {
          assert Before(s, a - 1, b - 1);
        } else if a == k {
          AfterSplit(s, e.key, k, b - 1);
        }
      }
    }
  }

  /** Looking a key up after a put: the new entry for its key, the old one for any other. */
  lemma FindAfterPut(s: seq<KV>, e: KV, k: nat, key: Bytes)
    requires Ordered(s) && Splits(s, e.key, k)
    ensures Find(PutAt(s, e, k), key) == if key == e.key then Some(e) else Find(s, key)
  {
    var t := PutAt(s, e, k);
    PutOrdered(s, e, k);
    if key == e.key {
      assert t[k] == e;
      FindAt(t, k);
    } else {
      FindIs(s, key);
      FindIs(t, key);
      var r := Find(s, key);
      if r.Some? {
        var j :| 0 <= j < |s| && s[j] == r.value;
        var j' := if k < |s| && s[k].key == e.key then j else if j < k then j else j + 1;
        assert t[j'] == s[j];
        FindAt(t, j');
      }
    }
  }

  /** The number of leading entries below the key. */
  function SplitPoint(s: seq<KV>, key: Bytes): (k: nat)
    ensures k <= |s|
  {
    if s == [] || !Less(s[0].key, key) then 0 else 1 + SplitPoint(s[1..], key)
  }

  lemma {:induction false} SplitUnique(s: seq<KV>, key: Bytes, k: nat)
    requires Splits(s, key, k)
    ensures k == SplitPoint(s, key)
  {
    if k > 0 {
      assert forall a :: 0 <= a < k - 1 ==> s[1..][a] == s[a + 1];
      assert forall a :: k - 1 <= a < |s| - 1 ==> s[1..][a] == s[a + 1];
      SplitUnique(s[1..], key, k - 1);
    }
  }

  /** What a put does to a sorted list. */
  function PutSorted(s: seq<KV>, e: KV): seq<KV> {
    PutAt(s, e, SplitPoint(s, e.key))
  }

  lemma {:induction false} SplitExists(s: seq<KV>, key: Bytes)
    requires Ordered(s)
    ensures Splits(s, key, SplitPoint(s, key))
  {
    if s != [] {
      if Less(s[0].key, key) {
        forall a, b | 0 <= a < b < |s[1..]| ensures Before(s[1..], a, b) { assert Before(s, a + 1, b + 1); }
        SplitExists(s[1..], key);
        forall a | 0 <= a < |s| && a >= SplitPoint(s, key) ensures !Less(s[a].key, key) {
          assert s[a] == s[1..][a - 1];
        }
        forall a | 0 <= a < SplitPoint(s, key) ensures Less(s[a].key, key) {
          if a > 0 { assert s[a] == s[1..][a - 1]; }
        }
      } else {
        forall a | 0 <= a < |s| ensures !Less(s[a].key, key) {
          if a > 0 && Less(s[a].key, key) {
            assert Before(s, 0, a);
            LessTransitive(s[0].key, s[a].key, key);
          }
        }
      }
    }
  }

  /** A put keeps the list sorted and changes the entry of its key only. */
  lemma PutSortedIs(s: seq<KV>, e: KV)
    requires Ordered(s)
    ensures Ordered(PutSorted(s, e))
    ensures forall key :: Find(PutSorted(s, e), key) == if key == e.key then Some(e) else Find(s, key)
  {
    SplitExists(s, e.key);
    PutOrdered(s, e, SplitPoint(s, e.key));
    forall key ensures Find(PutSorted(s, e), key) == if key == e.key then Some(e) else Find(s, key) {
      FindAfterPut(s, e, SplitPoint(s, e.key), key);
    }
  }
}
