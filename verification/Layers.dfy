/** A stack of sorted lists, newest first, as a map (the data of storage/engine.go). */
module Layers {
  import opened Bytes
  import opened Keys

  /** The newest entry for a key. */
  function Lookup(ls: seq<seq<KV>>, key: Bytes): Option<KV> {
    if ls == [] then None
    else match Find(ls[0], key)
      case Some(e) => Some(e)
      case None => Lookup(ls[1..], key)
  }

  /** The value a reader sees: a tombstone hides everything below it. */
  function Live(r: Option<KV>): Option<Bytes> {
    match r
    case Some(e) => if e.tombstone then None else Some(e.value)
    case None => None
  }

  function Value(m: map<Bytes, Bytes>, key: Bytes): Option<Bytes> {
    if key in m then Some(m[key]) else None
  }

  /** The stack and the map give every key the same value. */
  ghost predicate Models(m: map<Bytes, Bytes>, ls: seq<seq<KV>>) {
    forall key :: Live(Lookup(ls, key)) == Value(m, key)
  }

  /** A plain map after a put or a delete. */
  function Updated(m: map<Bytes, Bytes>, e: KV): map<Bytes, Bytes> {
    if e.tombstone then m - {e.key} else m[e.key := e.value]
  }

  /** A put into the top list is a put into the map. */
  lemma PutModels(m: map<Bytes, Bytes>, top: seq<KV>, rest: seq<seq<KV>>, e: KV)
    requires Ordered(top) && Models(m, [top] + rest)
    ensures Models(Updated(m, e), [PutSorted(top, e)] + rest)
  {
    PutSortedIs(top, e);
    forall key ensures Live(Lookup([PutSorted(top, e)] + rest, key)) == Value(Updated(m, e), key) {
      assert ([top] + rest)[1..] == rest && ([PutSorted(top, e)] + rest)[1..] == rest;
      assert Live(Lookup([top] + rest, key)) == Value(m, key);
    }
  }

  lemma EmptyOnTop(ls: seq<seq<KV>>, key: Bytes)
    ensures Lookup([[]] + ls, key) == Lookup(ls, key)
  {
    assert ([[]] + ls)[1..] == ls;
  }

  lemma EmptyModels()
    ensures Models(map[], [[]])
  {
    forall key ensures Live(Lookup([[]], key)) == Value(map[], key) { EmptyOnTop([], key); }
  }

  /** Flushing: the top list becomes the newest table and an empty list takes its place. */
  lemma FlushModels(m: map<Bytes, Bytes>, ls: seq<seq<KV>>)
    requires Models(m, ls)
    ensures Models(m, [[]] + ls)
  {
    forall key ensures Live(Lookup([[]] + ls, key)) == Value(m, key) { EmptyOnTop(ls, key); }
  }

  // ---- Merging ----

  /** merged holds, for every key, the newest entry of the stack. */
  ghost predicate Merges(merged: map<Bytes, KV>, ls: seq<seq<KV>>) {
    forall key :: (if key in merged then Some(merged[key]) else None) == Lookup(ls, key)
  }

  /** Entries of es, then the older layers. */
  ghost predicate MergesPart(merged: map<Bytes, KV>, es: seq<KV>, ls: seq<seq<KV>>) {
    Merges(merged, [es] + ls)
  }

  lemma {:induction false} FindSnoc(es: seq<KV>, e: KV, key: Bytes)
    requires Find(es, e.key) == None
    ensures Find(es + [e], key) == if key == e.key then Some(e) else Find(es, key)
  {
    if es != [] {
      assert (es + [e])[1..] == es[1..] + [e];
      FindSnoc(es[1..], e, key);
    }
  }

  lemma PrefixLacks(es: seq<KV>, j: nat)
    requires Ordered(es) && j < |es|
    ensures Find(es[..j], es[j].key) == None
  {
    FindIs(es[..j], es[j].key);
    if Find(es[..j], es[j].key).Some? {
      var k :| 0 <= k < |es[..j]| && es[..j][k] == Find(es[..j], es[j].key).value;
      KeyOnce(es, k, j);
    }
  }

  /** One turn of the inner merge loop. */
  lemma MergeOne(merged: map<Bytes, KV>, es: seq<KV>, j: nat, ls: seq<seq<KV>>)
    requires Ordered(es) && j < |es| && MergesPart(merged, es[..j], ls)
    ensures MergesPart(merged[es[j].key := es[j]], es[..j + 1], ls)
  {
    PrefixLacks(es, j);
    var merged' := merged[es[j].key := es[j]];
    assert es[..j + 1] == es[..j] + [es[j]];
    forall key ensures (if key in merged' then Some(merged'[key]) else None) == Lookup([es[..j + 1]] + ls, key) {
      FindSnoc(es[..j], es[j], key);
      assert ([es[..j + 1]] + ls)[1..] == ls && ([es[..j]] + ls)[1..] == ls;
      assert (if key in merged then Some(merged[key]) else None) == Lookup([es[..j]] + ls, key);
    }
  }

  /** A sorted list of exactly the live entries of the stack. */
  ghost predicate Compacts(out: seq<KV>, ls: seq<seq<KV>>) {
    && Ordered(out)
    && forall key :: Find(out, key) == match Lookup(ls, key)
                       case Some(e) => if e.tombstone then None else Some(e)
                       case None => None
  }

  /** Dropping tombstones and shadowed versions changes no value: nothing comes back to life. */
  lemma CompactModels(m: map<Bytes, Bytes>, top: seq<KV>, out: seq<KV>, ls: seq<seq<KV>>)
    requires Models(m, [top] + ls) && Compacts(out, ls)
    ensures Models(m, [top] + [out])
  {
    forall key ensures Live(Lookup([top] + [out], key)) == Value(m, key) {
      assert ([top] + [out])[1..] == [out] && ([top] + ls)[1..] == ls;
      assert Live(Lookup([top] + ls, key)) == Value(m, key);
      if Find(top, key).None? { LookupOne(out, key); }
    }
  }

  lemma LookupOne(es: seq<KV>, key: Bytes)
    ensures Lookup([es], key) == Find(es, key)
  {
    assert [es][1..] == [];
  }

  // ---- Where entries come from ----

  ghost function Held(ls: seq<seq<KV>>): set<KV> {
    set i, k | 0 <= i < |ls| && 0 <= k < |ls[i]| :: ls[i][k]
  }

  lemma {:induction false} LookupHeld(ls: seq<seq<KV>>, key: Bytes)
    ensures Lookup(ls, key).Some? ==> Lookup(ls, key).value in Held(ls) && Lookup(ls, key).value.key == key
  {
    if ls != [] {
      FindIs(ls[0], key);
      if Find(ls[0], key).Some? {
        var e := Find(ls[0], key).value;
        var k :| 0 <= k < |ls[0]| && ls[0][k] == e;
        assert ls[0][k] in Held(ls);
      } else {
        LookupHeld(ls[1..], key);
        HeldTail(ls);
      }
    }
  }

  lemma HeldTail(ls: seq<seq<KV>>)
    requires ls != []
    ensures Held(ls[1..]) <= Held(ls)
  {
    forall x | x in Held(ls[1..]) ensures x in Held(ls) {
      var i, k :| 0 <= i < |ls[1..]| && 0 <= k < |ls[1..][i]| && x == ls[1..][i][k];
      assert ls[i + 1][k] in Held(ls);
    }
  }

  lemma TopHeld(top: seq<KV>, ls: seq<seq<KV>>)
    ensures forall k :: 0 <= k < |top| ==> top[k] in Held([top] + ls)
  {
    forall k | 0 <= k < |top| ensures top[k] in Held([top] + ls) { assert ([top] + ls)[0][k] == top[k]; }
  }

  lemma HeldUnder(ls: seq<seq<KV>>, top: seq<KV>, under: seq<seq<KV>>)
    requires forall k :: 0 <= k < |top| ==> top[k] in Held(ls)
    requires forall i, k :: 0 <= i < |under| && 0 <= k < |under[i]| ==> under[i][k] in Held(ls)
    ensures Held([top] + under) <= Held(ls)
  {
    var all := [top] + under;
    forall x | x in Held(all) ensures x in Held(ls) {
      var i, k :| 0 <= i < |all| && 0 <= k < |all[i]| && x == all[i][k];
      if i > 0 { assert under[i - 1][k] == x; }
    }
  }
}
