/**
 * The storage engine of storage/engine.go: every operation does to the engine what it would
 * do to a plain map from keys to values. Files are a numbered map of byte strings, the
 * write-ahead log is its bytes, and I/O succeeds.
 */
module Engine {
  import opened Bytes
  import opened Sequences
  import opened Keys
  import opened SSTable
  import opened Layers
  import opened EngineFormat
  import M = Memtable
  import Wal

  const MAX_TABLES: nat := 6

  class Engine {
    const crc: Wal.Crc
    const flushSize: nat
    var wal: Bytes                // engine.wal, what is still buffered included
    var mem: M.Memtable
    var tables: seq<Table>        // newest first
    var names: seq<nat>           // the numbers of their files
    var files: map<nat, Bytes>    // the *.sst files
    var nextSST: nat
    ghost var lists: seq<seq<KV>> // what the tables hold
    ghost var writes: seq<KV>     // what went into the memtable since the last flush
    ghost var intact: bool        // the log holds just those: it was not opened with a torn record in it
    ghost var model: map<Bytes, Bytes>

    ghost function Stack(): seq<seq<KV>>
      reads this, mem
    {
      [mem.items] + lists
    }

    ghost predicate DiskOk()
      reads this
    {
      DirHolds(crc, files, names, tables, lists, nextSST) && (intact ==> WalHolds(crc, wal, writes))
    }

    ghost predicate Valid()
      reads this, mem, mem.nodes
    {
      mem.Valid() && DiskOk() && mem.items == Puts(writes) && Models(model, Stack())
    }

    // ---- OpenEngine ----

    /**
     * Opens the tables, highest number first, and replays the log into a fresh memtable. The ghost
     * arguments say what the directory holds. The log may have anything behind its last whole record;
     * the engine then appends after it, and until the next flush the log is not intact.
     */
    constructor Open(crc: Wal.Crc, flushSize: nat, files: map<nat, Bytes>, wal: Bytes,
                     ghost names0: seq<nat>, ghost lists0: seq<seq<KV>>, ghost ws: seq<KV>, ghost m: map<Bytes, Bytes>)
      requires OnDisk(crc, files, names0, lists0) && WalDelivers(crc, wal, ws) && Models(m, [Puts(ws)] + lists0)
      ensures Valid() && model == m && this.crc == crc && fresh(mem) && forall x :: x in mem.nodes ==> fresh(x)
      ensures this.files == files && this.wal == wal && writes == ws && (intact <==> WalHolds(crc, wal, ws))
    {
      hide OnDisk, DirHolds, WalHolds, WalDelivers, Models, Puts, M.Memtable.Valid;
      var mt := Engine.ReplayLog(crc, wal, ws);
      this.crc := crc;
      this.flushSize := if flushSize == 0 then 4194304 else flushSize;
      this.files, this.wal := files, wal;
      tables, names, nextSST := [], [], 0;
      lists, writes, model := lists0, ws, m;
      intact := WalHolds(crc, wal, ws);
      mem := mt;
      new;
      LoadTables(names0);
    }

    method LoadTables(ghost names0: seq<nat>)
      requires OnDisk(crc, files, names0, lists)
      modifies this`tables, this`names, this`nextSST
      ensures DirHolds(crc, files, names, tables, lists, nextSST) && names == names0
    {
      hide TableBytes, Fits, Ordered, OpenTable, TableOf, FileIs, TableAt;
      var ns := SortFalling(files.Keys);
      forall n ensures n in ns <==> n in names0 {
        if n in names0 {
          var k :| 0 <= k < |names0| && names0[k] == n;
          assert FileIs(crc, files, names0[k], lists[k]);
          InFiles(crc, files, n, lists[k]);
        }
      }
      FallingUnique(ns, names0);
      var ts: seq<Table> := [];
      var next := 0;
      var i := 0;
      while i < |ns|
        invariant 0 <= i <= |ns| && |ts| == i
        invariant forall k :: 0 <= k < i ==> ts[k] == TableOf(crc, lists[k]) && ns[k] < next
      {
        assert FileIs(crc, files, ns[i], lists[i]);
        OpensTo(crc, files, ns[i], lists[i]);
        var r := OpenSSTable(crc, files[ns[i]]);
        ts := ts + [r.table];
        if ns[i] >= next {
          next := ns[i] + 1;
        }
        i := i + 1;
      }
      names, tables, nextSST := ns, ts, next;
      forall k | 0 <= k < |tables| ensures TableAt(crc, files, names, tables, lists, k) {
        assert FileIs(crc, files, names[k], lists[k]);
        OpenedAt(crc, files, names, tables, lists, k);
      }
    }

    static method ReplayLog(crc: Wal.Crc, wal: Bytes, ghost ws: seq<KV>) returns (mt: M.Memtable)
      requires WalDelivers(crc, wal, ws)
      ensures mt.Valid() && mt.items == Puts(ws) && fresh(mt) && forall x :: x in mt.nodes ==> fresh(x)
    {
      hide Wal.Replay, DecodeRecord, PutSorted;
      mt := new M.Memtable();
      var records := Wal.ReplayWAL(crc, wal);
      var i := 0;
      assert ws[..0] == [];
      while i < |records|
        invariant 0 <= i <= |records| == |ws|
        invariant mt.Valid() && mt.items == Puts(ws[..i]) && fresh(mt)
        invariant forall x :: x in mt.nodes ==> fresh(x)
      {
        var e := DecodeRecord(records[i]).value;
        assert ws[..i + 1][..i] == ws[..i];
        mt.Put(e.key, e.value, e.tombstone);
        i := i + 1;
      }
      assert ws[..i] == ws;
    }

    // ---- Reading ----

    /** Get looks into the memtable and then into the tables, newest first, until some entry turns up. */
    method Get(key: Bytes) returns (r: Option<Bytes>)
      requires Valid()
      ensures r == Value(model, key)
    {
      hide DirHolds, WalHolds, Puts, Models;
      ModelAt(key);
      var top := mem.Get(key);
      assert Stack()[1..] == lists;
      if top.Some? {
        return if top.value.tombstone then None else Some(top.value.value);
      }
      var i := 0;
      assert lists[0..] == lists;
      SameLengths();
      while i < |tables|
        invariant 0 <= i <= |tables| == |lists|
        invariant Lookup(lists, key) == Lookup(lists[i..], key)
      {
        TableIs(i);
        var e := SSTable.Get(crc, tables[i], lists[i], key);
        assert lists[i..][1..] == lists[i + 1..];
        if e.Found? {
          return if e.e.tombstone then None else Some(e.e.value);
        }
        i := i + 1;
      }
      r := None;
    }

    lemma ModelAt(key: Bytes)
      requires Valid()
      ensures Live(Lookup(Stack(), key)) == Value(model, key)
    {
    }

    lemma SameLengths()
      requires DiskOk()
      ensures |tables| == |lists| == |names|
    {
    }

    lemma TableIs(i: nat)
      requires DiskOk() && i < |tables|
      ensures i < |lists| && IsTable(crc, tables[i], lists[i])
    {
      assert TableAt(crc, files, names, tables, lists, i);
    }

    /** The merge loop of compaction and of snapshots: oldest table first, so that newer entries win. */
    method MergeTables() returns (merged: map<Bytes, KV>)
      requires DiskOk()
      ensures Merges(merged, lists)
    {
      hide DirHolds, WalHolds, Merges, MergesPart, IsTable;
      SameLengths();
      merged := map[];
      var i := |tables|;
      NothingMerged();
      assert lists[i..] == [];
      while i > 0
        invariant 0 <= i <= |tables| == |lists|
        invariant Merges(merged, lists[i..])
      {
        i := i - 1;
        TableIs(i);
        TableOrdered(i);
        var es := SSTable.All(crc, tables[i], lists[i]);
        merged := MergeList(merged, es, lists[i + 1..]);
        assert [lists[i]] + lists[i + 1..] == lists[i..];
      }
      assert lists[0..] == lists;
    }

    lemma TableOrdered(i: nat)
      requires DiskOk() && i < |lists|
      ensures Ordered(lists[i])
    {
      assert TableAt(crc, files, names, tables, lists, i);
    }

    /** A full dump of the live entries. */
    method SnapshotEntries() returns (out: map<Bytes, Bytes>)
      requires Valid()
      ensures out == model
    {
      hide DirHolds, WalHolds, Puts;
      var merged := MergeTables();
      var es := mem.Entries();
      merged := MergeList(merged, es, lists);
      out := map k | k in merged && !merged[k].tombstone :: merged[k].value;
      forall key ensures Value(out, key) == Value(model, key) {
        ModelAt(key);
        assert (if key in merged then Some(merged[key]) else None) == Lookup(Stack(), key);
      }
      SameMap(out, model);
    }

    // ---- Writing ----

    /** The memtable, or one that replaced it, and only nodes it had or new ones. */
    twostate predicate Owned()
      reads this, mem
    {
      && (mem == old(mem) || fresh(mem))
      && forall x :: x in mem.nodes ==> x in old(mem.nodes) || fresh(x)
    }

    /** Put and Delete: first the log, then the memtable, then a flush if the memtable is full. */
    method Write(key: Bytes, value: Bytes, tombstone: bool)
      requires Valid() && RecordFits(KV(key, value, tombstone))
      requires Roomy(Held(Stack()) + {KV(key, value, tombstone)})
      modifies this, mem, set x | x in mem.nodes
      ensures Valid() && Owned() && model == Updated(old(model), KV(key, value, tombstone)) && (old(intact) ==> intact)
      ensures Held(Stack()) <= old(Held(Stack())) + {KV(key, value, tombstone)}
    {
      hide DirHolds, WalHolds, Models, Roomy, PutSorted, Puts, Wal.Frame, EncodeRecord, Held, Ordered, M.Memtable.Valid;
      ghost var e := KV(key, value, tombstone);
      mem.ItemsOrdered();
      if intact {
        WalAppend(crc, wal, writes, e);
      }
      PutsSnoc(writes, e);
      PutModels(model, mem.items, lists, e);
      HeldAfterPut(mem.items, lists, e);
      wal := wal + Wal.Frame(crc, EncodeRecord(KV(key, value, tombstone)));
      writes := writes + [e];
      model := Updated(model, e);
      mem.Put(key, value, tombstone);
      RoomyShrinks(old(Held(Stack())) + {e}, Held(Stack()));
      var size := mem.ApproxSize();
      if size >= flushSize {
        FlushLocked();
      }
    }

    /** Flushing moves the memtable into a new table and starts an empty log. */
    method FlushLocked()
      requires Valid() && Roomy(Held(Stack()))
      modifies this
      ensures Valid() && model == old(model) && mem.items == [] && (|tables| <= MAX_TABLES || tables == old(tables))
      ensures intact == (old(intact) || old(mem.items) != [])
      ensures mem == old(mem) || (fresh(mem) && forall x :: x in mem.nodes ==> fresh(x))
      ensures Held(Stack()) <= old(Held(Stack()))
    {
      hide DirHolds, WalHolds, Models, Roomy, Puts, Held, M.Memtable.Valid;
      var entries := mem.Entries();
      if |entries| == 0 {
        return;
      }
      PushTable(entries);
      RoomyShrinks(old(Held(Stack())), Held(Stack()));
      if |tables| > MAX_TABLES {
        CompactLocked();
      }
    }

    /** The new table on top of the others, an empty log and an empty memtable. */
    method PushTable(entries: seq<KV>)
      requires Valid() && Roomy(Held(Stack())) && entries == mem.items
      modifies this
      ensures Valid() && model == old(model) && mem.items == [] && intact
      ensures fresh(mem) && forall x :: x in mem.nodes ==> fresh(x)
      ensures Held(Stack()) <= old(Held(Stack()))
    {
      hide DirHolds, WalHolds, Models, Roomy, Puts, Held, Fits, Ordered, IsTable, M.Memtable.Valid;
      mem.ItemsOrdered();
      TopHeld(entries, lists);
      RoomFor(Held(Stack()), entries);
      var file, t := MakeTable(crc, entries);
      DirPush(crc, files, names, tables, lists, nextSST, t, entries);
      FlushModels(model, Stack());
      files := files[nextSST := file];
      names := [nextSST] + names;
      nextSST := nextSST + 1;
      tables := [t] + tables;
      EmptyWal(crc);
      wal := [];
      mem := new M.Memtable();
      lists, writes, intact := [entries] + lists, [], true;
      HeldFlush(old(Stack()));
    }

    /** Flush forces a flush. */
    method Flush()
      requires Valid() && Roomy(Held(Stack()))
      modifies this
      ensures Valid() && model == old(model) && mem.items == [] && intact == (old(intact) || old(mem.items) != [])
      ensures mem == old(mem) || (fresh(mem) && forall x :: x in mem.nodes ==> fresh(x))
      ensures Held(Stack()) <= old(Held(Stack()))
    {
      FlushLocked();
    }

    /** Compaction merges all tables into one, without tombstones, and removes the old files. */
    method CompactLocked()
      requires Valid() && Roomy(Held(Stack()))
      modifies this`files, this`names, this`tables, this`nextSST, this`lists
      ensures Valid() && model == old(model) && |tables| == 1
      ensures Held(Stack()) <= old(Held(Stack()))
    {
      hide DirHolds, WalHolds, Models, Roomy, Puts, Held, Fits, Ordered, IsTable, Merges, Compacts, MergedIs,
           M.Memtable.Valid;
      var merged := MergeTables();
      MergedKeys(merged, lists);
      var out := LiveSorted(merged);
      MergedCompacts(merged, out, lists);
      CompactModels(model, mem.items, out, lists);
      CompactHeld(mem.items, out, lists);
      RoomFor(Held(Stack()), out);
      var file, t := MakeTable(crc, out);
      DirOne(crc, nextSST, t, out);
      files := map[nextSST := file];
      names := [nextSST];
      tables := [t];
      nextSST := nextSST + 1;
      lists := [out];
    }

    // ---- Replacing everything ----

    /** The given contents, loaded in any order, in place of everything. */
    method Reset(entries: map<Bytes, Bytes>)
      requires Valid() && forall k :: k in entries ==> RecordFits(KV(k, entries[k], false))
      modifies this
      ensures Valid() && intact && model == entries && fresh(mem) && forall x :: x in mem.nodes ==> fresh(x)
    {
      hide WalHolds, Models, Puts, M.Memtable.Valid;
      var mt, w, ws := Load(crc, entries);
      tables, names, files := [], [], map[];
      wal, mem := w, mt;
      lists, writes, model, intact := [], ws, entries, true;
    }
  }

  /** The loop of Reset: log and memtable for one entry after another. */
  method Load(crc: Wal.Crc, entries: map<Bytes, Bytes>) returns (mt: M.Memtable, w: Bytes, ghost ws: seq<KV>)
    requires forall k :: k in entries ==> RecordFits(KV(k, entries[k], false))
    ensures mt.Valid() && fresh(mt) && forall x :: x in mt.nodes ==> fresh(x)
    ensures WalHolds(crc, w, ws) && mt.items == Puts(ws) && Models(entries, [mt.items] + [])
  {
    hide WalHolds, Models, Puts, Updated, PutSorted, Wal.Frame, EncodeRecord, Ordered, M.Memtable.Valid;
    mt := new M.Memtable();
    w, ws := [], [];
    ghost var done: map<Bytes, Bytes> := map[];
    var rest := entries.Keys;
    EmptyWal(crc);
    EmptyModels();
    assert [[]] == [mt.items] + [];
    while rest != {}
      invariant mt.Valid() && fresh(mt) && forall x :: x in mt.nodes ==> fresh(x)
      invariant rest <= entries.Keys && done == map k | k in entries && k !in rest :: entries[k]
      invariant WalHolds(crc, w, ws) && mt.items == Puts(ws) && Models(done, [mt.items] + [])
      decreases |rest|
    {
      var k :| k in rest;
      ghost var e := KV(k, entries[k], false);
      mt.ItemsOrdered();
      WalAppend(crc, w, ws, e);
      PutsSnoc(ws, e);
      PutModels(done, mt.items, [], e);
      PutUpdates(done, e);
      w := w + Wal.Frame(crc, EncodeRecord(KV(k, entries[k], false)));
      mt.Put(k, entries[k], false);
      rest := rest - {k};
      ws, done := ws + [e], done[k := entries[k]];
    }
    assert done == entries;
  }

  /** writeSSTable followed by openSSTable. */
  method MakeTable(crc: Wal.Crc, es: seq<KV>) returns (file: Bytes, t: Table)
    requires Fits(es) && Ordered(es)
    ensures IsTable(crc, t, es) && t.file == file
  {
    hide Fits, Ordered, TableOf, TableBytes, OpenTable;
    file := WriteSSTable(crc, es);
    OpenWritten(crc, es);
    var r := OpenSSTable(crc, file);
    t := r.table;
    TableFile(crc, es);
  }

  /** A plain map after a list of puts and deletes. */
  function UpdatedAll(m: map<Bytes, Bytes>, ws: seq<KV>): map<Bytes, Bytes> {
    if ws == [] then m else Updated(UpdatedAll(m, ws[..|ws| - 1]), ws[|ws| - 1])
  }

  /** Replaying writes into an empty memtable above the tables is doing them to the map. */
  lemma {:induction false} ReplayModels(m: map<Bytes, Bytes>, ws: seq<KV>, lists: seq<seq<KV>>)
    requires Models(m, lists)
    ensures Ordered(Puts(ws)) && Models(UpdatedAll(m, ws), [Puts(ws)] + lists)
  {
    if ws == [] {
      forall key ensures Live(Lookup([[]] + lists, key)) == Value(m, key) {
        EmptyOnTop(lists, key);
      }
    } else {
      var n := |ws| - 1;
      ReplayModels(m, ws[..n], lists);
      PutModels(UpdatedAll(m, ws[..n]), Puts(ws[..n]), lists, ws[n]);
      PutSortedIs(Puts(ws[..n]), ws[n]);
    }
  }

  /**
   * OpenEngine on any log file: refused exactly if a record it replays does not decode, and otherwise
   * the tables' contents with the replayed writes done to them in order.
   */
  method OpenEngine(crc: Wal.Crc, flushSize: nat, files: map<nat, Bytes>, wal: Bytes,
                    ghost names: seq<nat>, ghost lists: seq<seq<KV>>, ghost m: map<Bytes, Bytes>)
    returns (r: Option<Engine>)
    requires OnDisk(crc, files, names, lists) && Models(m, lists)
    ensures r.None? <==> exists k :: 0 <= k < |Wal.Replay(crc, wal)| && DecodeRecord(Wal.Replay(crc, wal)[k]).None?
    ensures r.Some? ==> r.value.Valid() && fresh(r.value) && WalDelivers(crc, wal, r.value.writes)
    ensures r.Some? ==> r.value.model == UpdatedAll(m, r.value.writes)
  {
    hide OnDisk, Models, Wal.Replay, DecodeRecord, UpdatedAll, Puts, Engine.Valid;
    var records := Wal.ReplayWAL(crc, wal);
    var ws: seq<KV> := [];
    var i := 0;
    while i < |records|
      invariant 0 <= i <= |records| && |ws| == i
      invariant forall k :: 0 <= k < i ==> DecodeRecord(records[k]) == Some(ws[k])
    {
      var e := DecodeRecord(records[i]);
      if e.None? {
        return None;
      }
      ws := ws + [e.value];
      i := i + 1;
    }
    ReplayModels(m, ws, lists);
    var e := new Engine.Open(crc, flushSize, files, wal, names, lists, ws, UpdatedAll(m, ws));
    r := Some(e);
  }

  /** Close followed by OpenEngine: the new engine stands for the same map, if the log was intact. */
  method Reopen(e: Engine, flushSize: nat) returns (e': Engine)
    requires e.Valid() && e.intact
    ensures e'.Valid() && e'.intact && e'.model == e.model && fresh(e')
  {
    WalReplays(e.crc, e.wal, e.writes);
    DirIsOnDisk(e.crc, e.files, e.names, e.tables, e.lists, e.nextSST);
    e' := new Engine.Open(e.crc, flushSize, e.files, e.wal, e.names, e.lists, e.writes, e.model);
  }

  lemma PutUpdates(m: map<Bytes, Bytes>, e: KV)
    requires !e.tombstone
    ensures Updated(m, e) == m[e.key := e.value]
  {
  }

  lemma RoomFor(all: set<KV>, s: seq<KV>)
    requires Roomy(all) && Ordered(s) && forall k :: 0 <= k < |s| ==> s[k] in all
    ensures Fits(s)
  {
  }

  lemma TableFile(crc: Wal.Crc, es: seq<KV>)
    ensures TableOf(crc, es).file == TableBytes(crc, es)
  {
  }

  lemma EmptyWal(crc: Wal.Crc)
    ensures WalHolds(crc, [], []) && Puts([]) == []
  {
  }

  lemma HeldFlush(ls: seq<seq<KV>>)
    ensures Held([[]] + ls) <= Held(ls)
  {
    var all := [[]] + ls;
    forall x | x in Held(all) ensures x in Held(ls) {
      var i, k :| 0 <= i < |all| && 0 <= k < |all[i]| && x == all[i][k];
      assert ls[i - 1][k] in Held(ls);
    }
  }

  // ---- Compaction ----

  /** Every merged entry carries the key it is filed under. */
  ghost predicate MergedIs(merged: map<Bytes, KV>) {
    forall k :: k in merged ==> merged[k].key == k
  }

  lemma MergedKeys(merged: map<Bytes, KV>, ls: seq<seq<KV>>)
    requires Merges(merged, ls)
    ensures MergedIs(merged)
  {
    forall k | k in merged ensures merged[k].key == k {
      assert (if k in merged then Some(merged[k]) else None) == Lookup(ls, k);
      LookupHeld(ls, k);
    }
  }

  /** The live entries, in key order. */
  method LiveSorted(merged: map<Bytes, KV>) returns (out: seq<KV>)
    requires MergedIs(merged)
    ensures Ordered(out)
    ensures forall key :: Find(out, key) == if key in merged && !merged[key].tombstone then Some(merged[key]) else None
  {
    hide Ordered, PutSorted, Find;
    out := [];
    var rest := set k | k in merged && !merged[k].tombstone;
    NothingSorted();
    while rest != {}
      invariant rest <= merged.Keys && forall k :: k in rest ==> !merged[k].tombstone
      invariant Ordered(out)
      invariant forall key ::
                  Find(out, key)
                  == if key in merged && !merged[key].tombstone && key !in rest then Some(merged[key]) else None
      decreases |rest|
    {
      var k :| k in rest;
      PutSortedIs(out, merged[k]);
      out := PutSorted(out, merged[k]);
      rest := rest - {k};
    }
  }

  lemma NothingSorted()
    ensures Ordered([]) && forall key :: Find([], key) == None
  {
  }

  lemma MergedCompacts(merged: map<Bytes, KV>, out: seq<KV>, ls: seq<seq<KV>>)
    requires Merges(merged, ls) && Ordered(out)
    requires forall key :: Find(out, key) == if key in merged && !merged[key].tombstone then Some(merged[key]) else None
    ensures Compacts(out, ls)
  {
    forall key ensures Find(out, key) == match Lookup(ls, key)
                                           case Some(e) => if e.tombstone then None else Some(e)
                                           case None => None {
      assert (if key in merged then Some(merged[key]) else None) == Lookup(ls, key);
    }
  }

  /** Compaction writes only entries that were there. */
  lemma CompactHeld(top: seq<KV>, out: seq<KV>, ls: seq<seq<KV>>)
    requires Compacts(out, ls)
    ensures forall k :: 0 <= k < |out| ==> out[k] in Held([top] + ls)
    ensures Held([top] + [out]) <= Held([top] + ls)
  {
    var all := [top] + ls;
    assert all[1..] == ls;
    HeldTail(all);
    forall k | 0 <= k < |out| ensures out[k] in Held(all) {
      FindAt(out, k);
      LookupHeld(ls, out[k].key);
    }
    TopHeld(top, ls);
    HeldUnder(all, top, [out]);
  }

  lemma HeldAfterPut(top: seq<KV>, rest: seq<seq<KV>>, e: KV)
    ensures Held([PutSorted(top, e)] + rest) <= Held([top] + rest) + {e}
  {
    var a, b := [top] + rest, [PutSorted(top, e)] + rest;
    forall x | x in Held(b) ensures x in Held(a) + {e} {
      var i, k :| 0 <= i < |b| && 0 <= k < |b[i]| && x == b[i][k];
      if i > 0 {
        assert a[i][k] in Held(a);
      } else if x != e {
        var j := if k < |top| && top[k] == x then k else k - 1;
        assert a[0][j] in Held(a);
      }
    }
  }

  lemma RoomyShrinks(all: set<KV>, less: set<KV>)
    requires Roomy(all) && less <= all
    ensures Roomy(less)
  {
  }

  lemma SameMap(a: map<Bytes, Bytes>, b: map<Bytes, Bytes>)
    requires forall key :: Value(a, key) == Value(b, key)
    ensures a == b
  {
    forall key ensures key in a <==> key in b { assert Value(a, key) == Value(b, key); }
    forall key | key in a ensures a[key] == b[key] { assert Value(a, key) == Value(b, key); }
  }

  lemma NothingMerged()
    ensures Merges(map[], [])
  {
  }

  method MergeList(merged: map<Bytes, KV>, es: seq<KV>, ghost ls: seq<seq<KV>>) returns (r: map<Bytes, KV>)
    requires Ordered(es) && Merges(merged, ls)
    ensures Merges(r, [es] + ls)
  {
    hide Ordered;
    r := merged;
    var j := 0;
    assert es[..0] == [];
    forall key ensures (if key in r then Some(r[key]) else None) == Lookup([es[..0]] + ls, key) {
      EmptyOnTop(ls, key);
    }
    while j < |es|
      invariant 0 <= j <= |es| && MergesPart(r, es[..j], ls)
    {
      MergeOne(r, es, j, ls);
      r := r[es[j].key := es[j]];
      j := j + 1;
    }
    assert es[..j] == es;
  }

  lemma InFiles(crc: Wal.Crc, files: map<nat, Bytes>, n: nat, es: seq<KV>)
    requires FileIs(crc, files, n, es)
    ensures n in files
  {
  }

  lemma OpensTo(crc: Wal.Crc, files: map<nat, Bytes>, n: nat, es: seq<KV>)
    requires FileIs(crc, files, n, es)
    ensures n in files && OpenTable(crc, files[n]) == Opened(TableOf(crc, es))
  {
    hide TableBytes, Fits, Ordered, OpenTable, TableOf;
    OpenWritten(crc, es);
  }

  lemma OpenedAt(crc: Wal.Crc, files: map<nat, Bytes>, names: seq<nat>, tables: seq<Table>, lists: seq<seq<KV>>, k: nat)
    requires k < |tables| == |names| == |lists| && FileIs(crc, files, names[k], lists[k])
    requires tables[k] == TableOf(crc, lists[k])
    ensures TableAt(crc, files, names, tables, lists, k)
  {
    hide TableBytes, Fits, Ordered, IndexOf;
  }

  /** sort.Slice by file number, highest first. */
  method SortFalling(m: set<nat>) returns (r: seq<nat>)
    ensures Falling(r) && forall n :: n in r <==> n in m
  {
    r := [];
    var rest := m;
    while rest != {}
      invariant rest <= m && Falling(r) && forall n :: n in r <==> n in m && n !in rest
      decreases |rest|
    {
      var x :| x in rest;
      rest := rest - {x};
      r := InsertFalling(r, x);
    }
  }

  method InsertFalling(s: seq<nat>, x: nat) returns (r: seq<nat>)
    requires Falling(s) && x !in s
    ensures Falling(r) && forall n :: n in r <==> n in s || n == x
  {
    var k := 0;
    while k < |s| && s[k] > x
      invariant 0 <= k <= |s| && forall a :: 0 <= a < k ==> s[a] > x
    {
      k := k + 1;
    }
    InsertMembers(s, k, x);
    r := Insert(s, k, x);
  }
}
