/** The records of the engine's write-ahead log and what is on its disk (storage/engine.go). */
module EngineFormat {
  import opened Bytes
  import opened Keys
  import opened SSTable
  import Wal

  // ---- encodeWALRecord, decodeWALRecord ----

  function EncodeRecord(e: KV): (b: Bytes)
    ensures |b| == 5 + |e.key| + |e.value|
  {
    [if e.tombstone then 1 else 0] + U32(|e.key|) + e.key + e.value
  }

  /** None for a record that is too short for its own key length. */
  function DecodeRecord(p: Bytes): Option<KV> {
    if |p| < 5 then None
    else
      var klen := GetLE(p[1..5]);
      if |p| < 5 + klen then None else Some(KV(p[5..5 + klen], p[5 + klen..], p[0] % 2 == 1))
  }

  ghost predicate RecordFits(e: KV) {
    5 + |e.key| + |e.value| < MAX32
  }

  lemma RecordRoundTrip(e: KV)
    requires RecordFits(e)
    ensures DecodeRecord(EncodeRecord(e)) == Some(e)
  {
    hide U32, GetLE;
    U32Back(|e.key|);
    var p := EncodeRecord(e);
    assert p[1..5] == U32(|e.key|);
    assert p[5..5 + |e.key|] == e.key && p[5 + |e.key|..] == e.value;
  }

  function Payloads(ws: seq<KV>): (ps: seq<Bytes>)
    ensures |ps| == |ws|
  {
    if ws == [] then [] else Payloads(ws[..|ws| - 1]) + [EncodeRecord(ws[|ws| - 1])]
  }

  lemma {:induction false} PayloadAt(ws: seq<KV>, k: nat)
    requires k < |ws|
    ensures Payloads(ws)[k] == EncodeRecord(ws[k])
  {
    if k < |ws| - 1 { PayloadAt(ws[..|ws| - 1], k); }
  }

  /** The sorted list after these writes, oldest first. */
  function Puts(ws: seq<KV>): seq<KV> {
    if ws == [] then [] else PutSorted(Puts(ws[..|ws| - 1]), ws[|ws| - 1])
  }

  /** The log file holds exactly these writes. */
  ghost predicate WalHolds(crc: Wal.Crc, wal: Bytes, ws: seq<KV>) {
    wal == Wal.Encode(crc, Payloads(ws)) && forall k :: 0 <= k < |ws| ==> RecordFits(ws[k])
  }

  lemma WalAppend(crc: Wal.Crc, wal: Bytes, ws: seq<KV>, e: KV)
    requires WalHolds(crc, wal, ws) && RecordFits(e)
    ensures WalHolds(crc, wal + Wal.Frame(crc, EncodeRecord(e)), ws + [e])
  {
    hide Wal.Frame, EncodeRecord;
    assert (ws + [e])[..|ws|] == ws;
    Wal.EncodeSnoc(crc, Payloads(ws), EncodeRecord(e));
  }

  lemma PutsSnoc(ws: seq<KV>, e: KV)
    ensures Puts(ws + [e]) == PutSorted(Puts(ws), e)
  {
    assert (ws + [e])[..|ws|] == ws;
  }

  /** Replay delivers these writes, whatever else is in the file behind them. */
  ghost predicate WalDelivers(crc: Wal.Crc, wal: Bytes, ws: seq<KV>) {
    var ps := Wal.Replay(crc, wal);
    |ps| == |ws| && forall k :: 0 <= k < |ws| ==> DecodeRecord(ps[k]) == Some(ws[k])
  }

  /** A file that holds writes delivers them. */
  lemma WalReplays(crc: Wal.Crc, wal: Bytes, ws: seq<KV>)
    requires WalHolds(crc, wal, ws)
    ensures WalDelivers(crc, wal, ws)
  {
    var ps := Payloads(ws);
    forall k | 0 <= k < |ws| ensures |ps[k]| < MAX32 && DecodeRecord(ps[k]) == Some(ws[k]) {
      PayloadAt(ws, k);
      RecordRoundTrip(ws[k]);
    }
    hide EncodeRecord, DecodeRecord, Payloads;
    Wal.ReplayEncode(crc, ps, []);
    Wal.NoRecordInNothing(crc);
    assert wal + [] == wal && ps + [] == ps;
  }

  // ---- The directory ----

  /** Open tables, newest first, and the numbered files they were opened from. */
  ghost predicate TableAt(crc: Wal.Crc, files: map<nat, Bytes>, names: seq<nat>, tables: seq<Table>,
                          lists: seq<seq<KV>>, k: nat)
    requires k < |tables| == |names| == |lists|
  {
    IsTable(crc, tables[k], lists[k]) && names[k] in files && files[names[k]] == tables[k].file
  }

  ghost predicate DirHolds(crc: Wal.Crc, files: map<nat, Bytes>, names: seq<nat>, tables: seq<Table>,
                           lists: seq<seq<KV>>, next: nat)
  {
    && |tables| == |names| == |lists|
    && (forall k :: 0 <= k < |tables| ==> TableAt(crc, files, names, tables, lists, k))
    && (forall a, b :: 0 <= a < b < |names| ==> names[a] > names[b])
    && (forall k :: 0 <= k < |names| ==> names[k] < next)
    && (forall n :: n in files ==> n in names)
  }

  /** A new file with the next number becomes the newest table. */
  lemma DirPush(crc: Wal.Crc, files: map<nat, Bytes>, names: seq<nat>, tables: seq<Table>, lists: seq<seq<KV>>,
                next: nat, t: Table, es: seq<KV>)
    requires DirHolds(crc, files, names, tables, lists, next) && IsTable(crc, t, es)
    ensures DirHolds(crc, files[next := t.file], [next] + names, [t] + tables, [es] + lists, next + 1)
  {
    hide IsTable;
    var files', names', tables', lists' := files[next := t.file], [next] + names, [t] + tables, [es] + lists;
    forall k | 0 <= k < |tables'| ensures TableAt(crc, files', names', tables', lists', k) {
      if k > 0 { assert TableAt(crc, files, names, tables, lists, k - 1); }
    }
  }

  lemma DirOne(crc: Wal.Crc, next: nat, t: Table, es: seq<KV>)
    requires IsTable(crc, t, es)
    ensures DirHolds(crc, map[next := t.file], [next], [t], [es], next + 1)
  {
    hide IsTable;
    assert TableAt(crc, map[next := t.file], [next], [t], [es], 0);
  }

  /** Any table made of these entries fits the lengths of the file format. */
  ghost predicate Roomy(all: set<KV>) {
    forall s: seq<KV> :: Ordered(s) && (forall k :: 0 <= k < |s| ==> s[k] in all) ==> Fits(s)
  }

  ghost predicate Falling(names: seq<nat>) {
    forall a, b :: 0 <= a < b < |names| ==> names[a] > names[b]
  }

  ghost predicate FileIs(crc: Wal.Crc, files: map<nat, Bytes>, n: nat, es: seq<KV>) {
    n in files && files[n] == TableBytes(crc, es) && Fits(es) && Ordered(es)
  }

  /** A directory that holds these lists under these numbers, newest first, and nothing else. */
  ghost predicate OnDisk(crc: Wal.Crc, files: map<nat, Bytes>, names: seq<nat>, lists: seq<seq<KV>>) {
    && |names| == |lists| && Falling(names)
    && (forall k :: 0 <= k < |names| ==> FileIs(crc, files, names[k], lists[k]))
    && (forall n :: n in files ==> n in names)
  }

  lemma DirIsOnDisk(crc: Wal.Crc, files: map<nat, Bytes>, names: seq<nat>, tables: seq<Table>,
                    lists: seq<seq<KV>>, next: nat)
    requires DirHolds(crc, files, names, tables, lists, next)
    ensures OnDisk(crc, files, names, lists)
  {
    hide TableBytes, Fits, Ordered, IndexOf;
    forall k | 0 <= k < |names| ensures FileIs(crc, files, names[k], lists[k]) {
      assert TableAt(crc, files, names, tables, lists, k);
    }
  }

  /** There is one way to list a set of numbers in falling order. */
  lemma {:induction false} FallingUnique(a: seq<nat>, b: seq<nat>)
    requires Falling(a) && Falling(b) && forall n :: n in a <==> n in b
    ensures a == b
  {
    if a == [] {
      assert forall k :: 0 <= k < |b| ==> b[k] in a;
    } else {
      assert a[0] in b;
      assert b[0] in a;
      assert a[0] == b[0];
      forall n ensures n in a[1..] <==> n in b[1..] {
        assert n in a[1..] ==> n in a && n != a[0];
        assert n in b[1..] ==> n in b && n != b[0];
      }
      FallingUnique(a[1..], b[1..]);
      assert a == [a[0]] + a[1..] && b == [b[0]] + b[1..];
    }
  }
}
