/** The records of raft/storage.go as bytes, and a crash that cuts the log file at any byte. */
module RaftRecords {
  import opened Bytes
  import opened RaftTypes
  import opened RaftStorage
  import Wal

  /** The protobuf form of an entry is taken to be its data. */
  function EncodeRecord(r: Record): Bytes {
    match r
    case HardState(t, v) => [1] + (U64(t) + U64(v))
    case Append(e) => [2] + (U64(e.term) + U64(e.index) + e.data)
    case Truncate(from) => [3] + U64(from)
  }

  /** None where replay fails: an empty record, an unknown type, or too few bytes. */
  function DecodeRecord(p: Bytes): Option<Record> {
    if p == [] then None
    else
      var b := p[1..];
      if p[0] == 1 then
        if |b| < 16 then None else Some(HardState(GetLE(b[..8]), GetLE(b[8..16])))
      else if p[0] == 2 then
        if |b| < 16 then Some(Append(Entry(0, 0, [])))
        else Some(Append(Entry(GetLE(b[..8]), GetLE(b[8..16]), b[16..])))
      else if p[0] == 3 then
        if |b| < 8 then None else Some(Truncate(GetLE(b[..8])))
      else None
  }

  ghost predicate Fits(r: Record) {
    match r
    case HardState(t, v) => t < MAX64 && v < MAX64
    case Append(e) => e.term < MAX64 && e.index < MAX64 && |e.data| + 17 < MAX32
    case Truncate(from) => from < MAX64
  }

  lemma TwoWords(a: nat, b: nat, rest: Bytes)
    requires a < MAX64 && b < MAX64
    ensures var s := U64(a) + U64(b) + rest;
            |s| == 16 + |rest| && GetLE(s[..8]) == a && GetLE(s[8..16]) == b && s[16..] == rest
  {
    hide U64, GetLE;
    U64Back(a);
    U64Back(b);
    var s := U64(a) + U64(b) + rest;
    assert s[..8] == U64(a) && s[8..16] == U64(b) && s[16..] == rest;
  }

  lemma RecordRoundTrip(r: Record)
    requires Fits(r)
    ensures DecodeRecord(EncodeRecord(r)) == Some(r) && |EncodeRecord(r)| < MAX32
  {
    hide U64, GetLE;
    match r
    case HardState(t, v) =>
      TwoWords(t, v, []);
      assert U64(t) + U64(v) + [] == U64(t) + U64(v);
      assert ([1] + (U64(t) + U64(v)))[1..] == U64(t) + U64(v);
    case Append(e) =>
      TwoWords(e.term, e.index, e.data);
      assert EncodeRecord(r)[1..] == U64(e.term) + U64(e.index) + e.data;
    case Truncate(from) =>
      U64Back(from);
      assert EncodeRecord(r)[1..] == U64(from) && U64(from)[..8] == U64(from);
  }

  function Payloads(recs: seq<Record>): (ps: seq<Bytes>)
    ensures |ps| == |recs|
  {
    seq(|recs|, k requires 0 <= k < |recs| => EncodeRecord(recs[k]))
  }

  /** The payloads decode to these records, one by one. */
  ghost predicate Decodes(ps: seq<Bytes>, recs: seq<Record>) {
    |ps| == |recs| && forall k :: 0 <= k < |ps| ==> DecodeRecord(ps[k]) == Some(recs[k])
  }

  /**
   * However the file is cut, as long as the fsynced records are whole, replay delivers those and
   * some number of the records after them, and nothing else.
   */
  lemma CutKeepsRecords(crc: Wal.Crc, recs: seq<Record>, flushed: nat, cut: nat) returns (k: nat)
    requires flushed <= |recs| && forall i :: 0 <= i < |recs| ==> Fits(recs[i])
    requires |Wal.Encode(crc, Payloads(recs)[..flushed])| <= cut <= |Wal.Encode(crc, Payloads(recs))|
    ensures flushed <= k <= |recs|
    ensures Decodes(Wal.Replay(crc, Wal.Encode(crc, Payloads(recs))[..cut]), recs[..k])
  {
    var ps := Payloads(recs);
    forall i | 0 <= i < |ps| ensures |ps[i]| < MAX32 && DecodeRecord(ps[i]) == Some(recs[i]) {
      RecordRoundTrip(recs[i]);
    }
    hide EncodeRecord, DecodeRecord, Payloads;
    k := Wal.CutKeepsPrefix(crc, ps, flushed, cut);
  }
}
