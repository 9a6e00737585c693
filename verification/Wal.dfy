/**
 * The write-ahead log (storage/wal.go). Frame is the layout of one record, and HasRecord says
 * where replay goes on: it stops at the first record that is incomplete or does not check.
 *
 * The checksum is a parameter: everything here holds whatever function it is.
 */
module Wal {
  import opened Bytes

  type Crc = Bytes -> nat

  function Frame(crc: Crc, p: Bytes): (b: Bytes)
    ensures |b| == 8 + |p|
  {
    U32(crc(p)) + U32(|p|) + p
  }

  function Encode(crc: Crc, ps: seq<Bytes>): Bytes {
    if ps == [] then [] else Frame(crc, ps[0]) + Encode(crc, ps[1..])
  }

  /** The first record of a file, if it is whole and its checksum matches. */
  predicate HasRecord(crc: Crc, f: Bytes) {
    && |f| >= 8
    && 8 + GetLE(f[4..8]) <= |f|
    && U32(crc(f[8..8 + GetLE(f[4..8])])) == f[..4]
  }

  function Payload(crc: Crc, f: Bytes): Bytes
    requires HasRecord(crc, f)
  {
    f[8..8 + GetLE(f[4..8])]
  }

  function Rest(crc: Crc, f: Bytes): (r: Bytes)
    requires HasRecord(crc, f)
    ensures |r| == |f| - 8 - |Payload(crc, f)|
  {
    f[8 + GetLE(f[4..8])..]
  }

  /** What ReplayWAL hands to its callback. */
  function Replay(crc: Crc, f: Bytes): seq<Bytes>
    decreases |f|
  {
    if HasRecord(crc, f) then [Payload(crc, f)] + Replay(crc, Rest(crc, f)) else []
  }

  /** What is left of the file where replay stopped. */
  function Tail(crc: Crc, f: Bytes): Bytes
    decreases |f|
  {
    if HasRecord(crc, f) then Tail(crc, Rest(crc, f)) else f
  }

  ghost predicate Short(ps: seq<Bytes>) {
    forall k :: 0 <= k < |ps| ==> |ps[k]| < MAX32
  }

  // ---- The loop of ReplayWAL ----

  method ReplayWAL(crc: Crc, f: Bytes) returns (records: seq<Bytes>)
    ensures records == Replay(crc, f)
  {
    hide GetLE, U32;
    records := [];
    var off := 0;
    while true
      invariant 0 <= off <= |f|
      invariant records + Replay(crc, f[off..]) == Replay(crc, f)
      decreases |f| - off
    {
      var r := f[off..];
      if |r| < 8 {
        return;
      }
      var n := GetLE(r[4..8]);
      if 8 + n > |r| {
        return;
      }
      var payload := r[8..8 + n];
      if U32(crc(payload)) != r[..4] {
        return;
      }
      assert Replay(crc, r) == [payload] + Replay(crc, f[off + 8 + n..]) by { assert f[off + 8 + n..] == Rest(crc, r); }
      records := records + [payload];
      off := off + 8 + n;
    }
  }

  // ---- Framing ----

  lemma FrameIsRecord(crc: Crc, p: Bytes, rest: Bytes)
    requires |p| < MAX32
    ensures var f := Frame(crc, p) + rest;
            HasRecord(crc, f) && Payload(crc, f) == p && Rest(crc, f) == rest
  {
    hide U32, GetLE;
    var f := Frame(crc, p) + rest;
    U32Back(|p|);
    assert f[..4] == U32(crc(p));
    assert f[4..8] == U32(|p|);
    assert f[8..8 + |p|] == p;
    assert f[8 + |p|..] == rest;
  }

  /** Bytes after complete records never alter or hide those records. */
  lemma {:induction false} ReplayEncode(crc: Crc, ps: seq<Bytes>, junk: Bytes)
    requires Short(ps)
    ensures Replay(crc, Encode(crc, ps) + junk) == ps + Replay(crc, junk)
    ensures Tail(crc, Encode(crc, ps) + junk) == Tail(crc, junk)
  {
    hide Frame, HasRecord, Payload, Rest;
    if ps == [] {
      assert Encode(crc, ps) + junk == junk;
    } else {
      var rest := Encode(crc, ps[1..]) + junk;
      assert Encode(crc, ps) + junk == Frame(crc, ps[0]) + rest;
      FrameIsRecord(crc, ps[0], rest);
      ReplayEncode(crc, ps[1..], junk);
    }
  }

  /** Less than one whole frame is no record. */
  lemma TornFrame(crc: Crc, p: Bytes, cut: nat)
    requires |p| < MAX32 && cut < |Frame(crc, p)|
    ensures !HasRecord(crc, Frame(crc, p)[..cut])
  {
    hide U32, GetLE;
    if cut >= 8 {
      U32Back(|p|);
      assert Frame(crc, p)[..cut][4..8] == U32(|p|);
    }
  }

  /** How many of the records fit wholly into the first `cut` bytes. */
  function Whole(crc: Crc, ps: seq<Bytes>, cut: nat): (k: nat)
    ensures k <= |ps|
  {
    if ps == [] || cut < 8 + |ps[0]| then 0 else 1 + Whole(crc, ps[1..], cut - 8 - |ps[0]|)
  }

  /** Whole is the number of records whose encoding ends at or before the cut. */
  lemma {:induction false} WholeFits(crc: Crc, ps: seq<Bytes>, cut: nat)
    ensures var k := Whole(crc, ps, cut);
            && |Encode(crc, ps[..k])| <= cut
            && (k < |ps| ==> cut < |Encode(crc, ps[..k + 1])|)
  {
    var k := Whole(crc, ps, cut);
    if ps == [] {
    } else if k == 0 {
      assert ps[..1][1..] == [];
    } else {
      hide Frame;
      WholeFits(crc, ps[1..], cut - 8 - |ps[0]|);
      assert ps[..k][1..] == ps[1..][..k - 1];
      if k < |ps| { assert ps[..k + 1][1..] == ps[1..][..k]; }
    }
  }

  /** Replay after any cut delivers exactly the records that fit wholly before it. */
  lemma {:induction false} ReplayCut(crc: Crc, ps: seq<Bytes>, cut: nat)
    requires Short(ps) && cut <= |Encode(crc, ps)|
    ensures Replay(crc, Encode(crc, ps)[..cut]) == ps[..Whole(crc, ps, cut)]
    ensures Tail(crc, Encode(crc, ps)[..cut]) == [] <==> cut == |Encode(crc, ps[..Whole(crc, ps, cut)])|
  {
    hide Frame, HasRecord, Payload, Rest;
    if ps != [] {
      var file, frame := Encode(crc, ps), Frame(crc, ps[0]);
      var k := Whole(crc, ps, cut);
      if cut < |frame| {
        assert file[..cut] == frame[..cut];
        TornFrame(crc, ps[0], cut);
      } else {
        var rest, cut' := Encode(crc, ps[1..]), cut - |frame|;
        assert file[..cut] == frame + rest[..cut'];
        FrameIsRecord(crc, ps[0], rest[..cut']);
        ReplayCut(crc, ps[1..], cut');
        assert ps[..k] == [ps[0]] + ps[1..][..k - 1];
        assert ps[..k][1..] == ps[1..][..k - 1];
      }
    }
  }

  lemma {:induction false} EncodeMonotone(crc: Crc, ps: seq<Bytes>, i: nat, j: nat)
    requires i <= j <= |ps|
    ensures |Encode(crc, ps[..i])| <= |Encode(crc, ps[..j])|
    decreases |ps|
  {
    if i > 0 {
      EncodeMonotone(crc, ps[1..], i - 1, j - 1);
      assert ps[..i][1..] == ps[1..][..i - 1] && ps[..j][1..] == ps[1..][..j - 1];
    }
  }

  lemma {:induction false} EncodeSnoc(crc: Crc, ps: seq<Bytes>, p: Bytes)
    ensures Encode(crc, ps + [p]) == Encode(crc, ps) + Frame(crc, p)
  {
    hide Frame;
    if ps == [] {
      assert ([] + [p])[1..] == [];
    } else {
      EncodeSnoc(crc, ps[1..], p);
      assert (ps + [p])[1..] == ps[1..] + [p];
    }
  }

  /** A cut that leaves the first `whole` records alone leaves those and perhaps some of the next ones. */
  lemma CutKeepsPrefix(crc: Crc, ps: seq<Bytes>, whole: nat, cut: nat) returns (k: nat)
    requires Short(ps) && whole <= |ps| && |Encode(crc, ps[..whole])| <= cut <= |Encode(crc, ps)|
    ensures whole <= k <= |ps| && Replay(crc, Encode(crc, ps)[..cut]) == ps[..k]
  {
    hide Frame, Replay, Tail;
    k := Whole(crc, ps, cut);
    ReplayCut(crc, ps, cut);
    WholeFits(crc, ps, cut);
    if k < whole { EncodeMonotone(crc, ps, k + 1, whole); }
  }

  // ---- Appending to an existing file ----

  lemma RecordStays(crc: Crc, f: Bytes, more: Bytes)
    requires HasRecord(crc, f)
    ensures HasRecord(crc, f + more) && Payload(crc, f + more) == Payload(crc, f)
    ensures Rest(crc, f + more) == Rest(crc, f) + more
  {
    hide U32, GetLE;
    var g, n := f + more, GetLE(f[4..8]);
    assert g[4..8] == f[4..8] && g[..4] == f[..4];
    assert g[8..8 + n] == f[8..8 + n];
    assert g[8 + n..] == f[8 + n..] + more;
  }

  /** Replay reads its records and then whatever the tail and later bytes amount to. */
  lemma {:induction false} ReplaySplit(crc: Crc, f: Bytes, more: Bytes)
    ensures Replay(crc, f + more) == Replay(crc, f) + Replay(crc, Tail(crc, f) + more)
    decreases |f|
  {
    hide HasRecord, Payload, Rest;
    if HasRecord(crc, f) {
      RecordStays(crc, f, more);
      ReplaySplit(crc, Rest(crc, f), more);
      assert Replay(crc, f + more) == [Payload(crc, f)] + Replay(crc, Rest(crc, f) + more);
    } else {
      assert Replay(crc, f) == [];
    }
  }

  ghost predicate Zeros(p: Bytes) {
    |p| == 8 && forall k :: 0 <= k < 8 ==> p[k] == 0
  }

  /** A tail too short for a header swallows the next record. */
  lemma ShortTailSwallows(crc: Crc, g: Bytes, p: Bytes)
    requires 0 < |g| < 8 && Zeros(p)
    ensures Replay(crc, g + Frame(crc, p)) != [p]
  {
    hide Replay;
    var h := g + Frame(crc, p);
    FirstOf(crc, h);
    if HasRecord(crc, h) { NotZeros(crc, g, p); }
  }

  lemma FirstOf(crc: Crc, h: Bytes)
    ensures Replay(crc, h) == [] || (HasRecord(crc, h) && Replay(crc, h)[0] == Payload(crc, h))
  {
    hide HasRecord, Payload, Rest;
  }

  lemma NotZeros(crc: Crc, g: Bytes, p: Bytes)
    requires 0 < |g| < 8 && Zeros(p) && HasRecord(crc, g + Frame(crc, p))
    ensures Payload(crc, g + Frame(crc, p)) != p
  {
    var h := g + Frame(crc, p);
    LenByte(crc, g, p);
    hide U32, HasRecord, Frame;
    if |g| < 4 {
      assert h[4..8][|g|] == 8;
      HighByte(h[4..8], |g|);
    } else if |Payload(crc, h)| == 8 {
      assert Payload(crc, h)[|g| - 4] == 8;
    }
  }

  lemma LenByte(crc: Crc, g: Bytes, p: Bytes)
    requires |p| == 8
    ensures var h := g + Frame(crc, p); |h| > |g| + 4 && h[|g| + 4] == 8
  {
    LenBytes();
    hide U32;
    assert (U32(crc(p)) + U32(|p|) + p)[4] == U32(|p|)[0];
  }

  lemma LenBytes()
    ensures U32(8)[0] == 8
  {
  }

  /** A nonzero byte above the lowest makes a little-endian number at least 256. */
  lemma HighByte(b: Bytes, i: nat)
    requires |b| == 4 && 1 <= i < 4 && b[i] > 0
    ensures GetLE(b) >= 256
  {
    assert GetLE(b) == b[0] + 256 * GetLE(b[1..]);
    assert GetLE(b[1..]) == b[1] + 256 * GetLE(b[2..]);
    assert b[1..][1..] == b[2..];
    assert GetLE(b[2..]) == b[2] + 256 * GetLE(b[3..]);
    assert b[2..][1..] == b[3..];
    assert GetLE(b[3..]) == b[3];
  }

  /** A torn or corrupt record of known length never yields an empty payload after it. */
  lemma LongTailSwallows(crc: Crc, g: Bytes)
    requires |g| >= 8 && !HasRecord(crc, g)
    ensures Replay(crc, g + Frame(crc, [])) != [[]]
  {
    hide U32, Frame, Replay, GetLE;
    var h := g + Frame(crc, []);
    assert h[4..8] == g[4..8] && h[..4] == g[..4];
    var n := GetLE(g[4..8]);
    FirstOf(crc, h);
    if HasRecord(crc, h) && 8 + n <= |g| { assert h[8..8 + n] == g[8..8 + n]; }
  }

  /**
   * OpenWAL appends to whatever is there. The next record is replayed, for every record one
   * may append, if and only if the previous replay had consumed the whole file. After a
   * torn write it has not, and records appended and fsynced later may be lost.
   */
  lemma AppendSurvivesIffNoTail(crc: Crc, f: Bytes)
    ensures (forall p: Bytes :: |p| < MAX32 ==> Replay(crc, f + Frame(crc, p)) == Replay(crc, f) + [p])
            <==> Tail(crc, f) == []
  {
    hide Replay, Tail, HasRecord, Payload, Rest, Frame;
    var g := Tail(crc, f);
    if g == [] {
      forall p: Bytes | |p| < MAX32 ensures Replay(crc, f + Frame(crc, p)) == Replay(crc, f) + [p] {
        ReplaySplit(crc, f, Frame(crc, p));
        OneFrame(crc, p);
        assert g + Frame(crc, p) == Frame(crc, p);
      }
    } else {
      var p: Bytes := if |g| < 8 then [0, 0, 0, 0, 0, 0, 0, 0] else [];
      TailNoRecord(crc, f);
      if |g| < 8 { ShortTailSwallows(crc, g, p); } else { LongTailSwallows(crc, g); }
      ReplaySplit(crc, f, Frame(crc, p));
      Cancel(Replay(crc, f), Replay(crc, g + Frame(crc, p)), [p]);
    }
  }

  lemma Cancel(a: seq<Bytes>, x: seq<Bytes>, y: seq<Bytes>)
    requires x != y
    ensures a + x != a + y
  {
    assert (a + x)[|a|..] == x && (a + y)[|a|..] == y;
  }

  lemma OneFrame(crc: Crc, p: Bytes)
    requires |p| < MAX32
    ensures Replay(crc, Frame(crc, p)) == [p]
  {
    hide HasRecord, Payload, Rest, Frame;
    FrameIsRecord(crc, p, []);
    assert Frame(crc, p) + [] == Frame(crc, p);
    NoRecordInNothing(crc);
  }

  lemma NoRecordInNothing(crc: Crc)
    ensures Replay(crc, []) == []
  {
  }

  lemma {:induction false} TailNoRecord(crc: Crc, f: Bytes)
    ensures !HasRecord(crc, Tail(crc, f))
    decreases |f|
  {
    hide HasRecord, Payload, Rest;
    if HasRecord(crc, f) { TailNoRecord(crc, Rest(crc, f)); }
  }

  lemma {:induction false} EncodePrefix(crc: Crc, ps: seq<Bytes>, k: nat)
    requires k <= |ps|
    ensures Encode(crc, ps[..k]) <= Encode(crc, ps)
  {
    hide Frame;
    if k > 0 {
      EncodePrefix(crc, ps[1..], k - 1);
      assert ps[..k][1..] == ps[1..][..k - 1];
    }
  }

  /**
   * A record cut off after its header swallows whatever is appended next, fsynced or not, until
   * as many bytes have followed as the header announced.
   */
  lemma TornTailSwallows(crc: Crc, before: seq<Bytes>, p: Bytes, cut: nat, more: Bytes)
    requires Short(before) && |p| < MAX32 && 8 <= cut && cut + |more| < 8 + |p|
    ensures Replay(crc, Encode(crc, before) + (Frame(crc, p)[..cut] + more)) == before
  {
    var junk := Frame(crc, p)[..cut] + more;
    assert !HasRecord(crc, junk) by {
      hide U32, GetLE;
      U32Back(|p|);
      assert junk[4..8] == U32(|p|);
    }
    hide Frame, HasRecord;
    ReplayEncode(crc, before, junk);
    assert before + [] == before;
  }

  // ---- The writer ----

  /**
   * `file` is what the operating system has been given, `buf` what the buffered writer still holds.
   * A crash leaves any number of bytes, but at least those fsynced. OpenWAL takes any file, and
   * what it finds there is taken to be durable.
   */
  class WAL {
    const crc: Crc
    var file: Bytes
    var buf: Bytes
    var off: nat
    ghost var found: Bytes         // the file when it was opened
    ghost var records: seq<Bytes>  // what was appended since
    ghost var synced: nat          // how many of those had been appended at the last Sync
    ghost var durable: nat         // how many bytes were fsynced

    ghost predicate Valid()
      reads this
    {
      && Short(records) && file + buf == found + Encode(crc, records) && off == |file| + |buf|
      && synced <= |records| && durable == |found| + |Encode(crc, records[..synced])| <= |file|
    }

    constructor (crc: Crc, file: Bytes)
      ensures Valid() && this.crc == crc && found == file && records == [] && synced == 0 && off == |file|
    {
      this.crc, this.file, this.buf, this.off := crc, file, [], |file|;
      this.found, this.records, this.synced, this.durable := file, [], 0, |file|;
    }

    /** The buffered writer may pass on any part of what it holds. */
    method BufWrite(b: Bytes)
      modifies this`file, this`buf
      ensures file + buf == old(file + buf) + b && old(file) <= file
    {
      buf := buf + b;
      var n: nat :| n <= |buf|;
      assert buf == buf[..n] + buf[n..];
      file, buf := file + buf[..n], buf[n..];
    }

    method Append(payload: Bytes)
      requires Valid() && |payload| < MAX32
      modifies this`file, this`buf, this`off, this`records
      ensures Valid() && records == old(records) + [payload] && off == old(off) + 8 + |payload|
    {
      ghost var before := file + buf;
      BufWrite(U32(crc(payload)) + U32(|payload|));
      BufWrite(payload);
      off := off + 8 + |payload|;
      EncodeSnoc(crc, records, payload);
      assert file + buf == before + Frame(crc, payload);
      assert before + Frame(crc, payload) == found + (Encode(crc, records) + Frame(crc, payload));
      assert (records + [payload])[..synced] == records[..synced];
      records := records + [payload];
    }

    method Sync()
      requires Valid()
      modifies this`file, this`buf, this`synced, this`durable
      ensures Valid() && buf == [] && synced == |records| && file == old(file + buf)
    {
      file, buf := file + buf, [];
      synced, durable := |records|, |file|;
      assert records[..|records|] == records && file + [] == file;
    }

    /**
     * Whatever a crash leaves, replay delivers what it would have delivered at the start, every record
     * synced since and perhaps some later ones, in order, provided the file had no tail then.
     */
    lemma CrashReplays(cut: nat) returns (k: nat)
      requires Valid() && durable <= cut <= |file| + |buf| && Tail(crc, found) == []
      ensures synced <= k <= |records| && Replay(crc, (file + buf)[..cut]) == Replay(crc, found) + records[..k]
    {
      var more := Encode(crc, records)[..cut - |found|];
      k := CutKeepsPrefix(crc, records, synced, cut - |found|);
      assert (file + buf)[..cut] == found + more;
      ReplaySplit(crc, found, more);
      assert [] + more == more;
    }
  }
}
