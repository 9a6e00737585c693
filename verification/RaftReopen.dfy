/**
 * A node, the bytes of its log file and openDiskStorage put together: what a crash at any byte
 * reopens to, when the file is then fit for another life, and the two ways in which the
 * code can forget what it promised.
 */
module RaftReopen {
  import opened Bytes
  import opened RaftTypes
  import opened RaftStorage
  import opened RaftRecords
  import opened RaftDisk
  import opened RaftNode
  import Spec = NodeSpec
  import Wal

  ghost predicate AllFit(recs: seq<Record>) {
    forall k :: 0 <= k < |recs| ==> Fits(recs[k])
  }

  /** The log file of a storage: every record it has written, framed. */
  function FileOf(crc: Wal.Crc, recs: seq<Record>): Bytes {
    Wal.Encode(crc, Payloads(recs))
  }

  /** openDiskStorage on the bytes of the log file; none where a record does not decode. */
  method OpenStorage(crc: Wal.Crc, metaIndex: nat, metaTerm: Term, data: Bytes, file: Bytes)
    returns (r: Option<DiskStorage>)
    ensures r.None? <==> exists p :: p in Wal.Replay(crc, file) && DecodeRecord(p).None?
    ensures r.Some? ==>
              && var st := r.value;
              && fresh(st) && st.snapIndex == metaIndex && st.snapTerm == metaTerm && st.snapshot == data
              && Decodes(Wal.Replay(crc, file), st.wal) && st.Memory() == Replay(metaIndex, st.wal)
              && st.flushed == |st.wal| && !st.dirty
              && (Gapless(metaIndex, st.wal) ==> st.Valid() && st.OnlyTailPending())
  {
    var ps := Wal.ReplayWAL(crc, file);
    var recs: seq<Record> := [];
    var k := 0;
    while k < |ps|
      invariant 0 <= k <= |ps| && Decodes(ps[..k], recs)
    {
      var rec := DecodeRecord(ps[k]);
      if rec.None? {
        assert ps[k] in ps;
        return None;
      }
      recs := recs + [rec.value];
      k := k + 1;
    }
    assert ps[..k] == ps;
    var st := new DiskStorage.Open(metaIndex, metaTerm, data, recs);
    r := Some(st);
  }

  lemma DecodesOne(ps: seq<Bytes>, a: seq<Record>, b: seq<Record>)
    requires Decodes(ps, a) && Decodes(ps, b)
    ensures a == b
  {
  }

  /** Where in the file the crash fell: between two records, or inside one. */
  ghost predicate AtBoundary(crc: Wal.Crc, recs: seq<Record>, cut: nat) {
    exists k :: 0 <= k <= |recs| && cut == |FileOf(crc, recs[..k])|
  }

  lemma PayloadsPrefix(recs: seq<Record>, k: nat)
    requires k <= |recs|
    ensures Payloads(recs[..k]) == Payloads(recs)[..k]
  {
  }

  /** The bytes left are the file of the records they replay to exactly if the cut is between two records. */
  lemma CutIsFileIff(crc: Wal.Crc, recs: seq<Record>, k: nat, cut: nat)
    requires AllFit(recs) && cut <= |FileOf(crc, recs)| && k <= |recs|
    requires Decodes(Wal.Replay(crc, FileOf(crc, recs)[..cut]), recs[..k])
    ensures FileOf(crc, recs[..k]) == FileOf(crc, recs)[..cut] <==> AtBoundary(crc, recs, cut)
    ensures AtBoundary(crc, recs, cut) <==> Wal.Tail(crc, FileOf(crc, recs)[..cut]) == []
  {
    var ps := Payloads(recs);
    forall i | 0 <= i < |ps| ensures |ps[i]| < MAX32 { RecordRoundTrip(recs[i]); }
    hide Payloads, DecodeRecord, EncodeRecord;
    Wal.ReplayCut(crc, ps, cut);
    Wal.WholeFits(crc, ps, cut);
    assert k == Wal.Whole(crc, ps, cut);
    PayloadsPrefix(recs, k);
    Wal.EncodePrefix(crc, ps, k);
    if AtBoundary(crc, recs, cut) {
      var j :| 0 <= j <= |recs| && cut == |FileOf(crc, recs[..j])|;
      PayloadsPrefix(recs, j);
      if j < k { Wal.EncodeMonotone(crc, ps, j, k); }
      if j > k { Wal.EncodeMonotone(crc, ps, k + 1, j); }
    }
  }

  /**
   * A crash that leaves the log file cut at any byte above its fsynced part, and a restart. The new
   * node is the old one after the Crash step of the cluster, with at least everything durable. Its file
   * is again the file of its records, so the next crash may be of this kind too, if and only if
   * the cut was between two records.
   */
  method Reopen(crc: Wal.Crc, n: Node, cut: nat) returns (n': Node, ghost keep: nat)
    requires n.Valid() && AllFit(n.store.wal)
    requires |FileOf(crc, n.store.wal[..n.store.flushed])| <= cut <= |FileOf(crc, n.store.wal)|
    ensures fresh(n') && n'.Valid() && n.View().synced <= keep <= |n.FullLog()|
    ensures n'.View() == Spec.Restart(n.View(), n.FullLog()[..keep])
    ensures FileOf(crc, n'.store.wal) == FileOf(crc, n.store.wal)[..cut] <==> AtBoundary(crc, n.store.wal, cut)
  {
    var file := FileOf(crc, n.store.wal)[..cut];
    ghost var recs := n.store.wal;
    PayloadsPrefix(recs, n.store.flushed);
    ghost var k := CutKeepsRecords(crc, recs, n.store.flushed, cut);
    GaplessPrefix(n.store.snapIndex, recs, k);
    keep := n.CrashKeeps(k);
    CutIsFileIff(crc, recs, k, cut);
    hide Payloads, DecodeRecord, EncodeRecord, Gapless, Replay, DiskStorage.OnlyTailPending;
    var st := OpenStorage(crc, n.store.snapIndex, n.store.snapTerm, n.store.snapshot, file);
    assert st.Some?;
    DecodesOne(Wal.Replay(crc, file), st.value.wal, recs[..k]);
    n' := new Node(n.id, n.voters, st.value, n.compacted);
  }

  // ---- A record torn in an earlier life ----

  /**
   * A crash tears a record after its header. The next life appends to the file as it is. Whatever the
   * checksum, the life after that finds nothing of what was appended, as long as it is shorter
   * than the record that was torn.
   */
  lemma LostRecords(crc: Wal.Crc, before: seq<Record>, torn: Bytes, later: seq<Record>)
    requires AllFit(before) && |FileOf(crc, later)| < |torn| < MAX32
    ensures Decodes(Wal.Replay(crc, TornFile(crc, before, torn)), before)
    ensures Decodes(Wal.Replay(crc, TornFile(crc, before, torn) + FileOf(crc, later)), before)
  {
    hide Wal.Frame, Wal.Replay, Wal.Encode, Payloads, DecodeRecord, EncodeRecord;
    var ps, more, head := Payloads(before), FileOf(crc, later), Wal.Frame(crc, torn)[..8];
    PayloadsDecode(before);
    Wal.TornTailSwallows(crc, ps, torn, 8, []);
    Wal.TornTailSwallows(crc, ps, torn, 8, more);
    assert head + [] == head;
    assert FileOf(crc, before) + head + more == FileOf(crc, before) + (head + more);
  }

  /** Whole records and the header of one that was torn. */
  function TornFile(crc: Wal.Crc, before: seq<Record>, torn: Bytes): Bytes {
    FileOf(crc, before) + Wal.Frame(crc, torn)[..8]
  }

  lemma PayloadsDecode(recs: seq<Record>)
    requires AllFit(recs)
    ensures Decodes(Payloads(recs), recs) && Wal.Short(Payloads(recs))
  {
    hide DecodeRecord, EncodeRecord;
    forall i | 0 <= i < |recs| { RecordRoundTrip(recs[i]); }
  }

  lemma VoteBytes(crc: Wal.Crc, t: Term, v: NodeId)
    ensures |FileOf(crc, [HardState(t, 0), HardState(t, v)])| == 50
  {
    var recs := [HardState(t, 0), HardState(t, v)];
    var ps := Payloads(recs);
    assert |ps[0]| == 17 && |ps[1]| == 17;
    var rest: seq<Bytes> := ps[1..];
    assert rest == [ps[1]];
    assert |Wal.Encode(crc, rest)| == 25;
  }

  /** A life on a log file: openDiskStorage, NewNode and a request for a vote. */
  method AskAfterOpening(crc: Wal.Crc, metaIndex: nat, metaTerm: Term, data: Bytes, ghost compacted: Log, file: Bytes,
                         ghost recs: seq<Record>, id: NodeId, voters: set<NodeId>, r: VoteRequest)
    returns (reply: VoteReply, written: seq<Record>)
    requires Decodes(Wal.Replay(crc, file), recs) && Gapless(metaIndex, recs)
    requires |compacted| == metaIndex && From(0, compacted) && metaTerm == TermOf(compacted, |compacted|)
    requires id in voters && Replay(metaIndex, recs).term < r.term
    requires UpToDate(r.lastTerm, r.lastIndex, compacted + Replay(metaIndex, recs).log)
    ensures reply == VoteReply(r.term, true) && written == [HardState(r.term, 0), HardState(r.term, r.cand)]
  {
    hide Wal.Replay, DecodeRecord, Replay, Gapless, DiskStorage.OnlyTailPending;
    var st := OpenStorage(crc, metaIndex, metaTerm, data, file);
    assert st.Some?;
    DecodesOne(Wal.Replay(crc, file), st.value.wal, recs);
    var node := new Node(id, voters, st.value, compacted);
    var found := |node.store.wal|;
    reply := node.HandleRequestVote(r);
    written := node.store.wal[found..];
  }

  /**
   * A node votes twice in one term. Its log file ends in the header of a record torn in an earlier life. It is
   * opened, grants its vote of term t to v, and what that wrote is fsynced. Opened once more, it
   * grants its vote of the same term to w.
   */
  method VotesTwice(crc: Wal.Crc, metaIndex: nat, metaTerm: Term, data: Bytes, ghost compacted: Log,
                    before: seq<Record>, torn: Bytes, id: NodeId, voters: set<NodeId>,
                    t: Term, v: NodeId, w: NodeId, last: nat, lastTerm: Term)
    returns (first: VoteReply, second: VoteReply, file: Bytes)
    requires AllFit(before) && Gapless(metaIndex, before) && 50 < |torn| < MAX32
    requires |compacted| == metaIndex && From(0, compacted) && metaTerm == TermOf(compacted, |compacted|)
    requires id in voters && Replay(metaIndex, before).term < t
    requires UpToDate(lastTerm, last, compacted + Replay(metaIndex, before).log)
    ensures file == TornFile(crc, before, torn) + FileOf(crc, [HardState(t, 0), HardState(t, v)])
    ensures first == VoteReply(t, true) && second == VoteReply(t, true)
  {
    hide TornFile, FileOf, Gapless, Replay, Wal.Replay, Decodes, UpToDate;
    VoteBytes(crc, t, v);
    LostRecords(crc, before, torn, [HardState(t, 0), HardState(t, v)]);
    var written;
    file := TornFile(crc, before, torn);
    first, written := AskAfterOpening(crc, metaIndex, metaTerm, data, compacted, file, before, id, voters,
                                      VoteRequest(t, v, last, lastTerm));
    file := file + FileOf(crc, written);
    second, written := AskAfterOpening(crc, metaIndex, metaTerm, data, compacted, file, before, id, voters,
                                       VoteRequest(t, w, last, lastTerm));
  }

  // ---- Acknowledging without fsync ----

  /** Some of the log has not been fsynced. */
  predicate Pending(s: Spec.NodeState) { s.synced < |s.log| }

  /** Handling this request fsyncs the log file: it raises the term, or it writes. */
  predicate Syncs(s: Spec.NodeState, r: AppendRequest) {
    || r.term > s.term
    || (Spec.HandleAppendEntries(s, r).1.success
        && Spec.FirstNew(s.log, s.snapIndex, r.prevIndex, r.entries, 0) < |r.entries|)
  }

  /** The node after these requests. */
  function Life(s: Spec.NodeState, rs: seq<AppendRequest>): Spec.NodeState {
    if rs == [] then s else Spec.HandleAppendEntries(Life(s, rs[..|rs| - 1]), rs[|rs| - 1]).0
  }

  predicate InBounds(s: Spec.NodeState) { s.snapIndex <= |s.log| && s.synced <= |s.log| }

  lemma {:induction false} FirstNewWithin(log: Log, snap: nat, prev: nat, entries: Log, i: nat)
    requires i <= |entries| && prev + i <= |log| && snap <= |log|
    ensures prev + Spec.FirstNew(log, snap, prev, entries, i) <= |log|
    decreases |entries| - i
  {
    if i < |entries| && prev + i < |log| { FirstNewWithin(log, snap, prev, entries, i + 1); }
  }

  /** What is pending stays so until a request fsyncs; a request acknowledged is in the log. */
  lemma PendingStep(s: Spec.NodeState, r: AppendRequest)
    requires InBounds(s)
    ensures var (s', reply) := Spec.HandleAppendEntries(s, r);
            && (reply.success ==> r.prevIndex + |r.entries| <= |s'.log|)
            && InBounds(s') && (Pending(s') <==> Pending(s) && !Syncs(s, r))
  {
    if r.prevIndex <= |s.log| {
      FirstNewWithin(s.log, s.snapIndex, r.prevIndex, r.entries, 0);
      FirstNewAbove(s.log, s.snapIndex, r.prevIndex, r.entries, 0);
    }
  }

  /** Nothing at or below the snapshot is written again. */
  lemma {:induction false} FirstNewAbove(log: Log, snap: nat, prev: nat, entries: Log, i: nat)
    requires i <= |entries|
    ensures var f := Spec.FirstNew(log, snap, prev, entries, i); f < |entries| ==> snap <= prev + f
    decreases |entries| - i
  {
    if i < |entries| { FirstNewAbove(log, snap, prev, entries, i + 1); }
  }

  /** Everything such a node will acknowledge next is on disk exactly if nothing is pending. */
  lemma NextAckIff(s: Spec.NodeState)
    requires InBounds(s)
    ensures (forall r :: AckIsDurable(s, r)) <==> !Pending(s)
  {
    if !Pending(s) {
      forall r ensures AckIsDurable(s, r) { PendingStep(s, r); }
    } else {
      var beat := AppendRequest(s.term, s.leaderId, |s.log|, LastTerm(s.log), [], 0);
      assert !AckIsDurable(s, beat);
    }
  }

  ghost predicate AckIsDurable(s: Spec.NodeState, r: AppendRequest) {
    var (s', reply) := Spec.HandleAppendEntries(s, r);
    reply.success ==> r.prevIndex + |r.entries| <= s'.synced
  }

  /**
   * A node restarts on a log file of which only the first `synced` entries were ever fsynced, and handles some
   * requests. Whatever it acknowledges next is on disk, if and only if the file was all fsynced at
   * the restart, or one of those requests raised the term or made the node write.
   */
  lemma {:induction false} AckedIsDurableIff(s: Spec.NodeState, rs: seq<AppendRequest>)
    requires InBounds(s)
    ensures InBounds(Life(s, rs))
    ensures (forall r :: AckIsDurable(Life(s, rs), r)) <==>
            !Pending(s) || exists k :: 0 <= k < |rs| && Syncs(Life(s, rs[..k]), rs[k])
  {
    hide Spec.HandleAppendEntries, Syncs, AckIsDurable;
    if rs != [] {
      var n := |rs| - 1;
      AckedIsDurableIff(s, rs[..n]);
      NextAckIff(Life(s, rs[..n]));
      PendingStep(Life(s, rs[..n]), rs[n]);
      assert forall k :: 0 <= k < n ==> rs[..n][..k] == rs[..k] && rs[..n][k] == rs[k];
      assert Syncs(Life(s, rs[..n]), rs[n]) ==> exists k :: 0 <= k < |rs| && Syncs(Life(s, rs[..k]), rs[k]);
    }
    NextAckIff(Life(s, rs));
  }

  /**
   * A concrete loss. Node 2 is sent an entry and its process dies between the append and the fsync. It reopens with
   * the entry in its log and nothing of it fsynced, is sent the same entry and acknowledges it. Then power fails,
   * and the log is empty.
   */
  lemma AckLost()
    ensures var e := Entry(1, 1, []);
            var r := AppendRequest(1, 1, 0, 0, [e], 0);
            var s := Spec.Fresh(2, {1, 2, 3}).(term := 1);
            var died := Spec.Restart(s, Spec.Merge(s.log, s.snapIndex, r.prevIndex, r.entries)).(synced := s.synced);
            var (s', reply) := Spec.HandleAppendEntries(died, r);
            && died.log == [e] && reply == AppendReply(1, true, 0, 0)
            && s'.synced == 0 && Spec.Restart(s', s'.log[..s'.synced]).log == []
  {
    var e := Entry(1, 1, []);
    assert Spec.FirstNew([], 0, 0, [e], 0) == 0;
    assert [] + [e][0..] == [e];
    assert Spec.FirstNew([e], 0, 0, [e], 0) == 1;
  }
}
