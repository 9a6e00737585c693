/** The class diskStorage of raft/storage.go, proved against the replay of RaftStorage. */
module RaftDisk {
  import opened Bytes
  import opened RaftTypes
  import opened RaftStorage

  class DiskStorage {
    var term: Term
    var votedFor: NodeId
    var dirty: bool       // something was written that sync has not covered
    var log: Log          // log[0] has index snapIndex + 1
    var snapIndex: nat
    var snapTerm: Term
    var snapshot: Bytes
    var wal: seq<Record>  // the records written to the log file
    var flushed: nat      // how many of them have been fsynced

    ghost function Memory(): Mem
      reads this
    {
      Mem(term, votedFor, log)
    }

    ghost function State(): Store
      reads this
    {
      Store(Memory(), snapIndex, wal, flushed)
    }

    /** Reopening the storage would find exactly what is in memory. */
    ghost predicate Valid()
      reads this
    {
      && From(snapIndex, log)
      && flushed <= |wal| && (!dirty ==> flushed == |wal|)
      && Memory() == Replay(snapIndex, wal)
      && Gapless(snapIndex, wal)
    }

    /** A crash keeping k records loses only entries at the end of the log. */
    ghost predicate KeepsAt(k: nat)
      requires flushed <= k <= |wal| && |wal| - flushed <= |log|
      reads this
    {
      Replay(snapIndex, wal[..k]) == Mem(term, votedFor, log[..|log| - (|wal| - k)])
    }

    /** The records not yet fsynced are the last entries of the log. */
    ghost predicate OnlyTailPending()
      reads this
    {
      && flushed <= |wal| && |wal| - flushed <= |log|
      && forall k :: flushed <= k <= |wal| ==> KeepsAt(k)
    }

    /** The index up to which the log survives any crash. */
    ghost function SyncedIndex(): nat
      requires OnlyTailPending()
      reads this
    {
      snapIndex + |log| - (|wal| - flushed)
    }

    lemma NothingPending()
      requires Valid() && flushed == |wal|
      ensures OnlyTailPending() && SyncedIndex() == snapIndex + |log|
    {
      assert wal[..|wal|] == wal && log[..|log|] == log;
    }

    /** openDiskStorage: the snapshot's index first, then every record of the log file. */
    constructor Open(metaIndex: nat, metaTerm: Term, data: Bytes, recs: seq<Record>)
      ensures Memory() == Replay(metaIndex, recs)
      ensures snapIndex == metaIndex && snapTerm == metaTerm && snapshot == data
      ensures wal == recs && flushed == |recs| && !dirty
      ensures Gapless(metaIndex, recs) ==> Valid() && OnlyTailPending()
    {
      snapIndex, snapTerm, snapshot := metaIndex, metaTerm, data;
      term, votedFor, log := 0, 0, [];
      wal, flushed, dirty := recs, |recs|, false;
      new;
      var k := 0;
      while k < |recs|
        invariant 0 <= k <= |recs|
        invariant snapIndex == metaIndex && snapTerm == metaTerm && snapshot == data
        invariant wal == recs && flushed == |recs| && !dirty
        invariant Memory() == Replay(metaIndex, recs[..k])
      {
        assert recs[..k + 1] == recs[..k] + [recs[k]];
        ReplaySnoc(metaIndex, recs[..k], recs[k]);
        match recs[k] {
          case HardState(t, v) => term, votedFor := t, v;
          case Append(e) => if e.index > snapIndex { log := log + [e]; }
          case Truncate(from) => DropTail(from);
        }
        k := k + 1;
      }
      assert recs[..k] == recs;
      if Gapless(metaIndex, recs) {
        assert GaplessAt(metaIndex, recs, |recs|);
        NothingPending();
      }
    }

    /** Removes entries from the end while their index is at least `from`. */
    method DropTail(from: nat)
      modifies this`log
      ensures log == DropFrom(old(log), from)
    {
      while |log| > 0 && log[|log| - 1].index >= from
        invariant DropFrom(log, from) == DropFrom(old(log), from)
        decreases |log|
      {
        log := log[..|log| - 1];
      }
    }

    function FirstIndex(): nat
      reads this
    {
      snapIndex + 1
    }

    function LastIndex(): (i: nat)
      reads this
      ensures From(snapIndex, log) ==> i == snapIndex + |log|
    {
      if |log| > 0 then log[|log| - 1].index else snapIndex
    }

    function TermAt(index: nat): (t: Option<Term>)
      requires From(snapIndex, log)
      reads this
    {
      if index == snapIndex then Some(snapTerm)
      else if index < FirstIndex() || index > LastIndex() then None
      else Some(log[index - FirstIndex()].term)
    }

    function EntriesFrom(lo: nat): Log
      requires From(snapIndex, log)
      reads this
    {
      if lo < FirstIndex() || lo > LastIndex() then [] else log[lo - FirstIndex()..]
    }

    method SetHardState(t: Term, v: NodeId)
      requires Valid()
      modifies this`term, this`votedFor, this`wal, this`flushed
      ensures Valid() && OnlyTailPending()
      ensures term == t && votedFor == v && flushed == |wal|
      ensures State() == DoMicro(DoMicro(old(State()), Write(HardState(t, v))), Flush)
    {
      ReplaySnoc(snapIndex, wal, HardState(t, v));
      GaplessSnoc(snapIndex, wal, HardState(t, v));
      term, votedFor := t, v;
      wal := wal + [HardState(t, v)];
      flushed := |wal|;
      NothingPending();
    }

    /** sync fsyncs only if something was appended since the last time. */
    method Sync()
      requires Valid()
      modifies this`flushed, this`dirty
      ensures Valid() && OnlyTailPending() && flushed == |wal| && !dirty
      ensures State() == DoMicro(old(State()), Flush)
    {
      if dirty {
        flushed := |wal|;
        dirty := false;
      }
      NothingPending();
    }

    /**
     * Appends without fsync, truncating a conflicting suffix first. The entries must continue the
     * log: consecutive, above the snapshot, and starting no later than the next index.
     */
    method AppendEntries(entries: Log)
      requires Valid()
      requires entries != [] ==>
                 snapIndex < entries[0].index <= snapIndex + |log| + 1 && From(entries[0].index - 1, entries)
      modifies this`log, this`wal, this`dirty
      ensures Valid() && flushed <= |wal|
      ensures entries == [] ==> log == old(log) && wal == old(wal) && dirty == old(dirty)
      ensures entries != [] ==> dirty && log == old(log)[..entries[0].index - 1 - snapIndex] + entries
      ensures entries != [] && entries[0].index == snapIndex + old(|log|) + 1 && old(OnlyTailPending()) ==>
                OnlyTailPending() && |wal| == old(|wal|) + |entries|
    {
      if entries == [] {
        return;
      }
      var first := entries[0].index;
      if |log| > 0 && log[|log| - 1].index >= first {
        TruncateFrom(first);
      } else {
        assert old(log)[..first - 1 - snapIndex] == old(log);
      }
      ghost var keep := log;
      var i := 0;
      while i < |entries|
        invariant 0 <= i <= |entries|
        invariant log == keep + entries[..i] && From(snapIndex, log)
        invariant flushed <= |wal| && Memory() == Replay(snapIndex, wal) && Gapless(snapIndex, wal)
        invariant i > 0 ==> dirty
        invariant !dirty ==> flushed == |wal|
        invariant first == snapIndex + old(|log|) + 1 && old(OnlyTailPending()) ==>
                    OnlyTailPending() && |wal| == old(|wal|) + i
      {
        assert entries[..i + 1] == entries[..i] + [entries[i]];
        AppendOne(entries[i]);
        i := i + 1;
      }
      assert entries[..i] == entries;
    }

    method TruncateFrom(first: nat)
      requires Valid() && snapIndex < first <= snapIndex + |log|
      modifies this`log, this`wal, this`dirty
      ensures From(snapIndex, log) && flushed < |wal| && dirty
      ensures Memory() == Replay(snapIndex, wal) && Gapless(snapIndex, wal)
      ensures log == old(log)[..first - 1 - snapIndex]
    {
      DropFromRun(snapIndex, log, first);
      ReplaySnoc(snapIndex, wal, Truncate(first));
      GaplessSnoc(snapIndex, wal, Truncate(first));
      wal := wal + [Truncate(first)];
      DropTail(first);
      dirty := true;
    }

    /** One turn of the loop that writes entries. */
    method AppendOne(e: Entry)
      requires From(snapIndex, log) && flushed <= |wal|
      requires Memory() == Replay(snapIndex, wal) && Gapless(snapIndex, wal)
      requires e.index == snapIndex + |log| + 1
      modifies this`log, this`wal, this`dirty
      ensures From(snapIndex, log) && flushed < |wal| && dirty
      ensures Memory() == Replay(snapIndex, wal) && Gapless(snapIndex, wal)
      ensures log == old(log) + [e] && wal == old(wal) + [Append(e)]
      ensures old(OnlyTailPending()) ==> OnlyTailPending()
    {
      ReplaySnoc(snapIndex, wal, Append(e));
      GaplessSnoc(snapIndex, wal, Append(e));
      wal := wal + [Append(e)];
      log := log + [e];
      dirty := true;
      if old(OnlyTailPending()) {
        forall k | flushed <= k <= |wal| ensures KeepsAt(k) {
          if k == |wal| {
            assert wal[..k] == wal && log[..|log|] == log;
          } else {
            assert old(KeepsAt(k));
            assert wal[..k] == old(wal)[..k];
            assert log[..|log| - (|wal| - k)] == old(log)[..|old(log)| - (|old(wal)| - k)];
          }
        }
      }
    }

    /** Keeps the entries above the snapshot and replaces the log file by one that holds just those. */
    method SaveSnapshot(index: nat, t: Term, data: Bytes)
      requires Valid()
      modifies this
      ensures Valid() && term == old(term) && votedFor == old(votedFor)
      ensures index <= old(snapIndex) ==> State() == old(State()) && snapTerm == old(snapTerm) && dirty == old(dirty)
      ensures index <= old(snapIndex) ==> OnlyTailPending() == old(OnlyTailPending())
      ensures index > old(snapIndex) ==>
                && snapIndex == index && snapTerm == t && snapshot == data
                && State() == DoMicro(old(State()), Rewrite(index))
                && log == (if index - old(snapIndex) <= |old(log)| then old(log)[index - old(snapIndex)..] else [])
                && OnlyTailPending() && flushed == |wal|
    {
      hide Above, Rewritten, Replay, Gapless, KeepsAt;
      if index <= snapIndex {
        return;
      }
      var kept := KeptAbove(index);
      AboveOfRun(snapIndex, log, index);
      MicroKeepsInv(State(), Rewrite(index));
      log := kept;
      snapIndex, snapTerm, snapshot := index, t, data;
      RewrittenGapless(Memory(), index);
      wal := FreshFile();
      flushed := |wal|;
      dirty := false;
      NothingPending();
    }

    method KeptAbove(index: nat) returns (kept: Log)
      ensures kept == Above(log, index)
    {
      kept := [];
      var i := 0;
      while i < |log|
        invariant 0 <= i <= |log| && kept == Above(log[..i], index)
      {
        assert log[..i + 1][..i] == log[..i];
        if log[i].index > index {
          kept := kept + [log[i]];
        }
        i := i + 1;
      }
      assert log[..i] == log;
    }

    /** The records of the new log file: hard state first, then every entry kept. */
    method FreshFile() returns (recs: seq<Record>)
      ensures recs == Rewritten(Memory())
    {
      recs := [HardState(term, votedFor)];
      var i := 0;
      while i < |log|
        invariant 0 <= i <= |log|
        invariant recs == Rewritten(Memory())[..i + 1]
      {
        recs := recs + [Append(log[i])];
        i := i + 1;
      }
    }
  }

  lemma RewrittenGapless(m: Mem, index: nat)
    requires From(index, m.log)
    ensures Gapless(index, Rewritten(m))
  {
    var recs := Rewritten(m);
    forall k | 0 <= k <= |recs| ensures GaplessAt(index, recs, k) {
      if k > 0 { ReplayRewritten(m, index, k - 1); }
    }
  }
}
