/**
 * The persistent part of a Raft node (raft/storage.go): term, vote and log in a write-ahead
 * log of records, rewritten on every snapshot.
 */
module RaftStorage {
  import opened Bytes
  import opened RaftTypes

  datatype Record =
    | HardState(term: Term, votedFor: NodeId)
    | Append(entry: Entry)
    | Truncate(from: nat)

  /** What replay rebuilds. */
  datatype Mem = Mem(term: Term, votedFor: NodeId, log: Log)

  /** Drops entries from the end while their index is at least `from`. */
  function DropFrom(log: Log, from: nat): (r: Log)
    ensures r <= log
  {
    if |log| > 0 && log[|log| - 1].index >= from then DropFrom(log[..|log| - 1], from) else log
  }

  /** Replaying one record over a snapshot that ends at index `snap`. */
  function ApplyRecord(snap: nat, m: Mem, r: Record): Mem {
    match r
    case HardState(t, v) => m.(term := t, votedFor := v)
    case Append(e) => if e.index > snap then m.(log := m.log + [e]) else m
    case Truncate(from) => m.(log := DropFrom(m.log, from))
  }

  function Replay(snap: nat, recs: seq<Record>): Mem
    decreases |recs|
  {
    if recs == [] then Mem(0, 0, [])
    else ApplyRecord(snap, Replay(snap, recs[..|recs| - 1]), recs[|recs| - 1])
  }

  lemma ReplaySnoc(snap: nat, recs: seq<Record>, r: Record)
    ensures Replay(snap, recs + [r]) == ApplyRecord(snap, Replay(snap, recs), r)
  {
    assert (recs + [r])[..|recs|] == recs;
  }

  /** The entries of a log with indices snap + 1, snap + 2, ... */
  ghost predicate From(snap: nat, log: Log) {
    forall k :: 0 <= k < |log| ==> log[k].index == snap + 1 + k
  }

  // ---- Filtering by index commutes with replay ----

  /** The entries with an index above i, in order. */
  function Above(log: Log, i: nat): (r: Log) {
    if log == [] then []
    else
      var init := Above(log[..|log| - 1], i);
      if log[|log| - 1].index > i then init + [log[|log| - 1]] else init
  }

  lemma {:induction false} AboveOfRun(snap: nat, log: Log, i: nat)
    requires From(snap, log) && snap <= i
    ensures Above(log, i) == if i - snap <= |log| then log[i - snap..] else []
  {
    if log != [] {
      var n := |log| - 1;
      AboveOfRun(snap, log[..n], i);
      assert log[n].index == snap + 1 + n;
      if i - snap <= n {
        assert log[i - snap..] == log[..n][i - snap..] + [log[n]];
      } else if i - snap == |log| {
        assert log[i - snap..] == [];
      }
    }
  }

  lemma {:induction false} DropFromRun(snap: nat, log: Log, from: nat)
    requires From(snap, log)
    ensures DropFrom(log, from)
         == if from <= snap + 1 then [] else if from - 1 - snap <= |log| then log[..from - 1 - snap] else log
  {
    if |log| > 0 && log[|log| - 1].index >= from {
      DropFromRun(snap, log[..|log| - 1], from);
    }
  }

  /** Every prefix of the records replays to a gapless log. */
  ghost predicate GaplessAt(snap: nat, recs: seq<Record>, k: nat)
    requires k <= |recs|
  {
    From(snap, Replay(snap, recs[..k]).log)
  }

  ghost predicate Gapless(snap: nat, recs: seq<Record>) {
    forall k :: 0 <= k <= |recs| ==> GaplessAt(snap, recs, k)
  }

  lemma GaplessPrefix(snap: nat, recs: seq<Record>, n: nat)
    requires Gapless(snap, recs) && n <= |recs|
    ensures Gapless(snap, recs[..n])
  {
    forall k | 0 <= k <= n ensures GaplessAt(snap, recs[..n], k) {
      assert GaplessAt(snap, recs, k);
      assert recs[..n][..k] == recs[..k];
    }
  }

  lemma GaplessSnoc(snap: nat, recs: seq<Record>, r: Record)
    requires Gapless(snap, recs) && From(snap, Replay(snap, recs + [r]).log)
    ensures Gapless(snap, recs + [r])
  {
    forall k | 0 <= k <= |recs| + 1 ensures GaplessAt(snap, recs + [r], k) {
      if k <= |recs| {
        assert GaplessAt(snap, recs, k);
        assert (recs + [r])[..k] == recs[..k];
      } else {
        assert (recs + [r])[..k] == recs + [r];
      }
    }
  }

  lemma AboveSnoc(snap: nat, log: Log, e: Entry, i: nat)
    requires From(snap, log + [e]) && snap <= i
    ensures Above(log + [e], i) == if e.index > i then Above(log, i) + [e] else Above(log, i)
  {
    assert (log + [e])[..|log|] == log;
  }

  lemma AboveDrop(snap: nat, log: Log, from: nat, i: nat)
    requires From(snap, log) && snap <= i
    ensures Above(DropFrom(log, from), i) == DropFrom(Above(log, i), from)
  {
    DropFromRun(snap, log, from);
    AboveOfRun(snap, log, i);
    var d := DropFrom(log, from);
    AboveOfRun(snap, d, i);
    var a := Above(log, i);
    assert From(i, a);
    DropFromRun(i, a, from);
  }

  /**
   * Replaying the same records over a later snapshot gives the same term and vote, and
   * exactly the entries above it. So it does not matter in which order the snapshot's
   * metadata and the rewritten log reach the disk.
   */
  lemma {:induction false} FilterCommutes(snap: nat, snap': nat, recs: seq<Record>)
    requires Gapless(snap, recs) && snap <= snap'
    ensures var m, m' := Replay(snap, recs), Replay(snap', recs);
            m'.term == m.term && m'.votedFor == m.votedFor && m'.log == Above(m.log, snap')
    decreases |recs|
  {
    if recs != [] {
      var n := |recs| - 1;
      var init, r := recs[..n], recs[n];
      GaplessPrefix(snap, recs, n);
      FilterCommutes(snap, snap', init);
      assert GaplessAt(snap, recs, n) && GaplessAt(snap, recs, n + 1);
      assert recs[..n + 1] == recs;
      var m := Replay(snap, init);
      match r
      case HardState(_, _) =>
      case Append(e) => if e.index > snap { AboveSnoc(snap, m.log, e, snap'); }
      case Truncate(from) => AboveDrop(snap, m.log, from, snap');
    }
  }

  // ---- Crashes between writes ----

  /** The storage as the run sees it, and how many of its records have been fsynced. */
  datatype Store = Store(mem: Mem, snap: nat, wal: seq<Record>, flushed: nat)

  datatype Micro = Write(r: Record) | Flush | Rewrite(index: nat)

  /** The log file saveSnapshot writes: the hard state and the entries it keeps. */
  function Rewritten(m: Mem): seq<Record> {
    [HardState(m.term, m.votedFor)] + seq(|m.log|, k requires 0 <= k < |m.log| => Append(m.log[k]))
  }

  function DoMicro(st: Store, u: Micro): Store {
    match u
    case Write(r) => st.(mem := ApplyRecord(st.snap, st.mem, r), wal := st.wal + [r])
    case Flush => st.(flushed := |st.wal|)
    case Rewrite(index) =>
      var m := st.mem.(log := Above(st.mem.log, index));
      Store(m, index, Rewritten(m), |Rewritten(m)|)
  }

  const EMPTY := Store(Mem(0, 0, []), 0, [], 0)

  ghost predicate MicroAt(sts: seq<Store>, us: seq<Micro>, n: nat)
    requires n < |us| && n + 1 < |sts|
  {
    sts[n + 1] == DoMicro(sts[n], us[n])
  }

  ghost predicate MicroRun(sts: seq<Store>, us: seq<Micro>) {
    && |sts| == |us| + 1
    && sts[0] == EMPTY
    && forall n :: 0 <= n < |us| ==> MicroAt(sts, us, n)
  }

  /** The state right after the last fsync before moment n. */
  function LastSync(us: seq<Micro>, n: nat): (j: nat)
    requires n <= |us|
    ensures j <= n
  {
    if n == 0 then 0 else if us[n - 1].Write? then LastSync(us, n - 1) else n
  }

  lemma {:induction false} AboveIsAbove(log: Log, i: nat)
    ensures forall k :: 0 <= k < |Above(log, i)| ==> Above(log, i)[k].index > i
  {
    if log != [] { AboveIsAbove(log[..|log| - 1], i); }
  }

  lemma {:induction false} ReplayRewritten(m: Mem, index: nat, n: nat)
    requires n <= |m.log| && forall k :: 0 <= k < |m.log| ==> m.log[k].index > index
    ensures Replay(index, Rewritten(m)[..n + 1]) == m.(log := m.log[..n])
  {
    var recs := Rewritten(m);
    assert recs[..n + 1][..n] == recs[..n] && recs[..n + 1][n] == recs[n];
    if n == 0 {
      assert Replay(index, recs[..0]) == Mem(0, 0, []);
    } else {
      ReplayRewritten(m, index, n - 1);
      assert m.log[..n] == m.log[..n - 1] + [m.log[n - 1]];
    }
  }

  ghost predicate StoreInv(st: Store) {
    st.flushed <= |st.wal| && st.mem == Replay(st.snap, st.wal)
  }

  lemma MicroKeepsInv(st: Store, u: Micro)
    requires StoreInv(st)
    ensures StoreInv(DoMicro(st, u))
  {
    match u
    case Write(r) => ReplaySnoc(st.snap, st.wal, r);
    case Flush =>
    case Rewrite(index) =>
      var m := st.mem.(log := Above(st.mem.log, index));
      AboveIsAbove(st.mem.log, index);
      ReplayRewritten(m, index, |m.log|);
      assert Rewritten(m)[..|m.log| + 1] == Rewritten(m);
      assert m.log[..|m.log|] == m.log;
  }

  lemma {:induction false} MicroRunInv(sts: seq<Store>, us: seq<Micro>, n: nat)
    requires MicroRun(sts, us) && n <= |us|
    ensures StoreInv(sts[n])
  {
    if n > 0 {
      MicroRunInv(sts, us, n - 1);
      assert MicroAt(sts, us, n - 1);
      MicroKeepsInv(sts[n - 1], us[n - 1]);
    }
  }

  /**
   * A crash at any moment leaves any number of the records that were not yet fsynced. Replay
   * rebuilds a term, vote and log that the run really had, at or after its last fsync.
   */
  lemma {:induction false} CrashRecovers(sts: seq<Store>, us: seq<Micro>, n: nat, k: nat) returns (j: nat)
    requires MicroRun(sts, us) && n <= |us| && sts[n].flushed <= k <= |sts[n].wal|
    ensures LastSync(us, n) <= j <= n && Replay(sts[n].snap, sts[n].wal[..k]) == sts[j].mem
  {
    MicroRunInv(sts, us, n);
    if k == |sts[n].wal| {
      assert sts[n].wal[..k] == sts[n].wal;
      j := n;
    } else {
      MicroRunInv(sts, us, n - 1);
      assert MicroAt(sts, us, n - 1);
      var r := us[n - 1].r;
      j := CrashRecovers(sts, us, n - 1, k);
      assert sts[n].wal[..k] == sts[n - 1].wal[..k];
    }
  }

  // ---- Crashes inside saveSnapshot ----

  /** The disk: the bytes in snapshot.bin, the index in snapshot.meta, and the log file with its fsynced part. */
  datatype Image = Image(data: Bytes, snap: nat, wal: seq<Record>, flushed: nat)

  /** The disk before saveSnapshot(index, data), and after each of its three renames that storage reads back. */
  function Images(st: Store, was: Bytes, index: nat, data: Bytes): seq<Image> {
    var st' := DoMicro(st, Rewrite(index));
    [Image(was, st.snap, st.wal, st.flushed),
     Image(data, st.snap, st.wal, st.flushed),
     Image(data, index, st.wal, st.flushed),
     Image(data, st'.snap, st'.wal, st'.flushed)]
  }

  /**
   * A crash between any two file steps of saveSnapshot recovers a term, a vote and, above the snapshot
   * index it recovers, the whole log that the run had after some k' records, at or after its last
   * fsync. The bytes recovered belong to that index except between the first two renames: there
   * they are the new snapshot's, under the old index.
   */
  lemma SnapshotCrash(st: Store, before: Bytes, index: nat, data: Bytes, step: nat, k: nat) returns (k': nat)
    requires StoreInv(st) && Gapless(st.snap, st.wal) && index > st.snap && step < 4
    requires var img := Images(st, before, index, data)[step]; img.flushed <= k <= |img.wal|
    ensures st.flushed <= k' <= |st.wal|
    ensures var img := Images(st, before, index, data)[step];
            && var was := Replay(st.snap, st.wal[..k']);
            && Replay(img.snap, img.wal[..k]) == was.(log := Above(was.log, img.snap))
            && img.snap == (if step <= 1 then st.snap else index) && img.data == (if step == 0 then before else data)
  {
    if step == 3 {
      k' := |st.wal|;
      var st' := DoMicro(st, Rewrite(index));
      MicroKeepsInv(st, Rewrite(index));
      assert st.wal[..k'] == st.wal && st'.wal[..k] == st'.wal;
    } else {
      k' := k;
      GaplessPrefix(st.snap, st.wal, k);
      FilterCommutes(st.snap, if step == 2 then index else st.snap, st.wal[..k]);
    }
  }
}
