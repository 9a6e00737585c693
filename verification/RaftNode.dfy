/**
 * The class Node of raft/node.go. Every method is one region that runs under the node's lock,
 * and changes the node exactly as the function of the same name in NodeSpec says. The
 * cluster's theorems are about those functions.
 */
module RaftNode {
  import opened Bytes
  import opened RaftTypes
  import opened RaftConf
  import opened RaftConfCode
  import opened RaftStorage
  import opened RaftDisk
  import Spec = NodeSpec

  datatype ProposeResult = Proposed(index: nat, term: Term) | NotLeader

  /** The loop that gives every peer the same starting value. */
  method Fill(ids: set<NodeId>, v: nat) returns (m: map<NodeId, nat>)
    ensures m == Spec.Uniform(ids, v)
  {
    m := map[];
    var rest := ids;
    while rest != {}
      invariant rest <= ids && m == map p | p in ids - rest :: v
      decreases |rest|
    {
      var p :| p in rest;
      rest := rest - {p};
      m := m[p := v];
    }
  }

  lemma FromPrefix(log: Log, n: nat)
    requires From(0, log) && n <= |log|
    ensures From(0, log[..n])
  {
  }

  lemma SliceSnoc(log: Log, i: nat, j: nat)
    requires i <= j < |log|
    ensures log[i..j + 1] == log[i..j] + [log[j]]
  {
  }

  class Node {
    const id: NodeId
    const voters: set<NodeId>
    const store: DiskStorage
    ghost var compacted: Log  // the entries the last snapshot stands for
    var role: Role
    var leaderId: NodeId
    var commitIndex: nat
    var lastApplied: nat
    var nextIndex: map<NodeId, nat>
    var matchIndex: map<NodeId, nat>
    var votes: nat
    var counted: set<NodeId>

    ghost predicate Valid()
      reads this, store
    {
      && store.Valid() && store.OnlyTailPending()
      && |compacted| == store.snapIndex && From(0, compacted)
      && store.snapTerm == TermOf(compacted, |compacted|)
    }

    /** The whole log: what was compacted away, then what the storage holds. */
    ghost function FullLog(): Log
      reads this, store
    {
      compacted + store.log
    }

    ghost function View(): Spec.NodeState
      requires Valid()
      reads this, store
    {
      Spec.NodeState(id, voters, store.term, store.votedFor, FullLog(), store.SyncedIndex(), store.snapIndex,
                     role, leaderId, commitIndex, lastApplied, nextIndex, matchIndex, votes, counted)
    }

    /** NewNode on a storage that has just been opened. */
    constructor (id: NodeId, voters: set<NodeId>, store: DiskStorage, ghost compacted: Log)
      requires store.Valid() && store.flushed == |store.wal|
      requires |compacted| == store.snapIndex && From(0, compacted)
      requires store.snapTerm == TermOf(compacted, |compacted|)
      ensures Valid() && this.id == id && this.voters == voters && this.store == store
      ensures View() == Spec.Restart(
        Spec.Fresh(id, voters).(term := store.term, votedFor := store.votedFor, snapIndex := store.snapIndex),
        compacted + store.log)
    {
      this.id, this.voters, this.store, this.compacted := id, voters, store, compacted;
      role, leaderId, votes, counted := Follower, 0, 0, {};
      nextIndex, matchIndex := map[], map[];
      commitIndex, lastApplied := store.snapIndex, store.snapIndex;
      new;
      store.NothingPending();
    }

    // ---- What the log looks like from here ----

    lemma ViewIs()
      requires Valid()
      ensures var s := View();
              && s.log == FullLog() && s.snapIndex == store.snapIndex
              && s.lastApplied == lastApplied && s.commitIndex == commitIndex
    {
    }

    lemma LogIs()
      requires Valid()
      ensures From(0, FullLog()) && store.LastIndex() == |FullLog()|
      ensures forall i: nat :: store.TermAt(i) == Spec.TermAt(View(), i)
    {
      var s := View();
      forall i: nat ensures store.TermAt(i) == Spec.TermAt(s, i) {
        if store.snapIndex < i <= |s.log| { assert s.log[i - 1] == store.log[i - 1 - store.snapIndex]; }
      }
    }

    /**
     * Whatever number of unsynced records a crash keeps, reopening the storage finds the same term
     * and vote and the log up to some index at or above the synced one: the Crash step of the cluster.
     */
    lemma CrashKeeps(k: nat) returns (keep: nat)
      requires Valid() && store.flushed <= k <= |store.wal|
      ensures View().synced <= keep <= |FullLog()|
      ensures Replay(store.snapIndex, store.wal[..k]).term == store.term
      ensures Replay(store.snapIndex, store.wal[..k]).votedFor == store.votedFor
      ensures compacted + Replay(store.snapIndex, store.wal[..k]).log == FullLog()[..keep]
    {
      assert store.KeepsAt(k);
      keep := |FullLog()| - (|store.wal| - k);
    }

    // ---- Elections ----

    method StepDown(term: Term)
      requires Valid()
      modifies this`role, store`term, store`votedFor, store`wal, store`flushed
      ensures Valid() && View() == Spec.StepDown(old(View()), term)
      ensures store.wal == old(store.wal) + if term > old(store.term) then [HardState(term, 0)] else []
    {
      if term > store.term {
        store.SetHardState(term, 0);
      }
      role := Follower;
    }

    method StartElection() returns (req: Option<VoteRequest>)
      requires Valid()
      modifies this, store`term, store`votedFor, store`wal, store`flushed
      ensures Valid()
      ensures Spec.Stands(old(View())) ==>
                View() == Spec.StartElection(old(View())) && req == Some(Spec.CandidateRequest(View()))
      ensures !Spec.Stands(old(View())) ==> View() == old(View()) && req == None
    {
      hide DiskStorage.Valid, DiskStorage.OnlyTailPending, From;
      LogIs();
      if id !in voters {
        return None;
      }
      if |voters| == 1 && store.LastIndex() == store.snapIndex {
        return None;
      }
      role := Candidate;
      store.SetHardState(store.term + 1, id);
      leaderId := 0;
      votes, counted := 1, {};
      LogIs();
      var last := store.LastIndex();
      var lastTerm := store.TermAt(last);
      req := Some(VoteRequest(store.term, id, last, lastTerm.value));
    }

    method HandleRequestVote(r: VoteRequest) returns (reply: VoteReply)
      requires Valid()
      modifies this`role, store`term, store`votedFor, store`wal, store`flushed
      ensures Valid() && (View(), reply) == Spec.HandleRequestVote(old(View()), r)
      ensures reply.granted ==>
                && store.wal == old(store.wal) + (if r.term > old(store.term) then [HardState(r.term, 0)] else [])
                                + [HardState(r.term, r.cand)]
                && store.flushed == |store.wal|
    {
      hide DiskStorage.OnlyTailPending;
      if r.term > store.term {
        StepDown(r.term);
      }
      reply := VoteReply(store.term, false);
      if r.term < store.term {
        return;
      }
      if id !in voters {
        return;
      }
      LogIs();
      var last := store.LastIndex();
      var lastTerm := store.TermAt(last).value;
      var upToDate := r.lastTerm > lastTerm || (r.lastTerm == lastTerm && r.lastIndex >= last);
      if (store.votedFor == 0 || store.votedFor == r.cand) && upToDate {
        store.SetHardState(store.term, r.cand);
        reply := VoteReply(store.term, true);
      }
    }

    method HandleVoteReply(peer: NodeId, reqTerm: Term, v: VoteReply)
      requires Valid()
      modifies this, store
      ensures Valid() && View() == Spec.HandleVoteReply(old(View()), peer, reqTerm, v)
    {
      if v.term > store.term {
        StepDown(v.term);
        return;
      }
      if role != Candidate || store.term != reqTerm || !v.granted {
        return;
      }
      votes, counted := votes + 1, counted + {peer};
      if ConfState(voters, {}).HasVoteQuorum(votes) {
        BecomeLeader();
      }
    }

    method BecomeLeader()
      requires Valid() && role != Leader
      modifies this, store
      ensures Valid() && View() == Spec.BecomeLeader(old(View()))
    {
      hide DiskStorage.Valid, DiskStorage.OnlyTailPending, Spec.Uniform, From, Spec.TermAt, DiskStorage.TermAt, TermOf;
      LogIs();
      role, leaderId := Leader, id;
      var last := store.LastIndex();
      nextIndex := Fill(voters, last + 1);
      matchIndex := Fill(voters, 0);
      matchIndex := matchIndex[id := last];
      var noop := Entry(store.term, last + 1, []);
      AppendEntry(noop);
      nextIndex := nextIndex[id := noop.index + 1];
      SyncLog();
    }

    method SyncLog()
      requires Valid()
      modifies store`flushed, store`dirty
      ensures Valid() && View() == Spec.Sync(old(View()))
    {
      store.Sync();
    }

    // ---- Replication, leader's side ----

    /** Appends one entry of the leader's own and counts the leader as holding it. */
    method AppendEntry(e: Entry)
      requires Valid() && e.index == |FullLog()| + 1
      modifies this`matchIndex, store`log, store`wal, store`dirty
      ensures Valid() && e.index == old(|FullLog()|) + 1
      ensures View() == old(View()).(log := old(FullLog()) + [e], matchIndex := old(matchIndex)[id := e.index])
    {
      hide DiskStorage.Valid, DiskStorage.OnlyTailPending;
      store.AppendEntries([e]);
      matchIndex := matchIndex[id := e.index];
      assert FullLog() == old(FullLog()) + [e];
    }

    method Propose(data: Bytes) returns (r: ProposeResult)
      requires Valid()
      modifies this`matchIndex, store`log, store`wal, store`dirty
      ensures Valid()
      ensures role != Leader ==> View() == old(View()) && r == NotLeader
      ensures role == Leader ==>
                View() == Spec.Propose(old(View()), data) && r == Proposed(old(|FullLog()|) + 1, store.term)
    {
      LogIs();
      if role != Leader {
        return NotLeader;
      }
      var e := Entry(store.term, store.LastIndex() + 1, data);
      AppendEntry(e);
      r := Proposed(e.index, e.term);
    }

    method SendAppend(peer: NodeId) returns (req: Option<AppendRequest>)
      requires Valid()
      modifies store`flushed, store`dirty
      ensures Valid() && View() == Spec.Sync(old(View()))
      ensures if Spec.CanSend(old(View()), peer) then req == Some(Spec.SendAppend(old(View()), peer)) else req == None
    {
      SyncLog();
      LogIs();
      var ni := Get(nextIndex, peer);
      if ni < store.FirstIndex() {
        return None;  // InstallSnapshot would be sent instead
      }
      var prevTerm := store.TermAt(ni - 1);
      if prevTerm.None? {
        return None;
      }
      var entries := store.EntriesFrom(ni);
      assert entries == FullLog()[ni - 1..];
      req := Some(AppendRequest(store.term, id, ni - 1, prevTerm.value, entries, commitIndex));
    }

    method AdvanceCommit()
      requires Valid()
      modifies this`commitIndex, store`flushed, store`dirty
      ensures Valid() && View() == Spec.AdvanceCommit(old(View()))
    {
      var m := MaxCommitIndex(ConfState(voters, {}), matchIndex);
      if m <= commitIndex {
        return;
      }
      store.Sync();
      LogIs();
      if store.TermAt(m) != Some(store.term) {
        return;
      }
      commitIndex := m;
    }

    /** The scan for the leader's last entry of the conflicting term. */
    method ScanBack(ct: Term, default: nat) returns (next: nat)
      requires Valid()
      ensures next == Spec.ScanBack(FullLog(), store.snapIndex + 1, |FullLog()|, ct, default)
    {
      LogIs();
      var i := store.LastIndex();
      next := default;
      while i >= store.FirstIndex()
        invariant 0 <= i <= |FullLog()|
        invariant next == default
        invariant Spec.ScanBack(FullLog(), store.snapIndex + 1, |FullLog()|, ct, default)
               == Spec.ScanBack(FullLog(), store.snapIndex + 1, i, ct, default)
        decreases i
      {
        var t := store.TermAt(i);
        if t.value == ct {
          return i + 1;
        }
        if t.value < ct {
          return;
        }
        i := i - 1;
      }
    }

    method HandleAppendReply(peer: NodeId, reqTerm: Term, prev: nat, count: nat, a: AppendReply)
      requires Valid()
      modifies this`role, this`commitIndex, this`nextIndex, this`matchIndex
      modifies store`term, store`votedFor, store`wal, store`flushed, store`dirty
      ensures Valid() && View() == Spec.HandleAppendReply(old(View()), peer, reqTerm, prev, count, a)
    {
      hide DiskStorage.Valid, DiskStorage.OnlyTailPending, From, Spec.ScanBack, Spec.AdvanceCommit;
      if a.term > store.term {
        StepDown(a.term);
        return;
      }
      if role != Leader || store.term != reqTerm {
        return;
      }
      if a.success {
        var m := prev + count;
        if m > Get(matchIndex, peer) {
          matchIndex := matchIndex[peer := m];
        }
        if m + 1 > Get(nextIndex, peer) {
          nextIndex := nextIndex[peer := m + 1];
        }
        AdvanceCommit();
        return;
      }
      if a.conflictTerm != 0 {
        var next := ScanBack(a.conflictTerm, a.conflictIndex);
        nextIndex := nextIndex[peer := Max(1, next)];
      } else if a.conflictIndex > 0 {
        nextIndex := nextIndex[peer := a.conflictIndex];
      } else if Get(nextIndex, peer) > 1 {
        nextIndex := nextIndex[peer := Get(nextIndex, peer) - 1];
      }
    }

    // ---- Replication, follower's side ----

    /** The start of the run of entries that ends at index ci. */
    method ConflictStart(prev: nat) returns (ci: nat)
      requires Valid() && store.snapIndex <= prev <= |FullLog()|
      ensures ci == Spec.RunStart(FullLog(), store.snapIndex + 1, prev)
    {
      LogIs();
      var t := store.TermAt(prev).value;
      ci := prev;
      while ci > store.FirstIndex()
        invariant ci <= prev
        invariant Spec.RunStart(FullLog(), store.snapIndex + 1, prev)
               == Spec.RunStart(FullLog(), store.snapIndex + 1, ci)
        invariant ci > store.snapIndex ==> FullLog()[ci - 1].term == t
      {
        var pt := store.TermAt(ci - 1);
        if pt.None? || pt.value != t {
          break;
        }
        ci := ci - 1;
      }
    }

    /** The loop that skips entries the log already has. */
    method FirstNew(prev: nat, entries: Log) returns (i: nat)
      requires Valid() && From(prev, entries) && prev <= |FullLog()|
      ensures i == Spec.FirstNew(FullLog(), store.snapIndex, prev, entries, 0)
      ensures i < |entries| ==> store.snapIndex < prev + 1 + i <= |FullLog()| + 1
    {
      LogIs();
      i := 0;
      while i < |entries|
        invariant 0 <= i <= |entries|
        invariant Spec.FirstNew(FullLog(), store.snapIndex, prev, entries, 0)
               == Spec.FirstNew(FullLog(), store.snapIndex, prev, entries, i)
        invariant prev + i <= |FullLog()|
      {
        var e := entries[i];
        if e.index <= store.snapIndex {
          i := i + 1;
          continue;
        }
        if e.index <= store.LastIndex() {
          var t := store.TermAt(e.index);
          if t.value == e.term {
            i := i + 1;
            continue;
          }
        }
        break;
      }
    }

    method AppendNew(prev: nat, entries: Log)
      requires Valid() && entries != [] && From(prev, entries)
      requires store.snapIndex <= prev <= |FullLog()|
      modifies store`log, store`wal, store`dirty, store`flushed
      ensures Valid()
      ensures View() == old(View()).(log := old(FullLog())[..prev] + entries, synced := prev + |entries|)
    {
      hide DiskStorage.Valid, DiskStorage.OnlyTailPending;
      assert From(store.snapIndex, store.log) by { LogIs(); SuffixFrom(); }
      store.AppendEntries(entries);
      store.Sync();
      assert FullLog() == old(FullLog())[..prev] + entries;
    }

    lemma SuffixFrom()
      requires Valid()
      ensures From(store.snapIndex, store.log)
    {
    }

    /** The entries of a request continue at prevIndex + 1. */
    method HandleAppendEntries(r: AppendRequest) returns (reply: AppendReply)
      requires Valid() && From(r.prevIndex, r.entries)
      modifies this`role, this`leaderId, this`commitIndex, store
      ensures Valid() && (View(), reply) == Spec.HandleAppendEntries(old(View()), r)
    {
      hide DiskStorage.Valid, DiskStorage.OnlyTailPending, Spec.FirstNew, Spec.RunStart;
      if r.term < store.term {
        return AppendReply(store.term, false, 0, 0);
      }
      if r.term > store.term || role != Follower {
        StepDown(r.term);
      }
      leaderId := r.leader;
      LogIs();
      if r.prevIndex > store.LastIndex() {
        return AppendReply(store.term, false, store.LastIndex() + 1, 0);
      }
      if r.prevIndex >= store.snapIndex {
        var t := TermIn(r.prevIndex);
        if t != r.prevTerm {
          var ci := ConflictStart(r.prevIndex);
          return AppendReply(store.term, false, ci, t);
        }
      }
      AcceptEntries(r);
      reply := AppendReply(store.term, true, 0, 0);
    }

    method TermIn(index: nat) returns (t: Term)
      requires Valid() && store.snapIndex <= index <= |FullLog()|
      ensures t == TermOf(FullLog(), index)
    {
      LogIs();
      t := store.TermAt(index).value;
    }

    method AcceptEntries(r: AppendRequest)
      requires Valid() && From(r.prevIndex, r.entries) && r.prevIndex <= |FullLog()|
      modifies this`commitIndex, store
      ensures Valid() && View() == Spec.Accept(old(View()), r)
    {
      hide DiskStorage.Valid, DiskStorage.OnlyTailPending, Spec.FirstNew;
      var i := FirstNew(r.prevIndex, r.entries);
      if i < |r.entries| {
        AppendNew(r.prevIndex + i, r.entries[i..]);
      }
      if r.commit > commitIndex {
        var lastNew := r.prevIndex + |r.entries|;
        commitIndex := Min(r.commit, Max(lastNew, commitIndex));
      }
    }

    // ---- Applying, compaction and reads ----

    /** One round of the applier under the lock; the messages are sent after it is released. */
    method ApplyCommitted() returns (msgs: Log)
      requires Valid() && commitIndex <= |FullLog()|
      modifies this`lastApplied
      ensures Valid() && View() == Spec.ApplyCommitted(old(View())) && msgs == Spec.Handed(old(View()))
    {
      hide DiskStorage.Valid, DiskStorage.OnlyTailPending;
      LogIs();
      msgs := [];
      ghost var from, full := Max(lastApplied, store.snapIndex), FullLog();
      while lastApplied < commitIndex
        invariant old(lastApplied) <= lastApplied
        invariant old(lastApplied) < commitIndex ==> lastApplied <= Max(commitIndex, store.snapIndex)
        invariant old(lastApplied) >= commitIndex ==> lastApplied == old(lastApplied)
        invariant lastApplied < from ==> lastApplied == old(lastApplied) && msgs == []
        invariant from <= lastApplied <= commitIndex ==> msgs == full[from..lastApplied]
        invariant lastApplied > commitIndex ==> msgs == []
        decreases commitIndex - lastApplied
      {
        var next := lastApplied + 1;
        if next < store.FirstIndex() {
          lastApplied := store.snapIndex;
        } else {
          var e := store.log[next - store.FirstIndex()];
          assert e == full[next - 1];
          SliceSnoc(full, from, lastApplied);
          msgs := msgs + [e];
          lastApplied := next;
        }
      }
    }

    /** Snapshot: refused beyond the applied index, ignored where the term is no longer known. */
    method Snapshot(index: nat, data: Bytes) returns (ok: bool)
      requires Valid()
      modifies this`compacted, store
      ensures Valid() && View() == Spec.Compact(old(View()), index)
      ensures ok == (index <= lastApplied)
    {
      LogIs();
      if index > lastApplied {
        return false;
      }
      var t := store.TermAt(index);
      if t.None? {
        return true;
      }
      ok := true;
      CompactTo(index, t.value, data);
    }

    method CompactTo(index: nat, t: Term, data: Bytes)
      requires Valid() && index <= |FullLog()| && (index > store.snapIndex ==> t == TermOf(FullLog(), index))
      modifies this`compacted, store
      ensures Valid() && FullLog() == old(FullLog())
      ensures View() == if index <= old(store.snapIndex) then old(View())
                        else old(View()).(snapIndex := index, synced := |FullLog()|)
    {
      hide DiskStorage.Valid, DiskStorage.OnlyTailPending, DoMicro, From;
      LogIs();
      ghost var all, held := FullLog(), store.log;
      FromPrefix(all, index);
      store.SaveSnapshot(index, t, data);
      if store.snapIndex > old(store.snapIndex) {
        compacted := all[..index];
        assert store.log == held[index - old(store.snapIndex)..];
        assert FullLog() == all;
      }
    }

    // ---- Snapshots for lagging followers ----

    /** What is sent to a peer whose next entry has been compacted away; `prefix` is what the bytes stand for. */
    method SendSnapshot() returns (lastIndex: nat, lastTerm: Term, data: Bytes, ghost prefix: Log)
      requires Valid()
      ensures SnapRequest(store.term, id, lastIndex, lastTerm, prefix) == Spec.SendSnapshot(View())
      ensures data == store.snapshot && From(0, prefix)
    {
      lastIndex, lastTerm, data, prefix := store.snapIndex, store.snapTerm, store.snapshot, compacted;
      assert FullLog()[..|compacted|] == compacted;
    }

    method HandleInstallSnapshot(
      term: Term, leader: NodeId, lastIndex: nat, lastTerm: Term, data: Bytes, ghost prefix: Log)
      returns (replyTerm: Term)
      requires Valid() && From(0, prefix) && |prefix| == lastIndex && lastTerm == LastTerm(prefix)
      modifies this`compacted, this`role, this`leaderId, this`commitIndex, this`lastApplied, store
      ensures Valid()
      ensures (View(), replyTerm)
           == Spec.HandleInstallSnapshot(old(View()), SnapRequest(term, leader, lastIndex, lastTerm, prefix))
      ensures lastIndex > old(store.snapIndex) && term >= old(store.term) ==> store.snapshot == data
    {
      hide DiskStorage.Valid, DiskStorage.OnlyTailPending;
      replyTerm := store.term;
      if term < store.term {
        return;
      }
      if term > store.term || role != Follower {
        StepDown(term);
      }
      replyTerm := store.term;
      leaderId := leader;
      if lastIndex <= store.snapIndex {
        return;
      }
      InstallStored(lastIndex, lastTerm, data, prefix);
      commitIndex := lastIndex;
      lastApplied := lastIndex;
    }

    method InstallStored(lastIndex: nat, lastTerm: Term, data: Bytes, ghost prefix: Log)
      requires Valid() && From(0, prefix) && |prefix| == lastIndex > store.snapIndex && lastTerm == LastTerm(prefix)
      modifies this`compacted, store
      ensures Valid() && store.snapshot == data && store.snapIndex == lastIndex
      ensures store.term == old(store.term) && store.votedFor == old(store.votedFor)
      ensures FullLog() == prefix + (if |old(FullLog())| > lastIndex then old(FullLog())[lastIndex..] else [])
      ensures store.SyncedIndex() == |FullLog()|
    {
      hide DiskStorage.Valid, DiskStorage.OnlyTailPending, DoMicro;
      LogIs();
      store.SaveSnapshot(lastIndex, lastTerm, data);
      compacted := prefix;
    }

    method HandleSnapshotReply(peer: NodeId, reqTerm: Term, lastIndex: nat, term: Term)
      requires Valid()
      modifies this`role, this`nextIndex, this`matchIndex, store`term, store`votedFor, store`wal, store`flushed
      ensures Valid() && View() == Spec.HandleSnapshotReply(old(View()), peer, reqTerm, lastIndex, term)
    {
      if term > store.term {
        StepDown(term);
        return;
      }
      if role != Leader || store.term != reqTerm {
        return;
      }
      if lastIndex > Get(matchIndex, peer) {
        matchIndex := matchIndex[peer := lastIndex];
      }
      if lastIndex + 1 > Get(nextIndex, peer) {
        nextIndex := nextIndex[peer := lastIndex + 1];
      }
    }

    method HandleReadIndex(leader: NodeId, term: Term) returns (replyTerm: Term, ack: bool)
      requires Valid()
      modifies this`role, this`leaderId, store`term, store`votedFor, store`wal, store`flushed
      ensures Valid() && (View(), replyTerm, ack) == Spec.HandleReadIndex(old(View()), leader, term)
    {
      replyTerm, ack := store.term, false;
      if term < store.term {
        return;
      }
      if term > store.term {
        StepDown(term);
      }
      if term != store.term || role == Candidate {
        return;
      }
      leaderId := leader;
      ack := true;
    }
  }
}
