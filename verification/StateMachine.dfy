/** The classes stateMachine and Server of the server package, over the storage engine. */
module StateMachine {
  import opened Bytes
  import opened RaftTypes
  import opened Commands
  import K = Keys
  import L = Layers
  import F = EngineFormat
  import E = Engine

  /** The payload of a snapshot, before encoding. */
  datatype Snapshot = Snapshot(data: Store, lastSeq: map<string, nat>)

  /** The entry a command writes. */
  function Written(c: Command): K.KV {
    if c.op == "put" then K.KV(c.key, c.value, false) else K.KV(c.key, [], true)
  }

  /** What it leaves in the engine, if anything. */
  function Writes(c: Command): set<K.KV> {
    if Known(c) then {Written(c)} else {}
  }

  class StateMachine {
    const engine: E.Engine
    var lastSeq: map<string, nat>

    constructor (engine: E.Engine)
      requires engine.Valid()
      ensures Valid() && View() == State(engine.model, map[]) && this.engine == engine
    {
      this.engine := engine;
      lastSeq := map[];
    }

    ghost predicate Valid()
      reads this, engine, engine.mem, engine.mem.nodes
    {
      engine.Valid()
    }

    ghost function View(): State
      reads this, engine
    {
      State(engine.model, lastSeq)
    }

    /** The engine has room for what the command writes. */
    ghost predicate Room(c: Command)
      reads engine, engine.mem
    {
      Known(c) ==> F.RecordFits(Written(c)) && F.Roomy(L.Held(engine.Stack()) + {Written(c)})
    }

    method Apply(c: Command) returns (ok: bool)
      requires Valid() && Room(c)
      modifies this, engine, engine.mem, set x | x in engine.mem.nodes
      ensures Valid() && View() == Commands.Apply(old(View()), c)
      ensures ok == (old(Duplicate(View(), c)) || Known(c))
      ensures engine.Owned() && L.Held(engine.Stack()) <= old(L.Held(engine.Stack())) + Writes(c)
    {
      hide E.Engine.Valid, F.Roomy, L.Held, F.RecordFits;
      var last := if c.client in lastSeq then lastSeq[c.client] else 0;
      if c.client != "" && c.seqNo > 0 && last >= c.seqNo {
        return true;
      }
      if c.op == "put" {
        engine.Write(c.key, c.value, false);
      } else if c.op == "delete" {
        engine.Write(c.key, [], true);
      } else {
        return false;
      }
      if c.client != "" {
        lastSeq := lastSeq[c.client := c.seqNo];
      }
      ok := true;
    }

    method TakeSnapshot() returns (snap: Snapshot)
      requires Valid()
      ensures snap == Snapshot(View().store, View().lastSeq)
    {
      var data := engine.SnapshotEntries();
      snap := Snapshot(data, lastSeq);
    }

    method Restore(snap: Snapshot)
      requires Valid() && forall k :: k in snap.data ==> F.RecordFits(K.KV(k, snap.data[k], false))
      modifies this, engine
      ensures Valid() && View() == State(snap.data, snap.lastSeq)
    {
      engine.Reset(snap.data);
      lastSeq := snap.lastSeq;
    }
  }

  /** A snapshot taken on one node and restored on another carries the whole state over. */
  method Transfer(a: StateMachine, b: StateMachine)
    requires a.Valid() && b.Valid() && a != b && a.engine != b.engine
    requires a.engine.mem != b.engine.mem
    requires forall k :: k in a.engine.model ==> F.RecordFits(K.KV(k, a.engine.model[k], false))
    modifies b, b.engine
    ensures b.Valid() && b.View() == old(a.View())
  {
    var snap := a.TakeSnapshot();
    b.Restore(snap);
  }

  // ---- The apply loop ----

  /** What decodeCommand makes of the bytes of an entry, if anything. */
  type Decoder = Bytes -> Option<Command>

  /** An empty entry is a leader's no-op; one that does not decode is an error and changes nothing. */
  function ApplyEntry(decode: Decoder, s: State, e: Entry): State {
    if e.data == [] then s
    else match decode(e.data)
      case None => s
      case Some(c) => Commands.Apply(s, c)
  }

  function EntryWrites(decode: Decoder, e: Entry): set<K.KV> {
    if e.data == [] then {}
    else match decode(e.data)
      case None => {}
      case Some(c) => Writes(c)
  }

  ghost function AllWrites(decode: Decoder, es: Log): set<K.KV> {
    set i, x | 0 <= i < |es| && x in EntryWrites(decode, es[i]) :: x
  }

  /** Applying it is no error: a no-op, a duplicate or a known operation. */
  predicate Succeeds(decode: Decoder, s: State, e: Entry) {
    e.data == [] || (decode(e.data).Some? && (Duplicate(s, decode(e.data).value) || Known(decode(e.data).value)))
  }

  function ApplyLog(decode: Decoder, s: State, log: Log): State {
    if log == [] then s else ApplyEntry(decode, ApplyLog(decode, s, log[..|log| - 1]), log[|log| - 1])
  }

  lemma ApplyLogSnoc(decode: Decoder, s: State, log: Log, e: Entry)
    ensures ApplyLog(decode, s, log + [e]) == ApplyEntry(decode, ApplyLog(decode, s, log), e)
  {
    assert (log + [e])[..|log|] == log;
  }

  datatype WaitResult = WaitResult(term: Term, ok: bool)

  /** The entry whose application was an answer, and the state it was applied to. */
  datatype Cause = Cause(entry: Entry, before: State)

  datatype ProposeOutcome = Acknowledged | NotLeader | Failed

  /** How propose answers the client once its waiter got a result. */
  function Outcome(term: Term, r: WaitResult): ProposeOutcome {
    if r.term != term then NotLeader else if !r.ok then Failed else Acknowledged
  }

  datatype GetOutcome = Found(value: Bytes) | NotFound | Lagging

  const SNAPSHOT_THRESHOLD: nat := 10000

  class Server {
    const sm: StateMachine
    const decode: Decoder
    var applied: nat
    var sinceSnap: nat
    var waiters: map<nat, nat>         // log index to the ticket of the call that waits for it
    var results: map<nat, WaitResult>  // ticket to what was sent on its channel
    ghost var asked: map<nat, nat>     // ticket to the index its call registered for
    ghost var causes: map<nat, Cause>  // ticket to what its answer came from
    ghost var base: State              // the state at the last snapshot restored, or at the start
    ghost var start: nat               // the index that state stands for
    ghost var done: Log                // what was applied since

    /** The answer to a call tells the term and the success of an entry applied at the index it asked for. */
    ghost predicate AnswerOk(t: nat)
      reads this`results, this`asked, this`causes
    {
      && t in results && t in asked && t in causes
      && var e := causes[t].entry;
      && e.index == asked[t] && results[t] == WaitResult(e.term, Succeeds(decode, causes[t].before, e))
    }

    /** A call waits where it asked to, and has no answer yet. */
    ghost predicate WaiterOk(i: nat)
      reads this`waiters, this`results, this`asked
    {
      i in waiters && waiters[i] in asked && asked[waiters[i]] == i && waiters[i] !in results
    }

    ghost predicate Answered()
      reads this`waiters, this`results, this`asked, this`causes
    {
      (forall t :: t in results ==> AnswerOk(t)) && (forall i :: i in waiters ==> WaiterOk(i))
    }

    /** The state is that of the base with everything applied since, up to the applied index. */
    ghost predicate InStep()
      reads this, sm, sm.engine
    {
      && sm.View() == ApplyLog(decode, base, done)
      && applied == if done == [] then start else done[|done| - 1].index
    }

    /** The server has got to its applied index along this log: from a snapshot of it, and then entry by entry. */
    ghost predicate Covers(log: Log)
      reads this, sm, sm.engine
    {
      && InStep() && start <= applied <= |log|
      && base == ApplyLog(decode, EMPTY, log[..start]) && done == log[start..applied]
    }

    /** The state is that of the log up to the applied index, from empty. */
    ghost predicate Current(log: Log)
      reads this, sm, sm.engine
    {
      applied <= |log| && sm.View() == ApplyLog(decode, EMPTY, log[..applied])
    }

    lemma CoversWithin(log: Log)
      requires Covers(log)
      ensures applied <= |log|
    {
    }

    lemma CoversIsCurrent(log: Log)
      requires Covers(log)
      ensures Current(log)
    {
      ApplyLogSplit(decode, EMPTY, log[..start], done);
      assert log[..start] + done == log[..applied];
    }

    /** New: the node's snapshot, if it has one, replaces whatever the engine was opened with. */
    constructor (sm: StateMachine, decode: Decoder, snap: Snapshot, index: nat)
      requires sm.Valid() && forall k :: k in snap.data ==> F.RecordFits(K.KV(k, snap.data[k], false))
      modifies sm, sm.engine
      ensures this.sm == sm && this.decode == decode && applied == index && sinceSnap == 0
      ensures waiters == map[] && results == map[] && Answered() && sm.Valid()
      ensures InStep() && done == [] && start == index
      ensures base == if index > 0 then State(snap.data, snap.lastSeq) else old(sm.View())
    {
      this.sm, this.decode, applied := sm, decode, 0;
      sinceSnap, waiters, results, asked, causes := 0, map[], map[], map[], map[];
      base, start, done := sm.View(), 0, [];
      new;
      if index > 0 {
        sm.Restore(snap);
        applied := index;
        base, start := sm.View(), index;
      }
    }

    /** A linearizable read: refused until everything through the read index has been applied. */
    method Get(key: Bytes, readIndex: nat) returns (r: GetOutcome)
      requires sm.Valid() && InStep()
      ensures r == Lagging <==> applied < readIndex
      ensures var store := ApplyLog(decode, base, done).store;
              r != Lagging ==> r == if key in store then Found(store[key]) else NotFound
    {
      if applied < readIndex {
        return Lagging;
      }
      var v := sm.engine.Get(key);
      r := if v.Some? then Found(v.value) else NotFound;
    }

    /** propose registers a new channel under the index Propose returned, in place of an earlier call's. */
    method Register(index: nat, ticket: nat)
      requires Answered() && ticket !in asked
      modifies this`waiters, this`asked
      ensures Answered() && waiters == old(waiters)[index := ticket] && asked == old(asked)[ticket := index]
    {
      waiters := waiters[index := ticket];
      asked := asked[ticket := index];
      assert forall t :: t in results ==> old(AnswerOk(t));
      assert forall i :: i in waiters && i != index ==> old(WaiterOk(i));
    }

    /** When propose returns, for whatever reason, nobody waits for its index any more. */
    method Unregister(index: nat)
      requires Answered()
      modifies this`waiters
      ensures Answered() && waiters == old(waiters) - {index}
    {
      waiters := waiters - {index};
      assert forall t :: t in results ==> old(AnswerOk(t));
      assert forall i :: i in waiters ==> old(WaiterOk(i));
    }

    ghost predicate Room(e: Entry)
      reads this, sm, sm.engine, sm.engine.mem
    {
      e.data != [] && decode(e.data).Some? ==> sm.Room(decode(e.data).value)
    }

    /** The engine has room for everything these entries write. */
    ghost predicate RoomForAll(es: Log)
      reads this, sm, sm.engine, sm.engine.mem
    {
      && (forall x :: x in AllWrites(decode, es) ==> F.RecordFits(x))
      && F.Roomy(L.Held(sm.engine.Stack()) + AllWrites(decode, es))
    }

    /** One committed command: apply it, answer whoever waits for its index, count towards a snapshot. */
    method OnCommand(e: Entry) returns (needSnap: bool)
      requires sm.Valid() && Answered() && InStep() && Room(e)
      modifies this, sm, sm.engine, sm.engine.mem, set x | x in sm.engine.mem.nodes
      ensures sm.Valid() && Answered() && InStep()
      ensures base == old(base) && start == old(start) && done == old(done) + [e]
      ensures sm.View() == ApplyEntry(decode, old(sm.View()), e) && applied == e.index
      ensures e.index in old(waiters) ==>
                && var t := old(waiters)[e.index];
                && results == old(results)[t := WaitResult(e.term, Succeeds(decode, old(sm.View()), e))]
                && causes == old(causes)[t := Cause(e, old(sm.View()))]
                && waiters == old(waiters) - {e.index}
      ensures e.index !in old(waiters) ==> results == old(results) && causes == old(causes) && waiters == old(waiters)
      ensures sm.engine.Owned()
      ensures L.Held(sm.engine.Stack()) <= old(L.Held(sm.engine.Stack())) + EntryWrites(decode, e)
      ensures needSnap == (old(sinceSnap) + 1 >= SNAPSHOT_THRESHOLD)
      ensures sinceSnap == if needSnap then 0 else old(sinceSnap) + 1
    {
      hide StateMachine.Valid, ApplyEntry, ApplyLog, Succeeds, Answered, L.Held, EntryWrites, Room;
      ghost var before := sm.View();
      var ok := Execute(e);
      applied := e.index;
      sinceSnap := sinceSnap + 1;
      needSnap := sinceSnap >= SNAPSHOT_THRESHOLD;
      if needSnap {
        sinceSnap := 0;
      }
      ApplyLogSnoc(decode, base, done, e);
      done := done + [e];
      Answer(e, ok, before);
    }

    method Execute(e: Entry) returns (ok: bool)
      requires sm.Valid() && Room(e)
      modifies sm, sm.engine, sm.engine.mem, set x | x in sm.engine.mem.nodes
      ensures sm.Valid() && sm.View() == ApplyEntry(decode, old(sm.View()), e)
      ensures ok == Succeeds(decode, old(sm.View()), e)
      ensures sm.engine.Owned()
      ensures L.Held(sm.engine.Stack()) <= old(L.Held(sm.engine.Stack())) + EntryWrites(decode, e)
    {
      hide StateMachine.Valid, StateMachine.Room;
      ok := true;
      if |e.data| > 0 {
        var c := decode(e.data);
        ok := c.Some?;
        if c.Some? {
          ok := sm.Apply(c.value);
        }
      }
    }

    method Answer(e: Entry, ok: bool, ghost before: State)
      requires Answered() && ok == Succeeds(decode, before, e)
      modifies this`waiters, this`results, this`causes
      ensures Answered()
      ensures e.index in old(waiters) ==>
                && var t := old(waiters)[e.index];
                && results == old(results)[t := WaitResult(e.term, ok)] && causes == old(causes)[t := Cause(e, before)]
                && waiters == old(waiters) - {e.index}
      ensures e.index !in old(waiters) ==> results == old(results) && causes == old(causes) && waiters == old(waiters)
    {
      if e.index in waiters {
        var t := waiters[e.index];
        assert WaiterOk(e.index);
        results := results[t := WaitResult(e.term, ok)];
        causes := causes[t := Cause(e, before)];
        waiters := waiters - {e.index};
        assert forall u :: u in results && u != t ==> old(AnswerOk(u));
        assert forall i :: i in waiters ==> old(WaiterOk(i));
      }
    }

    /** An installed or local snapshot replaces the state. */
    method OnSnapshot(snap: Snapshot, index: nat)
      requires sm.Valid() && Answered()
      requires forall k :: k in snap.data ==> F.RecordFits(K.KV(k, snap.data[k], false))
      modifies this`applied, this`base, this`start, this`done, sm, sm.engine
      ensures sm.Valid() && Answered() && applied == index && sm.View() == State(snap.data, snap.lastSeq)
      ensures InStep() && base == sm.View() && done == []
    {
      hide StateMachine.Valid, Answered;
      sm.Restore(snap);
      applied := index;
      base, start, done := sm.View(), index, [];
    }
  }

  lemma {:induction false} ApplyLogSplit(decode: Decoder, s: State, a: Log, b: Log)
    ensures ApplyLog(decode, s, a + b) == ApplyLog(decode, ApplyLog(decode, s, a), b)
  {
    if b == [] {
      assert a + b == a;
    } else {
      var n := |b| - 1;
      ApplyLogSplit(decode, s, a, b[..n]);
      assert (a + b)[..|a + b| - 1] == a + b[..n];
    }
  }

  // ---- Following one log ----

  /** Only what was applied matters of the log a server is on. */
  lemma CoversPrefix(srv: Server, log: Log, log': Log)
    requires srv.Covers(log) && srv.applied <= |log'| && log[..srv.applied] == log'[..srv.applied]
    ensures srv.Covers(log')
  {
    var s, k := srv.start, srv.applied;
    assert log[..s] == log[..k][..s] == log'[..k][..s] == log'[..s];
    assert log[s..k] == log[..k][s..] == log'[..k][s..] == log'[s..k];
  }

  /** The apply loop, handed the next entry of the log, stays on it. */
  method FollowLog(srv: Server, e: Entry, ghost log: Log) returns (needSnap: bool)
    requires srv.sm.Valid() && srv.Answered() && srv.Room(e) && srv.Covers(log)
    requires srv.applied < |log| && e == log[srv.applied] && e.index == srv.applied + 1
    modifies srv, srv.sm, srv.sm.engine, srv.sm.engine.mem, set x | x in srv.sm.engine.mem.nodes
    ensures srv.sm.Valid() && srv.Answered() && srv.Covers(log) && srv.applied == old(srv.applied) + 1
    ensures srv.sm.engine.Owned()
    ensures L.Held(srv.sm.engine.Stack()) <= old(L.Held(srv.sm.engine.Stack())) + EntryWrites(srv.decode, e)
  {
    hide StateMachine.Valid, ApplyLog, Server.Answered, Server.Room;
    ghost var k := srv.applied;
    needSnap := srv.OnCommand(e);
    assert log[srv.start..k] + [e] == log[srv.start..k + 1];
  }

  lemma RoomForOne(srv: Server, es: Log, i: nat, all: set<K.KV>)
    requires i < |es| && F.Roomy(all) && L.Held(srv.sm.engine.Stack()) + AllWrites(srv.decode, es) <= all
    requires forall x :: x in AllWrites(srv.decode, es) ==> F.RecordFits(x)
    ensures srv.Room(es[i])
  {
    hide F.Roomy, F.RecordFits, L.Held;
    var held := L.Held(srv.sm.engine.Stack());
    forall x | x in EntryWrites(srv.decode, es[i]) ensures F.RecordFits(x) && F.Roomy(held + {x}) {
      assert x in AllWrites(srv.decode, es);
      E.RoomyShrinks(all, held + {x});
    }
  }

  /** The apply loop over a round of messages: the stretch of the log that follows the applied index. */
  method FollowAll(srv: Server, es: Log, ghost log: Log)
    requires srv.sm.Valid() && srv.Answered() && srv.Covers(log) && srv.RoomForAll(es)
    requires srv.applied + |es| <= |log| && es == log[srv.applied..srv.applied + |es|]
    requires forall k :: 0 <= k < |log| ==> log[k].index == k + 1
    modifies srv, srv.sm, srv.sm.engine, srv.sm.engine.mem, set x | x in srv.sm.engine.mem.nodes
    ensures srv.sm.Valid() && srv.Answered() && srv.Covers(log) && srv.applied == old(srv.applied) + |es|
  {
    hide StateMachine.Valid, ApplyLog, Server.Answered, Server.Room, Server.Covers, F.Roomy, F.RecordFits, L.Held,
         AllWrites;
    ghost var all := L.Held(srv.sm.engine.Stack()) + AllWrites(srv.decode, es);
    var i := 0;
    while i < |es|
      invariant 0 <= i <= |es| && srv.applied == old(srv.applied) + i
      invariant srv.sm.Valid() && srv.Answered() && srv.Covers(log)
      invariant srv.sm.engine.mem == old(srv.sm.engine.mem) || fresh(srv.sm.engine.mem)
      invariant forall x :: x in srv.sm.engine.mem.nodes ==> x in old(srv.sm.engine.mem.nodes) || fresh(x)
      invariant L.Held(srv.sm.engine.Stack()) <= all
    {
      RoomForOne(srv, es, i, all);
      OneOfAll(srv.decode, es, i);
      var needSnap := FollowLog(srv, es[i], log);
      i := i + 1;
    }
  }

  lemma OneOfAll(decode: Decoder, es: Log, i: nat)
    requires i < |es|
    ensures EntryWrites(decode, es[i]) <= AllWrites(decode, es)
  {
  }

  /**
   * Exactly once, with snapshots. A snapshot taken on one server after any prefix of the log and given to another,
   * whatever that one held, puts it into the state of that prefix, store and table; what it applies from
   * there on keeps it on the log.
   */
  method Hand(a: Server, b: Server, ghost log: Log)
    requires a.sm.Valid() && b.sm.Valid() && b.Answered() && a.Covers(log) && b.decode == a.decode
    requires a != b && a.sm != b.sm && a.sm.engine != b.sm.engine && a.sm.engine.mem != b.sm.engine.mem
    requires forall k :: k in a.sm.engine.model ==> F.RecordFits(K.KV(k, a.sm.engine.model[k], false))
    modifies b`applied, b`base, b`start, b`done, b.sm, b.sm.engine
    ensures b.sm.Valid() && b.Answered() && b.Covers(log) && b.applied == old(a.applied)
    ensures b.sm.View() == old(a.sm.View())
  {
    a.CoversIsCurrent(log);
    hide StateMachine.Valid, ApplyLog, Server.Answered;
    var snap := a.sm.TakeSnapshot();
    var index := a.applied;
    b.OnSnapshot(snap, index);
  }

  /** Started with a snapshot of the log, whatever the engine held, or with none and an empty engine. */
  method StartOn(sm: StateMachine, decode: Decoder, snap: Snapshot, index: nat, ghost log: Log) returns (srv: Server)
    requires sm.Valid() && forall k :: k in snap.data ==> F.RecordFits(K.KV(k, snap.data[k], false))
    requires index <= |log|
    requires (if index > 0 then State(snap.data, snap.lastSeq) else sm.View()) == ApplyLog(decode, EMPTY, log[..index])
    modifies sm, sm.engine
    ensures fresh(srv) && srv.sm == sm && srv.decode == decode && sm.Valid() && srv.Answered()
    ensures srv.Covers(log) && srv.applied == index
  {
    hide StateMachine.Valid, ApplyLog, Server.Answered;
    srv := new Server(sm, decode, snap, index);
  }
}
