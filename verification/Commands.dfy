/**
 * The replicated state machine as values (server/statemachine.go): commands, deduplication by
 * client and sequence number, and what replaying a log does to a store.
 */
module Commands {
  import opened Bytes

  datatype Command = Command(op: string, key: Bytes, value: Bytes, client: string, seqNo: nat)

  type Store = map<Bytes, Bytes>

  /** The store and, for each client, the sequence number of the last command applied. */
  datatype State = State(store: Store, lastSeq: map<string, nat>)

  const EMPTY := State(map[], map[])

  predicate Known(c: Command) { c.op == "put" || c.op == "delete" }

  /** What a command does when it is executed. */
  function Execute(store: Store, c: Command): Store {
    if c.op == "put" then store[c.key := c.value]
    else if c.op == "delete" then store - {c.key}
    else store
  }

  function LastSeq(s: State, client: string): nat {
    if client in s.lastSeq then s.lastSeq[client] else 0
  }

  predicate Duplicate(s: State, c: Command) {
    c.client != "" && c.seqNo > 0 && LastSeq(s, c.client) >= c.seqNo
  }

  /** apply: a duplicate is skipped, an unknown operation is an error and changes nothing. */
  function Apply(s: State, c: Command): State {
    if Duplicate(s, c) || !Known(c) then s
    else State(Execute(s.store, c), if c.client != "" then s.lastSeq[c.client := c.seqNo] else s.lastSeq)
  }

  function ApplyAll(s: State, log: seq<Command>): State {
    if log == [] then s else Apply(ApplyAll(s, log[..|log| - 1]), log[|log| - 1])
  }

  function ExecuteAll(store: Store, log: seq<Command>): Store {
    if log == [] then store else Execute(ExecuteAll(store, log[..|log| - 1]), log[|log| - 1])
  }

  /** Applying a log in two parts. */
  lemma {:induction false} ApplySplit(s: State, a: seq<Command>, b: seq<Command>)
    ensures ApplyAll(s, a + b) == ApplyAll(ApplyAll(s, a), b)
  {
    if b == [] {
      assert a + b == a;
    } else {
      var n := |b| - 1;
      ApplySplit(s, a, b[..n]);
      assert (a + b)[..|a + b| - 1] == a + b[..n];
    }
  }

  // ---- Exactly once ----

  predicate SameRequest(a: Command, b: Command) { a.client == b.client && a.seqNo == b.seqNo }

  /** The command at i is the first of its client with its number. */
  predicate First(log: seq<Command>, i: nat)
    requires i < |log|
  {
    forall j :: 0 <= j < i ==> !SameRequest(log[j], log[i])
  }

  /** Each client numbers its commands upwards from 1 and retries one only with the same content. */
  ghost predicate WellNumberedAt(log: seq<Command>, i: nat)
    requires i < |log|
  {
    log[i].client != "" ==>
      && log[i].seqNo > 0
      && (First(log, i) ==> forall j :: 0 <= j < i && log[j].client == log[i].client ==> log[j].seqNo < log[i].seqNo)
      && (forall j :: 0 <= j < i && SameRequest(log[j], log[i]) ==> log[j] == log[i])
  }

  ghost predicate WellNumbered(log: seq<Command>) {
    forall i :: 0 <= i < |log| ==> WellNumberedAt(log, i)
  }

  /** The log without retries. */
  function Once(log: seq<Command>): seq<Command> {
    if log == [] then []
    else
      var n := |log| - 1;
      if log[n].client == "" || First(log, n) then Once(log[..n]) + [log[n]] else Once(log[..n])
  }

  /** The table holds, for every client, a number between its known commands and all its commands. */
  ghost predicate Tracks(log: seq<Command>, s: State) {
    && (forall j :: 0 <= j < |log| && log[j].client != "" && Known(log[j]) ==>
          LastSeq(s, log[j].client) >= log[j].seqNo)
    && (forall c :: LastSeq(s, c) > 0 ==>
          exists j :: 0 <= j < |log| && log[j].client == c && log[j].seqNo == LastSeq(s, c))
  }

  lemma WellNumberedPrefix(log: seq<Command>, n: nat)
    requires WellNumbered(log) && n <= |log|
    ensures WellNumbered(log[..n])
  {
    forall i | 0 <= i < n ensures WellNumberedAt(log[..n], i) {
      assert WellNumberedAt(log, i);
      assert First(log[..n], i) ==> First(log, i) by {
        if First(log[..n], i) {
          forall j | 0 <= j < i ensures !SameRequest(log[j], log[i]) { assert log[..n][j] == log[j]; }
        }
      }
    }
  }

  /** One more command: the table keeps tracking, and a duplicate is exactly a retry of a known command. */
  lemma TracksStep(log: seq<Command>, s: State)
    requires log != [] && WellNumbered(log) && Tracks(log[..|log| - 1], s)
    ensures var c := log[|log| - 1]; Tracks(log, Apply(s, c))
    ensures var n := |log| - 1;
            log[n].client != "" && Known(log[n]) ==> (Duplicate(s, log[n]) <==> !First(log, n))
  {
    var n := |log| - 1;
    var c, init, s' := log[n], log[..n], Apply(s, log[n]);
    assert WellNumberedAt(log, n);
    if c.client != "" && Known(c) {
      DuplicateIsRetry(log, s);
    }
    forall j | 0 <= j < |log| && log[j].client != "" && Known(log[j])
      ensures LastSeq(s', log[j].client) >= log[j].seqNo
    {
      if j < n {
        assert init[j] == log[j];
        assert LastSeq(s, log[j].client) >= log[j].seqNo;
      }
    }
    forall x | LastSeq(s', x) > 0
      ensures exists j :: 0 <= j < |log| && log[j].client == x && log[j].seqNo == LastSeq(s', x)
    {
      if LastSeq(s', x) == LastSeq(s, x) {
        var j :| 0 <= j < |init| && init[j].client == x && init[j].seqNo == LastSeq(s, x);
        assert log[j] == init[j];
      } else {
        assert log[n].client == x && log[n].seqNo == LastSeq(s', x);
      }
    }
  }

  lemma DuplicateIsRetry(log: seq<Command>, s: State)
    requires log != [] && Tracks(log[..|log| - 1], s) && WellNumberedAt(log, |log| - 1)
    requires log[|log| - 1].client != "" && Known(log[|log| - 1])
    ensures var n := |log| - 1; Duplicate(s, log[n]) <==> !First(log, n)
  {
    var n := |log| - 1;
    var init := log[..n];
    if First(log, n) && LastSeq(s, log[n].client) > 0 {
      var j :| 0 <= j < |init| && init[j].client == log[n].client && init[j].seqNo == LastSeq(s, log[n].client);
      assert log[j] == init[j];
      assert log[j].seqNo < log[n].seqNo;
    }
    if !First(log, n) {
      var j :| 0 <= j < n && SameRequest(log[j], log[n]);
      assert init[j] == log[j] == log[n];
      assert LastSeq(s, log[n].client) >= log[n].seqNo;
    }
  }

  lemma {:induction false} TracksAll(log: seq<Command>)
    requires WellNumbered(log)
    ensures Tracks(log, ApplyAll(EMPTY, log))
  {
    if log != [] {
      var n := |log| - 1;
      WellNumberedPrefix(log, n);
      TracksAll(log[..n]);
      TracksStep(log, ApplyAll(EMPTY, log[..n]));
    }
  }

  lemma ZeroRuns(k: Bytes, a: Bytes, b: Bytes)
    ensures var first, zero := Command("put", k, a, "c", 1), Command("put", k, b, "c", 0);
            && ApplyAll(EMPTY, [first, zero, first]).store == map[k := a]
            && ExecuteAll(map[], [first, zero]) == map[k := b]
  {
    var first, zero := Command("put", k, a, "c", 1), Command("put", k, b, "c", 0);
    assert [first, zero, first][..2] == [first, zero] && [first, zero][..1] == [first] && [first][..0] == [];
    assert ApplyAll(EMPTY, [first]) == State(map[k := a], map["c" := 1]);
    assert ApplyAll(EMPTY, [first, zero]) == State(map[k := b], map["c" := 0]);
    assert ApplyAll(EMPTY, [first, zero, first]) == State(map[k := a], map["c" := 1]);
    assert ExecuteAll(map[], [first]) == map[k := a];
  }

  /** A named client that sends number 0 makes the table forget, and a retry is executed again. */
  lemma SeqZeroForgets(k: Bytes, a: Bytes, b: Bytes)
    requires a != b
    ensures var first := Command("put", k, a, "c", 1);
            var log := [first, Command("put", k, b, "c", 0), first];
            ApplyAll(EMPTY, log).store == map[k := a] && ExecuteAll(map[], Once(log)) == map[k := b]
  {
    var first, zero := Command("put", k, a, "c", 1), Command("put", k, b, "c", 0);
    var log := [first, zero, first];
    assert log[..2] == [first, zero] && log[..2][..1] == [first] && log[..2][..1][..0] == [];
    assert First(log[..2][..1], 0);
    assert First(log[..2], 1) by { assert !SameRequest(log[..2][0], log[..2][1]); }
    assert !First(log, 2) by { assert SameRequest(log[0], log[2]); }
    assert Once(log[..2][..1]) == [first];
    assert Once(log[..2]) == [first, zero];
    assert Once(log) == [first, zero];
    ZeroRuns(k, a, b);
  }

  lemma OnceSnoc(once: seq<Command>, c: Command)
    ensures ApplyAll(EMPTY, once + [c]) == Apply(ApplyAll(EMPTY, once), c)
    ensures ExecuteAll(map[], once + [c]) == Execute(ExecuteAll(map[], once), c)
  {
    assert (once + [c])[..|once|] == once;
  }

  /**
   * Exactly once: with clients that number their commands, applying a log with retries has the
   * effect of executing each command once, in the order of first appearance, with no table at all.
   */
  lemma {:induction false} ExactlyOnce(log: seq<Command>)
    requires WellNumbered(log)
    ensures ApplyAll(EMPTY, log).store == ExecuteAll(map[], Once(log))
    ensures ApplyAll(EMPTY, log) == ApplyAll(EMPTY, Once(log))
  {
    if log != [] {
      var n := |log| - 1;
      WellNumberedPrefix(log, n);
      ExactlyOnce(log[..n]);
      TracksAll(log[..n]);
      TracksStep(log, ApplyAll(EMPTY, log[..n]));
      hide WellNumbered, Tracks, First, Duplicate, Execute;
      OnceSnoc(Once(log[..n]), log[n]);
    }
  }

  // ---- Rebuilding by replay ----

  /** The commands of a log that are executed when it is replayed with an empty table. */
  function Effective(s: State, log: seq<Command>): seq<Command> {
    if log == [] then []
    else
      var n := |log| - 1;
      var c := log[n];
      if Duplicate(ApplyAll(s, log[..n]), c) || !Known(c) then Effective(s, log[..n]) else Effective(s, log[..n]) + [c]
  }

  lemma {:induction false} ApplyIsEffective(s: State, log: seq<Command>)
    ensures ApplyAll(s, log).store == ExecuteAll(s.store, Effective(s, log))
  {
    if log != [] {
      var n := |log| - 1;
      ApplyIsEffective(s, log[..n]);
      var e := Effective(s, log[..n]);
      assert (e + [log[n]])[..|e|] == e;
    }
  }

  /** Which commands are executed depends on the table, not on the store. */
  lemma {:induction false} EffectiveIgnoresStore(a: State, b: State, log: seq<Command>)
    requires a.lastSeq == b.lastSeq
    ensures Effective(a, log) == Effective(b, log) && ApplyAll(a, log).lastSeq == ApplyAll(b, log).lastSeq
  {
    if log != [] { EffectiveIgnoresStore(a, b, log[..|log| - 1]); }
  }

  function KeysOf(log: seq<Command>): set<Bytes> { set k | 0 <= k < |log| :: log[k].key }

  ghost predicate AllKnown(log: seq<Command>) {
    forall k :: 0 <= k < |log| ==> Known(log[k])
  }

  /** A command's effect on its own key does not depend on what was there; other keys are untouched. */
  lemma {:induction false} ExecuteAt(a: Store, b: Store, log: seq<Command>, key: Bytes)
    requires AllKnown(log)
    ensures key in KeysOf(log) ==> Same(ExecuteAll(a, log), ExecuteAll(b, log), key)
    ensures key !in KeysOf(log) ==> Same(ExecuteAll(a, log), a, key)
  {
    if log != [] {
      var n := |log| - 1;
      ExecuteAt(a, b, log[..n], key);
      assert log == log[..n] + [log[n]];
      assert KeysOf(log) == KeysOf(log[..n]) + {log[n].key} by { KeysSnoc(log[..n], log[n]); }
      assert Known(log[n]);
    }
  }

  lemma KeysSnoc(log: seq<Command>, c: Command)
    ensures KeysOf(log + [c]) == KeysOf(log) + {c.key}
  {
    forall x ensures x in KeysOf(log + [c]) <==> x in KeysOf(log) + {c.key} {
      if x in KeysOf(log) {
        var k :| 0 <= k < |log| && log[k].key == x;
        assert (log + [c])[k].key == x;
      }
      if x == c.key { assert (log + [c])[|log|].key == x; }
    }
  }

  ghost predicate Same(a: Store, b: Store, key: Bytes) {
    (key in a <==> key in b) && (key in a ==> a[key] == b[key])
  }

  /**
   * Replaying over what an earlier, interrupted replay left behind gives the store a replay from
   * nothing gives, if and only if the replay writes every key that was left.
   */
  lemma ReplayConvergesIff(left: Store, log: seq<Command>)
    requires AllKnown(log)
    ensures ExecuteAll(left, log) == ExecuteAll(map[], log) <==> left.Keys <= KeysOf(log)
  {
    var a, b := ExecuteAll(left, log), ExecuteAll(map[], log);
    forall key ensures Same(a, b, key) <==> key !in left || key in KeysOf(log) {
      ExecuteAt(left, map[], log, key);
      ExecuteAt(map[], left, log, key);
    }
    if left.Keys <= KeysOf(log) {
      SameStores(a, b);
    }
    if a == b {
      forall key | key in left ensures key in KeysOf(log) { assert Same(a, b, key); }
    }
  }

  lemma SameStores(a: Store, b: Store)
    requires forall key :: Same(a, b, key)
    ensures a == b
  {
    forall key ensures key in a <==> key in b { assert Same(a, b, key); }
    forall key | key in a ensures a[key] == b[key] { assert Same(a, b, key); }
  }

  lemma EffectiveSnoc(s: State, log: seq<Command>)
    requires log != []
    ensures Effective(s, log[..|log| - 1]) <= Effective(s, log)
  {
  }

  lemma {:induction false} EffectivePrefix(s: State, log: seq<Command>, k: nat)
    requires k <= |log|
    ensures Effective(s, log[..k]) <= Effective(s, log)
  {
    hide Effective;
    if k == |log| {
      assert log[..k] == log;
    } else {
      var n := |log| - 1;
      EffectivePrefix(s, log[..n], k);
      EffectiveSnoc(s, log);
      assert log[..n][..k] == log[..k];
    }
  }

  lemma {:induction false} EffectiveKnown(s: State, log: seq<Command>)
    ensures AllKnown(Effective(s, log))
  {
    if log != [] { EffectiveKnown(s, log[..|log| - 1]); }
  }

  /**
   * The writes an engine may be left with after n interrupted replays: each replay executes the
   * effective commands of some prefix of the log on top of what was there, and each crash
   * keeps some prefix of all writes so far.
   */
  ghost predicate Leftover(log: seq<Command>, n: nat, ws: seq<Command>) {
    if n == 0 then ws == []
    else exists prev: seq<Command>, k: nat :: k <= |log| && Leftover(log, n - 1, prev) && CrashLeaves(log, prev, k, ws)
  }

  ghost predicate CrashLeaves(log: seq<Command>, prev: seq<Command>, k: nat, ws: seq<Command>)
    requires k <= |log|
  {
    ws <= prev + Effective(EMPTY, log[..k])
  }

  lemma {:induction false} LeftoverKeys(log: seq<Command>, n: nat, ws: seq<Command>)
    requires Leftover(log, n, ws)
    ensures KeysOf(ws) <= KeysOf(Effective(EMPTY, log))
  {
    if n > 0 {
      var prev: seq<Command>, k: nat :| k <= |log| && Leftover(log, n - 1, prev) && CrashLeaves(log, prev, k, ws);
      LeftoverKeys(log, n - 1, prev);
      EffectivePrefix(EMPTY, log, k);
      var e := Effective(EMPTY, log[..k]);
      forall x | x in KeysOf(ws) ensures x in KeysOf(Effective(EMPTY, log)) {
        var i :| 0 <= i < |ws| && ws[i].key == x;
        assert ws[i] == (prev + e)[i];
        if i < |prev| {
          assert prev[i].key in KeysOf(prev);
        } else {
          assert Effective(EMPTY, log)[i - |prev|] == e[i - |prev|];
        }
      }
    }
  }

  lemma {:induction false} StoreKeys(ws: seq<Command>)
    ensures var left: Store := ExecuteAll(map[], ws); left.Keys <= KeysOf(ws)
  {
    if ws != [] {
      var n := |ws| - 1;
      StoreKeys(ws[..n]);
      assert ws == ws[..n] + [ws[n]];
      KeysSnoc(ws[..n], ws[n]);
    }
  }

  /**
   * The engine may run without fsync: whatever interrupted replays left in it, replaying the
   * whole log with an empty table ends in the same store and the same table as from nothing.
   */
  lemma RebuildConverges(log: seq<Command>, n: nat, ws: seq<Command>)
    requires Leftover(log, n, ws)
    ensures ApplyAll(State(ExecuteAll(map[], ws), map[]), log) == ApplyAll(EMPTY, log)
  {
    var left := ExecuteAll(map[], ws);
    var s := State(left, map[]);
    LeftoverKeys(log, n, ws);
    StoreKeys(ws);
    ApplyIsEffective(s, log);
    ApplyIsEffective(EMPTY, log);
    EffectiveIgnoresStore(s, EMPTY, log);
    EffectiveKnown(EMPTY, log);
    ReplayConvergesIff(left, Effective(EMPTY, log));
  }
}
