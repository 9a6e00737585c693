/**
 * Exactly when the table of last sequence numbers does its work (server/statemachine.go): when a
 * command is a duplicate, when a log has each of its commands executed once, and when
 * applying commands a second time over their own result changes nothing.
 */
module Dedup {
  import opened Bytes
  import opened Commands

  // ---- When a command is a duplicate ----

  /** A known command of client x at j, numbered at least v, that no later number 0 of x has wiped out. */
  ghost predicate RemembersAt(log: seq<Command>, x: string, v: nat, j: nat) {
    && j < |log| && log[j].client == x && Known(log[j]) && log[j].seqNo >= v
    && forall z :: j < z < |log| && log[z].client == x && Known(log[z]) ==> log[z].seqNo > 0
  }

  ghost predicate Remembers(log: seq<Command>, x: string, v: nat) {
    exists j :: RemembersAt(log, x, v, j)
  }

  lemma RemembersSnoc(log: seq<Command>, x: string, v: nat)
    requires log != [] && v > 0
    ensures var n := |log| - 1; var c := log[n];
            Remembers(log, x, v) <==>
            if c.client == x && Known(c) then c.seqNo >= v || (c.seqNo > 0 && Remembers(log[..n], x, v))
            else Remembers(log[..n], x, v)
  {
    var n := |log| - 1;
    var c, init := log[n], log[..n];
    if Remembers(log, x, v) {
      var j: nat :| RemembersAt(log, x, v, j);
      if j < n { assert RemembersAt(init, x, v, j); }
    }
    if Remembers(init, x, v) && !(c.client == x && Known(c) && c.seqNo == 0) {
      var j: nat :| RemembersAt(init, x, v, j);
      assert forall z :: j < z < n ==> log[z] == init[z];
      assert RemembersAt(log, x, v, j);
    }
    if c.client == x && Known(c) && c.seqNo >= v { assert RemembersAt(log, x, v, n); }
  }

  /** The table has reached v for a client exactly if the log remembers such a number. */
  lemma {:induction false} TableRemembers(log: seq<Command>, x: string, v: nat)
    requires x != "" && v > 0
    ensures LastSeq(ApplyAll(EMPTY, log), x) >= v <==> Remembers(log, x, v)
  {
    if log != [] {
      var n := |log| - 1;
      var c := log[n];
      TableRemembers(log[..n], x, v);
      RemembersSnoc(log, x, v);
    }
  }

  // ---- When each command is executed once ----

  /** A retry of a named client that is not executed again. */
  ghost predicate RetrySkipped(log: seq<Command>, i: nat)
    requires i < |log|
  {
    log[i].seqNo > 0 && Remembers(log[..i], log[i].client, log[i].seqNo)
  }

  /** Every known retry has a positive number, and since the client's last number 0 one at least as large was seen. */
  ghost predicate RetriesSkipped(log: seq<Command>) {
    forall i :: 0 <= i < |log| && log[i].client != "" && Known(log[i]) && !First(log, i) ==> RetrySkipped(log, i)
  }

  /** WellNumberedAt without the demand that there be no number 0. */
  ghost predicate PositiveNumberedAt(log: seq<Command>, i: nat)
    requires i < |log|
  {
    log[i].client != "" && log[i].seqNo > 0 ==>
      && (First(log, i) ==> forall j :: 0 <= j < i && log[j].client == log[i].client ==> log[j].seqNo < log[i].seqNo)
      && (forall j :: 0 <= j < i && SameRequest(log[j], log[i]) ==> log[j] == log[i])
  }

  ghost predicate PositiveNumbered(log: seq<Command>) {
    forall i :: 0 <= i < |log| ==> PositiveNumberedAt(log, i)
  }

  function KnownOf(log: seq<Command>): seq<Command> {
    if log == [] then []
    else KnownOf(log[..|log| - 1]) + (if Known(log[|log| - 1]) then [log[|log| - 1]] else [])
  }

  lemma KnownSnoc(log: seq<Command>, c: Command)
    ensures KnownOf(log + [c]) == KnownOf(log) + (if Known(c) then [c] else [])
  {
    assert (log + [c])[..|log|] == log;
  }

  lemma FirstInPrefix(log: seq<Command>, n: nat, i: nat)
    requires i < n <= |log|
    ensures First(log[..n], i) <==> First(log, i)
  {
    assert forall j :: 0 <= j <= i ==> log[..n][j] == log[j];
    if First(log[..n], i) {
      forall j | 0 <= j < i ensures !SameRequest(log[j], log[i]) { assert !SameRequest(log[..n][j], log[..n][i]); }
    }
  }

  lemma PositivePrefix(log: seq<Command>, n: nat)
    requires PositiveNumbered(log) && n <= |log|
    ensures PositiveNumbered(log[..n])
  {
    forall i | 0 <= i < n ensures PositiveNumberedAt(log[..n], i) {
      assert PositiveNumberedAt(log, i);
      FirstInPrefix(log, n, i);
    }
  }

  lemma SkippedSnoc(log: seq<Command>)
    requires log != []
    ensures var n := |log| - 1;
            RetriesSkipped(log) <==>
              RetriesSkipped(log[..n])
              && (log[n].client != "" && Known(log[n]) && !First(log, n) ==> RetrySkipped(log, n))
  {
    var n := |log| - 1;
    var init := log[..n];
    forall i | 0 <= i < n
      ensures First(init, i) <==> First(log, i)
      ensures RetrySkipped(init, i) <==> RetrySkipped(log, i)
    {
      FirstInPrefix(log, n, i);
      assert init[..i] == log[..i];
    }
    assert forall i :: 0 <= i < n ==> init[i] == log[i];
  }

  /** Once keeps no command that is a duplicate, so at least what it keeps is executed. */
  lemma FirstIsNew(log: seq<Command>)
    requires log != [] && PositiveNumberedAt(log, |log| - 1)
    requires var c := log[|log| - 1]; c.client != "" && c.seqNo > 0 && First(log, |log| - 1)
    ensures !Remembers(log[..|log| - 1], log[|log| - 1].client, log[|log| - 1].seqNo)
  {
    var n := |log| - 1;
    forall j: nat ensures !RemembersAt(log[..n], log[n].client, log[n].seqNo, j) {
      if j < n { assert log[..n][j] == log[j]; }
    }
  }

  lemma {:induction false} OnceOrMore(log: seq<Command>)
    requires PositiveNumbered(log)
    ensures RetriesSkipped(log) ==> Effective(EMPTY, log) == KnownOf(Once(log))
    ensures |Effective(EMPTY, log)| >= |KnownOf(Once(log))|
    ensures !RetriesSkipped(log) ==> |Effective(EMPTY, log)| > |KnownOf(Once(log))|
  {
    if log != [] {
      var n := |log| - 1;
      var c := log[n];
      PositivePrefix(log, n);
      OnceOrMore(log[..n]);
      SkippedSnoc(log);
      KnownSnoc(Once(log[..n]), c);
      if c.client != "" && c.seqNo > 0 {
        TableRemembers(log[..n], c.client, c.seqNo);
        assert PositiveNumberedAt(log, n);
        if First(log, n) { FirstIsNew(log); }
      }
    }
  }

  /**
   * For any log in which the positive numbers are used as they should: exactly the commands of the log
   * without retries are executed, in that order, if and only if every retry is skipped.
   */
  lemma ExactlyOnceIff(log: seq<Command>)
    requires PositiveNumbered(log)
    ensures Effective(EMPTY, log) == KnownOf(Once(log)) <==> RetriesSkipped(log)
  {
    OnceOrMore(log);
  }

  /** Number 0 is never a duplicate: a repeated one runs again, whatever came before. */
  lemma ZeroAlwaysRuns(s: State, log: seq<Command>, c: Command)
    requires Known(c) && c.seqNo == 0
    ensures Effective(s, log + [c]) == Effective(s, log) + [c]
  {
    assert (log + [c])[..|log|] == log;
  }

  lemma WellNumberedSkips(log: seq<Command>)
    requires WellNumbered(log)
    ensures PositiveNumbered(log) && RetriesSkipped(log)
  {
    forall i | 0 <= i < |log| ensures PositiveNumberedAt(log, i) { assert WellNumberedAt(log, i); }
    forall i | 0 <= i < |log| && log[i].client != "" && Known(log[i]) && !First(log, i) ensures RetrySkipped(log, i) {
      assert WellNumberedAt(log, i);
      var j :| 0 <= j < i && SameRequest(log[j], log[i]);
      forall z | j < z < i && log[..i][z].client == log[i].client ensures log[..i][z].seqNo > 0 {
        assert WellNumberedAt(log, z);
      }
      assert RemembersAt(log[..i], log[i].client, log[i].seqNo, j);
    }
  }

  // ---- Applying commands again over their own result ----

  function At(store: Store, key: Bytes): Option<Bytes> {
    if key in store then Some(store[key]) else None
  }

  /** What a known command leaves at its key. */
  function Effect(c: Command): Option<Bytes> {
    if c.op == "put" then Some(c.value) else None
  }

  function LastOn(log: seq<Command>, key: Bytes): Option<Command> {
    if log == [] then None
    else if log[|log| - 1].key == key then Some(log[|log| - 1])
    else LastOn(log[..|log| - 1], key)
  }

  function LastOf(log: seq<Command>, client: string): Option<Command> {
    if log == [] then None
    else if log[|log| - 1].client == client then Some(log[|log| - 1])
    else LastOf(log[..|log| - 1], client)
  }

  /** The last command on a key decides what is there. */
  lemma {:induction false} ExecuteLast(store: Store, log: seq<Command>, key: Bytes)
    requires AllKnown(log)
    ensures At(ExecuteAll(store, log), key)
         == match LastOn(log, key) case None => At(store, key) case Some(c) => Effect(c)
  {
    if log != [] {
      assert Known(log[|log| - 1]);
      ExecuteLast(store, log[..|log| - 1], key);
    }
  }

  lemma LastOfSnoc(log: seq<Command>, c: Command, x: string)
    ensures LastOf(log + [c], x) == if c.client == x then Some(c) else LastOf(log, x)
  {
    assert (log + [c])[..|log|] == log;
  }

  /** And the last command of a client that was executed decides its entry in the table. */
  lemma {:induction false} TableLast(s: State, log: seq<Command>, x: string)
    requires x != ""
    ensures var t := ApplyAll(s, log).lastSeq;
            match LastOf(Effective(s, log), x)
            case None => (x in t <==> x in s.lastSeq) && (x in t ==> t[x] == s.lastSeq[x])
            case Some(c) => x in t && t[x] == c.seqNo
  {
    if log != [] {
      var n := |log| - 1;
      TableLast(s, log[..n], x);
      LastOfSnoc(Effective(s, log[..n]), log[n], x);
    }
  }

  lemma {:induction false} NobodyInTable(s: State, log: seq<Command>)
    requires "" !in s.lastSeq
    ensures "" !in ApplyAll(s, log).lastSeq
  {
    if log != [] { NobodyInTable(s, log[..|log| - 1]); }
  }

  /** What is executed leaves every key and every client where they are. */
  ghost predicate Unmoved(s: State, run: seq<Command>) {
    && (forall key :: LastOn(run, key).Some? ==> Effect(LastOn(run, key).value) == At(s.store, key))
    && (forall x :: x != "" && LastOf(run, x).Some? ==> x in s.lastSeq && s.lastSeq[x] == LastOf(run, x).value.seqNo)
  }

  lemma StateFromParts(a: State, b: State)
    requires forall key :: At(a.store, key) == At(b.store, key)
    requires forall x :: (x in a.lastSeq <==> x in b.lastSeq) && (x in a.lastSeq ==> a.lastSeq[x] == b.lastSeq[x])
    ensures a == b
  {
    forall key ensures key in a.store <==> key in b.store { assert At(a.store, key) == At(b.store, key); }
    forall key | key in a.store ensures a.store[key] == b.store[key] { assert At(a.store, key) == At(b.store, key); }
    assert a.store == b.store && a.lastSeq == b.lastSeq;
  }

  /** Applying commands to a state changes nothing, if and only if those that run move nothing. */
  lemma ReapplyIff(s: State, b: seq<Command>)
    requires "" !in s.lastSeq
    ensures ApplyAll(s, b) == s <==> Unmoved(s, Effective(s, b))
  {
    var s', run := ApplyAll(s, b), Effective(s, b);
    ApplyIsEffective(s, b);
    EffectiveKnown(s, b);
    NobodyInTable(s, b);
    forall key
      ensures At(s'.store, key) == match LastOn(run, key) case None => At(s.store, key) case Some(c) => Effect(c)
    {
      ExecuteLast(s.store, run, key);
    }
    forall x | x != ""
      ensures match LastOf(run, x)
              case None => (x in s'.lastSeq <==> x in s.lastSeq) && (x in s'.lastSeq ==> s'.lastSeq[x] == s.lastSeq[x])
              case Some(c) => x in s'.lastSeq && s'.lastSeq[x] == c.seqNo
    {
      TableLast(s, b, x);
    }
    if Unmoved(s, run) { StateFromParts(s', s); }
  }

  /** The known commands of nobody in particular. */
  function Unnamed(log: seq<Command>): seq<Command> {
    if log == [] then []
    else
      var c := log[|log| - 1];
      Unnamed(log[..|log| - 1]) + (if c.client == "" && Known(c) then [c] else [])
  }

  /** Over a state that has seen them, only unnamed commands run again. */
  lemma {:induction false} OnlyUnnamedRerun(s: State, log: seq<Command>, b: seq<Command>)
    requires WellNumbered(log) && Tracks(log, s) && forall i :: 0 <= i < |b| ==> b[i] in log
    ensures Effective(s, b) == Unnamed(b) && ApplyAll(s, b).lastSeq == s.lastSeq
  {
    if b != [] {
      var n := |b| - 1;
      OnlyUnnamedRerun(s, log, b[..n]);
      assert b[n] in log;
      var j :| 0 <= j < |log| && log[j] == b[n];
      assert WellNumberedAt(log, j);
    }
  }

  lemma {:induction false} UnnamedHasNoNames(log: seq<Command>, x: string)
    requires x != ""
    ensures LastOf(Unnamed(log), x) == None
  {
    if log != [] {
      var n := |log| - 1;
      UnnamedHasNoNames(log[..n], x);
      LastOfSnoc(Unnamed(log[..n]), log[n], x);
      assert Unnamed(log[..n]) + [] == Unnamed(log[..n]);
    }
  }

  /** On every key of the first list, the last commands of both leave the same. */
  ghost predicate SameLast(some: seq<Command>, all: seq<Command>) {
    forall key :: LastOn(some, key).Some? ==>
      LastOn(all, key).Some? && Effect(LastOn(some, key).value) == Effect(LastOn(all, key).value)
  }

  /**
   * A crash between the renames of snapshot.bin and snapshot.meta: the state after a + b is restored, and b is
   * applied again. The state stays if and only if, on every key, the last unnamed command of b leaves what
   * the last command of all, retries apart, left.
   */
  lemma SnapshotRaceIff(a: seq<Command>, b: seq<Command>)
    requires WellNumbered(a + b)
    ensures var s := ApplyAll(EMPTY, a + b);
            ApplyAll(s, b) == s <==> SameLast(Unnamed(b), KnownOf(Once(a + b)))
  {
    hide WellNumbered, ApplyAll, Effective, Tracks, LastOn, LastOf, KnownOf, Once, Unnamed, At, Effect;
    var log := a + b;
    var s, all, again := ApplyAll(EMPTY, log), KnownOf(Once(log)), Unnamed(b);
    TracksAll(log);
    assert forall i :: 0 <= i < |b| ==> b[i] in log by { assert forall i :: 0 <= i < |b| ==> log[|a| + i] == b[i]; }
    OnlyUnnamedRerun(s, log, b);
    NobodyInTable(EMPTY, log);
    ReapplyIff(s, b);
    forall x | x != "" ensures LastOf(again, x) == None { UnnamedHasNoNames(b, x); }
    forall key | LastOn(again, key).Some?
      ensures LastOn(all, key).Some? && At(s.store, key) == Effect(LastOn(all, key).value)
    {
      UnnamedIsIn(a, b, key);
      StoreHasLast(log, key);
    }
  }

  lemma StoreHasLast(log: seq<Command>, key: Bytes)
    requires WellNumbered(log)
    ensures var last := LastOn(KnownOf(Once(log)), key);
            At(ApplyAll(EMPTY, log).store, key) == if last.Some? then Effect(last.value) else None
  {
    hide WellNumbered, ApplyAll, Effective, LastOn, KnownOf, Once;
    WellNumberedSkips(log);
    ExactlyOnceIff(log);
    ApplyIsEffective(EMPTY, log);
    EffectiveKnown(EMPTY, log);
    ExecuteLast(map[], KnownOf(Once(log)), key);
  }

  lemma LastOnSnoc(log: seq<Command>, more: seq<Command>, key: Bytes)
    requires |more| <= 1
    ensures LastOn(log + more, key) == if more != [] && more[0].key == key then Some(more[0]) else LastOn(log, key)
  {
    if more == [] { assert log + more == log; } else { assert (log + more)[..|log|] == log; }
  }

  lemma {:induction false} UnnamedIsIn(a: seq<Command>, b: seq<Command>, key: Bytes)
    requires LastOn(Unnamed(b), key).Some?
    ensures LastOn(KnownOf(Once(a + b)), key).Some?
  {
    hide LastOn, KnownOf;
    assert b != [] by { NothingLast(key); }
    var n := |b| - 1;
    var c, log := b[n], a + b;
    assert log[..|log| - 1] == a + b[..n] && log[|log| - 1] == c;
    var again: seq<Command> := if c.client == "" && Known(c) then [c] else [];
    LastOnSnoc(Unnamed(b[..n]), again, key);
    if LastOn(Unnamed(b[..n]), key).Some? { UnnamedIsIn(a, b[..n], key); }
    KnownSnoc(Once(a + b[..n]), c);
    LastOnSnoc(KnownOf(Once(a + b[..n])), if Known(c) then [c] else [], key);
  }

  lemma NothingLast(key: Bytes)
    ensures LastOn([], key) == None
  {
  }

  /** Such a crash can lose an update. */
  lemma SnapshotRaceLoses(k: Bytes, v: Bytes, w: Bytes)
    requires v != w
    ensures var b := [Command("put", k, v, "", 0), Command("put", k, w, "c", 1)];
            var s := ApplyAll(EMPTY, b);
            s.store == map[k := w] && ApplyAll(s, b).store == map[k := v]
  {
    var c, d := Command("put", k, v, "", 0), Command("put", k, w, "c", 1);
    var b := [c, d];
    assert b[..1] == [c] && [c][..0] == [];
    assert ApplyAll(EMPTY, [c]) == State(map[k := v], map[]);
    var s := ApplyAll(EMPTY, b);
    assert s == State(map[k := w], map["c" := 1]);
    assert ApplyAll(s, [c]) == State(map[k := v], map["c" := 1]);
    assert ApplyAll(s, b) == State(map[k := v], map["c" := 1]);
  }
}
