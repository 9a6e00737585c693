/**
 * What the service promises its clients, from the cluster's runs and the state machine together:
 * replicas agree, a retried command takes effect once, an acknowledged write is permanent and a
 * linearizable read sees it.
 */
module EndToEnd {
  import opened Bytes
  import opened RaftTypes
  import opened NodeSpec
  import opened Cluster
  import opened ClusterSafety
  import opened ClusterLogs
  import opened ClusterReads
  import opened Commands
  import opened StateMachine

  /** The commands in a log, without no-ops and entries that do not decode. */
  function CommandsOf(decode: Decoder, log: Log): seq<Commands.Command> {
    if log == [] then []
    else
      var n := |log| - 1;
      CommandsOf(decode, log[..n])
      + (if log[n].data == [] || decode(log[n].data).None? then [] else [decode(log[n].data).value])
  }

  lemma {:induction false} AppliesCommands(decode: Decoder, s: State, log: Log)
    ensures ApplyLog(decode, s, log) == ApplyAll(s, CommandsOf(decode, log))
  {
    if log != [] {
      var n := |log| - 1;
      AppliesCommands(decode, s, log[..n]);
      var before, data := CommandsOf(decode, log[..n]), log[n].data;
      if data != [] && decode(data).Some? {
        var all := before + [decode(data).value];
        assert CommandsOf(decode, log) == all && all[..|all| - 1] == before;
      } else {
        assert CommandsOf(decode, log) == before;
      }
    }
  }

  // ---- Replicas agree ----

  /** Two nodes that have applied k entries, at any two moments, are in the same state. */
  lemma ReplicasAgree(decode: Decoder, voters: set<NodeId>, cs: seq<Cluster>, actions: seq<Action>,
                      m: nat, i: NodeId, n: nat, j: NodeId, k: nat)
    requires IsRun(voters, cs, actions) && 0 !in voters && m < |cs| && n < |cs|
    requires i in cs[m].nodes && j in cs[n].nodes
    requires k <= cs[m].nodes[i].lastApplied && k <= cs[n].nodes[j].lastApplied
    ensures k <= |cs[m].nodes[i].log| && k <= |cs[n].nodes[j].log|
    ensures cs[m].nodes[i].log[..k] == cs[n].nodes[j].log[..k]
    ensures ApplyLog(decode, EMPTY, cs[m].nodes[i].log[..k]) == ApplyLog(decode, EMPTY, cs[n].nodes[j].log[..k])
  {
    LogsWellFormed(voters, cs, actions, m, i);
    LogsWellFormed(voters, cs, actions, n, j);
    hide *;
    forall x | 0 <= x < k ensures cs[m].nodes[i].log[x] == cs[n].nodes[j].log[x] {
      CommittedPrefixesAgree(voters, cs, actions, m, i, n, j, x);
    }
  }

  /** On every replica each numbered command is executed once, whatever retries are in the log. */
  lemma ExecutedOnce(decode: Decoder, voters: set<NodeId>, cs: seq<Cluster>, actions: seq<Action>,
                     m: nat, i: NodeId, n: nat, j: NodeId, k: nat)
    requires IsRun(voters, cs, actions) && 0 !in voters && m < |cs| && n < |cs|
    requires i in cs[m].nodes && j in cs[n].nodes
    requires k <= cs[m].nodes[i].lastApplied && k <= cs[n].nodes[j].lastApplied <= |cs[n].nodes[j].log|
    requires WellNumbered(CommandsOf(decode, cs[n].nodes[j].log[..k]))
    ensures k <= |cs[m].nodes[i].log|
    ensures ApplyLog(decode, EMPTY, cs[m].nodes[i].log[..k]).store
         == ExecuteAll(map[], Once(CommandsOf(decode, cs[n].nodes[j].log[..k])))
  {
    hide *;
    ReplicasAgree(decode, voters, cs, actions, m, i, n, j, k);
    AppliesCommands(decode, EMPTY, cs[n].nodes[j].log[..k]);
    ExactlyOnce(CommandsOf(decode, cs[n].nodes[j].log[..k]));
  }

  // ---- Acknowledged writes ----

  /**
   * Once the entry applied at the index of a proposal has its term, no node ever held or holds
   * anything but the proposed command at that index as committed.
   */
  lemma AcknowledgedIsPermanent(voters: set<NodeId>, cs: seq<Cluster>, actions: seq<Action>,
                                b: nat, i: NodeId, data: Bytes, m: nat, a: Applied, n: nat, j: NodeId)
    requires IsRun(voters, cs, actions) && 0 !in voters && b < |actions| && actions[b] == Action.Command(i, data)
    requires i in cs[b].nodes && m < |cs| && a in cs[m].applied && a.index == |cs[b].nodes[i].log| + 1
    requires a.entry.term == cs[b].nodes[i].term
    requires n < |cs| && j in cs[n].nodes && a.index <= cs[n].nodes[j].commitIndex
    ensures a.index <= |cs[n].nodes[j].log| && cs[n].nodes[j].log[a.index - 1].data == data
  {
    var z := if m <= n then n else m;
    hide IsRun;
    AcknowledgedIsApplied(voters, cs, actions, b, i, data, m, a);
    RunGrows(voters, cs, actions, m, z);
    AppliedAt(voters, cs, actions, z, a);
    NodeAt(voters, cs, actions, n, j, z);
    hide *;
    AppliedInLog(cs[z].h, a, cs[n].nodes[j]);
  }

  /**
   * propose as a whole. A call that registered for the index Propose returned, at a server fed with
   * what its node applied, is told success only if the entry applied there is its own command,
   * its execution was no error, and every node agrees on it for good.
   */
  lemma ProposeSucceeds(srv: Server, ticket: nat, voters: set<NodeId>, cs: seq<Cluster>, actions: seq<Action>,
                        b: nat, i: NodeId, data: Bytes, m: nat, n: nat, j: NodeId)
    requires srv.Answered() && ticket in srv.results && ticket in srv.asked && ticket in srv.causes
    requires IsRun(voters, cs, actions) && 0 !in voters && b < |actions| && actions[b] == Action.Command(i, data)
    requires i in cs[b].nodes && srv.asked[ticket] == |cs[b].nodes[i].log| + 1
    requires Outcome(cs[b].nodes[i].term, srv.results[ticket]) == Acknowledged
    requires var e := srv.causes[ticket].entry; m < |cs| && Applied(i, e.index, e) in cs[m].applied
    requires n < |cs| && j in cs[n].nodes && srv.asked[ticket] <= cs[n].nodes[j].commitIndex <= |cs[n].nodes[j].log|
    ensures srv.causes[ticket].entry.data == data
    ensures Succeeds(srv.decode, srv.causes[ticket].before, srv.causes[ticket].entry)
    ensures cs[n].nodes[j].log[srv.asked[ticket] - 1].data == data
  {
    assert srv.AnswerOk(ticket);
    var e := srv.causes[ticket].entry;
    AcknowledgedIsApplied(voters, cs, actions, b, i, data, m, Applied(i, e.index, e));
    AcknowledgedIsPermanent(voters, cs, actions, b, i, data, m, Applied(i, e.index, e), n, j);
  }

  // ---- Linearizable reads ----

  /** No entry from position n on is a command on this key. */
  predicate Untouched(decode: Decoder, log: Log, n: nat, key: Bytes) {
    forall x :: n <= x < |log| && decode(log[x].data).Some? ==> decode(log[x].data).value.key != key
  }

  /** What a reader of the command's key finds if the command decides it. */
  function Decided(c: Commands.Command): GetOutcome {
    if c.op == "put" then Found(c.value) else NotFound
  }

  function Lookup(store: Store, key: Bytes): GetOutcome {
    if key in store then Found(store[key]) else NotFound
  }

  /** A put or a delete that is not a duplicate decides its key until the next command on that key. */
  lemma {:induction false} CommandDecides(decode: Decoder, log: Log, p: nat, c: Commands.Command)
    requires p < |log| && log[p].data != [] && decode(log[p].data) == Some(c) && Known(c)
    requires !Duplicate(ApplyLog(decode, EMPTY, log[..p]), c) && Untouched(decode, log, p + 1, c.key)
    ensures Lookup(ApplyLog(decode, EMPTY, log).store, c.key) == Decided(c)
    decreases |log|
  {
    var n := |log| - 1;
    if p < n {
      assert log[..n][..p] == log[..p];
      CommandDecides(decode, log[..n], p, c);
      assert decode(log[n].data).Some? ==> decode(log[n].data).value.key != c.key;
    }
  }

  /**
   * A write acknowledged before a read began is what the read returns, unless a command on the same
   * key follows it in the log. The server reads at its own applied index k, anywhere between the
   * read index and what its node has handed over.
   */
  lemma ReadSeesWrite(decode: Decoder, voters: set<NodeId>, cs: seq<Cluster>, actions: seq<Action>,
                      w: nat, l: NodeId, data: Bytes, c: Commands.Command, m: nat, a: Applied,
                      b: nat, i: NodeId, q: nat, n: nat, z: nat, k: nat)
    requires IsRun(voters, cs, actions) && 0 !in voters
    requires w < m <= b < n <= z < |cs| && actions[w] == Action.Command(l, data) && actions[b] == ReadStart(i, q)
    requires l in cs[w].nodes && a in cs[m].applied
    requires a.index == |cs[w].nodes[l].log| + 1 && a.entry.term == cs[w].nodes[l].term
    requires i in cs[b].nodes && Settled(cs[b].nodes[i])
    requires q in cs[n].calls && cs[n].calls[q].done
    requires i in cs[z].nodes && cs[n].calls[q].index <= k <= cs[z].nodes[i].lastApplied <= |cs[z].nodes[i].log|
    requires data != [] && decode(data) == Some(c) && Known(c)
    ensures var log := cs[z].nodes[i].log[..k];
            && a.index <= |log|
            && (!Duplicate(ApplyLog(decode, EMPTY, log[..a.index - 1]), c) && Untouched(decode, log, a.index, c.key)
                ==> Lookup(ApplyLog(decode, EMPTY, log).store, c.key) == Decided(c))
  {
    AcknowledgedIsRead(voters, cs, actions, w, l, data, m, a, b, i, q, n, z);
    hide *;
    var log := cs[z].nodes[i].log[..k];
    assert log[a.index - 1].data == data;
    if !Duplicate(ApplyLog(decode, EMPTY, log[..a.index - 1]), c) && Untouched(decode, log, a.index, c.key) {
      CommandDecides(decode, log, a.index - 1, c);
    }
  }

  // ---- Reads after a restart ----

  lemma {:induction false} CommandsPrefix(decode: Decoder, log: Log, a: nat)
    requires a <= |log|
    ensures CommandsOf(decode, log[..a]) <= CommandsOf(decode, log)
  {
    if a == |log| {
      assert log[..a] == log;
    } else {
      var n := |log| - 1;
      CommandsPrefix(decode, log[..n], a);
      assert log[..n][..a] == log[..a];
    }
  }

  predicate AppliedTo(s: NodeState, a: int) {
    0 <= a <= s.lastApplied <= |s.log|
  }

  /**
   * The writes node i's engine may hold at moment b if the node never had a snapshot: n lives up to
   * then each applied, on top of what was left, the log as far as their applied index, and
   * each end kept some prefix of all writes.
   */
  ghost predicate LeftBy(decode: Decoder, cs: seq<Cluster>, i: NodeId, b: nat, n: nat, ws: seq<Commands.Command>) {
    if n == 0 then ws == []
    else exists prev: seq<Commands.Command>, m: nat, a: nat ::
           LeftBy(decode, cs, i, b, n - 1, prev) && LifeLeaves(decode, cs, i, b, m, a, prev, ws)
  }

  ghost predicate LifeLeaves(decode: Decoder, cs: seq<Cluster>, i: NodeId, b: nat, m: nat, a: nat,
                             prev: seq<Commands.Command>, ws: seq<Commands.Command>)
  {
    && m <= b && m < |cs| && i in cs[m].nodes && AppliedTo(cs[m].nodes[i], a)
    && ws <= prev + Effective(EMPTY, CommandsOf(decode, cs[m].nodes[i].log[..a]))
  }

  /** Everything the lives so far applied is a prefix of this log. */
  ghost predicate Extends(cs: seq<Cluster>, i: NodeId, b: nat, log: Log) {
    forall m, a :: 0 <= m <= b < |cs| && i in cs[m].nodes && AppliedTo(cs[m].nodes[i], a)
                   ==> cs[m].nodes[i].log[..a] <= log
  }

  lemma {:induction false} LeftoverOf(decode: Decoder, cs: seq<Cluster>, i: NodeId, b: nat, n: nat,
                                      ws: seq<Commands.Command>, log: Log)
    requires LeftBy(decode, cs, i, b, n, ws) && b < |cs| && Extends(cs, i, b, log)
    ensures Leftover(CommandsOf(decode, log), n, ws)
  {
    hide CommandsOf, Effective, LifeLeaves, Extends, CrashLeaves;
    if n > 0 {
      var prev: seq<Commands.Command>, m: nat, a: nat :|
        LeftBy(decode, cs, i, b, n - 1, prev) && LifeLeaves(decode, cs, i, b, m, a, prev, ws);
      LeftoverOf(decode, cs, i, b, n - 1, prev, log);
      var k := LifeIsReplay(decode, cs, i, b, m, a, prev, ws, log);
    }
  }

  /** One life is one interrupted replay of the longer log. */
  lemma LifeIsReplay(decode: Decoder, cs: seq<Cluster>, i: NodeId, b: nat, m: nat, a: nat,
                     prev: seq<Commands.Command>, ws: seq<Commands.Command>, log: Log) returns (k: nat)
    requires LifeLeaves(decode, cs, i, b, m, a, prev, ws) && b < |cs| && Extends(cs, i, b, log)
    ensures k <= |CommandsOf(decode, log)| && CrashLeaves(CommandsOf(decode, log), prev, k, ws)
  {
    hide CommandsOf, Effective;
    var pre := cs[m].nodes[i].log[..a];
    assert pre == log[..a];
    CommandsPrefix(decode, log, a);
    k := |CommandsOf(decode, pre)|;
    assert CommandsOf(decode, log)[..k] == CommandsOf(decode, pre);
  }

  /**
   * A server restarted without a snapshot runs over whatever its unsynced engine kept, with an empty
   * table. A settled read at applied index k is still served from the state of log[..k] from empty.
   */
  lemma ReadOverLeftovers(decode: Decoder, voters: set<NodeId>, cs: seq<Cluster>, actions: seq<Action>,
                          b: nat, i: NodeId, q: nat, n: nat, z: nat, k: nat, lives: nat, ws: seq<Commands.Command>)
    requires IsRun(voters, cs, actions) && 0 !in voters && b < n <= z < |cs| && actions[b] == ReadStart(i, q)
    requires i in cs[b].nodes && Settled(cs[b].nodes[i]) && q in cs[n].calls && cs[n].calls[q].done
    requires i in cs[z].nodes && cs[n].calls[q].index <= k <= cs[z].nodes[i].lastApplied <= |cs[z].nodes[i].log|
    requires LeftBy(decode, cs, i, b, lives, ws)
    ensures var log := cs[z].nodes[i].log[..k];
            ApplyLog(decode, State(ExecuteAll(map[], ws), map[]), log) == ApplyLog(decode, EMPTY, log)
  {
    var log := cs[z].nodes[i].log[..k];
    forall m, a | 0 <= m <= b && i in cs[m].nodes && AppliedTo(cs[m].nodes[i], a)
      ensures cs[m].nodes[i].log[..a] <= log
    {
      AppliedIsRead(decode, voters, cs, actions, b, i, q, n, z, k, m, a);
    }
    assert Extends(cs, i, b, log);
    hide *;
    LeftoverOf(decode, cs, i, b, lives, ws, log);
    RebuildConverges(CommandsOf(decode, log), lives, ws);
    AppliesCommands(decode, EMPTY, log);
    AppliesCommands(decode, State(ExecuteAll(map[], ws), map[]), log);
  }

  /** What the node had applied before the call lies below the read index. */
  lemma AppliedIsRead(decode: Decoder, voters: set<NodeId>, cs: seq<Cluster>, actions: seq<Action>,
                      b: nat, i: NodeId, q: nat, n: nat, z: nat, k: nat, m: nat, a: nat)
    requires IsRun(voters, cs, actions) && 0 !in voters && m <= b < n <= z < |cs| && actions[b] == ReadStart(i, q)
    requires i in cs[b].nodes && Settled(cs[b].nodes[i]) && q in cs[n].calls && cs[n].calls[q].done
    requires i in cs[z].nodes && cs[n].calls[q].index <= k <= cs[z].nodes[i].lastApplied <= |cs[z].nodes[i].log|
    requires i in cs[m].nodes && AppliedTo(cs[m].nodes[i], a)
    ensures cs[m].nodes[i].log[..a] <= cs[z].nodes[i].log[..k]
  {
    ReadIndexFresh(voters, cs, actions, b, i, q, n, m, i);
    LogsWellFormed(voters, cs, actions, m, i);
    hide *;
    ReplicasAgree(decode, voters, cs, actions, m, i, z, i, a);
    assert cs[z].nodes[i].log[..k][..a] == cs[z].nodes[i].log[..a];
  }

  // ---- What the server answers ----

  /** On the log of one node at one moment, a server is on that of any node that has applied as much, at any moment. */
  lemma CoversEverywhere(srv: Server, voters: set<NodeId>, cs: seq<Cluster>, actions: seq<Action>,
                         m: nat, i: NodeId, n: nat, j: NodeId)
    requires IsRun(voters, cs, actions) && 0 !in voters && m < |cs| && n < |cs|
    requires i in cs[m].nodes && j in cs[n].nodes
    requires srv.applied <= cs[m].nodes[i].lastApplied && srv.applied <= cs[n].nodes[j].lastApplied
    requires srv.Covers(cs[m].nodes[i].log)
    ensures srv.Covers(cs[n].nodes[j].log)
  {
    hide IsRun, Server.Covers;
    ReplicasAgree(srv.decode, voters, cs, actions, m, i, n, j, srv.applied);
    CoversPrefix(srv, cs[m].nodes[i].log, cs[n].nodes[j].log);
  }

  /** A server restarted over leftovers that has applied its node's log through a settled read index is current. */
  lemma LeftoverIsCurrent(srv: Server, voters: set<NodeId>, cs: seq<Cluster>, actions: seq<Action>,
                          b: nat, i: NodeId, q: nat, n: nat, z: nat, lives: nat, ws: seq<Commands.Command>)
    requires IsRun(voters, cs, actions) && 0 !in voters && b < n <= z < |cs| && actions[b] == ReadStart(i, q)
    requires i in cs[b].nodes && Settled(cs[b].nodes[i]) && q in cs[n].calls && cs[n].calls[q].done
    requires i in cs[z].nodes
    requires cs[n].calls[q].index <= srv.applied <= cs[z].nodes[i].lastApplied <= |cs[z].nodes[i].log|
    requires srv.InStep() && srv.base == State(ExecuteAll(map[], ws), map[]) && LeftBy(srv.decode, cs, i, b, lives, ws)
    requires srv.done == cs[z].nodes[i].log[..srv.applied]
    ensures srv.Current(cs[z].nodes[i].log)
  {
    hide IsRun, Settled, LeftBy, ApplyLog, ExecuteAll;
    ReadOverLeftovers(srv.decode, voters, cs, actions, b, i, q, n, z, srv.applied, lives, ws);
  }

  /**
   * A linearizable read, answered. The server of node i is current with its node's log, be it from a
   * snapshot it restored or installed (CoversIsCurrent) or over leftovers (LeftoverIsCurrent). If it
   * answers, and a put or delete on the key was acknowledged before the read began, the answer is what
   * that left, unless it was a duplicate or a command on the key follows it in what was applied.
   */
  method ServeRead(srv: Server, readIndex: nat, c: Commands.Command,
                   ghost voters: set<NodeId>, ghost cs: seq<Cluster>, ghost actions: seq<Action>,
                   ghost w: nat, ghost l: NodeId, ghost data: Bytes, ghost m: nat, ghost a: Applied,
                   ghost b: nat, ghost i: NodeId, ghost q: nat, ghost n: nat, ghost z: nat)
    returns (r: GetOutcome)
    requires IsRun(voters, cs, actions) && 0 !in voters
    requires w < m <= b < n <= z < |cs| && actions[w] == Action.Command(l, data) && actions[b] == ReadStart(i, q)
    requires l in cs[w].nodes && a in cs[m].applied
    requires a.index == |cs[w].nodes[l].log| + 1 && a.entry.term == cs[w].nodes[l].term
    requires i in cs[b].nodes && Settled(cs[b].nodes[i])
    requires q in cs[n].calls && cs[n].calls[q].done && readIndex == cs[n].calls[q].index
    requires i in cs[z].nodes && srv.applied <= cs[z].nodes[i].lastApplied <= |cs[z].nodes[i].log|
    requires srv.sm.Valid() && srv.InStep() && (srv.applied >= readIndex ==> srv.Current(cs[z].nodes[i].log))
    requires data != [] && srv.decode(data) == Some(c) && Known(c)
    ensures r == Lagging <==> srv.applied < readIndex
    ensures var log := cs[z].nodes[i].log[..srv.applied];
            r != Lagging ==>
              && a.index <= |log|
              && (!Duplicate(ApplyLog(srv.decode, EMPTY, log[..a.index - 1]), c) ==>
                    Untouched(srv.decode, log, a.index, c.key) ==> r == Decided(c))
  {
    hide StateMachine.Valid, ApplyLog, Settled, Duplicate, Untouched;
    r := srv.Get(c.key, readIndex);
    if srv.applied >= readIndex {
      ReadSeesWrite(srv.decode, voters, cs, actions, w, l, data, c, m, a, b, i, q, n, z, srv.applied);
    }
  }
}
