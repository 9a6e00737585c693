/**
 * What keeps a cluster able to go on, in every run: terms are adopted and never fall, a candidate has asked
 * for votes with its log, and a leader can always send every peer something.
 */
module ClusterPeers {
  import opened Bytes
  import opened RaftTypes
  import opened NodeSpec
  import opened History
  import opened Cluster
  import opened ClusterInv
  import opened ClusterSteps
  import opened ClusterSafety
  import opened ClusterLogs
  import opened Backtracking

  // ---- Terms ----

  /** The sender's term, or the term a reply was given in. */
  function TermIn(m: Msg): Term {
    match m
    case VoteReq(r) => r.term
    case VoteResp(_, _, _, v) => v.term
    case AppReq(_, r) => r.term
    case AppResp(_, _, _, _, _, a) => a.term
    case SnapReq(_, r) => r.term
    case SnapResp(_, _, _, _, t) => t
    case ReadReq(_, _, t) => t
    case ReadResp(_, _, t, _) => t
  }

  predicate Receives(a: Action) {
    || a.RecvVoteReq? || a.RecvVoteResp? || a.RecvAppend? || a.RecvAppendResp?
    || a.RecvSnap? || a.RecvSnapResp? || a.RecvReadReq? || a.RecvReadResp?
  }

  /**
   * Whatever message a node handles, request or reply, its term afterwards is the greater of the two; and if
   * the message's was greater, it neither leads nor stands.
   */
  lemma TermsAdopted(c: Cluster, a: Action)
    requires Enabled(c, a) && Receives(a)
    ensures var s, s' := c.nodes[a.i], NextNode(c, a);
            s'.term == Max(s.term, TermIn(a.m)) && (TermIn(a.m) > s.term ==> s'.role == Follower)
  {
    hide FirstNew, Overwrite, ScanBack, RunStart, UpToDate, InstalledLog;
  }

  lemma TermsRise(c: Cluster, a: Action)
    requires Enabled(c, a)
    ensures c.nodes[a.i].term <= NextNode(c, a).term
  {
    hide HandleAppendEntries, HandleAppendReply, HandleInstallSnapshot, HandleVoteReply, HandleRequestVote,
         HandleReadIndex, HandleSnapshotReply, Merge, TornAppend, Stands;
    if Receives(a) { TermsAdopted(c, a); }
  }

  /** No node's term ever falls, across crashes too. */
  lemma {:induction false} TermsGrow(
    voters: set<NodeId>, cs: seq<Cluster>, actions: seq<Action>, m: nat, n: nat, i: NodeId)
    requires IsRun(voters, cs, actions) && m <= n < |cs| && i in cs[m].nodes
    ensures i in cs[n].nodes && cs[m].nodes[i].term <= cs[n].nodes[i].term
    decreases n - m
  {
    if m < n {
      RunStarts(voters, cs, actions);
      TermsGrow(voters, cs, actions, m, n - 1, i);
      StepOf(voters, cs, actions, n - 1);
      hide *;
      HistoryOf(cs[n - 1], actions[n - 1]);
      TermsRise(cs[n - 1], actions[n - 1]);
    }
  }

  // ---- Leaders and their peers ----

  /**
   * The leader holds its whole log, and for every peer there is a next entry it may ask about. A candidate has
   * not won yet, unless it is the only voter.
   */
  ghost predicate NextOk(s: NodeState) {
    && (s.role == Leader ==>
         && Get(s.matchIndex, s.id) == |s.log|
         && forall p :: p in s.voters && p != s.id ==> 1 <= Get(s.nextIndex, p) <= |s.log| + 1)
    && (s.role == Candidate && |s.voters| > 1 ==> !Conf(s).HasVoteQuorum(s.votes))
  }

  ghost predicate Reigned(h: Hist, l: NodeId, t: Term) {
    t in h.reigns && h.reigns[t].leader == l
  }

  /** The leader a node names was elected, in no later term than its own; a leader names itself. */
  ghost predicate KnowsLeader(h: Hist, s: NodeState) {
    && (s.leaderId != 0 ==> exists t: Term :: t <= s.term && Reigned(h, s.leaderId, t))
    && (s.role == Leader ==> s.leaderId == s.id)
  }

  /** A reply speaks of nothing past the log of the leader that asked. */
  ghost predicate WithinReign(h: Hist, m: Msg) {
    match m
    case AppResp(_, _, t, p, n, a) =>
      && t in h.reigns && p + n <= |h.reigns[t].log|
      && (a.success || a.term > t || a.conflictIndex <= |h.reigns[t].log| + 1)
    case SnapResp(_, _, t, n, _) => t in h.reigns && n <= |h.reigns[t].log|
    case ReadReq(_, l, t) => Reigned(h, l, t)
    case _ => true
  }

  ghost predicate Asked(s: NodeState, net: set<Msg>) {
    s.role == Candidate ==> VoteReq(CandidateRequest(s)) in net
  }

  ghost predicate NodePeers(c: Cluster, i: NodeId)
    requires i in c.nodes
  {
    NextOk(c.nodes[i]) && KnowsLeader(c.h, c.nodes[i]) && Asked(c.nodes[i], c.net)
  }

  ghost predicate PeersInv(c: Cluster) {
    && (forall i :: i in c.nodes ==> NodePeers(c, i))
    && (forall m :: m in c.net ==> WithinReign(c.h, m))
  }

  lemma WithinGrows(h: Hist, h': Hist, m: Msg)
    requires Grows(h, h') && WithinReign(h, m)
    ensures WithinReign(h', m)
  {
    var t := match m case AppResp(_, _, t, _, _, _) => t case SnapResp(_, _, t, _, _) => t case ReadReq(_, _, t) => t
             case _ => 0;
    if t in h.reigns { assert ReignGrows(h.reigns[t], h'.reigns[t], t); }
  }

  lemma KnowsGrows(h: Hist, h': Hist, s: NodeState, s': NodeState)
    requires Grows(h, h') && KnowsLeader(h, s) && s'.leaderId == s.leaderId && s'.term >= s.term
    requires s'.role == Leader ==> s'.leaderId == s'.id
    ensures KnowsLeader(h', s')
  {
    if s.leaderId != 0 {
      var t: Term :| t <= s.term && Reigned(h, s.leaderId, t);
      assert ReignGrows(h.reigns[t], h'.reigns[t], t);
      assert Reigned(h', s.leaderId, t);
    }
  }

  lemma {:induction false} ScanBackWithin(log: Log, first: nat, i: nat, ct: Term, default: nat)
    requires i <= |log| && default <= |log| + 1
    ensures ScanBack(log, first, i, ct, default) <= |log| + 1
    decreases i
  {
    if i > 0 && log[i - 1].term > ct { ScanBackWithin(log, first, i - 1, ct, default); }
  }

  // ---- One step ----

  /** The steps that do not deal with votes or with a leader's peers. */
  predicate Plain(a: Action) {
    !a.Stand? && !a.RecvVoteResp? && !a.Command? && !a.RecvAppendResp? && !a.RecvSnapResp?
  }

  /** No new candidate or leader, and who was one and still is has not changed what it goes by. */
  predicate Quiet(s: NodeState, s': NodeState) {
    && s'.id == s.id && s'.voters == s.voters
    && (s'.role != Follower ==>
         && s'.role == s.role && s'.log == s.log && s'.term == s.term
         && s'.nextIndex == s.nextIndex && s'.matchIndex == s.matchIndex && s'.votes == s.votes)
  }

  lemma VoteQuiet(s: NodeState, r: VoteRequest)
    ensures Quiet(s, HandleRequestVote(s, r).0)
  {
    hide UpToDate;
  }

  lemma AppendQuiet(s: NodeState, r: AppendRequest)
    ensures Quiet(s, HandleAppendEntries(s, r).0)
  {
    hide FirstNew, Overwrite, Consistent, Rejection;
  }

  lemma InstallQuiet(s: NodeState, r: SnapRequest)
    ensures Quiet(s, HandleInstallSnapshot(s, r).0)
  {
    hide InstalledLog;
  }

  lemma ReadQuiet(s: NodeState, l: NodeId, t: Term)
    ensures Quiet(s, HandleReadIndex(s, l, t).0)
  {
  }

  lemma PlainStep(c: Cluster, a: Action)
    requires Enabled(c, a) && Plain(a)
    ensures Quiet(c.nodes[a.i], NextNode(c, a))
  {
    hide HandleRequestVote, HandleAppendEntries, HandleInstallSnapshot, HandleReadIndex, Merge, TornAppend;
    var s := c.nodes[a.i];
    match a
    case RecvVoteReq(_, m) => VoteQuiet(s, m.vreq);
    case RecvAppend(_, m) => AppendQuiet(s, m.areq);
    case RecvSnap(_, m) => InstallQuiet(s, m.sreq);
    case RecvReadReq(_, m) => ReadQuiet(s, m.leader, m.rterm);
    case _ =>
  }

  lemma ElectedNext(s: NodeState, peer: NodeId, t: Term, v: VoteReply)
    requires NextOk(s)
    ensures var s' := HandleVoteReply(s, peer, t, v);
            && NextOk(s') && s'.id == s.id && s'.voters == s.voters
            && (s'.role == Candidate ==> s.role == Candidate && s'.log == s.log && s'.term == s.term)
            && (s'.role == Leader ==> if s.role == Leader then s' == s else s'.leaderId == s.id)
            && (s'.leaderId == s.leaderId || s'.role == Leader)
  {
  }

  lemma BacktrackNext(s: NodeState, peer: NodeId, a: AppendReply)
    requires NextOk(s) && s.role == Leader && peer != s.id && a.conflictIndex <= |s.log| + 1
    ensures NextOk(Backtrack(s, peer, a))
  {
    ScanBackWithin(s.log, s.snapIndex + 1, |s.log|, a.conflictTerm, a.conflictIndex);
    hide ScanBack;
  }

  lemma ReplyNext(h: Hist, s: NodeState, m: Msg)
    requires NextOk(s) && NodeInv(h, s) && m.AppResp? && m.from != s.id && WithinReign(h, m)
    ensures var s' := HandleAppendReply(s, m.from, m.reqTerm, m.prevIndex, m.count, m.reply);
            && NextOk(s') && s'.id == s.id && s'.voters == s.voters
            && s'.leaderId == s.leaderId && (s'.role != Follower ==> s'.role == s.role)
            && (s'.role == Candidate ==> s'.log == s.log && s'.term == s.term)
  {
    hide LogInv, Committed, PastTerms, AcksHeld, Backtrack;
    if m.reply.term <= s.term && s.role == Leader && s.term == m.reqTerm && !m.reply.success {
      BacktrackNext(s, m.from, m.reply);
      BacktrackOnly(s, m.from, m.reply);
    }
  }

  lemma BacktrackOnly(s: NodeState, peer: NodeId, a: AppendReply)
    ensures Backtrack(s, peer, a) == s.(nextIndex := Backtrack(s, peer, a).nextIndex)
  {
  }

  lemma SnapReplyNext(h: Hist, s: NodeState, m: Msg)
    requires NextOk(s) && NodeInv(h, s) && m.SnapResp? && m.from != s.id && WithinReign(h, m)
    ensures var s' := HandleSnapshotReply(s, m.from, m.reqTerm, m.lastIndex, m.sterm);
            && NextOk(s') && s'.id == s.id && s'.voters == s.voters
            && s'.leaderId == s.leaderId && (s'.role != Follower ==> s'.role == s.role)
            && (s'.role == Candidate ==> s'.log == s.log && s'.term == s.term)
  {
    hide LogInv, Committed, PastTerms, AcksHeld;
  }

  lemma StandNext(s: NodeState)
    ensures NextOk(StartElection(s))
  {
  }

  lemma CommandNext(s: NodeState, data: Bytes)
    requires NextOk(s)
    ensures NextOk(Propose(s, data))
  {
  }

  lemma QuietNext(s: NodeState, s': NodeState, net: set<Msg>, net': set<Msg>)
    requires NextOk(s) && Asked(s, net) && Quiet(s, s') && net <= net'
    ensures NextOk(s') && Asked(s', net')
  {
  }

  lemma WithinOf(c: Cluster, m: Msg)
    requires PeersInv(c) && m in c.net
    ensures WithinReign(c.h, m)
  {
  }

  lemma PeersOf(c: Cluster, i: NodeId)
    requires PeersInv(c) && i in c.nodes
    ensures NextOk(c.nodes[i]) && KnowsLeader(c.h, c.nodes[i]) && Asked(c.nodes[i], c.net)
  {
    assert NodePeers(c, i);
  }

  lemma ReplyFrom(c: Cluster, m: Msg)
    requires Inv(c) && m in c.net
    ensures m.AppResp? || m.SnapResp? ==> m.from != m.leader
    ensures m.VoteResp? ==> m.voter != m.cand
  {
    hide Inv, Vouched;
    MsgOf(c, m);
  }

  /** The node that takes the step: its peers' indices. */
  lemma NextKept(c: Cluster, a: Action)
    requires Inv(c) && Enabled(c, a) && PeersInv(c)
    ensures NextOk(NextNode(c, a))
  {
    hide PeersInv, Inv, HistInv, NodeInv, KnowsLeader, NextOk, WithinReign, HandleVoteReply, HandleAppendReply,
         HandleSnapshotReply, HandleRequestVote, HandleAppendEntries, HandleInstallSnapshot, HandleReadIndex, Merge,
         TornAppend, Stands, StartElection, Propose, Quiet, Asked;
    NodeOf(c, a.i);
    PeersOf(c, a.i);
    var s := c.nodes[a.i];
    match a
    case Stand(_) => StandNext(s);
    case Command(_, data) => CommandNext(s, data);
    case RecvVoteResp(_, m) => ElectedNext(s, m.voter, m.reqTerm, m.vote);
    case RecvAppendResp(_, m) => ReplyFrom(c, m); WithinOf(c, m); ReplyNext(c.h, s, m);
    case RecvSnapResp(_, m) => ReplyFrom(c, m); WithinOf(c, m); SnapReplyNext(c.h, s, m);
    case _ =>
      PlainStep(c, a);
      QuietNext(s, NextNode(c, a), c.net, c.net);
  }

  /** And its candidacy: whoever stands has asked, with the log it still has. */
  lemma AskedKept(c: Cluster, a: Action)
    requires Inv(c) && Enabled(c, a) && PeersInv(c)
    ensures Asked(NextNode(c, a), c.net + Sent(c, a))
  {
    hide PeersInv, Inv, HistInv, NodeInv, KnowsLeader, NextOk, WithinReign, HandleVoteReply, HandleAppendReply,
         HandleSnapshotReply, HandleRequestVote, HandleAppendEntries, HandleInstallSnapshot, HandleReadIndex, Merge,
         TornAppend, Stands, Quiet;
    NodeOf(c, a.i);
    PeersOf(c, a.i);
    var s := c.nodes[a.i];
    match a
    case Stand(_) =>
    case Command(_, data) =>
    case RecvVoteResp(_, m) => ElectedNext(s, m.voter, m.reqTerm, m.vote);
    case RecvAppendResp(_, m) => ReplyFrom(c, m); WithinOf(c, m); ReplyNext(c.h, s, m);
    case RecvSnapResp(_, m) => ReplyFrom(c, m); WithinOf(c, m); SnapReplyNext(c.h, s, m);
    case _ =>
      PlainStep(c, a);
      QuietNext(s, NextNode(c, a), c.net, c.net + Sent(c, a));
  }

  // ---- Whom a node takes for the leader ----

  lemma FollowKnows(h: Hist, h': Hist, s': NodeState, t: Term)
    requires Grows(h, h') && Reigned(h, s'.leaderId, t) && t <= s'.term && s'.role != Leader
    ensures KnowsLeader(h', s')
  {
    assert ReignGrows(h.reigns[t], h'.reigns[t], t);
    assert Reigned(h', s'.leaderId, t);
  }

  lemma AppendKnows(s: NodeState, r: AppendRequest)
    ensures var s' := HandleAppendEntries(s, r).0;
            s' == s || (s'.leaderId == r.leader && s'.term == r.term && s'.role == Follower)
  {
    hide FirstNew, Overwrite, Consistent, Rejection;
  }

  lemma InstallKnows(s: NodeState, r: SnapRequest)
    ensures var s' := HandleInstallSnapshot(s, r).0;
            s' == s || (s'.leaderId == r.leader && s'.term == r.term && s'.role == Follower)
  {
    hide InstalledLog;
  }

  lemma ReadKnows(s: NodeState, l: NodeId, t: Term)
    ensures var s' := HandleReadIndex(s, l, t).0;
            || (s'.leaderId == s.leaderId && (s'.role == Leader ==> s.role == Leader))
            || (s'.leaderId == l && s'.term == t && (s'.role == Leader ==> s.role == Leader && s.term == t))
  {
  }

  /** No leader is asked to confirm a read in its own term: nobody else was elected in it. */
  lemma LeaderNotAsked(h: Hist, s: NodeState, l: NodeId, t: Term)
    requires NodeInv(h, s) && Reigned(h, l, t) && l != s.id
    ensures s.role != Leader || s.term != t
  {
    hide CoreInv, VoteKept, VotesFor, Matched;
  }

  lemma WonKnows(h: Hist, s': NodeState)
    requires s'.role == Leader && s'.leaderId == s'.id
    ensures KnowsLeader(RecordReign(h, s'), s')
  {
    assert Reigned(RecordReign(h, s'), s'.leaderId, s'.term);
  }

  /** Nothing new about the leader, or nothing known any more. */
  predicate NoNews(s: NodeState, s': NodeState) {
    && s'.id == s.id
    && ((s'.leaderId == s.leaderId && (s'.role == Leader ==> s.role == Leader))
        || (s'.leaderId == 0 && s'.role != Leader))
  }

  lemma NoNewsKnows(h: Hist, h': Hist, s: NodeState, s': NodeState)
    requires Grows(h, h') && KnowsLeader(h, s) && s.term <= s'.term && NoNews(s, s')
    ensures KnowsLeader(h', s')
  {
    if s'.leaderId == s.leaderId && (s'.role == Leader ==> s.role == Leader) { KnowsGrows(h, h', s, s'); }
  }

  lemma LeaderSent(c: Cluster, m: Msg)
    requires Inv(c) && m in c.net
    ensures m.AppReq? ==> Reigned(c.h, m.areq.leader, m.areq.term)
    ensures m.SnapReq? ==> Reigned(c.h, m.sreq.leader, m.sreq.term)
  {
    hide Inv, Committed, Vouched;
    MsgOf(c, m);
  }

  /** Every step that is not a leader's request or a victory brings no news of a leader. */
  lemma RestNoNews(c: Cluster, a: Action)
    requires Inv(c) && PeersInv(c) && Enabled(c, a)
    requires !a.RecvVoteResp? && !a.RecvAppend? && !a.RecvSnap? && !a.RecvReadReq?
    ensures NoNews(c.nodes[a.i], NextNode(c, a))
  {
    hide PeersInv, Inv, NodeInv, WithinReign, HandleAppendReply, HandleSnapshotReply, Merge, TornAppend, Stands, NextOk,
         UpToDate, KnowsLeader, Asked;
    NodeOf(c, a.i);
    PeersOf(c, a.i);
    var s := c.nodes[a.i];
    match a
    case RecvAppendResp(_, m) => ReplyFrom(c, m); WithinOf(c, m); ReplyNext(c.h, s, m);
    case RecvSnapResp(_, m) => ReplyFrom(c, m); WithinOf(c, m); SnapReplyNext(c.h, s, m);
    case _ =>
  }

  /** A leader's request, or a reader's. */
  lemma RequestKnows(c: Cluster, a: Action, h': Hist)
    requires Inv(c) && PeersInv(c) && Enabled(c, a) && Grows(c.h, h')
    requires a.RecvAppend? || a.RecvSnap? || a.RecvReadReq?
    ensures KnowsLeader(h', NextNode(c, a))
  {
    hide PeersInv, Inv, NodeInv, HandleAppendEntries, HandleInstallSnapshot, HandleReadIndex, NextOk, KnowsLeader,
         Asked, Grows, Reigned;
    TermsRise(c, a);
    NodeOf(c, a.i);
    PeersOf(c, a.i);
    var s, s' := c.nodes[a.i], NextNode(c, a);
    LeaderSent(c, a.m);
    if a.RecvAppend? {
      AppendKnows(s, a.m.areq);
    } else if a.RecvSnap? {
      InstallKnows(s, a.m.sreq);
    } else {
      WithinOf(c, a.m);
      ReadKnows(s, a.m.leader, a.m.rterm);
      ReadQuiet(s, a.m.leader, a.m.rterm);
      LeaderNotAsked(c.h, s, a.m.leader, a.m.rterm);
    }
    if NoNews(s, s') { NoNewsKnows(c.h, h', s, s'); } else { FollowKnows(c.h, h', s', s'.term); }
  }

  lemma VictoryKnows(c: Cluster, a: Action)
    requires Inv(c) && PeersInv(c) && Enabled(c, a) && a.RecvVoteResp? && Grows(c.h, NextHist(c, a))
    ensures KnowsLeader(NextHist(c, a), NextNode(c, a))
  {
    TermsRise(c, a);
    hide PeersInv, Inv, NodeInv, HandleVoteReply, NextOk, KnowsLeader, Asked, Grows, Reigned, RecordReign;
    NodeOf(c, a.i);
    PeersOf(c, a.i);
    var s, s', h' := c.nodes[a.i], NextNode(c, a), NextHist(c, a);
    ElectedNext(s, a.m.voter, a.m.reqTerm, a.m.vote);
    if s.role != Leader && s'.role == Leader {
      WonKnows(c.h, s');
    } else {
      NoNewsKnows(c.h, h', s, s');
    }
  }

  lemma Actor(c: Cluster, a: Action)
    requires Enabled(c, a)
    ensures a.i in c.nodes
  {
  }

  lemma KnowsKept(c: Cluster, a: Action)
    requires Inv(c) && Enabled(c, a) && PeersInv(c) && Grows(c.h, NextHist(c, a))
    ensures KnowsLeader(NextHist(c, a), NextNode(c, a))
  {
    hide *;
    if a.RecvVoteResp? {
      VictoryKnows(c, a);
    } else if a.RecvAppend? || a.RecvSnap? || a.RecvReadReq? {
      RequestKnows(c, a, NextHist(c, a));
    } else {
      Actor(c, a);
      PeersOf(c, a.i);
      TermsRise(c, a);
      RestNoNews(c, a);
      NoNewsKnows(c.h, NextHist(c, a), c.nodes[a.i], NextNode(c, a));
    }
  }

  // ---- New messages ----

  lemma RejectionWithin(h: Hist, s: NodeState, r: AppendRequest)
    requires AppendInv(h, r)
    ensures var a := HandleAppendEntries(s, r).1;
            a.success || a.term > r.term || a.conflictIndex <= |h.reigns[r.term].log| + 1
  {
    hide FirstNew, Overwrite, Committed, RunStart;
    if r.prevIndex <= |s.log| { RunStartSpec(s.log, s.snapIndex + 1, r.prevIndex); }
  }

  lemma SentWithin(c: Cluster, a: Action, m: Msg)
    requires Inv(c) && Enabled(c, a) && m in Sent(c, a)
    ensures WithinReign(c.h, m)
  {
    hide Inv, HandleAppendEntries, HandleInstallSnapshot, HandleReadIndex, HandleRequestVote, NodeInv, HistInv,
         Committed;
    match a
    case RecvAppend(_, r) => MsgOf(c, r); RejectionWithin(c.h, c.nodes[a.i], r.areq);
    case RecvSnap(_, r) => MsgOf(c, r);
    case ReadStart(_, _) => NodeOf(c, a.i); LeaderOf(c.h, c.nodes[a.i]);
    case _ =>
  }

  // ---- Every state of every run ----

  lemma NodesStep(c: Cluster, a: Action, i: NodeId)
    requires Inv(c) && PeersInv(c) && Enabled(c, a) && Grows(c.h, NextHist(c, a)) && i in c.nodes
    ensures i in Next(c, a).nodes && NodePeers(Next(c, a), i)
  {
    hide Inv, PeersInv, Grows, NextNode, NextHist, NextOk, KnowsLeader, Asked, Enabled, Sent, NextReads, HandedOver;
    if i == a.i {
      NextKept(c, a);
      AskedKept(c, a);
      KnowsKept(c, a);
    } else {
      PeersOf(c, i);
      AskedGrows(c.nodes[i], c.net, Next(c, a).net);
      NoNewsKnows(c.h, NextHist(c, a), c.nodes[i], c.nodes[i]);
    }
  }

  lemma MessagesStep(c: Cluster, a: Action, m: Msg)
    requires Inv(c) && PeersInv(c) && Enabled(c, a) && Grows(c.h, NextHist(c, a)) && m in c.net + Sent(c, a)
    ensures WithinReign(NextHist(c, a), m)
  {
    hide *;
    if m in c.net { WithinOf(c, m); } else { SentWithin(c, a, m); }
    WithinGrows(c.h, NextHist(c, a), m);
  }

  lemma PeersStep(c: Cluster, a: Action)
    requires Inv(c) && PeersInv(c) && Enabled(c, a)
    ensures PeersInv(Next(c, a))
  {
    hide *;
    NextInv(c, a);
    HistoryOf(c, a);
    NetOf(c, a);
    var c' := Next(c, a);
    forall i | i in c'.nodes ensures NodePeers(c', i) { NodesStep(c, a, i); }
    forall m | m in c'.net ensures WithinReign(c'.h, m) { MessagesStep(c, a, m); }
    AllPeers(c');
  }

  lemma AllPeers(c: Cluster)
    requires forall i :: i in c.nodes ==> NodePeers(c, i)
    requires forall m :: m in c.net ==> WithinReign(c.h, m)
    ensures PeersInv(c)
  {
  }

  lemma NetOf(c: Cluster, a: Action)
    requires Enabled(c, a)
    ensures Next(c, a).net == c.net + Sent(c, a) && Next(c, a).nodes.Keys == c.nodes.Keys
  {
    hide NextNode, NextHist, Sent, NextReads;
  }

  lemma AskedGrows(s: NodeState, net: set<Msg>, net': set<Msg>)
    requires Asked(s, net) && net <= net'
    ensures Asked(s, net')
  {
  }

  lemma {:induction false} ReachablePeers(voters: set<NodeId>, cs: seq<Cluster>, actions: seq<Action>, n: nat)
    requires IsRun(voters, cs, actions) && 0 !in voters && n < |cs|
    ensures PeersInv(cs[n])
  {
    hide *;
    RunStarts(voters, cs, actions);
    if n == 0 {
      FirstPeers(voters);
    } else {
      ReachablePeers(voters, cs, actions, n - 1);
      ReachableInv(voters, cs, actions, n - 1);
      StepOf(voters, cs, actions, n - 1);
      PeersStep(cs[n - 1], actions[n - 1]);
    }
  }

  lemma FirstPeers(voters: set<NodeId>)
    ensures PeersInv(Init(voters))
  {
  }

  /** In every run, a leader has something to send to every peer: entries, or else its snapshot. */
  lemma LeaderCanSend(voters: set<NodeId>, cs: seq<Cluster>, actions: seq<Action>, n: nat, i: NodeId, p: NodeId)
    requires IsRun(voters, cs, actions) && 0 !in voters && n < |cs| && i in cs[n].nodes && p in voters && p != i
    requires cs[n].nodes[i].role == Leader
    ensures Enabled(cs[n], Send(i, p)) <==> !Enabled(cs[n], SendSnap(i, p))
  {
    hide *;
    ReachableInv(voters, cs, actions, n);
    ReachablePeers(voters, cs, actions, n);
    SameVoters(voters, cs, actions, n, i);
    NodeAt(voters, cs, actions, n, i, n);
    PeersOf(cs[n], i);
    LogsWellFormed(voters, cs, actions, n, i);
    SomethingToSend(cs[n], i, p);
  }

  lemma SomethingToSend(c: Cluster, i: NodeId, p: NodeId)
    requires i in c.nodes && c.nodes[i].role == Leader && NextOk(c.nodes[i]) && c.nodes[i].snapIndex <= |c.nodes[i].log|
    requires c.nodes[i].id == i && p in c.nodes[i].voters && p != i
    ensures Enabled(c, Send(i, p)) <==> !Enabled(c, SendSnap(i, p))
  {
  }

  lemma {:induction false} SameVoters(voters: set<NodeId>, cs: seq<Cluster>, actions: seq<Action>, n: nat, i: NodeId)
    requires IsRun(voters, cs, actions) && 0 !in voters && n < |cs|
    ensures cs[n].nodes.Keys == voters && cs[n].h.voters == voters && (i in voters ==> cs[n].nodes[i].voters == voters)
  {
    RunStarts(voters, cs, actions);
    RunGrows(voters, cs, actions, 0, n);
    ReachableInv(voters, cs, actions, n);
    hide IsRun, HistInv, NodeInv, Inv;
    AllNodes(cs[n]);
    if i in voters {
      NodeOf(cs[n], i);
      VotersOf(cs[n].h, cs[n].nodes[i]);
    }
  }

  /** The leader a node names was elected, in a term no later than the node's; a leader names itself. */
  lemma NamedWasElected(voters: set<NodeId>, cs: seq<Cluster>, actions: seq<Action>, n: nat, i: NodeId)
    requires IsRun(voters, cs, actions) && 0 !in voters && n < |cs| && i in cs[n].nodes
    ensures KnowsLeader(cs[n].h, cs[n].nodes[i])
  {
    ReachablePeers(voters, cs, actions, n);
    hide *;
    PeersOf(cs[n], i);
  }

  // ---- A lone voter ----

  /** With one voter there is never a leader: leadership is taken only when a peer's vote comes in. */
  lemma {:induction false} LoneVoterNeverLeads(
    voters: set<NodeId>, cs: seq<Cluster>, actions: seq<Action>, n: nat, i: NodeId)
    requires IsRun(voters, cs, actions) && 0 !in voters && |voters| <= 1 && n < |cs| && i in cs[n].nodes
    ensures cs[n].nodes[i].role != Leader
  {
    RunStarts(voters, cs, actions);
    if n > 0 {
      StepOf(voters, cs, actions, n - 1);
      hide *;
      var c, a := cs[n - 1], actions[n - 1];
      ReachableInv(voters, cs, actions, n - 1);
      ReachablePeers(voters, cs, actions, n - 1);
      SameVoters(voters, cs, actions, n - 1, i);
      HistoryOf(c, a);
      LoneVoterNeverLeads(voters, cs, actions, n - 1, i);
      if a.i == i { NoNewLeader(c, a); }
    }
  }

  lemma NoNewLeader(c: Cluster, a: Action)
    requires Inv(c) && PeersInv(c) && Enabled(c, a) && c.nodes[a.i].role != Leader && |c.h.voters| <= 1
    ensures NextNode(c, a).role != Leader
  {
    hide Inv, PeersInv, NodeInv, HandleVoteReply, HandleAppendReply, HandleSnapshotReply, HandleRequestVote,
         HandleAppendEntries, HandleInstallSnapshot, HandleReadIndex, Merge, TornAppend, Stands, Quiet, Vouched;
    if a.RecvVoteResp? {
      MsgOf(c, a.m);
      AllNodes(c);
      TwoVoters(c.h.voters, a.i, a.m.voter);
    } else if a.RecvAppend? || a.RecvSnap? || a.RecvReadReq? {
      PlainStep(c, a);
      QuietRole(c.nodes[a.i], NextNode(c, a));
    } else {
      RestNoNews(c, a);
    }
  }

  lemma QuietRole(s: NodeState, s': NodeState)
    requires Quiet(s, s') && s.role != Leader
    ensures s'.role != Leader
  {
  }

  lemma TwoVoters(voters: set<NodeId>, i: NodeId, j: NodeId)
    requires i in voters && j in voters && i != j
    ensures |voters| > 1
  {
    var two := {i, j};
    assert two <= voters && |two| == 2;
    assert |voters| == |voters - two| + 2;
  }
}
