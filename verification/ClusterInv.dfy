/** The invariant of every reachable cluster, and the part of it that only ever grows. */
module ClusterInv {
  import opened RaftTypes
  import opened RaftConf
  import opened NodeSpec
  import opened History
  import opened Cluster

  // ---- One node against the history ----

  ghost predicate Bounds(s: NodeState) {
    && s.snapIndex <= s.lastApplied <= s.commitIndex <= s.synced <= |s.log|
    && (s.role != Leader ==> s.synced == |s.log|)
    && forall k :: 0 <= k < |s.log| ==> s.log[k].term <= s.term
  }

  /** The node's term has passed everything the history says it did. */
  ghost predicate PastTerms(h: Hist, s: NodeState) {
    && (forall t :: (s.id, t) in h.runs ==> t <= s.term)
    && (forall t :: (s.id, t) in h.ballots ==> t <= s.term)
    && (forall t :: (s.id, t) in h.acks ==> t <= s.term)
    && (forall t :: t in h.reigns && h.reigns[t].leader == s.id ==> t <= s.term)
  }

  ghost predicate VoteKept(h: Hist, s: NodeState) {
    && ((s.id, s.term) in h.ballots ==> s.votedFor == h.ballots[(s.id, s.term)].cand)
    && (s.votedFor != 0 ==> (s.id, s.term) in h.ballots)
  }

  ghost predicate VotesFor(h: Hist, j: NodeId, s: NodeState) {
    (j, s.term) in h.ballots && h.ballots[(j, s.term)].cand == s.id
  }

  ghost predicate CandidateInv(h: Hist, s: NodeState) {
    && (s.id, s.term) in h.runs && h.runs[(s.id, s.term)] == s.log
    && VotesFor(h, s.id, s)
    && s.id !in s.counted && s.counted <= h.voters
    && s.votes == |s.counted| + 1
    && (forall j :: j in s.counted ==> VotesFor(h, j, s))
    && (s.term in h.reigns ==> h.reigns[s.term].leader != s.id)
  }

  /** Index n has been committed, in this term or an earlier one. */
  ghost predicate Covered(h: Hist, t: Term, n: nat) {
    exists u, k :: (u, k) in h.commits && u <= t && n <= k
  }

  ghost predicate Acked(h: Hist, j: NodeId, t: Term, n: nat) {
    (j, t) in h.acks && h.acks[(j, t)] >= n
  }

  /** What stands behind a match index: an acknowledgement on record, or that nothing depends on one. */
  ghost predicate Vouched(h: Hist, j: NodeId, t: Term, n: nat) {
    n == 0 || Acked(h, j, t, n) || Covered(h, t, n)
  }

  ghost predicate Matched(h: Hist, s: NodeState, p: NodeId) {
    Vouched(h, p, s.term, Get(s.matchIndex, p))
  }

  ghost predicate LeaderInv(h: Hist, s: NodeState) {
    && s.term in h.reigns && h.reigns[s.term].leader == s.id && h.reigns[s.term].log == s.log
    && VotesFor(h, s.id, s)
    && (forall p :: p in h.voters && p != s.id ==> Matched(h, s, p))
    && (forall k :: (s.term, k) in h.commits ==> k <= s.commitIndex)
    && Get(s.matchIndex, s.id) <= |s.log|
  }

  ghost predicate AcksHeld(h: Hist, s: NodeState)
    requires s.synced <= |s.log|
  {
    forall t :: (s.id, t) in h.acks ==> AckInv(h, s.log[..s.synced], s.id, t, s.term)
  }

  /** A node with a stale suffix has nothing of it committed, and is not the leader. */
  ghost predicate StaleNode(h: Hist, s: NodeState) {
    && s.role != Leader
    && s.commitIndex == s.snapIndex
    && StaleLog(h, s.log, s.snapIndex, s.term)
    && forall t :: (s.id, t) in h.acks ==>
         t in h.reigns && h.acks[(s.id, t)] <= |h.reigns[t].log| && AckFirm(h, s.log, s.id, t, s.term)
  }

  /** The log comes from leaders' logs, or it has a stale suffix. */
  ghost predicate LogInv(h: Hist, s: NodeState) {
    Rooted(h, s.log) || StaleNode(h, s)
  }

  /** The node invariant without what depends on the vote and the role. */
  ghost predicate CoreInv(h: Hist, s: NodeState) {
    && s.id in h.voters && s.voters == h.voters
    && Bounds(s)
    && LogInv(h, s)
    && Committed(h, s.log[..s.commitIndex], s.term)
    && PastTerms(h, s)
    && AcksHeld(h, s)
  }

  ghost predicate NodeInv(h: Hist, s: NodeState) {
    && CoreInv(h, s)
    && VoteKept(h, s)
    && (s.role == Candidate ==> CandidateInv(h, s))
    && (s.role == Leader ==> LeaderInv(h, s))
  }

  // ---- Messages, proposals, applied entries ----

  ghost predicate AppendInv(h: Hist, r: AppendRequest) {
    && r.term in h.reigns
    && r.leader == h.reigns[r.term].leader
    && var log := h.reigns[r.term].log;
    && r.prevIndex + |r.entries| <= |log|
    && r.entries == log[r.prevIndex..r.prevIndex + |r.entries|]
    && r.prevTerm == TermOf(log, r.prevIndex)
    && r.commit <= |log|
    && Committed(h, log[..r.commit], r.term)
  }

  ghost predicate Stood(h: Hist, r: VoteRequest) {
    && (r.cand, r.term) in h.runs
    && r.lastIndex == |h.runs[(r.cand, r.term)]|
    && r.lastTerm == LastTerm(h.runs[(r.cand, r.term)])
  }

  ghost predicate SnapInv(h: Hist, r: SnapRequest) {
    && r.term in h.reigns
    && r.leader == h.reigns[r.term].leader
    && |r.prefix| == r.lastIndex && r.prefix <= h.reigns[r.term].log
    && r.lastTerm == LastTerm(r.prefix)
    && Committed(h, r.prefix, r.term)
  }

  ghost predicate MsgInv(h: Hist, m: Msg) {
    match m
    case VoteReq(r) => Stood(h, r)
    case VoteResp(j, c, t, v) =>
      j in h.voters && j != c && (v.granted ==> (j, t) in h.ballots && h.ballots[(j, t)].cand == c)
    case AppReq(dest, r) => dest != r.leader && AppendInv(h, r)
    case AppResp(j, l, t, p, n, a) => j in h.voters && j != l && (a.success ==> Vouched(h, j, t, p + n))
    case SnapReq(dest, r) => dest != r.leader && SnapInv(h, r)
    case SnapResp(j, l, t, n, rt) => j in h.voters && j != l && (rt <= t ==> Vouched(h, j, t, n))
    case ReadReq(_, _, _) => true
    case ReadResp(_, _, _, _) => true
  }

  ghost predicate ProposalInv(h: Hist, p: Proposal) {
    && p.term in h.reigns
    && 0 < p.index <= |h.reigns[p.term].log|
    && h.reigns[p.term].log[p.index - 1] == Entry(p.term, p.index, p.data)
  }

  ghost predicate AppliedBy(h: Hist, a: Applied, t: Term, k: nat) {
    && (t, k) in h.commits && t in h.reigns
    && 0 < a.index <= k <= |h.reigns[t].log|
    && h.reigns[t].log[a.index - 1] == a.entry
  }

  ghost predicate AppliedInv(h: Hist, a: Applied) {
    exists t, k :: AppliedBy(h, a, t, k)
  }

  // ---- Reads ----

  /** j did not help elect any later leader that existed when the call began. */
  ghost predicate Loyal(h: Hist, r: ReadCall, j: NodeId) {
    forall u :: u in r.elected && u > r.term ==> u in h.reigns && j !in h.reigns[u].winners
  }

  ghost predicate ReadInv(h: Hist, r: ReadCall) {
    && r.leader in h.voters && r.acked <= h.voters && r.leader !in r.acked
    && r.elected <= h.reigns.Keys
    && (forall j :: j in r.acked ==> Loyal(h, r, j))
    && Loyal(h, r, r.leader)
    && (forall t, k :: (t, k) in r.committed ==> t in r.elected)
    && (r.settled ==> forall t, k :: (t, k) in r.committed && t <= r.term ==> k <= r.index)
    && (r.done ==> |r.acked| + 1 >= Majority(|h.voters|))
  }

  ghost predicate ReadMsgInv(h: Hist, calls: map<nat, ReadCall>, m: Msg) {
    match m
    case ReadReq(call, l, t) => call in calls && calls[call].leader == l && calls[call].term == t
    case ReadResp(j, call, _, ack) =>
      call in calls && j in h.voters && j != calls[call].leader && (ack ==> Loyal(h, calls[call], j))
    case _ => true
  }

  ghost predicate NodesInv(h: Hist, nodes: map<NodeId, NodeState>) {
    forall i :: i in nodes ==> nodes[i].id == i && NodeInv(h, nodes[i])
  }

  ghost predicate MsgsInv(h: Hist, net: set<Msg>) {
    forall m :: m in net ==> MsgInv(h, m)
  }

  ghost predicate RecordsInv(h: Hist, proposed: set<Proposal>, applied: set<Applied>) {
    && (forall p :: p in proposed ==> ProposalInv(h, p))
    && (forall a :: a in applied ==> AppliedInv(h, a))
  }

  ghost predicate ReadsInv(h: Hist, calls: map<nat, ReadCall>, net: set<Msg>) {
    && (forall q :: q in calls ==> ReadInv(h, calls[q]))
    && (forall m :: m in net ==> ReadMsgInv(h, calls, m))
  }

  ghost predicate Inv(c: Cluster) {
    && HistInv(c.h)
    && c.nodes.Keys == c.h.voters
    && NodesInv(c.h, c.nodes)
    && MsgsInv(c.h, c.net)
    && RecordsInv(c.h, c.proposed, c.applied)
    && ReadsInv(c.h, c.calls, c.net)
  }

  // ---- Growth of the history ----

  ghost predicate ReignGrows(r: Reign, r': Reign, t: Term) {
    && r'.leader == r.leader && r'.winners == r.winners
    && r.log <= r'.log
    && forall k :: |r.log| <= k < |r'.log| ==> r'.log[k].term == t
  }

  ghost predicate Grows(h: Hist, h': Hist) {
    && h'.voters == h.voters
    && (forall x :: x in h.runs ==> x in h'.runs && h'.runs[x] == h.runs[x])
    && (forall x :: x in h.ballots ==> x in h'.ballots && h'.ballots[x] == h.ballots[x])
    && (forall t :: t in h.reigns ==> t in h'.reigns && ReignGrows(h.reigns[t], h'.reigns[t], t))
    && (forall x :: x in h.acks ==> x in h'.acks && h'.acks[x] >= h.acks[x])
    && h.commits <= h'.commits
  }

  lemma RootedGrows(h: Hist, h': Hist, log: Log)
    requires Grows(h, h') && Rooted(h, log)
    ensures Rooted(h', log)
  {
    forall k | 0 <= k < |log| ensures RootedAt(h', log, k) {
      assert RootedAt(h, log, k);
      var t := log[k].term;
      assert ReignGrows(h.reigns[t], h'.reigns[t], t);
      assert h'.reigns[t].log[..k + 1] == h.reigns[t].log[..k + 1];
    }
  }

  /** A reign that lost a prefix of an earlier one never gets it back. */
  lemma DivergesGrows(h: Hist, h': Hist, t: Term, k: nat, u: Term)
    requires HistInv(h) && Grows(h, h') && Diverges(h, t, k, u) && t < u
    ensures Diverges(h', t, k, u)
  {
    var a, b, b' := h.reigns[t].log[..k], h.reigns[u].log, h'.reigns[u].log;
    assert ReignGrows(h.reigns[t], h'.reigns[t], t) && ReignGrows(h.reigns[u], h'.reigns[u], u);
    assert h'.reigns[t].log[..k] == a;
    assert ReignInv(h, t);
    assert forall x :: 0 <= x < k ==> a[x] == h.reigns[t].log[x] && a[x].term <= t;
    assert |b| < |b'| ==> b'[|b|].term == u;
  }

  lemma HeldGrows(h: Hist, h': Hist, log: Log, log': Log, t: Term, k: nat, hi: Term, hi': Term)
    requires HistInv(h) && Grows(h, h') && t in h.reigns && k <= |h.reigns[t].log|
    requires log <= log' && hi <= hi' && Held(h, log, t, k, hi)
    ensures t in h'.reigns && k <= |h'.reigns[t].log| && Held(h', log', t, k, hi')
  {
    assert ReignGrows(h.reigns[t], h'.reigns[t], t);
    assert h'.reigns[t].log[..k] == h.reigns[t].log[..k];
    if !(h.reigns[t].log[..k] <= log) {
      var u :| t < u <= hi && Diverges(h, t, k, u);
      DivergesGrows(h, h', t, k, u);
    }
  }

  lemma AckGrows(h: Hist, h': Hist, log: Log, log': Log, j: NodeId, t: Term, hi: Term, hi': Term)
    requires HistInv(h) && Grows(h, h') && (j, t) in h.acks && h'.acks[(j, t)] == h.acks[(j, t)]
    requires log <= log' && hi <= hi' && AckInv(h, log, j, t, hi)
    ensures AckInv(h', log', j, t, hi')
  {
    assert ReignGrows(h.reigns[t], h'.reigns[t], t);
    forall k | 0 < k <= h'.acks[(j, t)] ensures Held(h', log', t, k, hi') {
      HeldGrows(h, h', log, log', t, k, hi, hi');
    }
  }

  lemma CommittedGrows(h: Hist, h': Hist, pre: Log, pre': Log, hi: Term, hi': Term)
    requires Grows(h, h') && Committed(h, pre, hi) && pre' <= pre && hi <= hi'
    ensures Committed(h', pre', hi')
  {
    if pre' != [] {
      var t, k :| CommittedBy(h, pre, hi, t, k);
      assert ReignGrows(h.reigns[t], h'.reigns[t], t);
      assert pre' == h'.reigns[t].log[..|pre'|];
      assert CommittedBy(h', pre', hi', t, k);
    }
  }

  lemma CoveredGrows(h: Hist, h': Hist, t: Term, n: nat)
    requires Grows(h, h') && Covered(h, t, n)
    ensures Covered(h', t, n)
  {
    var u, k :| (u, k) in h.commits && u <= t && n <= k;
    assert (u, k) in h'.commits;
  }

  lemma StaleLogGrows(h: Hist, h': Hist, log: Log, c: nat, hi: Term, hi': Term)
    requires Grows(h, h') && StaleLog(h, log, c, hi) && hi <= hi'
    ensures StaleLog(h', log, c, hi')
  {
    RootedGrows(h, h', log[..c]);
    CommittedGrows(h, h', log[..c], log[..c], hi, hi');
    forall x | c <= x < |log| ensures StaleAt(h', log, c, x) {
      assert StaleAt(h, log, c, x);
      var t := log[x].term;
      assert ReignGrows(h.reigns[t], h'.reigns[t], t);
      assert h'.reigns[t].log[..c] == h.reigns[t].log[..c];
    }
  }

  lemma SaneGrows(h: Hist, h': Hist, log: Log, hi: Term)
    requires Grows(h, h') && Sane(h, log, hi)
    ensures Sane(h', log, hi)
  {
    if Rooted(h, log) {
      RootedGrows(h, h', log);
    } else {
      var c: nat :| StaleLog(h, log, c, hi);
      StaleLogGrows(h, h', log, c, hi, hi);
    }
  }

  lemma FirmGrows(h: Hist, h': Hist, log: Log, t: Term, k: nat, hi: Term, hi': Term)
    requires HistInv(h) && Grows(h, h') && t in h.reigns && 0 < k <= |h.reigns[t].log|
    requires hi <= hi' && FirmAt(h, log, t, k, hi)
    ensures t in h'.reigns && k <= |h'.reigns[t].log| && FirmAt(h', log, t, k, hi')
  {
    assert ReignGrows(h.reigns[t], h'.reigns[t], t);
    assert h'.reigns[t].log[k - 1] == h.reigns[t].log[k - 1];
    if h.reigns[t].log[k - 1].term == t && LastTerm(log) < t {
      var u :| t < u <= hi && Diverges(h, t, k, u);
      DivergesGrows(h, h', t, k, u);
    }
  }

  lemma AckFirmGrows(h: Hist, h': Hist, log: Log, j: NodeId, t: Term, hi: Term, hi': Term)
    requires HistInv(h) && Grows(h, h') && (j, t) in h.acks && h'.acks[(j, t)] == h.acks[(j, t)]
    requires t in h.reigns && h.acks[(j, t)] <= |h.reigns[t].log| && hi <= hi' && AckFirm(h, log, j, t, hi)
    ensures t in h'.reigns && h'.acks[(j, t)] <= |h'.reigns[t].log| && AckFirm(h', log, j, t, hi')
  {
    assert ReignGrows(h.reigns[t], h'.reigns[t], t);
    forall k | 0 < k <= h'.acks[(j, t)] ensures FirmAt(h', log, t, k, hi') { FirmGrows(h, h', log, t, k, hi, hi'); }
  }

  /** A stale node that keeps its log, and about which nothing is acknowledged, stays one. */
  lemma StaleNodeGrows(h: Hist, h': Hist, s: NodeState, s': NodeState)
    requires HistInv(h) && Grows(h, h') && StaleNode(h, s)
    requires forall t :: (s.id, t) in h'.acks ==> (s.id, t) in h.acks && h'.acks[(s.id, t)] == h.acks[(s.id, t)]
    requires s'.id == s.id && s'.log == s.log && s'.snapIndex == s.snapIndex && s'.commitIndex == s.commitIndex
    requires s.term <= s'.term && s'.role != Leader
    ensures StaleNode(h', s')
  {
    hide HistInv, Rooted, Committed;
    StaleLogGrows(h, h', s.log, s.snapIndex, s.term, s'.term);
    forall t | (s.id, t) in h'.acks
      ensures t in h'.reigns && h'.acks[(s.id, t)] <= |h'.reigns[t].log| && AckFirm(h', s.log, s.id, t, s'.term)
    {
      AckFirmGrows(h, h', s.log, s.id, t, s.term, s'.term);
    }
  }

  lemma LogInvGrows(h: Hist, h': Hist, s: NodeState, s': NodeState)
    requires HistInv(h) && Grows(h, h') && LogInv(h, s)
    requires forall t :: (s.id, t) in h'.acks ==> (s.id, t) in h.acks && h'.acks[(s.id, t)] == h.acks[(s.id, t)]
    requires s'.id == s.id && s'.log == s.log && s'.snapIndex == s.snapIndex && s'.commitIndex == s.commitIndex
    requires s.term <= s'.term && (s'.role == Leader ==> Rooted(h, s.log))
    ensures LogInv(h', s')
  {
    hide HistInv, Rooted;
    if Rooted(h, s.log) { RootedGrows(h, h', s.log); } else { StaleNodeGrows(h, h', s, s'); }
  }

  /** Growing the history and the durable part of the log keeps the core of the invariant. */
  lemma CoreGrows(h: Hist, h': Hist, s: NodeState, s': NodeState)
    requires HistInv(h) && Grows(h, h') && CoreInv(h, s) && h'.acks == h.acks
    requires s'.id == s.id && s'.voters == s.voters && s.term <= s'.term && Bounds(s') && PastTerms(h', s')
    requires s'.commitIndex == s.commitIndex && s.log[..s.synced] <= s'.log[..s'.synced] && LogInv(h', s')
    ensures CoreInv(h', s')
  {
    hide HistInv, LogInv;
    assert s'.log[..s'.commitIndex] == s'.log[..s'.synced][..s'.commitIndex]
        == s.log[..s.synced][..s.commitIndex] == s.log[..s.commitIndex];
    CommittedGrows(h, h', s.log[..s.commitIndex], s'.log[..s'.commitIndex], s.term, s'.term);
    forall u | (s.id, u) in h'.acks ensures AckInv(h', s'.log[..s'.synced], s.id, u, s'.term) {
      AckGrows(h, h', s.log[..s.synced], s'.log[..s'.synced], s.id, u, s.term, s'.term);
    }
  }

  /** What the step of node i wrote down concerns nobody else. */
  ghost predicate OthersKept(h: Hist, h': Hist, i: NodeId) {
    && (forall j, t :: (j, t) in h'.runs && j != i ==> (j, t) in h.runs)
    && (forall j, t :: (j, t) in h'.ballots && j != i ==> (j, t) in h.ballots)
    && (forall j, t :: (j, t) in h'.acks && j != i ==> (j, t) in h.acks && h'.acks[(j, t)] == h.acks[(j, t)])
    && (forall t :: t in h'.reigns && h'.reigns[t].leader != i ==> t in h.reigns && h'.reigns[t] == h.reigns[t])
    && (forall t, k :: (t, k) in h'.commits && (t, k) !in h.commits ==>
          t in h'.reigns && h'.reigns[t].leader == i)
  }

  lemma OtherCandidateKept(h: Hist, h': Hist, i: NodeId, s: NodeState)
    requires Grows(h, h') && OthersKept(h, h', i) && CandidateInv(h, s) && s.id != i
    ensures CandidateInv(h', s)
  {
    assert VotesFor(h, s.id, s);
    forall j | j in s.counted ensures VotesFor(h', j, s) { assert VotesFor(h, j, s); }
  }

  lemma OtherLeaderKept(h: Hist, h': Hist, i: NodeId, s: NodeState)
    requires Grows(h, h') && OthersKept(h, h', i) && LeaderInv(h, s) && s.id != i
    ensures LeaderInv(h', s)
  {
    assert ReignGrows(h.reigns[s.term], h'.reigns[s.term], s.term);
    assert h'.reigns[s.term] == h.reigns[s.term];
    assert VotesFor(h, s.id, s);
    forall p | p in h'.voters && p != s.id ensures Matched(h', s, p) { MatchedGrows(h, h', s, s, p); }
  }

  lemma MatchedGrows(h: Hist, h': Hist, s: NodeState, s': NodeState, p: NodeId)
    requires Grows(h, h') && Matched(h, s, p) && s'.term == s.term && Get(s'.matchIndex, p) == Get(s.matchIndex, p)
    ensures Matched(h', s', p)
  {
    VouchedGrows(h, h', p, s.term, Get(s.matchIndex, p));
  }

  lemma VouchedGrows(h: Hist, h': Hist, j: NodeId, t: Term, n: nat)
    requires Grows(h, h') && Vouched(h, j, t, n)
    ensures Vouched(h', j, t, n)
  {
    if Covered(h, t, n) { CoveredGrows(h, h', t, n); }
  }

  lemma OtherAcksKept(h: Hist, h': Hist, i: NodeId, s: NodeState)
    requires HistInv(h) && Grows(h, h') && OthersKept(h, h', i) && s.synced <= |s.log| && AcksHeld(h, s) && s.id != i
    ensures AcksHeld(h', s)
  {
    var log := s.log[..s.synced];
    forall t | (s.id, t) in h'.acks ensures AckInv(h', log, s.id, t, s.term) {
      AckGrows(h, h', log, log, s.id, t, s.term, s.term);
    }
  }

  lemma OtherTermsKept(h: Hist, h': Hist, i: NodeId, s: NodeState)
    requires Grows(h, h') && OthersKept(h, h', i) && s.id != i
    ensures PastTerms(h, s) ==> PastTerms(h', s)
    ensures VoteKept(h, s) ==> VoteKept(h', s)
  {
  }

  /** The other nodes keep their invariant. */
  lemma OtherNodeKept(h: Hist, h': Hist, i: NodeId, s: NodeState)
    requires HistInv(h) && Grows(h, h') && OthersKept(h, h', i) && NodeInv(h, s) && s.id != i
    ensures NodeInv(h', s)
  {
    hide HistInv, Rooted, AckInv, AckFirm;
    if Rooted(h, s.log) { RootedGrows(h, h', s.log); } else { StaleNodeGrows(h, h', s, s); }
    CommittedGrows(h, h', s.log[..s.commitIndex], s.log[..s.commitIndex], s.term, s.term);
    OtherTermsKept(h, h', i, s);
    OtherAcksKept(h, h', i, s);
    if s.role == Candidate { OtherCandidateKept(h, h', i, s); }
    if s.role == Leader { OtherLeaderKept(h, h', i, s); }
  }

  lemma MsgKept(h: Hist, h': Hist, m: Msg)
    requires Grows(h, h') && MsgInv(h, m)
    ensures MsgInv(h', m)
  {
    if m.AppReq? {
      var r := m.areq;
      var log, log' := h.reigns[r.term].log, h'.reigns[r.term].log;
      assert ReignGrows(h.reigns[r.term], h'.reigns[r.term], r.term);
      assert r.entries == log'[r.prevIndex..r.prevIndex + |r.entries|];
      assert log[..r.commit] == log'[..r.commit];
      CommittedGrows(h, h', log[..r.commit], log'[..r.commit], r.term, r.term);
    } else if m.SnapReq? {
      var r := m.sreq;
      assert ReignGrows(h.reigns[r.term], h'.reigns[r.term], r.term);
      CommittedGrows(h, h', r.prefix, r.prefix, r.term, r.term);
    } else if m.AppResp? && m.reply.success {
      VouchedGrows(h, h', m.from, m.reqTerm, m.prevIndex + m.count);
    } else if m.SnapResp? && m.sterm <= m.reqTerm {
      VouchedGrows(h, h', m.from, m.reqTerm, m.lastIndex);
    }
  }

  lemma AppliedKept(h: Hist, h': Hist, a: Applied)
    requires Grows(h, h') && AppliedInv(h, a)
    ensures AppliedInv(h', a)
  {
    var t, k :| AppliedBy(h, a, t, k);
    assert ReignGrows(h.reigns[t], h'.reigns[t], t);
    assert AppliedBy(h', a, t, k);
  }

  lemma LoyalKept(h: Hist, h': Hist, r: ReadCall, j: NodeId)
    requires Grows(h, h') && Loyal(h, r, j)
    ensures Loyal(h', r, j)
  {
    forall u | u in r.elected && u > r.term ensures u in h'.reigns && j !in h'.reigns[u].winners {
      assert u in h.reigns && ReignGrows(h.reigns[u], h'.reigns[u], u);
    }
  }

  lemma ReadKept(h: Hist, h': Hist, r: ReadCall)
    requires Grows(h, h') && ReadInv(h, r)
    ensures ReadInv(h', r)
  {
    LoyalKept(h, h', r, r.leader);
    forall j | j in r.acked ensures Loyal(h', r, j) { LoyalKept(h, h', r, j); }
  }

  lemma ReadMsgKept(h: Hist, h': Hist, calls: map<nat, ReadCall>, m: Msg)
    requires Grows(h, h') && ReadMsgInv(h, calls, m)
    ensures ReadMsgInv(h', calls, m)
  {
    if m.ReadResp? && m.ack { LoyalKept(h, h', calls[m.call], m.from); }
  }

  lemma ReadsKept(h: Hist, h': Hist, calls: map<nat, ReadCall>, net: set<Msg>, net': set<Msg>)
    requires Grows(h, h') && ReadsInv(h, calls, net)
    requires forall m :: m in net' && m !in net ==> ReadMsgInv(h', calls, m)
    ensures ReadsInv(h', calls, net')
  {
    forall q | q in calls ensures ReadInv(h', calls[q]) { ReadKept(h, h', calls[q]); }
    forall m | m in net' ensures ReadMsgInv(h', calls, m) {
      if m in net { ReadMsgKept(h, h', calls, m); }
    }
  }

  lemma MsgsKept(h: Hist, h': Hist, net: set<Msg>, net': set<Msg>)
    requires Grows(h, h') && MsgsInv(h, net)
    requires forall m :: m in net' && m !in net ==> MsgInv(h', m)
    ensures MsgsInv(h', net')
  {
    forall m | m in net' ensures MsgInv(h', m) {
      if m in net { MsgKept(h, h', m); }
    }
  }

  lemma RecordsKept(h: Hist, h': Hist, ps: set<Proposal>, as_: set<Applied>)
    requires Grows(h, h') && RecordsInv(h, ps, as_)
    ensures RecordsInv(h', ps, as_)
  {
    forall p | p in ps ensures ProposalInv(h', p) {
      assert ReignGrows(h.reigns[p.term], h'.reigns[p.term], p.term);
    }
    forall a | a in as_ ensures AppliedInv(h', a) { AppliedKept(h, h', a); }
  }

  // ---- Growth of the history's own invariant ----

  lemma ReignKept(h: Hist, h': Hist, t: Term)
    requires HistInv(h) && Grows(h, h') && t in h.reigns && h'.reigns[t] == h.reigns[t]
    ensures ReignInv(h', t)
  {
    assert ReignInv(h, t);
    RootedGrows(h, h', h.reigns[t].log);
    forall j | j in h.reigns[t].winners ensures Elected(h', t, j) { assert Elected(h, t, j); }
  }

  lemma BallotKept(h: Hist, h': Hist, j: NodeId, t: Term)
    requires HistInv(h) && Grows(h, h') && (j, t) in h.ballots
    requires forall t' :: t' < t && (j, t') in h'.acks ==> (j, t') in h.acks && h'.acks[(j, t')] == h.acks[(j, t')]
    ensures BallotInv(h', j, t)
  {
    assert BallotInv(h, j, t);
    var b := h.ballots[(j, t)];
    if !b.late {
      forall t' | t' < t && (j, t') in h'.acks
        ensures AckInv(h', b.vlog, j, t', t - 1) && AckFirm(h', b.vlog, j, t', t - 1)
      {
        AckGrows(h, h', b.vlog, b.vlog, j, t', t - 1, t - 1);
        AckFirmGrows(h, h', b.vlog, j, t', t - 1, t - 1);
      }
    }
  }

  lemma CommitKept(h: Hist, h': Hist, t: Term, k: nat)
    requires HistInv(h) && Grows(h, h') && (t, k) in h.commits
    ensures CommitInv(h', t, k)
  {
    assert CommitInv(h, t, k) && ReignGrows(h.reigns[t], h'.reigns[t], t);
    assert AckHolders(h, t, k) <= AckHolders(h', t, k);
    SubsetCard(AckHolders(h, t, k), AckHolders(h', t, k));
  }

  /** An acknowledgement is only ever given in a term no older than the giver's votes. */
  ghost predicate AcksFresh(h: Hist, h': Hist) {
    forall j, t, t' :: (j, t) in h'.acks && (j, t') in h'.ballots && t < t' ==>
      (j, t) in h.acks && h'.acks[(j, t)] == h.acks[(j, t)]
  }

  ghost predicate NewItemsInv(h: Hist, h': Hist) {
    && (forall i, t :: (i, t) in h'.runs && (i, t) !in h.runs ==> RunInv(h', i, t))
    && (forall t :: t in h'.reigns && (t !in h.reigns || h'.reigns[t] != h.reigns[t]) ==> ReignInv(h', t))
    && (forall j, t :: (j, t) in h'.ballots && (j, t) !in h.ballots ==> BallotInv(h', j, t))
    && (forall t, k :: (t, k) in h'.commits && (t, k) !in h.commits ==> CommitInv(h', t, k))
  }

  lemma RunKept(h: Hist, h': Hist, i: NodeId, t: Term)
    requires HistInv(h) && Grows(h, h') && (i, t) in h.runs
    ensures (i, t) in h'.runs && RunInv(h', i, t)
  {
    assert RunInv(h, i, t);
    hide HistInv, Sane;
    SaneGrows(h, h', h.runs[(i, t)], t - 1);
  }

  lemma VotersKept(h: Hist, h': Hist)
    requires HistInv(h) && Grows(h, h')
    ensures 0 !in h'.voters
  {
  }

  lemma HistKept(h: Hist, h': Hist)
    requires HistInv(h) && Grows(h, h') && AcksFresh(h, h') && NewItemsInv(h, h')
    ensures HistInv(h')
  {
    hide Grows, RunInv, ReignInv, BallotInv, CommitInv;
    VotersKept(h, h');
    forall i, t | (i, t) in h'.runs ensures RunInv(h', i, t) {
      if (i, t) in h.runs { RunKept(h, h', i, t); }
    }
    forall t | t in h'.reigns ensures ReignInv(h', t) {
      if t in h.reigns && h'.reigns[t] == h.reigns[t] { ReignKept(h, h', t); }
    }
    forall j, t | (j, t) in h'.ballots ensures BallotInv(h', j, t) {
      if (j, t) in h.ballots { BallotKept(h, h', j, t); }
    }
    forall t, k | (t, k) in h'.commits ensures CommitInv(h', t, k) {
      if (t, k) in h.commits { CommitKept(h, h', t, k); }
    }
  }

  lemma OthersNodesKept(h: Hist, h': Hist, i: NodeId, nodes: map<NodeId, NodeState>, s: NodeState)
    requires HistInv(h) && Grows(h, h') && OthersKept(h, h', i) && NodesInv(h, nodes)
    requires s.id == i && NodeInv(h', s)
    ensures NodesInv(h', nodes[i := s])
  {
    hide HistInv, NodeInv, Grows, OthersKept;
    forall j | j in nodes && j != i ensures NodeInv(h', nodes[j]) {
      OtherNodeKept(h, h', i, nodes[j]);
    }
  }

  /** A step of node i that is right about itself and about what it wrote down keeps the invariant. */
  lemma StepKeepsInv(c: Cluster, c': Cluster, i: NodeId, s': NodeState)
    requires Inv(c) && i in c.nodes && c'.nodes == c.nodes[i := s']
    requires Grows(c.h, c'.h) && OthersKept(c.h, c'.h, i) && AcksFresh(c.h, c'.h) && NewItemsInv(c.h, c'.h)
    requires s'.id == i && NodeInv(c'.h, s')
    requires forall m :: m in c'.net && m !in c.net ==> MsgInv(c'.h, m)
    requires RecordsInv(c'.h, c'.proposed, c'.applied)
    requires ReadsInv(c'.h, c'.calls, c'.net)
    ensures Inv(c')
  {
    hide HistInv, NodesInv, NodeInv, MsgInv, ReignGrows, OthersKept, AcksFresh, NewItemsInv, RecordsInv, ReadsInv;
    HistKept(c.h, c'.h);
    OthersNodesKept(c.h, c'.h, i, c.nodes, s');
    MsgsKept(c.h, c'.h, c.net, c'.net);
  }
}
