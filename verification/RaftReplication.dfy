// Leader completeness, and the steps that move entries and commit indices.

module RaftReplication {
  import opened Basics
  import opened RaftNode
  import opened RaftCluster
  import opened RaftInvariant
  import opened RaftSteps

  // ---------------------------------------------------- leader completeness

  /** What a majority stored in one term is in the log of every winner of a later term. */
  lemma {:induction false} LeaderCompleteness(c: Cluster, d: Decision, t: nat)
    requires Shape(c) && ElectionInv(c) && LogInv(c) && HeldInv(c)
    requires DecisionOk(c, d) && t in c.reigns && d.term < t
    ensures d.index <= c.reigns[t].base < |c.reigns[t].log|
    ensures c.reigns[t].log[..d.index] == c.reigns[d.term].log[..d.index]
    decreases t
  {
    var r, early := c.reigns[t], c.reigns[d.term];
    assert ReignHolds(c, t, r) && ReignLog(c.reigns, t, r) && ReignLog(c.reigns, d.term, early);
    var v := QuorumsMeet(d.holders, r.voters, |c.nodes|);
    assert Confirmed(c.held, d.term, v, d.index);
    assert ReignCovers(c, t, v);
    var base := r.log[..r.base];
    var u := LastTerm(base);
    assert UpToDate(u, r.base, d.term, c.held[Holding(d.term, v)]);
    var last := r.base - 1;
    assert base[last] == r.log[last] && r.log[last].term == u;
    assert Genuine(c.reigns, r.log, last);
    var mid := c.reigns[u];
    assert r.log[..r.base] == mid.log[..r.base];
    if u > d.term {
      LeaderCompleteness(c, d, u);
      BaseIsLonger(mid.log, early.log, d.index, last, d.term);
    }
    assert r.log[..d.index] == r.log[..r.base][..d.index];
    assert mid.log[..d.index] == mid.log[..r.base][..d.index];
  }

  /** An entry later than every entry of an agreed prefix lies beyond that prefix. */
  lemma BaseIsLonger(mid: seq<Entry>, early: seq<Entry>, index: nat, last: nat, term: nat)
    requires index <= |mid| && index <= |early| && mid[..index] == early[..index]
    requires last < |mid| && mid[last].term > term
    requires forall i | 0 <= i < |early| :: early[i].term <= term
    ensures index <= last
  {
    forall i | 0 <= i < index ensures mid[i].term <= term {
      assert mid[..index][i] == early[..index][i];
    }
  }

  // ---------------------------------------------------- facts about requests

  /** Two genuine logs with the same term at the same place are the same up to there. */
  lemma SamePrefix(reigns: map<nat, Reign>, a: seq<Entry>, b: seq<Entry>, i: nat)
    requires AllGenuine(reigns, a) && AllGenuine(reigns, b)
    requires i < |a| && i < |b| && a[i].term == b[i].term
    ensures a[..i + 1] == b[..i + 1]
  {
    assert Genuine(reigns, a, i) && Genuine(reigns, b, i);
  }

  lemma SameTermIsSameEntry(reigns: map<nat, Reign>, a: seq<Entry>, b: seq<Entry>)
    requires AllGenuine(reigns, a) && AllGenuine(reigns, b)
    ensures SameTermSameEntry(a, b)
  {
    forall i | 0 <= i < |a| && i < |b| && a[i].term == b[i].term ensures a[i] == b[i] {
      SamePrefix(reigns, a, b, i);
      assert a[..i + 1][i] == b[..i + 1][i];
    }
  }

  /** A log whose last entry is of term t is a piece of the log of that term's leader. */
  lemma LastTermPrefix(reigns: map<nat, Reign>, log: seq<Entry>)
    requires AllGenuine(reigns, log) && log != []
    ensures LastTerm(log) in reigns && log <= reigns[LastTerm(log)].log
  {
    assert Genuine(reigns, log, |log| - 1);
    assert log == log[..|log|];
  }

  /** The server may take the request: it is of its own term and comes from that term's leader. */
  ghost predicate Acceptable(c: Cluster, m: Message) {
    && Shape(c)
    && m in c.net && m.AppendRequest?
    && m.term == c.nodes[m.dst].term
  }

  // -------------------------------------------------- noting who the leader is

  function Met(n: Node, leader: NodeId): Node {
    if n.role == Candidate then BecomeFollower(n, n.term) else n.(leader := Some(leader))
  }

  /** Only here may a vote be forgotten in the middle of a term, and only by a server that is a candidate,
      hence not by anyone who voted for the winner. */
  lemma MetElection(c: Cluster, i: NodeId, leader: NodeId)
    requires Shape(c) && ElectionInv(c) && i < |c.nodes| && c.nodes[i].term in c.reigns
    ensures Shape(Put(c, i, Met(c.nodes[i], leader))) && ElectionInv(Put(c, i, Met(c.nodes[i], leader)))
  {
    ShapeStays(c, Put(c, i, Met(c.nodes[i], leader)));
    MetWon(c, i, leader);
  }

  lemma MetWon(c: Cluster, i: NodeId, leader: NodeId)
    requires i < |c.nodes| && WonTerms(c) && c.nodes[i].term in c.reigns
    ensures WonTerms(Put(c, i, Met(c.nodes[i], leader)))
  {
    var c' := Put(c, i, Met(c.nodes[i], leader));
    forall u | u in c'.reigns ensures ReignHolds(c', u, c'.reigns[u]) {
      assert ReignHolds(c, u, c.reigns[u]);
    }
  }

  lemma MetKeeps(c: Cluster, i: NodeId, leader: NodeId)
    requires Inv(c) && i < |c.nodes| && c.nodes[i].term in c.reigns
    ensures Inv(Put(c, i, Met(c.nodes[i], leader)))
  {
    var c' := Put(c, i, Met(c.nodes[i], leader));
    MetElection(c, i, leader);
    QuietKeeps(c, c');
  }

  // ---------------------------------------------------------- storing entries

  /** Follower prefix: after a successful AppendEntries of term T, fresh or old, the whole log of the
      follower is a piece of the log of T's leader, and it ends with an entry of T. */
  lemma StoredIsPrefix(c: Cluster, n: Node, m: Message)
    requires LogInv(c) && NodeLog(c.reigns, n) && m.AppendRequest? && RequestLog(c.reigns, m)
    requires m.term == n.term && PrevMatches(n.log, m.prevIndex, m.prevTerm)
    ensures var log := MergeEntries(n.log, m.entries);
            && log <= c.reigns[n.term].log
            && c.reigns[n.term].base < |log| && LastTerm(log) == n.term
    ensures var full := c.reigns[n.term].log; var log := MergeEntries(n.log, m.entries);
            forall k | 0 <= k <= |n.log| && k <= |full| && n.log[..k] == full[..k] ::
              k <= |log| && log[..k] == full[..k]
  {
    StoredEndsInTerm(c, n, m);
    StoredAgrees(c, n, m);
  }

  lemma PieceEndsInTerm(c: Cluster, t: nat, k: nat)
    requires LogInv(c) && t in c.reigns && c.reigns[t].base < k <= |c.reigns[t].log|
    ensures LastTerm(c.reigns[t].log[..k]) == t
  {
    assert ReignLog(c.reigns, t, c.reigns[t]);
  }

  lemma StoredEndsInTerm(c: Cluster, n: Node, m: Message)
    requires LogInv(c) && NodeLog(c.reigns, n) && m.AppendRequest? && RequestLog(c.reigns, m)
    requires m.term == n.term && PrevMatches(n.log, m.prevIndex, m.prevTerm)
    ensures var log := MergeEntries(n.log, m.entries);
            && log <= c.reigns[n.term].log
            && c.reigns[n.term].base < |log| && LastTerm(log) == n.term
  {
    var full, k := c.reigns[n.term].log, m.prevIndex + |m.entries|;
    RequestAgrees(c, n, m);
    MergeFromFull(n.log, full, m.prevIndex, k);
    EitherEndsInTerm(c, n, MergeEntries(n.log, m.entries), k);
  }

  lemma EitherEndsInTerm(c: Cluster, n: Node, log: seq<Entry>, k: nat)
    requires LogInv(c) && NodeLog(c.reigns, n) && n.term in c.reigns
    requires c.reigns[n.term].base < k <= |c.reigns[n.term].log|
    requires log == c.reigns[n.term].log[..k]
          || (log == n.log && k <= |n.log| && n.log[..k] == c.reigns[n.term].log[..k])
    ensures log <= c.reigns[n.term].log && c.reigns[n.term].base < |log| && LastTerm(log) == n.term
  {
    if log == n.log && k <= |n.log| && n.log[..k] == c.reigns[n.term].log[..k] {
      HeldAlready(c, n, k);
    } else {
      PieceEndsInTerm(c, n.term, k);
    }
  }

  /** A log that reaches into its server's term with entries of that term's leader is all the leader's. */
  lemma HeldAlready(c: Cluster, n: Node, k: nat)
    requires LogInv(c) && NodeLog(c.reigns, n) && n.term in c.reigns
    requires c.reigns[n.term].base < k <= |c.reigns[n.term].log|
    requires k <= |n.log| && n.log[..k] == c.reigns[n.term].log[..k]
    ensures n.log <= c.reigns[n.term].log && LastTerm(n.log) == n.term
  {
    var r := c.reigns[n.term];
    assert ReignLog(c.reigns, n.term, r);
    assert n.log[k - 1] == n.log[..k][k - 1] == r.log[..k][k - 1] == r.log[k - 1];
    TermsBounded(c, n, k - 1);
    LastTermPrefix(c.reigns, n.log);
  }

  lemma StoredAgrees(c: Cluster, n: Node, m: Message)
    requires LogInv(c) && NodeLog(c.reigns, n) && m.AppendRequest? && RequestLog(c.reigns, m)
    requires m.term == n.term && PrevMatches(n.log, m.prevIndex, m.prevTerm)
    ensures var full := c.reigns[n.term].log; var log := MergeEntries(n.log, m.entries);
            forall k | 0 <= k <= |n.log| && k <= |full| && n.log[..k] == full[..k] ::
              k <= |log| && log[..k] == full[..k]
  {
    var full, k := c.reigns[n.term].log, m.prevIndex + |m.entries|;
    var log := MergeEntries(n.log, m.entries);
    RequestAgrees(c, n, m);
    forall x | 0 <= x <= |n.log| && x <= |full| && n.log[..x] == full[..x]
      ensures x <= |log| && log[..x] == full[..x]
    {
      MergeKeepsAgreement(n.log, full, m.prevIndex, k, x);
    }
  }

  lemma RequestAgrees(c: Cluster, n: Node, m: Message)
    requires LogInv(c) && NodeLog(c.reigns, n) && m.AppendRequest? && RequestLog(c.reigns, m)
    requires m.term == n.term && PrevMatches(n.log, m.prevIndex, m.prevTerm)
    ensures var full := c.reigns[n.term].log;
            && Indexed(full) && SameTermSameEntry(n.log, full)
            && m.prevIndex <= |n.log| && m.prevIndex <= |full|
            && n.log[..m.prevIndex] == full[..m.prevIndex]
  {
    var r := c.reigns[n.term];
    assert ReignLog(c.reigns, n.term, r);
    SameTermIsSameEntry(c.reigns, n.log, r.log);
    if m.prevIndex > 0 {
      SamePrefix(c.reigns, n.log, r.log, m.prevIndex - 1);
    }
  }

  function Stored(c: Cluster, m: Message): Cluster
    requires m.AppendRequest? && m.dst < |c.nodes|
  {
    var n := c.nodes[m.dst];
    var log := MergeEntries(n.log, m.entries);
    var commit := if m.commit > n.commit then Min(m.commit, LastIndex(log)) else n.commit;
    Put(c, m.dst, n.(log := log, commit := commit)).(held := c.held[Holding(n.term, m.dst) := |log|])
  }

  /** What the request needs from the state, gathered once. */
  ghost predicate Storing(c: Cluster, m: Message) {
    && Inv(c) && Acceptable(c, m)
    && c.nodes[m.dst].role == Follower
    && PrevMatches(c.nodes[m.dst].log, m.prevIndex, m.prevTerm)
    && RequestLog(c.reigns, m)
  }

  /** The server's present holding in this term, if any, is its whole log, a piece of the leader's. */
  lemma StoredGrows(c: Cluster, m: Message)
    requires Storing(c, m)
    ensures Grows(c, Stored(c, m))
  {
    var i := m.dst;
    var n := c.nodes[i];
    var h := Holding(n.term, i);
    assert NodeLog(c.reigns, n) && LogIsLastHolding(c, i);
    StoredIsPrefix(c, n, m);
    if h in c.held {
      LastTermIsTerm(c, i);
      LastTermPrefix(c.reigns, n.log);
      assert n.log[..|n.log|] == c.reigns[n.term].log[..|n.log|];
    }
  }

  lemma LastTermIsTerm(c: Cluster, i: NodeId)
    requires LogInv(c) && i < |c.nodes| && NodeLog(c.reigns, c.nodes[i]) && LogIsLastHolding(c, i)
    requires Holding(c.nodes[i].term, i) in c.held
    ensures LastTerm(c.nodes[i].log) == c.nodes[i].term
    ensures c.nodes[i].log != [] && c.held[Holding(c.nodes[i].term, i)] == |c.nodes[i].log|
  {
  }

  lemma StoredLogs(c: Cluster, m: Message)
    requires Storing(c, m)
    ensures LogInv(Stored(c, m))
  {
    var c' := Stored(c, m);
    var n, n' := c.nodes[m.dst], c'.nodes[m.dst];
    assert NodeLog(c.reigns, n);
    StoredIsPrefix(c, n, m);
    var full := c.reigns[n.term].log;
    assert ReignLog(c.reigns, n.term, c.reigns[n.term]);
    forall k | 0 <= k < |n'.log| ensures Genuine(c.reigns, n'.log, k) {
      assert Genuine(c.reigns, full, k);
      assert n'.log[..k + 1] == full[..k + 1];
    }
    forall k | 0 <= k < |n'.log| ensures n'.log[k].index == k + 1 {
      assert n'.log[k] == full[k];
    }
    forall k | 0 <= k < |c'.nodes| ensures NodeLog(c'.reigns, c'.nodes[k]) {
      if k != m.dst { assert NodeLog(c.reigns, c.nodes[k]); }
    }
    forall u | u in c'.reigns ensures ReignLog(c'.reigns, u, c'.reigns[u]) {
      assert ReignLog(c.reigns, u, c.reigns[u]);
    }
  }

  lemma StoredHoldings(c: Cluster, m: Message)
    requires Storing(c, m)
    ensures var c' := Stored(c, m);
            && (forall h | h in c'.held :: HoldingOk(c', h, c'.held[h]))
            && (forall k | 0 <= k < |c'.nodes| :: LogIsLastHolding(c', k))
  {
    var c' := Stored(c, m);
    var n := c.nodes[m.dst];
    HoldingTerms(c);
    assert NodeLog(c.reigns, n);
    StoredIsPrefix(c, n, m);
    forall h | h in c'.held ensures HoldingOk(c', h, c'.held[h]) {
      if h != Holding(n.term, m.dst) { assert HoldingOk(c, h, c.held[h]); }
    }
    forall k | 0 <= k < |c'.nodes| ensures LogIsLastHolding(c', k) {
      assert LogIsLastHolding(c, k);
    }
  }

  lemma StoredHeld(c: Cluster, m: Message)
    requires Storing(c, m) && Shape(Stored(c, m))
    ensures HeldInv(Stored(c, m))
  {
    var c' := Stored(c, m);
    StoredGrows(c, m);
    StoredHoldings(c, m);
    forall t | t in c'.reigns ensures c.reigns[t].base <= |c'.reigns[t].log| {
      assert ReignLog(c.reigns, t, c.reigns[t]);
    }
    RaiseCovers(c, c', m.dst, |c'.nodes[m.dst].log|);
    PeersStay(c, c');
  }

  /** What was decided by `term` is in the log of the leader of `term`, so storing does not cut it. */
  lemma DecidedInLeader(c: Cluster, term: nat, log: seq<Entry>, commit: nat)
    requires Shape(c) && ElectionInv(c) && LogInv(c) && HeldInv(c) && CommitInv(c)
    requires term in c.reigns && commit > 0
    requires Decided(c.reigns, c.decisions, term, log, commit)
    ensures var full := c.reigns[term].log;
            commit <= |log| && commit <= |full| && log[..commit] == full[..commit]
  {
    var d :| d in c.decisions && d.term <= term && d.term in c.reigns && commit <= d.index
             && commit <= |log| && commit <= |c.reigns[d.term].log|
             && log[..commit] == c.reigns[d.term].log[..commit];
    assert DecisionOk(c, d);
    if d.term < term {
      LeaderCompleteness(c, d, term);
      var full, early := c.reigns[term].log, c.reigns[d.term].log;
      assert full[..commit] == full[..d.index][..commit];
      assert early[..commit] == early[..d.index][..commit];
    }
  }

  /** A shorter commit index along the same leader's log is decided as well. */
  lemma DecidedShorter(reigns: map<nat, Reign>, ds: set<Decision>, term: nat, full: seq<Entry>, commit: nat,
                       log: seq<Entry>, shorter: nat)
    requires Decided(reigns, ds, term, full, commit)
    requires log <= full && shorter <= commit && shorter <= |log|
    ensures Decided(reigns, ds, term, log, shorter)
  {
    if shorter > 0 {
      var d :| d in ds && d.term <= term && d.term in reigns && commit <= d.index && commit <= |full|
               && commit <= |reigns[d.term].log| && full[..commit] == reigns[d.term].log[..commit];
      assert log[..shorter] == full[..commit][..shorter];
      assert reigns[d.term].log[..shorter] == reigns[d.term].log[..commit][..shorter];
    }
  }

  lemma StoredCommit(c: Cluster, m: Message)
    requires Storing(c, m)
    ensures CommitInv(Stored(c, m))
  {
    var c' := Stored(c, m);
    var n, n' := c.nodes[m.dst], c'.nodes[m.dst];
    StoredGrows(c, m);
    assert NodeLog(c.reigns, n) && CommitOk(c, n) && MessageOk(c, m);
    StoredIsPrefix(c, n, m);
    if n.commit > 0 {
      DecidedInLeader(c, n.term, n.log, n.commit);
    }
    if m.commit > n.commit {
      DecidedShorter(c.reigns, c.decisions, n.term, c.reigns[n.term].log, m.commit, n'.log, n'.commit);
    } else {
      DecidedGrows(c.reigns, c.reigns, c.decisions, c.decisions, n.term, n.term, n.log, n'.log, n.commit);
    }
    forall d | d in c'.decisions ensures DecisionOk(c', d) {
      assert DecisionOk(c, d);
      DecisionStays(c, c', d);
    }
    forall a | a in c'.applications ensures ApplicationOk(c', a) {
      assert ApplicationOk(c, a);
      ApplicationStays(c, c', a);
    }
    forall k | 0 <= k < |c'.nodes| ensures CommitOk(c', c'.nodes[k]) {
      if k != m.dst { assert CommitOk(c, c.nodes[k]); }
    }
  }

  lemma StoredKeeps(c: Cluster, m: Message)
    requires Storing(c, m)
    ensures Inv(Stored(c, m))
  {
    var c' := Stored(c, m);
    ShapeStays(c, c');
    ElectionsStay(c, c');
    StoredGrows(c, m);
    StoredLogs(c, m);
    StoredHeld(c, m);
    StoredCommit(c, m);
    assert NetInv(c') by { NetStays(c, c'); }
  }

  lemma AcceptKeeps(c: Cluster, m: Message)
    requires Inv(c) && Acceptable(c, m)
    ensures var o := AcceptAppend(c.nodes[m.dst], m.src, m.prevIndex, m.prevTerm, m.entries, m.commit);
            && Inv(Store(c, m.dst, o))
            && (o.success ==> Confirmed(Store(c, m.dst, o).held, o.term, m.dst, o.lastIndex))
  {
    assert MessageOk(c, m);
    MetKeeps(c, m.dst, m.src);
    AcceptIsStored(c, m);
    var n1 := Met(c.nodes[m.dst], m.src);
    if PrevMatches(n1.log, m.prevIndex, m.prevTerm) {
      StoredKeeps(Put(c, m.dst, n1), m);
    }
  }

  /** Accepting a request is noting the leader and, where the logs meet, storing. */
  lemma AcceptIsStored(c: Cluster, m: Message)
    requires m.AppendRequest? && m.dst < |c.nodes|
    ensures var n1 := Met(c.nodes[m.dst], m.src); var c1 := Put(c, m.dst, n1);
            var o := AcceptAppend(c.nodes[m.dst], m.src, m.prevIndex, m.prevTerm, m.entries, m.commit);
            && o.success == PrevMatches(n1.log, m.prevIndex, m.prevTerm)
            && Store(c, m.dst, o) == if o.success then Stored(c1, m) else c1
  {
  }

  /** The handler begins with learning the term of the request. */
  lemma AppendAfterStepDown(c: Cluster, m: Message)
    requires Shape(c) && m in c.net && m.AppendRequest? && Shape(Put(c, m.dst, StepDown(c.nodes[m.dst], m.term)))
    ensures Perform(c, OnAppendRequest(m))
         == Perform(Put(c, m.dst, StepDown(c.nodes[m.dst], m.term)), OnAppendRequest(m))
  {
  }

  lemma AppendAnswerKeeps(c: Cluster, m: Message)
    requires Inv(c) && Enabled(c, OnAppendRequest(m)) && m.term <= c.nodes[m.dst].term
    ensures Inv(Perform(c, OnAppendRequest(m)))
  {
    var i := m.dst;
    var o := HandleAppendEntries(c.nodes[i], m.src, m.term, m.prevIndex, m.prevTerm, m.entries, m.commit);
    var c1 := Store(c, i, o);
    if m.term == c.nodes[i].term {
      AcceptKeeps(c, m);
    } else {
      assert c1 == c;
    }
    SendKeeps(c1, AppendReply(i, m.src, o.term, o.success, o.lastIndex));
  }

  lemma OnAppendRequestKeeps(c: Cluster, m: Message)
    requires Inv(c) && Enabled(c, OnAppendRequest(m))
    ensures Inv(Perform(c, OnAppendRequest(m)))
  {
    StepDownKeeps(c, m.dst, m.term);
    AppendAfterStepDown(c, m);
    AppendAnswerKeeps(Put(c, m.dst, StepDown(c.nodes[m.dst], m.term)), m);
  }

  // ------------------------------------------------------ hearing from a peer

  function Recorded(c: Cluster, m: Message): Cluster
    requires Shape(c) && m in c.net && m.AppendReply?
  {
    assert ShapeOf(c, c.nodes[m.dst], m.dst);
    Put(c, m.dst, RecordReply(c.nodes[m.dst], SlotOf(m.dst, m.src), m.success, m.matchIndex))
  }

  /** The match index a leader notes is one the peer has confirmed. */
  lemma RecordedPeers(c: Cluster, m: Message)
    requires Inv(c) && m in c.net && m.AppendReply? && m.term == c.nodes[m.dst].term
    ensures var c' := Recorded(c, m); forall k | 0 <= k < |c'.nodes| :: PeersKnown(c', c'.nodes[k])
  {
    var c' := Recorded(c, m);
    var n := c.nodes[m.dst];
    assert ShapeOf(c, n, m.dst) && MessageOk(c, m) && NodeLog(c.reigns, n);
    if m.success {
      assert HoldingOk(c, Holding(m.term, m.src), c.held[Holding(m.term, m.src)]);
    }
    forall k | 0 <= k < |c'.nodes| ensures PeersKnown(c', c'.nodes[k]) {
      assert PeersKnown(c, c.nodes[k]);
    }
  }

  lemma RecordedQuiet(c: Cluster, m: Message)
    requires Shape(c) && m in c.net && m.AppendReply?
    ensures Quiet(c, Recorded(c, m))
    ensures forall i | 0 <= i < |c.nodes| ::
      && Recorded(c, m).nodes[i].term == c.nodes[i].term
      && Recorded(c, m).nodes[i].votedFor == c.nodes[i].votedFor
      && Recorded(c, m).nodes[i].role == c.nodes[i].role
      && KeepsCommit(c.nodes[i], Recorded(c, m).nodes[i])
  {
    assert ShapeOf(c, c.nodes[m.dst], m.dst);
  }

  lemma RecordedKeeps(c: Cluster, m: Message)
    requires Inv(c) && m in c.net && m.AppendReply? && m.term == c.nodes[m.dst].term
    ensures Inv(Recorded(c, m))
  {
    var c' := Recorded(c, m);
    RecordedQuiet(c, m);
    QuietStands(c, c');
    ElectionsStay(c, c');
    CandidatesStay(c, c');
    RecordedPeers(c, m);
    CommitStays(c, c');
  }

  // --------------------------------------------------- advancing the commit

  predicate Holds(n: Node, index: nat, k: nat, v: NodeId)
    requires k <= |n.match_|
  {
    v == n.id || exists j :: 0 <= j < k && v == PeerAt(n.id, j) && n.match_[j] >= index
  }

  lemma {:induction false} HoldersAre(n: Node, index: nat, k: nat)
    requires k <= |n.match_|
    ensures forall v :: v in Holders(n, index, k) <==> Holds(n, index, k, v)
    decreases k
  {
    if k > 0 {
      HoldersAre(n, index, k - 1);
      forall v ensures v in Holders(n, index, k) <==> Holds(n, index, k, v) {
        assert v in Holders(n, index, k - 1) <==> Holds(n, index, k - 1, v);
      }
    }
  }

  lemma {:induction false} HoldersCount(n: Node, index: nat, k: nat)
    requires k <= |n.match_|
    ensures |Holders(n, index, k)| == 1 + Replicas(n.match_[..k], index)
    decreases k
  {
    if k > 0 {
      HoldersCount(n, index, k - 1);
      assert n.match_[..k][..k - 1] == n.match_[..k - 1];
      HoldersAre(n, index, k - 1);
      assert !Holds(n, index, k - 1, PeerAt(n.id, k - 1));
    }
  }

  /** The servers behind a count that is a majority are a quorum, and each of them has stored the index. */
  lemma HoldersConfirm(c: Cluster, i: NodeId, n': Node)
    requires Shape(c) && HeldInv(c) && i < |c.nodes| && c.nodes[i].role == Leader
    requires n' == c.nodes[i].(commit := n'.commit) && 0 < n'.commit <= |n'.log| && LastTerm(n'.log) == n'.term
    requires 1 + Replicas(n'.match_, n'.commit) >= Majority(n'.peers)
    ensures var q := Holders(n', n'.commit, |n'.match_|);
      IsQuorum(q, |c.nodes|) && forall v | v in q :: Confirmed(c.held, n'.term, v, n'.commit)
  {
    var n := c.nodes[i];
    assert ShapeOf(c, n, i) && LogIsLastHolding(c, i) && PeersKnown(c, n);
    HoldersAre(n', n'.commit, |n'.match_|);
    HoldersCount(n', n'.commit, |n'.match_|);
    assert n.match_[..|n.match_|] == n.match_;
  }

  /** The commit rule picks an entry of the leader's own term that a quorum has stored. */
  lemma AdvanceDecides(c: Cluster, i: NodeId)
    requires Inv(c) && i < |c.nodes|
    ensures forall d | d in DecisionsOf(c.nodes[i], AdvanceCommit(c.nodes[i])) :: DecisionOk(c, d)
    ensures var n := AdvanceCommit(c.nodes[i]);
            && n.commit >= c.nodes[i].commit
            && (n.commit > c.nodes[i].commit ==> c.nodes[i].role == Leader && n.commit <= |n.log|)
  {
    var n := c.nodes[i];
    var n' := AdvanceCommit(n);
    if n.commit < |n.log| {
      GreatestCommittableIsGreatest(n, n.commit, |n.log|);
    }
    if n'.commit > n.commit {
      assert ShapeOf(c, n, i) && NodeLog(c.reigns, n);
      assert ReignLog(c.reigns, n.term, c.reigns[n.term]);
      HoldersConfirm(c, i, n');
    }
  }

  lemma AdvanceCommits(c: Cluster, i: NodeId)
    requires Inv(c) && i < |c.nodes| && Grows(c, Advance(c, i))
    ensures CommitInv(Advance(c, i))
  {
    var c' := Advance(c, i);
    var n, n' := c.nodes[i], c'.nodes[i];
    AdvanceDecides(c, i);
    forall d | d in c'.decisions ensures DecisionOk(c', d) {
      if d in c.decisions { assert DecisionOk(c, d); }
      DecisionStays(c, c', d);
    }
    forall a | a in c'.applications ensures ApplicationOk(c', a) {
      assert ApplicationOk(c, a);
      ApplicationStays(c, c', a);
    }
    forall k | 0 <= k < |c'.nodes| ensures CommitOk(c', c'.nodes[k]) {
      assert CommitOk(c, c.nodes[k]);
      if k == i && n'.commit > n.commit {
        assert NodeLog(c.reigns, n);
        var d := Decision(n'.term, n'.commit, Holders(n', n'.commit, |n'.match_|));
        assert d in c'.decisions && DecisionOk(c', d);
      } else {
        DecidedGrows(c.reigns, c'.reigns, c.decisions, c'.decisions, c.nodes[k].term, c'.nodes[k].term,
                     c.nodes[k].log, c'.nodes[k].log, c.nodes[k].commit);
      }
    }
  }

  lemma AdvanceKeeps(c: Cluster, i: NodeId)
    requires Inv(c) && i < |c.nodes|
    ensures Inv(Advance(c, i))
  {
    var c' := Advance(c, i);
    QuietStands(c, c');
    QuietHeld(c, c');
    ElectionsStay(c, c');
    AdvanceCommits(c, i);
  }

  lemma ReplyIsRecorded(c: Cluster, m: Message)
    requires Shape(c) && m in c.net && m.AppendReply? && m.term == c.nodes[m.dst].term
    ensures Perform(c, OnAppendReply(m)) == Advance(Recorded(c, m), m.dst)
  {
    assert ShapeOf(c, c.nodes[m.dst], m.dst);
  }

  lemma OnAppendReplyKeeps(c: Cluster, m: Message)
    requires Inv(c) && Enabled(c, OnAppendReply(m))
    ensures Inv(Perform(c, OnAppendReply(m)))
  {
    var i := m.dst;
    var n := c.nodes[i];
    assert ShapeOf(c, n, i);
    var c' := Perform(c, OnAppendReply(m));
    if m.term != n.term {
      StepDownKeeps(c, i, m.term);
      assert c' == Put(c, i, StepDown(n, m.term));
    } else {
      RecordedKeeps(c, m);
      AdvanceKeeps(Recorded(c, m), i);
      ReplyIsRecorded(c, m);
    }
  }

  // ---------------------------------------------------------------- applying

  lemma ApplyKeeps(c: Cluster, i: NodeId)
    requires Inv(c) && i < |c.nodes|
    ensures Inv(Perform(c, Apply(i)))
  {
    var c' := Perform(c, Apply(i));
    QuietStands(c, c');
    QuietHeld(c, c');
    ElectionsStay(c, c');
    ApplyCommits(c, i);
  }

  lemma AppliedIsDecided(c: Cluster, i: NodeId, a: Application)
    requires Inv(c) && i < |c.nodes|
    requires a in Perform(c, Apply(i)).applications && a !in c.applications
    ensures ApplicationOk(Perform(c, Apply(i)), a)
  {
    var n := c.nodes[i];
    assert CommitOk(c, n);
    var d :| d in c.decisions && d.term <= n.term && d.term in c.reigns && n.commit <= d.index
             && n.commit <= |n.log| && n.commit <= |c.reigns[d.term].log|
             && n.log[..n.commit] == c.reigns[d.term].log[..n.commit];
    assert a.entry == n.log[..n.commit][n.applied];
  }

  lemma ApplyCommits(c: Cluster, i: NodeId)
    requires Inv(c) && i < |c.nodes|
    ensures CommitInv(Perform(c, Apply(i)))
  {
    var c' := Perform(c, Apply(i));
    forall d | d in c'.decisions ensures DecisionOk(c', d) {
      assert DecisionOk(c, d);
      DecisionStays(c, c', d);
    }
    forall a | a in c'.applications ensures ApplicationOk(c', a) {
      if a in c.applications {
        assert ApplicationOk(c, a);
        ApplicationStays(c, c', a);
      } else {
        AppliedIsDecided(c, i, a);
      }
    }
    forall k | 0 <= k < |c'.nodes| ensures CommitOk(c', c'.nodes[k]) {
      assert CommitOk(c, c.nodes[k]);
    }
  }
}
