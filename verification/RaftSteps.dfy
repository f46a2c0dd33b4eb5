// Every step keeps the invariant.

module RaftSteps {
  import opened Basics
  import opened RaftNode
  import opened RaftCluster
  import opened RaftInvariant

  // ------------------------------------------------------------ what stays

  /** The history only grows and no server goes back to an earlier term. */
  ghost predicate Grows(c: Cluster, c': Cluster) {
    && |c'.nodes| == |c.nodes|
    && (forall i | 0 <= i < |c.nodes| :: c'.nodes[i].term >= c.nodes[i].term)
    && c.cast <= c'.cast
    && (forall t | t in c.reigns :: t in c'.reigns && ReignGrows(c.reigns[t], c'.reigns[t]))
    && (forall h | h in c.held :: h in c'.held && c'.held[h] >= c.held[h])
    && c.decisions <= c'.decisions
    && c.applications <= c'.applications
  }

  ghost predicate ReignGrows(r: Reign, r': Reign) {
    r'.leader == r.leader && r'.voters == r.voters && r'.base == r.base && r.log <= r'.log
  }

  ghost predicate ReignsGrow(s: map<nat, Reign>, s': map<nat, Reign>) {
    forall t | t in s :: t in s' && ReignGrows(s[t], s'[t])
  }

  lemma GenuineGrows(s: map<nat, Reign>, s': map<nat, Reign>, log: seq<Entry>)
    requires ReignsGrow(s, s') && AllGenuine(s, log)
    ensures AllGenuine(s', log)
  {
    forall i | 0 <= i < |log| ensures Genuine(s', log, i) {
      assert Genuine(s, log, i);
      var t := log[i].term;
      assert s[t].log[..i + 1] == s'[t].log[..i + 1];
    }
  }

  lemma DecidedGrows(s: map<nat, Reign>, s': map<nat, Reign>, ds: set<Decision>, ds': set<Decision>,
                     term: nat, term': nat, log: seq<Entry>, log': seq<Entry>, commit: nat)
    requires ReignsGrow(s, s') && ds <= ds' && term <= term'
    requires commit <= |log| ==> commit <= |log'| && log'[..commit] == log[..commit]
    requires Decided(s, ds, term, log, commit)
    ensures Decided(s', ds', term', log', commit)
  {
    if commit > 0 {
      var d :| d in ds && d.term <= term && d.term in s && commit <= d.index && commit <= |log|
               && commit <= |s[d.term].log| && log[..commit] == s[d.term].log[..commit];
      assert s[d.term].log[..commit] == s'[d.term].log[..commit];
      assert d in ds';
    }
  }

  lemma MessageStays(c: Cluster, c': Cluster, m: Message)
    requires Grows(c, c')
    requires m.src < |c.nodes| && MessageOk(c, m)
    requires m.VoteRequest? ==> VoteRequestHonest(c', m)
    ensures MessageOk(c', m)
  {
    if m.AppendRequest? {
      var r, r' := c.reigns[m.term], c'.reigns[m.term];
      assert ReignGrows(r, r');
      var end := m.prevIndex + |m.entries|;
      assert r.log[m.prevIndex..end] == r'.log[m.prevIndex..end];
      DecidedGrows(c.reigns, c'.reigns, c.decisions, c'.decisions, m.term, m.term, r.log, r'.log, m.commit);
    }
  }

  /** Apart from what the step sends, the messages in flight keep their meaning. */
  lemma NetStays(c: Cluster, c': Cluster)
    requires Shape(c) && Shape(c') && NetInv(c) && Grows(c, c')
    requires forall i | 0 <= i < |c.nodes| :: KeepsCandidacy(c.nodes[i], c'.nodes[i])
    requires c'.net == c.net
    ensures NetInv(c')
  {
    forall m | m in c'.net ensures MessageOk(c', m) {
      assert MessageOk(c, m);
      if m.VoteRequest? {
        assert KeepsCandidacy(c.nodes[m.src], c'.nodes[m.src]);
      }
      MessageStays(c, c', m);
    }
  }

  /** A server that is a candidate afterwards is newly so, in a new term, or was so with the same log. */
  predicate KeepsCandidacy(n: Node, n': Node) {
    n'.role == Candidate ==> n'.term > n.term || (n.role == Candidate && n'.log == n.log)
  }

  lemma ReignLogGrows(s: map<nat, Reign>, s': map<nat, Reign>, t: nat)
    requires ReignsGrow(s, s') && t in s && ReignLog(s, t, s[t]) && s'[t] == s[t]
    ensures ReignLog(s', t, s'[t])
  {
    GenuineGrows(s, s', s[t].log);
  }

  lemma DecisionStays(c: Cluster, c': Cluster, d: Decision)
    requires Grows(c, c') && DecisionOk(c, d)
    ensures DecisionOk(c', d)
  {
    assert ReignGrows(c.reigns[d.term], c'.reigns[d.term]);
    forall v | v in d.holders ensures Confirmed(c'.held, d.term, v, d.index) {
      assert Confirmed(c.held, d.term, v, d.index);
    }
  }

  lemma ApplicationStays(c: Cluster, c': Cluster, a: Application)
    requires Grows(c, c') && ApplicationOk(c, a)
    ensures ApplicationOk(c', a)
  {
    var d :| d in c.decisions && d.term in c.reigns && 1 <= a.index <= d.index
             && a.index <= |c.reigns[d.term].log| && a.entry == c.reigns[d.term].log[a.index - 1];
    assert ReignGrows(c.reigns[d.term], c'.reigns[d.term]);
    assert d in c'.decisions;
  }

  /** The commit part survives any step that leaves commit indices and decided prefixes alone. */
  lemma CommitStays(c: Cluster, c': Cluster)
    requires CommitInv(c) && Grows(c, c')
    requires c'.decisions == c.decisions && c'.applications == c.applications
    requires forall i | 0 <= i < |c.nodes| :: KeepsCommit(c.nodes[i], c'.nodes[i])
    ensures CommitInv(c')
  {
    forall d | d in c'.decisions ensures DecisionOk(c', d) { DecisionStays(c, c', d); }
    forall a | a in c'.applications ensures ApplicationOk(c', a) { ApplicationStays(c, c', a); }
    forall i | 0 <= i < |c'.nodes| ensures CommitOk(c', c'.nodes[i]) {
      var n, n' := c.nodes[i], c'.nodes[i];
      assert CommitOk(c, n) && KeepsCommit(n, n');
      if n'.commit > 0 {
        DecidedGrows(c.reigns, c'.reigns, c.decisions, c'.decisions, n.term, n'.term, n.log, n'.log, n.commit);
      }
    }
  }

  predicate KeepsCommit(n: Node, n': Node) {
    || (n'.commit == 0 && n'.applied == 0)
    || (&& n'.commit == n.commit && n'.applied == n.applied
        && (n.commit <= |n.log| ==> n.commit <= |n'.log| && n'.log[..n.commit] == n.log[..n.commit]))
  }

  /** A step that stores nothing leaves every log the last thing its server stored. */
  lemma HoldingsStay(c: Cluster, c': Cluster)
    requires Shape(c) && Shape(c') && HeldInv(c) && Grows(c, c')
    requires c'.held == c.held && c'.reigns == c.reigns
    requires forall i | 0 <= i < |c.nodes| :: c'.nodes[i].log == c.nodes[i].log
    ensures forall h | h in c'.held :: HoldingOk(c', h, c'.held[h])
    ensures forall i | 0 <= i < |c'.nodes| :: LogIsLastHolding(c', i)
    ensures forall t, v | t in c'.reigns && v in c'.reigns[t].voters :: ReignCovers(c', t, v)
  {
    forall h | h in c'.held ensures HoldingOk(c', h, c'.held[h]) {
      assert HoldingOk(c, h, c.held[h]);
    }
    forall i | 0 <= i < |c'.nodes| ensures LogIsLastHolding(c', i) {
      assert LogIsLastHolding(c, i);
    }
    forall t, v | t in c'.reigns && v in c'.reigns[t].voters ensures ReignCovers(c', t, v) {
      assert ReignCovers(c, t, v);
    }
  }

  /** Logs survive a step that neither writes one nor makes a leader. */
  lemma LogsStay(c: Cluster, c': Cluster)
    requires Shape(c) && Shape(c') && LogInv(c) && Grows(c, c')
    requires c'.reigns == c.reigns
    requires forall i | 0 <= i < |c.nodes| ::
      && c'.nodes[i].log == c.nodes[i].log
      && (c'.nodes[i].role == Leader ==> c.nodes[i].role == Leader && c'.nodes[i].term == c.nodes[i].term)
    ensures LogInv(c')
  {
    forall i | 0 <= i < |c'.nodes| ensures NodeLog(c'.reigns, c'.nodes[i]) {
      assert NodeLog(c.reigns, c.nodes[i]);
    }
  }

  /** Same terms, votes and winners: nothing changes in the elections. */
  lemma ElectionsStay(c: Cluster, c': Cluster)
    requires Shape(c) && Shape(c') && ElectionInv(c) && |c'.nodes| == |c.nodes|
    requires forall i | 0 <= i < |c.nodes| ::
      && c'.nodes[i].term == c.nodes[i].term
      && c'.nodes[i].votedFor == c.nodes[i].votedFor
      && c'.nodes[i].role == c.nodes[i].role
    requires c'.cast == c.cast && CandidatesVoted(c') && VotesCast(c')
    requires c'.reigns.Keys == c.reigns.Keys
    requires forall t | t in c.reigns ::
      c'.reigns[t].leader == c.reigns[t].leader && c'.reigns[t].voters == c.reigns[t].voters
    ensures ElectionInv(c')
  {
    forall u | u in c'.reigns ensures ReignHolds(c', u, c'.reigns[u]) {
      assert ReignHolds(c, u, c.reigns[u]);
    }
  }

  lemma ShapeStays(c: Cluster, c': Cluster)
    requires Shape(c) && |c'.nodes| == |c.nodes| && |c'.votes| == |c.votes|
    requires forall i | 0 <= i < |c.nodes| ::
      && c'.nodes[i].id == c.nodes[i].id && c'.nodes[i].peers == c.nodes[i].peers
      && |c'.nodes[i].next| == |c.nodes[i].next| && |c'.nodes[i].match_| == |c.nodes[i].match_|
    requires forall m | m in c'.net :: m in c.net || (m.src < |c.nodes| && m.dst < |c.nodes| && m.src != m.dst)
    ensures Shape(c')
  {
    forall k | 0 <= k < |c'.nodes| ensures ShapeOf(c', c'.nodes[k], k) {
      assert ShapeOf(c, c.nodes[k], k);
    }
  }

  // --------------------------------------------------------------- quiet steps

  /** One server across a step that writes no log and makes nobody a candidate or a leader. */
  predicate QuietNode(n: Node, n': Node) {
    && n'.id == n.id && n'.peers == n.peers && |n'.next| == |n.next| && |n'.match_| == |n.match_|
    && n'.log == n.log && n'.term >= n.term
    && (n'.role == Leader ==> n.role == Leader && n'.term == n.term)
    && (n'.role == Candidate ==> n.role == Candidate && n'.term == n.term)
  }

  ghost predicate Quiet(c: Cluster, c': Cluster) {
    && |c'.nodes| == |c.nodes| && |c'.votes| == |c.votes|
    && c'.net == c.net && c'.reigns == c.reigns && c'.held == c.held
    && c.cast <= c'.cast && c.decisions <= c'.decisions && c.applications <= c'.applications
    && (forall i | 0 <= i < |c.nodes| :: QuietNode(c.nodes[i], c'.nodes[i]))
  }

  /** Logs, holdings and messages stand after a quiet step. */
  lemma QuietStands(c: Cluster, c': Cluster)
    requires Shape(c) && LogInv(c) && HeldInv(c) && NetInv(c) && Quiet(c, c')
    ensures Shape(c') && Grows(c, c') && LogInv(c') && NetInv(c')
    ensures (forall b | b in c'.cast :: CandidateCovers(c', b)) ==>
      (forall i | 0 <= i < |c'.nodes| :: PeersKnown(c', c'.nodes[i])) ==> HeldInv(c')
  {
    assert forall i | 0 <= i < |c.nodes| :: QuietNode(c.nodes[i], c'.nodes[i]);
    ShapeStays(c, c');
    assert Grows(c, c');
    LogsStay(c, c');
    NetStays(c, c');
    HoldingsStay(c, c');
  }

  lemma QuietHeld(c: Cluster, c': Cluster)
    requires Shape(c) && LogInv(c) && HeldInv(c) && NetInv(c) && Quiet(c, c') && c'.cast == c.cast
    requires forall i | 0 <= i < |c.nodes| :: KeepsPeers(c.nodes[i], c'.nodes[i])
    ensures Shape(c') && HeldInv(c')
  {
    QuietStands(c, c');
    assert forall i | 0 <= i < |c.nodes| :: QuietNode(c.nodes[i], c'.nodes[i]);
    CandidatesStay(c, c');
    PeersStay(c, c');
  }

  /** A quiet step that touches nothing but roles, terms and votes has only the elections to answer for. */
  lemma QuietKeeps(c: Cluster, c': Cluster)
    requires Inv(c) && Quiet(c, c') && c'.cast == c.cast
    requires c'.decisions == c.decisions && c'.applications == c.applications
    requires forall i | 0 <= i < |c.nodes| :: KeepsPeers(c.nodes[i], c'.nodes[i])
    requires forall i | 0 <= i < |c.nodes| :: KeepsCommit(c.nodes[i], c'.nodes[i])
    requires Shape(c') && ElectionInv(c')
    ensures Inv(c')
  {
    QuietStands(c, c');
    QuietHeld(c, c');
    CommitStays(c, c');
  }

  // ---------------------------------------------------- learning a later term

  lemma LowerElection(c: Cluster, i: NodeId, t: nat)
    requires Shape(c) && ElectionInv(c) && i < |c.nodes| && t > c.nodes[i].term
    ensures var c' := Put(c, i, BecomeFollower(c.nodes[i], t)); Shape(c') && ElectionInv(c')
  {
    ShapeStays(c, Put(c, i, BecomeFollower(c.nodes[i], t)));
    LowerWon(c, i, t);
  }

  lemma LowerWon(c: Cluster, i: NodeId, t: nat)
    requires WonTerms(c) && i < |c.nodes| && t > c.nodes[i].term
    ensures WonTerms(Put(c, i, BecomeFollower(c.nodes[i], t)))
  {
    var c' := Put(c, i, BecomeFollower(c.nodes[i], t));
    forall u | u in c'.reigns ensures ReignHolds(c', u, c'.reigns[u]) {
      assert ReignHolds(c, u, c.reigns[u]);
    }
  }

  lemma LowerKeeps(c: Cluster, i: NodeId, t: nat)
    requires Inv(c) && i < |c.nodes| && t > c.nodes[i].term
    ensures Inv(Put(c, i, BecomeFollower(c.nodes[i], t)))
  {
    var c' := Put(c, i, BecomeFollower(c.nodes[i], t));
    LowerElection(c, i, t);
    QuietKeeps(c, c');
  }

  /** Candidates keep covering their voters, and leaders keep knowing their peers. */
  lemma CandidatesStay(c: Cluster, c': Cluster)
    requires Shape(c) && HeldInv(c) && |c'.nodes| == |c.nodes|
    requires c'.held == c.held && c'.cast == c.cast
    requires forall i | 0 <= i < |c.nodes| ::
      c'.nodes[i].role == Candidate ==>
        c.nodes[i].role == Candidate && c'.nodes[i].log == c.nodes[i].log && c'.nodes[i].term == c.nodes[i].term
    ensures forall b | b in c'.cast :: CandidateCovers(c', b)
  {
    forall b | b in c'.cast ensures CandidateCovers(c', b) {
      assert CandidateCovers(c, b);
    }
  }

  predicate KeepsPeers(n: Node, n': Node) {
    n'.role == Leader ==>
      n.role == Leader && n'.term == n.term && n'.id == n.id
      && n'.match_ == n.match_ && n'.next == n.next && |n.log| <= |n'.log|
  }

  lemma PeersStay(c: Cluster, c': Cluster)
    requires Shape(c) && Shape(c') && HeldInv(c) && Grows(c, c')
    requires forall i | 0 <= i < |c.nodes| :: KeepsPeers(c.nodes[i], c'.nodes[i])
    ensures forall i | 0 <= i < |c'.nodes| :: PeersKnown(c', c'.nodes[i])
  {
    forall i | 0 <= i < |c'.nodes| ensures PeersKnown(c', c'.nodes[i]) {
      assert PeersKnown(c, c.nodes[i]);
      assert KeepsPeers(c.nodes[i], c'.nodes[i]);
    }
  }

  // ---------------------------------------------------------------- standing

  lemma StandElection(c: Cluster, i: NodeId)
    requires Shape(c) && ElectionInv(c) && i < |c.nodes|
    ensures Shape(Stand(c, i)) && ElectionInv(Stand(c, i))
  {
    assert ShapeOf(c, c.nodes[i], i);
    ShapeStays(c, Stand(c, i));
    StandOpen(c, i);
    StandWon(c, i);
  }

  lemma StandOpen(c: Cluster, i: NodeId)
    requires i < |c.nodes| == |c.votes| && c.nodes[i].id == i
    requires BallotsPast(c) && CandidatesVoted(c) && VotesCast(c) && OpenTerms(c)
    ensures BallotsPast(Stand(c, i)) && OpenTerms(Stand(c, i))
    ensures CandidatesVoted(Stand(c, i)) && VotesCast(Stand(c, i))
  {
    var c' := Stand(c, i);
    var own := Ballot(c'.nodes[i].term, i, i);
    assert forall b | b in c'.cast :: b == own || (b in c.cast && !(b.term == own.term && b.voter == i));
    StandPast(c, i);
    StandVotes(c, i);
    StandCandidates(c, i);
  }

  lemma StandPast(c: Cluster, i: NodeId)
    requires i < |c.nodes| == |c.votes| && BallotsPast(c)
    ensures BallotsPast(Stand(c, i))
  {
  }

  lemma StandVotes(c: Cluster, i: NodeId)
    requires i < |c.nodes| == |c.votes| && VotesCast(c)
    ensures VotesCast(Stand(c, i))
  {
  }

  lemma StandCandidates(c: Cluster, i: NodeId)
    requires i < |c.nodes| == |c.votes| && c.nodes[i].id == i && CandidatesVoted(c)
    ensures CandidatesVoted(Stand(c, i))
  {
    var c' := Stand(c, i);
    forall k | 0 <= k < |c'.nodes| && c'.nodes[k].role == Candidate
      ensures c'.nodes[k].term >= 1 && c'.nodes[k].votedFor == Some(k)
      ensures Ballot(c'.nodes[k].term, k, k) in c'.cast && k in c'.votes[k]
    {
      assert k == i || c'.nodes[k] == c.nodes[k];
    }
  }

  lemma StandWon(c: Cluster, i: NodeId)
    requires i < |c.nodes| == |c.votes| && BallotsPast(c) && WonTerms(c)
    ensures WonTerms(Stand(c, i))
  {
    var c' := Stand(c, i);
    forall u | u in c'.reigns ensures ReignHolds(c', u, c'.reigns[u]) {
      assert ReignHolds(c, u, c.reigns[u]);
    }
    if c'.nodes[i].term in c.reigns {
      assert ReignHolds(c, c'.nodes[i].term, c.reigns[c'.nodes[i].term]);
    }
  }

  lemma StandCovers(c: Cluster, i: NodeId)
    requires Shape(c) && ElectionInv(c) && HeldInv(c) && i < |c.nodes|
    ensures var c' := Stand(c, i); forall b | b in c'.cast :: CandidateCovers(c', b)
  {
    var c' := Stand(c, i);
    forall b | b in c'.cast ensures CandidateCovers(c', b) {
      if b.candidate == i {
        assert LogIsLastHolding(c, i);
      } else {
        assert CandidateCovers(c, b);
      }
    }
  }

  lemma StandKeeps(c: Cluster, i: NodeId)
    requires Inv(c) && i < |c.nodes|
    ensures Inv(Stand(c, i))
  {
    var c' := Stand(c, i);
    StandElection(c, i);
    assert LogInv(c') by { LogsStay(c, c'); }
    assert HeldInv(c') by {
      HoldingsStay(c, c');
      StandCovers(c, i);
      PeersStay(c, c');
    }
    assert CommitInv(c') by { CommitStays(c, c'); }
    assert NetInv(c') by { NetStays(c, c'); }
  }

  // ---------------------------------------------------------------- crashing

  function Crashed(c: Cluster, i: NodeId): Cluster
    requires i < |c.nodes| == |c.votes|
  {
    Put(c, i, Restart(c.nodes[i])).(votes := c.votes[i := {}])
  }

  lemma CrashElection(c: Cluster, i: NodeId)
    requires Shape(c) && ElectionInv(c) && i < |c.nodes|
    ensures Shape(Crashed(c, i)) && ElectionInv(Crashed(c, i))
  {
    var c' := Crashed(c, i);
    ShapeStays(c, c');
    forall u | u in c'.reigns ensures ReignHolds(c', u, c'.reigns[u]) {
      assert ReignHolds(c, u, c.reigns[u]);
    }
  }

  lemma CrashKeeps(c: Cluster, i: NodeId)
    requires Inv(c) && i < |c.nodes|
    ensures Inv(Crashed(c, i))
  {
    var c' := Crashed(c, i);
    CrashElection(c, i);
    QuietKeeps(c, c');
  }

  // ----------------------------------------------------------------- sending

  lemma SendKeeps(c: Cluster, m: Message)
    requires Inv(c)
    requires m.src < |c.nodes| && m.dst < |c.nodes| && m.src != m.dst && MessageOk(c, m)
    ensures Inv(Send(c, m))
  {
    var c' := Send(c, m);
    ShapeStays(c, c');
    ElectionsStay(c, c');
    assert LogInv(c') by { LogsStay(c, c'); }
    assert HeldInv(c') by {
      HoldingsStay(c, c');
      CandidatesStay(c, c');
      PeersStay(c, c');
    }
    assert CommitInv(c') by { CommitStays(c, c'); }
    forall x | x in c'.net ensures MessageOk(c', x) {
      assert MessageOk(c, x);
      MessageStays(c, c', x);
    }
  }

  lemma PeerAtRange(n: Node, slot: nat, c: Cluster)
    requires n.id < |c.nodes| && n.peers == |c.nodes| - 1 && slot < n.peers
    ensures PeerAt(n.id, slot) < |c.nodes| && PeerAt(n.id, slot) != n.id
    ensures SlotOf(n.id, PeerAt(n.id, slot)) == slot
  {
  }

  lemma AskVoteKeeps(c: Cluster, i: NodeId, slot: nat)
    requires Inv(c) && Enabled(c, AskVote(i, slot))
    ensures Inv(Perform(c, AskVote(i, slot)))
  {
    assert ShapeOf(c, c.nodes[i], i);
    PeerAtRange(c.nodes[i], slot, c);
    SendKeeps(c, VoteRequestFrom(c.nodes[i], slot));
  }

  /** What a leader sends is a suffix of its log, and the suffix reaches its no-op. */
  lemma BatchReachesNoop(c: Cluster, i: NodeId, slot: nat)
    requires Shape(c) && LogInv(c) && HeldInv(c) && Enabled(c, Replicate(i, slot))
    ensures RequestLog(c.reigns, AppendRequestFrom(c.nodes[i], slot))
  {
    var n := c.nodes[i];
    assert ShapeOf(c, n, i);
    assert NodeLog(c.reigns, n) && PeersKnown(c, n);
    assert ReignLog(c.reigns, n.term, c.reigns[n.term]);
    var b := BatchFor(n, slot);
    assert b.prevIndex == n.next[slot] - 1;
    assert b.entries == n.log[b.prevIndex..];
  }

  lemma ReplicateKeeps(c: Cluster, i: NodeId, slot: nat)
    requires Inv(c) && Enabled(c, Replicate(i, slot))
    ensures Inv(Perform(c, Replicate(i, slot)))
  {
    var n := c.nodes[i];
    assert ShapeOf(c, n, i);
    PeerAtRange(n, slot, c);
    BatchReachesNoop(c, i, slot);
    assert CommitOk(c, n) && NodeLog(c.reigns, n);
    SendKeeps(c, AppendRequestFrom(n, slot));
  }

  // ---------------------------------------------------------- granting a vote

  lemma GrantElection(c: Cluster, i: NodeId, candidate: NodeId)
    requires Shape(c) && ElectionInv(c) && i < |c.nodes| && candidate < |c.nodes|
    requires c.nodes[i].votedFor == None || c.nodes[i].votedFor == Some(candidate)
    requires c.nodes[i].term <= c.nodes[candidate].term
    ensures Shape(Grant(c, i, candidate)) && ElectionInv(Grant(c, i, candidate))
  {
    var c' := Grant(c, i, candidate);
    ShapeStays(c, c');
    GrantOpen(c, i, candidate);
    GrantWon(c, i, candidate);
  }

  lemma GrantOpen(c: Cluster, i: NodeId, candidate: NodeId)
    requires i < |c.nodes| && candidate < |c.nodes|
    requires BallotsPast(c) && BallotsPast(Grant(c, i, candidate)) && OpenTerms(c)
    requires c.nodes[i].votedFor == None || c.nodes[i].votedFor == Some(candidate)
    ensures OpenTerms(Grant(c, i, candidate))
  {
  }

  lemma GrantWon(c: Cluster, i: NodeId, candidate: NodeId)
    requires i < |c.nodes| && WonTerms(c)
    requires c.nodes[i].votedFor == None || c.nodes[i].votedFor == Some(candidate)
    ensures WonTerms(Grant(c, i, candidate))
  {
    var c' := Grant(c, i, candidate);
    forall u | u in c'.reigns ensures ReignHolds(c', u, c'.reigns[u]) {
      assert ReignHolds(c, u, c.reigns[u]);
    }
    var t := c.nodes[i].term;
    if t in c.reigns {
      assert ReignHolds(c, t, c.reigns[t]);
    }
  }

  /** The vote goes to a candidate whose log is as up to date as everything the voter has ever stored. */
  lemma GrantCovers(c: Cluster, i: NodeId, m: Message)
    requires Shape(c) && HeldInv(c) && i < |c.nodes|
    requires m.VoteRequest? && m.src < |c.nodes| && m.term == c.nodes[i].term && VoteRequestHonest(c, m)
    requires GrantsVote(c.nodes[i], m.src, m.term, m.lastIndex, m.lastTerm)
    ensures var c' := Grant(c, i, m.src); forall b | b in c'.cast :: CandidateCovers(c', b)
  {
    var c' := Grant(c, i, m.src);
    forall b | b in c'.cast ensures CandidateCovers(c', b) {
      if b == Ballot(m.term, i, m.src) {
        assert LogIsLastHolding(c, i);
      } else {
        assert CandidateCovers(c, b);
      }
    }
  }

  lemma GrantKeeps(c: Cluster, i: NodeId, m: Message)
    requires Inv(c) && i < |c.nodes| && m in c.net
    requires m.VoteRequest? && m.term == c.nodes[i].term
    requires GrantsVote(c.nodes[i], m.src, m.term, m.lastIndex, m.lastTerm)
    ensures Inv(Grant(c, i, m.src))
  {
    assert MessageOk(c, m);
    GrantElection(c, i, m.src);
    GrantHeld(c, i, m);
    CommitStays(c, Grant(c, i, m.src));
  }

  lemma GrantHeld(c: Cluster, i: NodeId, m: Message)
    requires Shape(c) && LogInv(c) && HeldInv(c) && NetInv(c) && i < |c.nodes|
    requires m.VoteRequest? && m.src < |c.nodes| && m.term == c.nodes[i].term && VoteRequestHonest(c, m)
    requires GrantsVote(c.nodes[i], m.src, m.term, m.lastIndex, m.lastTerm)
    ensures var c' := Grant(c, i, m.src); Shape(c') && Grows(c, c') && LogInv(c') && NetInv(c') && HeldInv(c')
  {
    var c' := Grant(c, i, m.src);
    QuietStands(c, c');
    GrantCovers(c, i, m);
    PeersStay(c, c');
  }

  lemma StepDownKeeps(c: Cluster, i: NodeId, t: nat)
    requires Inv(c) && i < |c.nodes|
    ensures Inv(Put(c, i, StepDown(c.nodes[i], t)))
  {
    if t > c.nodes[i].term {
      LowerKeeps(c, i, t);
    } else {
      assert Put(c, i, c.nodes[i]) == c;
    }
  }

  /** The vote handler begins with learning the term of the request. */
  lemma VoteAfterStepDown(c: Cluster, m: Message)
    requires Shape(c) && m in c.net && m.VoteRequest? && Shape(Put(c, m.dst, StepDown(c.nodes[m.dst], m.term)))
    ensures Perform(c, OnVoteRequest(m))
         == Perform(Put(c, m.dst, StepDown(c.nodes[m.dst], m.term)), OnVoteRequest(m))
  {
  }

  lemma VoteAnswerKeeps(c: Cluster, m: Message)
    requires Inv(c) && Enabled(c, OnVoteRequest(m)) && m.term <= c.nodes[m.dst].term
    ensures Inv(Perform(c, OnVoteRequest(m)))
  {
    var i := m.dst;
    var o := HandleRequestVote(c.nodes[i], m.src, m.term, m.lastIndex, m.lastTerm);
    if o.granted {
      GrantKeeps(c, i, m);
      SendKeeps(Grant(c, i, m.src), VoteReply(i, m.src, o.term, true));
    } else {
      assert Put(c, i, o.node) == c;
      SendKeeps(c, VoteReply(i, m.src, o.term, false));
    }
  }

  lemma OnVoteRequestKeeps(c: Cluster, m: Message)
    requires Inv(c) && Enabled(c, OnVoteRequest(m))
    ensures Inv(Perform(c, OnVoteRequest(m)))
  {
    StepDownKeeps(c, m.dst, m.term);
    VoteAfterStepDown(c, m);
    VoteAnswerKeeps(Put(c, m.dst, StepDown(c.nodes[m.dst], m.term)), m);
  }

  // ---------------------------------------------------------- counting votes

  lemma CountKeeps(c: Cluster, m: Message)
    requires Inv(c) && m in c.net && m.VoteReply? && m.granted
    requires c.nodes[m.dst].role == Candidate && m.term == c.nodes[m.dst].term
    ensures Inv(c.(votes := c.votes[m.dst := c.votes[m.dst] + {m.src}]))
  {
    var c' := c.(votes := c.votes[m.dst := c.votes[m.dst] + {m.src}]);
    assert MessageOk(c, m);
    ShapeStays(c, c');
    ElectionsStay(c, c');
    QuietKeeps(c, c');
  }

  lemma OnVoteReplyKeeps(c: Cluster, m: Message)
    requires Inv(c) && Enabled(c, OnVoteReply(m))
    ensures Inv(Perform(c, OnVoteReply(m)))
  {
    var n := c.nodes[m.dst];
    if m.granted && n.role == Candidate && m.term == n.term {
      CountKeeps(c, m);
    } else {
      StepDownKeeps(c, m.dst, m.term);
    }
  }

  // ----------------------------------------------------------------- winning

  lemma RangeSet(n: nat) returns (all: set<NodeId>)
    ensures |all| == n && forall v :: v in all <==> 0 <= v < n
  {
    all := {};
    for k := 0 to n
      invariant |all| == k && forall v :: v in all <==> 0 <= v < k
    {
      all := all + {k};
    }
  }

  lemma SubsetSize<T>(a: set<T>, b: set<T>)
    requires a <= b
    ensures |a| <= |b|
  {
    assert b == a + (b - a);
  }

  lemma QuorumsMeet(a: set<NodeId>, b: set<NodeId>, n: nat) returns (v: NodeId)
    requires IsQuorum(a, n) && IsQuorum(b, n)
    ensures v in a && v in b
  {
    if a * b == {} {
      var all := RangeSet(n);
      assert |a + b| == |a| + |b|;
      SubsetSize(a + b, all);
      assert false;
    }
    v :| v in a * b;
  }

  /** A candidate with a majority is the first winner of its term. */
  lemma WinIsFirst(c: Cluster, i: NodeId)
    requires Shape(c) && ElectionInv(c) && i < |c.nodes|
    requires c.nodes[i].role == Candidate && |c.votes[i]| >= Majority(c.nodes[i].peers)
    ensures IsQuorum(c.votes[i], |c.nodes|)
    ensures c.nodes[i].term !in c.reigns
  {
    var t := c.nodes[i].term;
    assert ShapeOf(c, c.nodes[i], i);
    assert forall v | v in c.votes[i] :: Ballot(t, v, i) in c.cast;
    if t in c.reigns {
      var r := c.reigns[t];
      assert ReignHolds(c, t, r);
      var v := QuorumsMeet(c.votes[i], r.voters, |c.nodes|);
      assert false;
    }
  }

  lemma WinElection(c: Cluster, i: NodeId)
    requires Shape(c) && ElectionInv(c) && i < |c.nodes|
    requires c.nodes[i].role == Candidate && |c.votes[i]| >= Majority(c.nodes[i].peers)
    ensures Shape(Win(c, i)) && ElectionInv(Win(c, i))
  {
    assert ShapeOf(c, c.nodes[i], i);
    ShapeStays(c, Win(c, i));
    WinIsFirst(c, i);
    WinWon(c, i);
  }

  lemma WinWon(c: Cluster, i: NodeId)
    requires i < |c.nodes| == |c.votes|
    requires BallotsPast(c) && CandidatesVoted(c) && VotesCast(c) && OpenTerms(c) && WonTerms(c)
    requires c.nodes[i].role == Candidate && c.nodes[i].term !in c.reigns
    requires IsQuorum(c.votes[i], |c.nodes|)
    ensures WonTerms(Win(c, i))
  {
    var c' := Win(c, i);
    var t := c.nodes[i].term;
    forall v | v in c.votes[i]
      ensures c.nodes[v].term >= t
      ensures c.nodes[v].term == t ==> c.nodes[v].votedFor == Some(i)
    {
      assert Ballot(t, v, i) in c.cast;
    }
    forall u | u in c'.reigns ensures ReignHolds(c', u, c'.reigns[u]) {
      if u != t {
        assert ReignHolds(c, u, c.reigns[u]);
      }
    }
  }

  lemma HoldingTerms(c: Cluster)
    requires Shape(c) && HeldInv(c)
    ensures forall h | h in c.held :: h.term in c.reigns && h.node < |c.nodes| && h.term <= c.nodes[h.node].term
  {
    forall h | h in c.held
      ensures h.term in c.reigns && h.node < |c.nodes| && h.term <= c.nodes[h.node].term
    {
      assert HoldingOk(c, h, c.held[h]);
    }
  }

  lemma WinGrows(c: Cluster, i: NodeId)
    requires Shape(c) && HeldInv(c) && i < |c.nodes| && c.nodes[i].term !in c.reigns
    ensures Grows(c, Win(c, i))
  {
    HoldingTerms(c);
  }

  /** The winner's log, with its no-op, opens the reign. */
  lemma WinLogs(c: Cluster, i: NodeId)
    requires Shape(c) && LogInv(c) && i < |c.nodes| && c.nodes[i].term !in c.reigns
    ensures LogInv(Win(c, i))
  {
    var c' := Win(c, i);
    var n, n' := c.nodes[i], c'.nodes[i];
    var t := n.term;
    assert NodeLog(c.reigns, n);
    assert c'.reigns[t] == Reign(i, c.votes[i], n'.log, |n.log|);
    assert ReignsGrow(c.reigns, c'.reigns);
    forall k | 0 <= k < |n'.log|
      ensures Genuine(c'.reigns, n'.log, k)
      ensures if k < |n.log| then n'.log[k].term < t else n'.log[k].term == t
    {
      if k < |n.log| {
        assert Genuine(c.reigns, n.log, k);
        TermsBounded(c, n, k);
        assert n'.log[..k + 1] == n.log[..k + 1];
      }
    }
    assert ReignLog(c'.reigns, t, c'.reigns[t]);
    forall u | u in c'.reigns ensures ReignLog(c'.reigns, u, c'.reigns[u]) {
      if u != t {
        assert ReignLog(c.reigns, u, c.reigns[u]);
        ReignLogGrows(c.reigns, c'.reigns, u);
      }
    }
    forall k | 0 <= k < |c'.nodes| ensures NodeLog(c'.reigns, c'.nodes[k]) {
      if k != i {
        assert NodeLog(c.reigns, c.nodes[k]);
        GenuineGrows(c.reigns, c'.reigns, c.nodes[k].log);
      }
    }
  }

  /** Terms do not decrease along a log: entry k is no later than the last one. */
  lemma TermsBounded(c: Cluster, n: Node, k: nat)
    requires LogInv(c) && NodeLog(c.reigns, n) && k < |n.log|
    ensures n.log[k].term <= LastTerm(n.log) <= n.term
  {
    var last := |n.log| - 1;
    assert Genuine(c.reigns, n.log, last);
    var t := n.log[last].term;
    assert ReignLog(c.reigns, t, c.reigns[t]);
    assert n.log[k] == n.log[..last + 1][k] == c.reigns[t].log[k];
  }

  lemma WinHoldings(c: Cluster, i: NodeId)
    requires Shape(c) && HeldInv(c) && i < |c.nodes| && c.nodes[i].term !in c.reigns
    ensures var c' := Win(c, i);
            && (forall h | h in c'.held :: HoldingOk(c', h, c'.held[h]))
            && (forall k | 0 <= k < |c'.nodes| :: LogIsLastHolding(c', k))
  {
    var c' := Win(c, i);
    HoldingTerms(c);
    forall h | h in c'.held ensures HoldingOk(c', h, c'.held[h]) {
      if h != Holding(c.nodes[i].term, i) { assert HoldingOk(c, h, c.held[h]); }
    }
    forall k | 0 <= k < |c'.nodes| ensures LogIsLastHolding(c', k) {
      assert LogIsLastHolding(c, k);
    }
  }

  lemma WinCovers(c: Cluster, i: NodeId)
    requires Shape(c) && ElectionInv(c) && HeldInv(c) && i < |c.nodes|
    requires c.nodes[i].role == Candidate && c.nodes[i].term !in c.reigns
    ensures var c' := Win(c, i);
            && (forall b | b in c'.cast :: CandidateCovers(c', b))
            && (forall u, v | u in c'.reigns && v in c'.reigns[u].voters :: ReignCovers(c', u, v))
  {
    var c' := Win(c, i);
    var n, n' := c.nodes[i], c'.nodes[i];
    forall b | b in c'.cast ensures CandidateCovers(c', b) {
      assert CandidateCovers(c, b);
    }
    forall u, v | u in c'.reigns && v in c'.reigns[u].voters ensures ReignCovers(c', u, v) {
      if u == n.term {
        assert Ballot(n.term, v, i) in c.cast;
        assert CandidateCovers(c, Ballot(n.term, v, i));
        assert n'.log[..|n.log|] == n.log;
      } else {
        assert ReignCovers(c, u, v) && ReignHolds(c, u, c.reigns[u]);
      }
    }
  }

  lemma WinHeld(c: Cluster, i: NodeId)
    requires i < |c.nodes| && Shape(c) && Shape(Win(c, i)) && ElectionInv(c) && HeldInv(c)
    requires c.nodes[i].role == Candidate && c.nodes[i].term !in c.reigns
    ensures HeldInv(Win(c, i))
  {
    var c' := Win(c, i);
    WinGrows(c, i);
    WinHoldings(c, i);
    WinCovers(c, i);
    forall k | 0 <= k < |c'.nodes| ensures PeersKnown(c', c'.nodes[k]) {
      assert PeersKnown(c, c.nodes[k]);
    }
  }

  lemma WinKeeps(c: Cluster, i: NodeId)
    requires Inv(c) && i < |c.nodes|
    requires c.nodes[i].role == Candidate && |c.votes[i]| >= Majority(c.nodes[i].peers)
    ensures Inv(Win(c, i))
  {
    var c' := Win(c, i);
    WinElection(c, i);
    WinIsFirst(c, i);
    WinGrows(c, i);
    WinLogs(c, i);
    WinHeld(c, i);
    assert CommitInv(c') by { CommitStays(c, c'); }
    assert NetInv(c') by { NetStays(c, c'); }
  }

  lemma TimeoutKeeps(c: Cluster, i: NodeId)
    requires Inv(c) && Enabled(c, Timeout(i))
    ensures Inv(Perform(c, Timeout(i)))
  {
    StandKeeps(c, i);
    if Majority(c.nodes[i].peers) == 1 {
      WinKeeps(Stand(c, i), i);
    }
  }

  // --------------------------------------------- storing more under one term

  /** Raising what server i holds in its present term matters to no vote cast so far for a later term. */
  lemma RaiseCovers(c: Cluster, c': Cluster, i: NodeId, len: nat)
    requires Shape(c) && ElectionInv(c) && HeldInv(c) && i < |c.nodes| == |c'.nodes|
    requires c'.held == c.held[Holding(c.nodes[i].term, i) := len] && c'.cast == c.cast
    requires forall k | 0 <= k < |c.nodes| && c'.nodes[k].role == Candidate ::
      c.nodes[k].role == Candidate && c'.nodes[k].log == c.nodes[k].log && c'.nodes[k].term == c.nodes[k].term
    requires forall t | t in c'.reigns ::
      && t in c.reigns && c'.reigns[t].voters == c.reigns[t].voters && c'.reigns[t].base == c.reigns[t].base
      && c.reigns[t].base <= |c'.reigns[t].log|
      && (c.reigns[t].base <= |c.reigns[t].log| ==>
            c'.reigns[t].log[..c.reigns[t].base] == c.reigns[t].log[..c.reigns[t].base])
    ensures forall b | b in c'.cast :: CandidateCovers(c', b)
    ensures forall u, v | u in c'.reigns && v in c'.reigns[u].voters :: ReignCovers(c', u, v)
  {
    forall b | b in c'.cast ensures CandidateCovers(c', b) {
      assert CandidateCovers(c, b);
    }
    forall u, v | u in c'.reigns && v in c'.reigns[u].voters ensures ReignCovers(c', u, v) {
      assert ReignCovers(c, u, v) && ReignHolds(c, u, c.reigns[u]);
    }
  }

  // ---------------------------------------------------------- client commands

  function Submitted(c: Cluster, i: NodeId, data: seq<Byte>): Cluster
    requires i < |c.nodes| && c.nodes[i].role == Leader && c.nodes[i].term in c.reigns
  {
    var n := ClientAppend(c.nodes[i], data).value;
    Put(c, i, n).(
      reigns := c.reigns[n.term := c.reigns[n.term].(log := n.log)],
      held := c.held[Holding(n.term, i) := |n.log|])
  }

  lemma SubmitGrows(c: Cluster, i: NodeId, data: seq<Byte>)
    requires Shape(c) && LogInv(c) && HeldInv(c)
    requires i < |c.nodes| && c.nodes[i].role == Leader && c.nodes[i].term in c.reigns
    ensures Grows(c, Submitted(c, i, data))
  {
    assert NodeLog(c.reigns, c.nodes[i]);
    forall h | h in c.held ensures c.held[h] <= Submitted(c, i, data).held[h] {
      assert HoldingOk(c, h, c.held[h]);
    }
  }

  lemma SubmitLogs(c: Cluster, i: NodeId, data: seq<Byte>)
    requires Shape(c) && ElectionInv(c) && LogInv(c)
    requires i < |c.nodes| && c.nodes[i].role == Leader && c.nodes[i].term in c.reigns
    ensures LogInv(Submitted(c, i, data))
  {
    var c' := Submitted(c, i, data);
    var n, n' := c.nodes[i], c'.nodes[i];
    assert NodeLog(c.reigns, n) && ReignLog(c.reigns, n.term, c.reigns[n.term]);
    assert ReignsGrow(c.reigns, c'.reigns);
    GenuineGrows(c.reigns, c'.reigns, n.log);
    forall k | 0 <= k < |n'.log| ensures Genuine(c'.reigns, n'.log, k) {
      if k < |n.log| {
        assert Genuine(c'.reigns, n.log, k);
        assert n'.log[..k + 1] == n.log[..k + 1];
      }
    }
    forall u | u in c'.reigns ensures ReignLog(c'.reigns, u, c'.reigns[u]) {
      assert ReignLog(c.reigns, u, c.reigns[u]);
      if u != n.term {
        ReignLogGrows(c.reigns, c'.reigns, u);
      }
    }
    forall k | 0 <= k < |c'.nodes| ensures NodeLog(c'.reigns, c'.nodes[k]) {
      if k != i {
        assert NodeLog(c.reigns, c.nodes[k]);
        GenuineGrows(c.reigns, c'.reigns, c.nodes[k].log);
      }
    }
  }

  lemma SubmitHoldings(c: Cluster, i: NodeId, data: seq<Byte>)
    requires Shape(c) && LogInv(c) && HeldInv(c)
    requires i < |c.nodes| && c.nodes[i].role == Leader && c.nodes[i].term in c.reigns
    requires Grows(c, Submitted(c, i, data))
    ensures var c' := Submitted(c, i, data); forall h | h in c'.held :: HoldingOk(c', h, c'.held[h])
  {
    var c', n := Submitted(c, i, data), c.nodes[i];
    assert NodeLog(c.reigns, n) && ReignLog(c.reigns, n.term, c.reigns[n.term]);
    forall h | h in c'.held ensures HoldingOk(c', h, c'.held[h]) {
      if h != Holding(n.term, i) {
        assert HoldingOk(c, h, c.held[h]);
      }
    }
  }

  lemma SubmitHeld(c: Cluster, i: NodeId, data: seq<Byte>)
    requires Shape(c) && ElectionInv(c) && LogInv(c) && HeldInv(c)
    requires i < |c.nodes| && c.nodes[i].role == Leader && c.nodes[i].term in c.reigns
    requires Shape(Submitted(c, i, data)) && Grows(c, Submitted(c, i, data))
    ensures HeldInv(Submitted(c, i, data))
  {
    var c' := Submitted(c, i, data);
    SubmitHoldings(c, i, data);
    forall k | 0 <= k < |c'.nodes| ensures LogIsLastHolding(c', k) {
      assert LogIsLastHolding(c, k);
    }
    forall t | t in c'.reigns ensures c.reigns[t].base <= |c'.reigns[t].log| {
      assert ReignLog(c.reigns, t, c.reigns[t]);
    }
    RaiseCovers(c, c', i, |c'.nodes[i].log|);
    PeersStay(c, c');
  }

  lemma SubmitElection(c: Cluster, i: NodeId, data: seq<Byte>)
    requires Shape(c) && ElectionInv(c)
    requires i < |c.nodes| && c.nodes[i].role == Leader && c.nodes[i].term in c.reigns
    ensures Shape(Submitted(c, i, data)) && ElectionInv(Submitted(c, i, data))
  {
    ShapeStays(c, Submitted(c, i, data));
    ElectionsStay(c, Submitted(c, i, data));
  }

  lemma SubmitKeeps(c: Cluster, i: NodeId, data: seq<Byte>)
    requires Inv(c) && Enabled(c, Submit(i, data))
    ensures Inv(Perform(c, Submit(i, data)))
  {
    var c' := Submitted(c, i, data);
    SubmitElection(c, i, data);
    SubmitGrows(c, i, data);
    SubmitLogs(c, i, data);
    SubmitHeld(c, i, data);
    assert CommitInv(c') by { CommitStays(c, c'); }
    assert NetInv(c') by { NetStays(c, c'); }
  }
}
