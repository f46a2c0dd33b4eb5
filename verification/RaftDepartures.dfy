// Where the server departs from the textbook algorithm: when a vote is forgotten, and what comes of it.

module RaftDepartures {
  import opened Basics
  import opened RaftNode
  import opened RaftCluster
  import opened RaftRuns
  import opened RaftBatches

  lemma HandlersKeepVote(n: Node, m: Message, slot: nat)
    requires n.votedFor.Some? && slot < |n.next| == |n.match_|
    ensures m.VoteRequest? ==>
      var n' := HandleRequestVote(n, m.src, m.term, m.lastIndex, m.lastTerm).node;
      n'.term == n.term ==> n'.votedFor == n.votedFor
    ensures m.AppendReply? ==>
      var n' := HandleAppendReply(n, slot, m.success, m.term, m.matchIndex);
      n'.term == n.term ==> n'.votedFor == n.votedFor
    ensures m.AppendRequest? ==>
      var n' := HandleAppendEntries(n, m.src, m.term, m.prevIndex, m.prevTerm, m.entries, m.commit).node;
      n'.term == n.term ==> (n'.votedFor != n.votedFor <==> m.term == n.term && n.role == Candidate)
  {
  }

  /** Of all the steps of a cluster only one makes a server forget its vote and stay in its term: an AppendEntries of
      that very term that reaches a candidate. */
  lemma VoteForgottenIff(c: Cluster, a: Action, x: NodeId)
    requires Shape(c) && Enabled(c, a) && x < |c.nodes| && c.nodes[x].votedFor.Some?
    requires Perform(c, a).nodes[x].term == c.nodes[x].term
    ensures Perform(c, a).nodes[x].votedFor != c.nodes[x].votedFor
        <==> a.OnAppendRequest? && a.m.dst == x && a.m.term == c.nodes[x].term && c.nodes[x].role == Candidate
  {
    match a
    case OnVoteRequest(m) => VoteKeptUnless(c, a, m, x);
    case OnAppendRequest(m) => VoteKeptUnless(c, a, m, x);
    case OnAppendReply(m) => VoteKeptUnless(c, a, m, x);
    case _ =>
  }

  lemma VoteKeptUnless(c: Cluster, a: Action, m: Message, x: NodeId)
    requires Shape(c) && Enabled(c, a) && x < |c.nodes| && c.nodes[x].votedFor.Some?
    requires a == OnVoteRequest(m) || a == OnAppendRequest(m) || a == OnAppendReply(m)
    requires Perform(c, a).nodes[x].term == c.nodes[x].term
    ensures Perform(c, a).nodes[x].votedFor != c.nodes[x].votedFor
        <==> a.OnAppendRequest? && m.dst == x && m.term == c.nodes[x].term && c.nodes[x].role == Candidate
  {
    if m.dst == x {
      assert ShapeOf(c, c.nodes[x], x);
      HandlersKeepVote(c.nodes[x], m, SlotOf(m.dst, m.src));
    }
  }

  // ------------------------------------------------------- two votes in one term

  /** What server 0 makes of the request with which the leader of term 2 finds it a candidate. */
  lemma RejectedAndForgotten(n: Node, leader: NodeId, e: Entry)
    requires n.role == Candidate && n.log == []
    ensures var o := HandleAppendEntries(n, leader, n.term, 1, 1, [e], 0);
      !o.success && o.node == n.(role := Follower, votedFor := None, leader := None)
  {
  }

  function Noop1(): Entry { Entry(1, 1, Noop, []) }

  function Noop2(): Entry { Entry(2, 2, Noop, []) }

  /** A cluster of five, all of them where they are expected to be. */
  predicate Five(s: Scene) {
    |s.nodes| == |s.votes| == 5 && forall k | 0 <= k < 5 :: s.nodes[k].peers == 4 && s.nodes[k].id == k
  }

  /** A server that no log entry has reached so far. */
  predicate Untouched(n: Node, term: nat, role: Role) { n.term == term && n.role == role && n.log == [] }

  predicate Alone(n: Node, term: nat, role: Role, log: seq<Entry>) {
    n.term == term && n.role == role && n.log == log && n.commit == 0
  }

  /** A candidate with the votes of the servers 3 and 4 wins. */
  lemma Elected(cs: seq<Cluster>, s: Scene) returns (r: seq<Cluster>, t: Scene)
    requires At(cs, s) && Five(s) && s.nodes[1].role == Candidate && s.votes[1] == {1} && s.nodes[1].term >= 1
    requires Untouched(s.nodes[3], s.nodes[1].term - 1, Follower)
    requires Untouched(s.nodes[4], s.nodes[1].term - 1, Follower)
    ensures At(r, t) && Five(t) && t.nodes[1] == BecomeLeader(s.nodes[1])
    ensures t.nodes[0] == s.nodes[0] && t.nodes[2] == s.nodes[2] && s.cast <= t.cast
    ensures Untouched(t.nodes[3], s.nodes[1].term, Follower) && Untouched(t.nodes[4], s.nodes[1].term, Follower)
  {
    r, t := Gather(cs, s, 1, 3);
    r, t := Gather(r, t, 1, 4);
    assert t.votes[1] == {1, 3, 4};
    r, t := Lead(r, t, 1);
  }

  /** Servers 3 and 4 elect server 1 in term 1; its no-op goes nowhere. */
  lemma FirstReign() returns (cs: seq<Cluster>, s: Scene)
    ensures At(cs, s) && Five(s) && Alone(s.nodes[1], 1, Follower, [Noop1()])
    ensures Untouched(s.nodes[0], 0, Follower) && Untouched(s.nodes[2], 0, Follower)
    ensures Untouched(s.nodes[3], 1, Follower) && Untouched(s.nodes[4], 1, Follower)
  {
    cs := Started(5);
    cs, s := StandUp(cs, Opening(5), 1);
    cs, s := Elected(cs, s);
    cs, s := GoDown(cs, s, 1);
  }

  /** A server stands twice. */
  lemma StandTwice(cs: seq<Cluster>, s: Scene, i: NodeId) returns (r: seq<Cluster>, t: Scene)
    requires At(cs, s) && Five(s) && i < 5 && Untouched(s.nodes[i], 0, Follower)
    ensures At(r, t) && Five(t) && Untouched(t.nodes[i], 2, Candidate)
    ensures forall k | 0 <= k < 5 && k != i :: t.nodes[k] == s.nodes[k] && t.votes[k] == s.votes[k]
    ensures s.cast <= t.cast && Ballot(2, i, i) in t.cast
  {
    r, t := StandUp(cs, s, i);
    r, t := StandUp(r, t, i);
  }

  /** In term 2 the servers 0, 1 and 2 stand, and server 1 wins again. */
  lemma SecondReign() returns (cs: seq<Cluster>, s: Scene)
    ensures At(cs, s) && Five(s) && Ballot(2, 0, 0) in s.cast
    ensures Untouched(s.nodes[0], 2, Candidate) && Untouched(s.nodes[2], 2, Candidate)
    ensures Alone(s.nodes[1], 2, Leader, [Noop1(), Noop2()]) && s.nodes[1].next == [2, 2, 2, 2]
  {
    cs, s := FirstReign();
    cs, s := StandTwice(cs, s, 0);
    cs, s := StandTwice(cs, s, 2);
    cs, s := StandUp(cs, s, 1);
    cs, s := Elected(cs, s);
  }

  /** "One vote per term" is false: there is a run of five servers in which server 0 votes for itself in term 2, is
      reached by the leader of term 2 and then votes for server 2 in term 2. */
  lemma TwoVotesInOneTerm() returns (cs: seq<Cluster>)
    ensures IsRun(cs)
    ensures Ballot(2, 0, 0) in cs[|cs| - 1].cast && Ballot(2, 0, 2) in cs[|cs| - 1].cast
  {
    var s;
    cs, s := SecondReign();
    assert BatchFor(s.nodes[1], 0) == Batch(1, 1, [Noop2()]);
    RejectedAndForgotten(s.nodes[0], 1, Noop2());
    cs, s := Ship(cs, s, 1, 0);
    cs, s := Gather(cs, s, 2, 0);
  }

  // ------------------------------------------------------------ a false report

  /** The log of the first leader after k entries. */
  function Common(k: nat): (log: seq<Entry>)
    ensures |log| == k && Indexed(log)
    ensures forall i | 0 <= i < k :: log[i].term == 1
  {
    if k == 0 then [] else LogAppend(Common(k - 1), 1, if k == 1 then Noop else Command, [])
  }

  /** A cluster of three. */
  predicate Three(s: Scene) {
    |s.nodes| == |s.votes| == 3 && forall k | 0 <= k < 3 ::
      && s.nodes[k].peers == 2 && s.nodes[k].id == k && |s.nodes[k].next| == |s.nodes[k].match_| == 2
      && s.nodes[k].commit == 0
  }

  predicate Holds(n: Node, term: nat, role: Role, log: seq<Entry>) {
    n.term == term && n.role == role && n.log == log
  }

  /** Server i stands and wins with the vote of a follower j that is behind in term and log. */
  lemma TakeOver(cs: seq<Cluster>, s: Scene, i: NodeId, j: NodeId) returns (r: seq<Cluster>, t: Scene)
    requires At(cs, s) && Three(s) && i < 3 && j < 3 && i != j && s.nodes[i].role == Follower
    requires s.nodes[j].role == Follower && s.nodes[j].term <= s.nodes[i].term && s.nodes[j].log == []
    ensures At(r, t) && Three(t) && Holds(t.nodes[j], s.nodes[i].term + 1, Follower, [])
    ensures Holds(t.nodes[i], s.nodes[i].term + 1, Leader, LogAppend(s.nodes[i].log, s.nodes[i].term + 1, Noop, []))
    ensures t.nodes[i].next == [|s.nodes[i].log| + 1, |s.nodes[i].log| + 1] && t.nodes[i].match_ == [0, 0]
    ensures forall k | 0 <= k < 3 && k != i && k != j :: t.nodes[k] == s.nodes[k]
  {
    r, t := StandUp(cs, s, i);
    r, t := Gather(r, t, i, j);
    assert t.votes[i] == {i, j};
    r, t := Lead(r, t, i);
  }

  /** The first leader takes commands until it has k entries. */
  lemma {:induction false} Orders(cs: seq<Cluster>, s: Scene, have: nat, k: nat) returns (r: seq<Cluster>, t: Scene)
    requires At(cs, s) && Three(s) && 1 <= have <= k && Holds(s.nodes[0], 1, Leader, Common(have))
    ensures At(r, t) && Three(t) && t.nodes == s.nodes[0 := s.nodes[0].(log := Common(k))] && t.votes == s.votes
    decreases k
  {
    if have == k {
      r, t := cs, s;
    } else {
      r, t := Orders(cs, s, have, k - 1);
      r, t := Order(r, t, 0, []);
    }
  }

  /** Server 0 leads term 1 and takes commands. */
  lemma Ordered(k: nat) returns (cs: seq<Cluster>, s: Scene)
    requires k > 0
    ensures At(cs, s) && Three(s) && s.nodes[0].next == [1, 1]
    ensures Holds(s.nodes[0], 1, Leader, Common(k)) && Holds(s.nodes[1], 1, Follower, [])
    ensures Holds(s.nodes[2], 0, Follower, [])
  {
    cs := Started(3);
    cs, s := TakeOver(cs, Opening(3), 0, 1);
    assert s.nodes[0].log == Common(1);
    cs, s := Orders(cs, s, 1, k);
  }

  /** It ships its k entries to server 1. */
  lemma Shipped(k: nat) returns (cs: seq<Cluster>, s: Scene)
    requires k > 0
    ensures At(cs, s) && Three(s)
    ensures Holds(s.nodes[0], 1, Leader, Common(k)) && Holds(s.nodes[1], 1, Follower, Common(k))
    ensures Holds(s.nodes[2], 0, Follower, [])
  {
    cs, s := Ordered(k);
    WholeLog(s.nodes[0], 0);
    StoredInEmpty(s.nodes[1], 0, s.nodes[0].log);
    cs, s := Ship(cs, s, 0, 0);
  }

  function Later(k: nat): seq<Entry> { Common(k) + [Entry(k + 1, 2, Noop, []), Entry(k + 2, 3, Noop, [])] }

  /** Server 0 has taken one more entry when server 1 wins term 2 and, after a crash, term 3. */
  lemma TwoMoreReigns(k: nat) returns (cs: seq<Cluster>, s: Scene)
    requires k > 0
    ensures At(cs, s) && Three(s)
    ensures Holds(s.nodes[0], 1, Leader, Common(k + 1))
    ensures Holds(s.nodes[1], 3, Leader, Later(k)) && s.nodes[1].next == [k + 2, k + 2]
    ensures s.nodes[1].match_ == [0, 0]
  {
    cs, s := Shipped(k);
    cs, s := Orders(cs, s, k, k + 1);
    cs, s := TakeOver(cs, s, 1, 2);
    cs, s := GoDown(cs, s, 1);
    cs, s := TakeOver(cs, s, 1, 2);
    assert s.nodes[1].log == Later(k);
  }

  /** The request with which the new leader starts finds another entry in front of its no-op. */
  lemma Refused(n: Node, k: nat)
    requires k > 0 && Holds(n, 1, Leader, Common(k + 1))
    ensures var o := HandleAppendEntries(n, 1, 3, k + 1, 2, [Entry(k + 2, 3, Noop, [])], 0);
      && !o.success && o.term == 3 && o.lastIndex == k + 1
      && o.node == n.(term := 3, role := Follower, votedFor := None, leader := Some(1))
  {
  }

  lemma FirstRequest(n: Node, k: nat)
    requires Holds(n, 3, Leader, Later(k)) && n.next == [k + 2, k + 2]
    ensures BatchFor(n, 0) == Batch(k + 1, 2, [Entry(k + 2, 3, Noop, [])])
  {
  }

  /** A leader of three that nobody has confirmed anything to only lowers its next index. */
  lemma BacksOff(n: Node, matchIndex: nat)
    requires n.role == Leader && n.peers == 2 && n.match_ == [0, 0] && |n.next| == 2 && n.next[0] > 1
    ensures HandleAppendReply(n, 0, false, n.term, matchIndex) == n.(next := n.next[0 := n.next[0] - 1])
  {
    var lower := n.(next := n.next[0 := n.next[0] - 1]);
    forall i | i > 0 ensures !Committable(lower, i) {
      assert Replicas([0, 0][..1], i) == 0;
    }
    if n.commit < |n.log| {
      GreatestCommittableIsGreatest(lower, n.commit, |n.log|);
    }
  }

  /** The refusal is delivered again and again. */
  lemma {:induction false} BackedOff(cs: seq<Cluster>, s: Scene, m: Message, k: nat) returns (r: seq<Cluster>, t: Scene)
    requires At(cs, s) && Three(s) && m in s.net && s.nodes[1].role == Leader && s.nodes[1].match_ == [0, 0]
    requires m.AppendReply? && m.src == 0 && m.dst == 1 && !m.success && m.term == s.nodes[1].term
    requires 1 <= k <= s.nodes[1].next[0]
    ensures At(r, t) && t.nodes == s.nodes[1 := s.nodes[1].(next := s.nodes[1].next[0 := k])]
    ensures t.votes == s.votes && t.net == s.net
    decreases s.nodes[1].next[0] - k
  {
    r, t := cs, s;
    if k < s.nodes[1].next[0] {
      r, t := BackedOff(cs, s, m, k + 1);
      BacksOff(t.nodes[1], m.matchIndex);
      r, t := Hear(r, t, m);
      assert s.nodes[1].next[0 := k + 1][0 := k] == s.nodes[1].next[0 := k];
    } else {
      assert s.nodes[1].next[0 := k] == s.nodes[1].next;
    }
  }

  /** The leader of term 3 is back at the beginning; server 0 still has its own last entry. */
  lemma FarBehind(k: nat) returns (cs: seq<Cluster>, s: Scene)
    requires k > 0
    ensures At(cs, s) && Three(s)
    ensures Holds(s.nodes[0], 3, Follower, Common(k + 1))
    ensures Holds(s.nodes[1], 3, Leader, Later(k)) && s.nodes[1].next[0] == 1
  {
    cs, s := TwoMoreReigns(k);
    FirstRequest(s.nodes[1], k);
    Refused(s.nodes[0], k);
    cs, s := Ship(cs, s, 1, 0);
    cs, s := BackedOff(cs, s, AppendReply(0, 1, 3, false, k + 1), 1);
  }

  lemma CutOfLater(n: Node, k: nat)
    requires Holds(n, 3, Leader, Later(k)) && |n.next| == 2 && n.next[0] == 1
    ensures CutBatch(n, 0, k) == Batch(0, 0, Common(k)) && Common(k + 1)[..k] == Common(k)
  {
  }

  lemma TakesCommon(n: Node, leader: NodeId, k: nat)
    requires k > 0 && Holds(n, 3, Follower, Common(k + 1))
    ensures var o := HandleAppendEntries(n, leader, 3, 0, 0, Common(k), 0);
      o.success && o.lastIndex == k + 1 && o.node.log == Common(k + 1)
  {
    MergeOwn(Common(k + 1), 0, k);
    assert Common(k + 1)[0..k] == Common(k);
  }

  /** The danger is real: for every limit k there is a run of three servers at whose end a leader's batch of at most
      k entries is accepted by a follower that then reports an index where it has another entry than the leader. */
  lemma CutMisreports(k: nat) returns (cs: seq<Cluster>)
    requires k > 0
    ensures IsRun(cs)
    ensures var c := cs[|cs| - 1];
      && |c.nodes| == 3 && c.nodes[1].role == Leader && c.nodes[0].term == c.nodes[1].term
      && |c.nodes[1].next| == 2 && c.nodes[1].next[0] == 1
      && var o := Outcome(c.nodes[1], CutBatch(c.nodes[1], 0, k), c.nodes[0]);
      && o.success && 1 <= o.lastIndex <= |o.node.log| && o.lastIndex <= |c.nodes[1].log|
      && o.node.log[o.lastIndex - 1] != c.nodes[1].log[o.lastIndex - 1]
  {
    var s;
    cs, s := FarBehind(k);
    CutOfLater(s.nodes[1], k);
    TakesCommon(s.nodes[0], 1, k);
    assert Common(k + 1)[k].term == 1 && Later(k)[k].term == 2;
  }

  /** So it is for the batch of a hundred. */
  lemma CappedBatchMisreports() returns (cs: seq<Cluster>)
    ensures IsRun(cs)
    ensures var c := cs[|cs| - 1];
      && |c.nodes| == 3 && c.nodes[1].role == Leader && c.nodes[0].term == c.nodes[1].term
      && |c.nodes[1].next| == 2 && c.nodes[1].next[0] >= 1
      && var o := Outcome(c.nodes[1], CappedBatchFor(c.nodes[1], 0), c.nodes[0]);
      && o.success && 1 <= o.lastIndex <= |o.node.log| && o.lastIndex <= |c.nodes[1].log|
      && o.node.log[o.lastIndex - 1] != c.nodes[1].log[o.lastIndex - 1]
  {
    cs := CutMisreports(BATCH_LIMIT);
    CappedIsCut(cs[|cs| - 1].nodes[1], 0);
  }
}
