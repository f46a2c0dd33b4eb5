// No run paints itself into a corner: whatever has happened so far, a run can go on so that every server applies a
// given command.  The continuation restarts all servers, elects the one with the best log, brings the others up to
// date, commits and applies.

module RaftRecovery {
  import opened Basics
  import opened RaftNode
  import opened RaftCluster
  import opened RaftInvariant
  import opened RaftSteps
  import opened RaftReplication
  import opened RaftSafety
  import opened RaftAnswers
  import opened RaftRuns

  /** Everybody has its number and its peer arrays. */
  predicate Sized(s: Scene) {
    |s.nodes| == |s.votes| > 0 && forall k | 0 <= k < |s.nodes| :: Own(s.nodes[k], k, |s.nodes|)
  }

  predicate Own(n: Node, k: nat, size: nat) {
    n.id == k && n.peers + 1 == size && |n.next| == |n.match_| == n.peers
  }

  lemma SizedNow(cs: seq<Cluster>, s: Scene)
    requires At(cs, s)
    ensures Sized(s)
  {
    forall k | 0 <= k < |s.nodes|
      ensures Own(s.nodes[k], k, |s.nodes|)
    {
      assert ShapeOf(Last(cs), s.nodes[k], k);
    }
  }

  // --------------------------------------------------------------- restarting

  /** The first k servers restart. */
  lemma {:induction false} AllDown(cs: seq<Cluster>, s: Scene, k: nat) returns (r: seq<Cluster>, t: Scene)
    requires At(cs, s) && k <= |s.nodes| == |s.votes|
    ensures cs <= r && At(r, t) && |t.nodes| == |t.votes| == |s.nodes|
    ensures forall i | 0 <= i < |s.nodes| :: t.nodes[i] == if i < k then Restart(s.nodes[i]) else s.nodes[i]
  {
    r, t := cs, s;
    if k > 0 {
      r, t := AllDown(cs, s, k - 1);
      r, t := GoDown(r, t, k - 1);
    }
  }

  // ----------------------------------------------------------------- electing

  function Candidacy(n: Node, term: nat): Node {
    n.(term := term, role := Candidate, votedFor := Some(n.id), leader := None)
  }

  /** A server stands until it has reached the term. */
  lemma {:induction false} Rise(cs: seq<Cluster>, s: Scene, i: NodeId, term: nat) returns (r: seq<Cluster>, t: Scene)
    requires At(cs, s) && i < |s.nodes| == |s.votes| && s.nodes[i].term < term
    requires s.nodes[i].role != Leader && Majority(s.nodes[i].peers) > 1
    ensures cs <= r && At(r, t)
    ensures t.nodes == s.nodes[i := Candidacy(s.nodes[i], term)] && t.votes == s.votes[i := {i}]
    decreases term - s.nodes[i].term
  {
    SizedNow(cs, s);
    r, t := StandUp(cs, s, i);
    if s.nodes[i].term + 1 < term {
      ghost var mid := t;
      r, t := Rise(r, t, i, term);
      assert mid.nodes[i := Candidacy(s.nodes[i], term)] == s.nodes[i := Candidacy(s.nodes[i], term)];
      assert mid.votes[i := {i}] == s.votes[i := {i}];
    }
  }

  function Voted(n: Node, candidate: NodeId, term: nat): Node {
    n.(term := term, role := Follower, votedFor := Some(candidate), leader := None)
  }

  function Below(k: nat): (r: set<NodeId>)
    ensures |r| == k && forall j: nat :: j in r <==> j < k
  {
    if k == 0 then {} else Below(k - 1) + {k - 1}
  }

  /** Server i may count on everybody's vote. */
  predicate Favourite(s: Scene, i: NodeId) {
    i < |s.nodes| == |s.votes| && s.nodes[i].role == Candidate && s.votes[i] == {i}
    && forall j | 0 <= j < |s.nodes| && j != i :: s.nodes[j].term < s.nodes[i].term && NoOlder(s.nodes, i, j)
  }

  /** What the scene s has become once the first k servers have voted for server i. */
  predicate VotedUpTo(s: Scene, t: Scene, i: NodeId, k: nat)
    requires i < |s.nodes|
  {
    && |t.nodes| == |t.votes| == |s.nodes| && t.votes[i] == {i} + Below(k)
    && forall j | 0 <= j < |s.nodes| ::
         t.nodes[j] == if j < k && j != i then Voted(s.nodes[j], i, s.nodes[i].term) else s.nodes[j]
  }

  lemma GatherNext(cs: seq<Cluster>, s: Scene, i: NodeId, k: nat, now: Scene) returns (r: seq<Cluster>, t: Scene)
    requires Favourite(s, i) && At(cs, now) && k < |s.nodes| && VotedUpTo(s, now, i, k)
    ensures cs <= r && At(r, t) && VotedUpTo(s, t, i, k + 1)
  {
    r, t := cs, now;
    BelowOneMore(i, k);
    if k != i {
      VotesFor(s, i, k);
      r, t := Gather(cs, now, i, k);
    }
  }

  lemma BelowOneMore(i: NodeId, k: nat)
    ensures {i} + Below(k + 1) == if k == i then {i} + Below(k) else {i} + Below(k) + {k}
  {
  }

  lemma VotesFor(s: Scene, i: NodeId, k: nat)
    requires Favourite(s, i) && k < |s.nodes| && k != i
    ensures Voting(s, i, k) == VoteOutcome(Voted(s.nodes[k], i, s.nodes[i].term), true, s.nodes[i].term)
  {
    assert NoOlder(s.nodes, i, k);
    VoteAnswer(s.nodes[k], i, s.nodes[i].term, |s.nodes[i].log|, LastTerm(s.nodes[i].log));
  }

  /** The first k servers vote for it. */
  lemma {:induction false} GatherUp(cs: seq<Cluster>, s: Scene, i: NodeId, k: nat) returns (r: seq<Cluster>, t: Scene)
    requires At(cs, s) && Favourite(s, i) && k <= |s.nodes|
    ensures cs <= r && At(r, t) && VotedUpTo(s, t, i, k)
  {
    r, t := cs, s;
    if k > 0 {
      r, t := GatherUp(cs, s, i, k - 1);
      r, t := GatherNext(r, s, i, k - 1, t);
    }
  }

  /** Server i leads the term with this log, everybody else follows in the term, and nobody has applied anything. */
  predicate Led(s: Scene, i: NodeId, term: nat, log: seq<Entry>) {
    Sized(s) && i < |s.nodes| && s.nodes[i].role == Leader && s.nodes[i].log == log
    && (forall j | 0 <= j < |s.nodes| :: s.nodes[j].term == term && s.nodes[j].applied == 0)
    && (forall j | 0 <= j < |s.nodes| && j != i :: s.nodes[j].role == Follower)
  }

  function TopTerm(nodes: seq<Node>): (t: nat)
    ensures forall j | 0 <= j < |nodes| :: nodes[j].term <= t
  {
    if nodes == [] then 0
    else
      var t := TopTerm(nodes[..|nodes| - 1]);
      if nodes[|nodes| - 1].term > t then nodes[|nodes| - 1].term else t
  }

  /** Of servers that are all down the one with the best log is elected. */
  lemma ElectBest(cs: seq<Cluster>, s: Scene) returns (r: seq<Cluster>, t: Scene, i: NodeId)
    requires At(cs, s) && Sized(s) && |s.nodes| > 1
    requires forall j | 0 <= j < |s.nodes| :: s.nodes[j].role == Follower && s.nodes[j].applied == 0
    ensures cs <= r && At(r, t) && |t.nodes| == |s.nodes| && i < |t.nodes|
    ensures Led(t, i, t.nodes[i].term, t.nodes[i].log)
  {
    i := BestLog(s.nodes, |s.nodes|);
    var term := TopTerm(s.nodes) + 1;
    r, t := Rise(cs, s, i, term);
    BecomesFavourite(s, t, i, term);
    r, t := Favoured(r, t, i);
  }

  lemma BecomesFavourite(s: Scene, t: Scene, i: NodeId, term: nat)
    requires i < |s.nodes| == |s.votes| && t.votes == s.votes[i := {i}]
    requires t.nodes == s.nodes[i := Candidacy(s.nodes[i], term)]
    requires forall j | 0 <= j < |s.nodes| :: s.nodes[j].term < term && NoOlder(s.nodes, i, j)
    ensures Favourite(t, i)
  {
    forall j | 0 <= j < |t.nodes| && j != i
      ensures NoOlder(t.nodes, i, j)
    {
      assert NoOlder(s.nodes, i, j);
    }
  }

  lemma Favoured(cs: seq<Cluster>, s: Scene, i: NodeId) returns (r: seq<Cluster>, t: Scene)
    requires At(cs, s) && Sized(s) && Favourite(s, i) && forall j | 0 <= j < |s.nodes| :: s.nodes[j].applied == 0
    ensures cs <= r && At(r, t) && |t.nodes| == |s.nodes|
    ensures Led(t, i, t.nodes[i].term, t.nodes[i].log)
  {
    r, t := GatherUp(cs, s, i, |s.nodes|);
    assert {i} + Below(|s.nodes|) == Below(|s.nodes|);
    assert Own(s.nodes[i], i, |s.nodes|);
    r, t := Lead(r, t, i);
    SizedNow(r, t);
  }

  /** Alone a server elects itself. */
  lemma ElectAlone(cs: seq<Cluster>, s: Scene) returns (r: seq<Cluster>, t: Scene, i: NodeId)
    requires At(cs, s) && Sized(s) && |s.nodes| == 1 && s.nodes[0].role == Follower && s.nodes[0].applied == 0
    ensures cs <= r && At(r, t) && |t.nodes| == |s.nodes| && i < |t.nodes|
    ensures Led(t, i, t.nodes[i].term, t.nodes[i].log)
  {
    i := 0;
    r := Step(cs, Timeout(0));
    t := Scene(Last(r).nodes, Last(r).votes, {}, {}, {});
    SizedNow(r, t);
  }

  // -------------------------------------------------------- bringing up to date

  /** What the invariant says of a leader's peer arrays and of commit indices. */
  lemma Bounds(cs: seq<Cluster>, s: Scene, i: NodeId)
    requires At(cs, s) && i < |s.nodes|
    ensures s.nodes[i].commit <= |s.nodes[i].log|
    ensures s.nodes[i].role == Leader ==>
      forall slot | 0 <= slot < |s.nodes[i].next| :: 1 <= s.nodes[i].next[slot] <= |s.nodes[i].log| + 1
  {
    SizedNow(cs, s);
    RunInv(cs, |cs| - 1);
    var c := Last(cs);
    assert CommitOk(c, c.nodes[i]) && PeersKnown(c, c.nodes[i]);
  }

  lemma SuffixReachesEnd(n: Node, slot: nat)
    requires slot < |n.next| && 1 <= n.next[slot] <= |n.log| + 1
    ensures var b := BatchFor(n, slot); b.prevIndex + |b.entries| == |n.log| && b.prevIndex == n.next[slot] - 1
  {
  }

  /** A leader's request is a piece of its log, and of its reign's, to the end. */
  lemma SuffixIsGenuine(c: Cluster, i: NodeId, slot: nat)
    requires Shape(c) && LogInv(c) && HeldInv(c) && Enabled(c, Replicate(i, slot)) && slot < |c.nodes[i].next|
    ensures var n := c.nodes[i]; var m := AppendRequestFrom(n, slot);
      && RequestLog(c.reigns, m) && n.log == c.reigns[n.term].log && m.prevIndex + |m.entries| == |n.log|
  {
    var n := c.nodes[i];
    BatchReachesNoop(c, i, slot);
    assert NodeLog(c.reigns, n) && PeersKnown(c, n);
    SuffixReachesEnd(n, slot);
  }

  lemma FollowersLog(c: Cluster, j: NodeId)
    requires LogInv(c) && j < |c.nodes|
    ensures NodeLog(c.reigns, c.nodes[j].(role := Follower))
  {
    assert NodeLog(c.reigns, c.nodes[j]);
  }

  /** A follower of the leader's term that takes its suffix has the leader's log. */
  lemma TakesWhole(c: Cluster, i: NodeId, slot: nat, j: NodeId)
    requires Shape(c) && LogInv(c) && HeldInv(c)
    requires Enabled(c, Replicate(i, slot)) && slot < |c.nodes[i].next| && j < |c.nodes|
    requires c.nodes[j].term == c.nodes[i].term
    requires PrevMatches(c.nodes[j].log, BatchFor(c.nodes[i], slot).prevIndex, BatchFor(c.nodes[i], slot).prevTerm)
    ensures MergeEntries(c.nodes[j].log, BatchFor(c.nodes[i], slot).entries) == c.nodes[i].log
  {
    SuffixIsGenuine(c, i, slot);
    FollowersLog(c, j);
    StoredIsWhole(c, c.nodes[j].(role := Follower), AppendRequestFrom(c.nodes[i], slot));
  }

  /** A genuine request that reaches the end of the leader's log leaves exactly that log. */
  lemma StoredIsWhole(c: Cluster, n: Node, m: Message)
    requires LogInv(c) && NodeLog(c.reigns, n) && m.AppendRequest? && RequestLog(c.reigns, m)
    requires m.term == n.term && PrevMatches(n.log, m.prevIndex, m.prevTerm)
    requires m.prevIndex + |m.entries| == |c.reigns[n.term].log|
    ensures MergeEntries(n.log, m.entries) == c.reigns[n.term].log
  {
    StoredIsPrefix(c, n, m);
    StoredReachesEnd(c, n, m);
  }

  function Request(s: Scene, i: NodeId, slot: nat): Message
    requires i < |s.nodes| && slot < |s.nodes[i].next|
  {
    AppendRequestFrom(s.nodes[i], slot)
  }

  /** What the peer makes of the next request: it has the leader's log, or nothing has changed but the leader it
      knows. */
  lemma PeerAnswers(cs: seq<Cluster>, s: Scene, i: NodeId, slot: nat, term: nat, log: seq<Entry>)
    requires At(cs, s) && Led(s, i, term, log) && slot < s.nodes[i].peers
    ensures var j := PeerAt(i, slot);
      && j < |s.nodes| && j != i && SlotOf(i, j) == slot && s.nodes[i].id == i && Request(s, i, slot).dst == j
    ensures var m, n := Request(s, i, slot), s.nodes[PeerAt(i, slot)];
      var o := Taking(s, m);
      && o.term == term
      && (o.success ==> o.node == n.(log := log, commit := o.node.commit, leader := Some(i)) && o.lastIndex == |log|)
      && (o.success && m.commit == |log| && n.commit <= |log| ==> o.node.commit == |log|)
      && (!o.success ==> o.node == n.(leader := Some(i)))
      && (o.success <==> PrevMatches(n.log, m.prevIndex, m.prevTerm))
  {
    RunInv(cs, |cs| - 1);
    var j := PeerAt(i, slot);
    assert Own(s.nodes[i], i, |s.nodes|);
    PeerAtRange(s.nodes[i], slot, Last(cs));
    if PrevMatches(s.nodes[j].log, Request(s, i, slot).prevIndex, Request(s, i, slot).prevTerm) {
      TakesWhole(Last(cs), i, slot, j);
    }
  }

  /** Peer `slot` has the whole log and the leader knows. */
  predicate Synced(s: Scene, i: NodeId, slot: nat)
    requires i < |s.nodes|
  {
    var n := s.nodes[i];
    && slot < |n.next| == |n.match_| && PeerAt(i, slot) < |s.nodes|
    && n.match_[slot] == |n.log| && n.next[slot] == |n.log| + 1 && s.nodes[PeerAt(i, slot)].log == n.log
  }

  /** Only the leader's book-keeping and the peer behind the slot have changed. */
  predicate OnlySlot(s: Scene, t: Scene, i: NodeId, slot: nat) {
    && |t.nodes| == |s.nodes| && i < |s.nodes|
    && |t.nodes[i].next| == |t.nodes[i].match_| == |s.nodes[i].next| == |s.nodes[i].match_|
    && (forall k | 0 <= k < |s.nodes[i].next| && k != slot ::
          t.nodes[i].next[k] == s.nodes[i].next[k] && t.nodes[i].match_[k] == s.nodes[i].match_[k])
    && (forall k | 0 <= k < |s.nodes| && k != i && k != PeerAt(i, slot) :: t.nodes[k] == s.nodes[k])
  }

  /** The request reaches the peer and the reply is on its way. */
  lemma Reach(cs: seq<Cluster>, s: Scene, i: NodeId, slot: nat, term: nat, log: seq<Entry>)
    returns (r: seq<Cluster>, t: Scene, ok: bool, index: nat)
    requires At(cs, s) && Led(s, i, term, log) && slot < s.nodes[i].peers
    ensures cs <= r && At(r, t) && Led(t, i, term, log) && OnlySlot(s, t, i, slot) && t.nodes[i] == s.nodes[i]
    ensures PeerAt(i, slot) < |t.nodes| && AppendReply(PeerAt(i, slot), i, term, ok, index) in t.net
    ensures ok ==> t.nodes[PeerAt(i, slot)].log == log && index == |log|
    ensures s.nodes[i].next[slot] == 1 ==> ok
  {
    PeerAnswers(cs, s, i, slot, term, log);
    var o := Taking(s, Request(s, i, slot));
    ok, index := o.success, o.lastIndex;
    r, t := Ship(cs, s, i, slot);
    SizedNow(r, t);
  }

  /** The leader hears of it. */
  lemma Report(cs: seq<Cluster>, s: Scene, i: NodeId, slot: nat, term: nat, log: seq<Entry>, ok: bool, index: nat)
    returns (r: seq<Cluster>, t: Scene)
    requires At(cs, s) && Led(s, i, term, log) && slot < s.nodes[i].peers
    requires PeerAt(i, slot) < |s.nodes| && AppendReply(PeerAt(i, slot), i, term, ok, index) in s.net
    requires ok ==> s.nodes[PeerAt(i, slot)].log == log && index == |log|
    requires !ok ==> s.nodes[i].next[slot] > 1
    ensures cs <= r && At(r, t) && Led(t, i, term, log) && OnlySlot(s, t, i, slot)
    ensures if ok then Synced(t, i, slot) else t.nodes[i].next[slot] < s.nodes[i].next[slot]
  {
    assert Own(s.nodes[i], i, |s.nodes|);
    ReplyAnswer(s.nodes[i], slot, ok, term, index);
    r, t := Hear(cs, s, AppendReply(PeerAt(i, slot), i, term, ok, index));
    SizedNow(r, t);
  }

  /** A request and its reply: afterwards the peer is up to date, or the leader looks one entry further back. */
  lemma Exchange(cs: seq<Cluster>, s: Scene, i: NodeId, slot: nat, term: nat, log: seq<Entry>)
    returns (r: seq<Cluster>, t: Scene)
    requires At(cs, s) && Led(s, i, term, log) && slot < s.nodes[i].peers
    ensures cs <= r && At(r, t) && Led(t, i, term, log) && OnlySlot(s, t, i, slot)
    ensures Synced(t, i, slot) || t.nodes[i].next[slot] < s.nodes[i].next[slot]
  {
    var ok, index;
    Bounds(cs, s, i);
    r, t, ok, index := Reach(cs, s, i, slot, term, log);
    r, t := Report(r, t, i, slot, term, log, ok, index);
  }

  lemma {:induction false} SyncSlot(cs: seq<Cluster>, s: Scene, i: NodeId, slot: nat, term: nat, log: seq<Entry>)
    returns (r: seq<Cluster>, t: Scene)
    requires At(cs, s) && Led(s, i, term, log) && slot < s.nodes[i].peers
    ensures cs <= r && At(r, t) && Led(t, i, term, log) && OnlySlot(s, t, i, slot) && Synced(t, i, slot)
    decreases s.nodes[i].next[slot]
  {
    r, t := Exchange(cs, s, i, slot, term, log);
    if !Synced(t, i, slot) {
      r, t := SyncSlot(r, t, i, slot, term, log);
    }
  }

  lemma {:induction false} SyncAll(cs: seq<Cluster>, s: Scene, i: NodeId, term: nat, log: seq<Entry>, k: nat)
    returns (r: seq<Cluster>, t: Scene)
    requires At(cs, s) && Led(s, i, term, log) && k <= s.nodes[i].peers
    ensures cs <= r && At(r, t) && Led(t, i, term, log) && |t.nodes| == |s.nodes|
    ensures forall slot | 0 <= slot < k :: Synced(t, i, slot)
  {
    r, t := cs, s;
    if k > 0 {
      r, t := SyncAll(cs, s, i, term, log, k - 1);
      ghost var before := t;
      r, t := SyncSlot(r, t, i, k - 1, term, log);
      forall slot | 0 <= slot < k
        ensures Synced(t, i, slot)
      {
        if slot < k - 1 {
          assert Synced(before, i, slot);
        }
      }
    }
  }

  // ----------------------------------------------------------------- committing

  lemma {:induction false} AllHold(match_: seq<nat>, index: nat)
    requires forall j | 0 <= j < |match_| :: match_[j] >= index
    ensures |KnownHolders(match_, index)| == |match_|
  {
    if match_ != [] {
      AllHold(match_[..|match_| - 1], index);
      assert KnownHolders(match_, index) == KnownHolders(match_[..|match_| - 1], index) + {|match_| - 1};
    }
  }

  /** With everybody up to date the leader commits its whole log. */
  lemma CommitAll(cs: seq<Cluster>, s: Scene, i: NodeId, term: nat, log: seq<Entry>)
    returns (r: seq<Cluster>, t: Scene)
    requires At(cs, s) && Led(s, i, term, log) && log != [] && log[|log| - 1].term == term
    requires forall slot | 0 <= slot < s.nodes[i].peers :: Synced(s, i, slot)
    ensures cs <= r && At(r, t) && Led(t, i, term, log) && |t.nodes| == |s.nodes| && t.nodes[i].commit == |log|
    ensures forall slot | 0 <= slot < t.nodes[i].peers :: Synced(t, i, slot)
  {
    var n := s.nodes[i];
    assert Own(n, i, |s.nodes|);
    forall j | 0 <= j < |n.match_|
      ensures n.match_[j] >= |log|
    {
      assert Synced(s, i, j);
    }
    AllHold(n.match_, |log|);
    CommitAnswer(n);
    assert HeldByMajority(n, |log|);
    r, t := Settle(cs, s, i);
    SizedNow(r, t);
    Bounds(r, t, i);
    forall slot | 0 <= slot < t.nodes[i].peers
      ensures Synced(t, i, slot)
    {
      assert Synced(s, i, slot);
    }
  }

  /** Everybody is up to date and the leader has committed everything. */
  predicate Decisive(s: Scene, i: NodeId, term: nat, log: seq<Entry>) {
    Led(s, i, term, log) && log != [] && s.nodes[i].commit == |log|
    && forall slot | 0 <= slot < s.nodes[i].peers :: Synced(s, i, slot)
  }

  lemma Tell(cs: seq<Cluster>, s: Scene, i: NodeId, term: nat, log: seq<Entry>, slot: nat)
    returns (r: seq<Cluster>, t: Scene)
    requires At(cs, s) && Decisive(s, i, term, log) && slot < s.nodes[i].peers
    ensures cs <= r && At(r, t) && Decisive(t, i, term, log) && t.nodes[i] == s.nodes[i] && OnlySlot(s, t, i, slot)
    ensures PeerAt(i, slot) < |t.nodes| && t.nodes[PeerAt(i, slot)].commit == |log|
  {
    assert Synced(s, i, slot);
    PeerAnswers(cs, s, i, slot, term, log);
    Bounds(cs, s, PeerAt(i, slot));
    r, t := Ship(cs, s, i, slot);
    SizedNow(r, t);
    forall k | 0 <= k < t.nodes[i].peers
      ensures Synced(t, i, k)
    {
      assert Synced(s, i, k);
    }
  }

  /** The first k peers learn what is committed. */
  lemma {:induction false} TellAll(cs: seq<Cluster>, s: Scene, i: NodeId, term: nat, log: seq<Entry>, k: nat)
    returns (r: seq<Cluster>, t: Scene)
    requires At(cs, s) && Decisive(s, i, term, log) && k <= s.nodes[i].peers
    ensures cs <= r && At(r, t) && Decisive(t, i, term, log) && |t.nodes| == |s.nodes| && t.nodes[i] == s.nodes[i]
    ensures forall slot | 0 <= slot < k :: PeerAt(i, slot) < |t.nodes| && t.nodes[PeerAt(i, slot)].commit == |log|
  {
    r, t := cs, s;
    if k > 0 {
      r, t := TellAll(cs, s, i, term, log, k - 1);
      r, t := Tell(r, t, i, term, log, k - 1);
    }
  }

  lemma EverybodyKnows(cs: seq<Cluster>, s: Scene, i: NodeId, term: nat, log: seq<Entry>)
    returns (r: seq<Cluster>, t: Scene)
    requires At(cs, s) && Decisive(s, i, term, log)
    ensures cs <= r && At(r, t) && |t.nodes| == |s.nodes|
    ensures forall j | 0 <= j < |t.nodes| ::
      t.nodes[j].commit == |log| && t.nodes[j].log == log && t.nodes[j].applied == 0
  {
    r, t := TellAll(cs, s, i, term, log, s.nodes[i].peers);
    assert Own(t.nodes[i], i, |t.nodes|);
    forall j | 0 <= j < |t.nodes|
      ensures t.nodes[j].commit == |log| && t.nodes[j].log == log && t.nodes[j].applied == 0
    {
      if j != i {
        var slot := SlotOf(i, j);
        assert PeerAt(i, slot) == j && Synced(t, i, slot);
      }
    }
  }

  // ------------------------------------------------------------------- applying

  /** Server j applies what it has committed. */
  lemma {:induction false} ApplyUp(cs: seq<Cluster>, s: Scene, j: NodeId, goal: nat) returns (r: seq<Cluster>, t: Scene)
    requires At(cs, s) && j < |s.nodes| && s.nodes[j].applied < goal <= s.nodes[j].commit && goal <= |s.nodes[j].log|
    requires s.nodes[j].log[goal - 1].kind != Noop
    ensures cs <= r && At(r, t) && |t.nodes| == |s.nodes| && s.done <= t.done
    ensures forall k | 0 <= k < |s.nodes| && k != j :: t.nodes[k] == s.nodes[k]
    ensures Application(j, goal, s.nodes[j].log[goal - 1]) in t.done
    decreases goal - s.nodes[j].applied
  {
    r, t := HandOver(cs, s, j);
    if s.nodes[j].applied + 1 < goal {
      r, t := ApplyUp(r, t, j, goal);
    }
  }

  predicate HasApplied(done: set<Application>, j: NodeId, index: nat, entry: Entry) {
    Application(j, index, entry) in done
  }

  lemma {:induction false} ApplyAll(cs: seq<Cluster>, s: Scene, index: nat, entry: Entry, k: nat)
    returns (r: seq<Cluster>, t: Scene)
    requires At(cs, s) && k <= |s.nodes| && 0 < index && entry.kind != Noop
    requires forall j | 0 <= j < |s.nodes| ::
      && s.nodes[j].commit == index == |s.nodes[j].log| && s.nodes[j].log[index - 1] == entry
      && s.nodes[j].applied == 0
    ensures cs <= r && At(r, t) && |t.nodes| == |s.nodes|
    ensures forall j | k <= j < |s.nodes| :: t.nodes[j] == s.nodes[j]
    ensures forall j | 0 <= j < k :: HasApplied(t.done, j, index, entry)
  {
    r, t := cs, s;
    if k > 0 {
      ghost var before;
      r, before := ApplyAll(cs, s, index, entry, k - 1);
      r, t := ApplyUp(r, before, k - 1, index);
      forall j | 0 <= j < k
        ensures HasApplied(t.done, j, index, entry)
      {
        assert j < k - 1 ==> HasApplied(before.done, j, index, entry);
      }
    }
  }

  // ------------------------------------------------------------------ the result

  /** From any point of any run some server can be elected. */
  lemma SomebodyLeads(cs: seq<Cluster>) returns (r: seq<Cluster>, t: Scene, i: NodeId)
    requires IsRun(cs)
    ensures cs <= r && At(r, t) && |t.nodes| == |Last(cs).nodes| && i < |t.nodes|
    ensures Led(t, i, t.nodes[i].term, t.nodes[i].log)
  {
    RunInv(cs, |cs| - 1);
    t := Scene(Last(cs).nodes, Last(cs).votes, {}, {}, {});
    r, t := AllDown(cs, t, |t.nodes|);
    SizedNow(r, t);
    if |t.nodes| == 1 {
      r, t, i := ElectAlone(r, t);
    } else {
      r, t, i := ElectBest(r, t);
    }
  }

  /** It takes the command, everybody gets it and knows that it is committed. */
  lemma EverybodyHasIt(cs: seq<Cluster>, s: Scene, i: NodeId, data: seq<Byte>)
    returns (r: seq<Cluster>, t: Scene, log: seq<Entry>)
    requires At(cs, s) && i < |s.nodes| && Led(s, i, s.nodes[i].term, s.nodes[i].log)
    ensures cs <= r && At(r, t) && |t.nodes| == |s.nodes|
    ensures log == s.nodes[i].log + [Entry(|s.nodes[i].log| + 1, s.nodes[i].term, Command, data)]
    ensures forall j | 0 <= j < |t.nodes| ::
      t.nodes[j].commit == |log| && t.nodes[j].log == log && t.nodes[j].applied == 0
  {
    var term := s.nodes[i].term;
    log := s.nodes[i].log + [Entry(|s.nodes[i].log| + 1, term, Command, data)];
    r, t := Order(cs, s, i, data);
    SizedNow(r, t);
    r, t := SyncAll(r, t, i, term, log, t.nodes[i].peers);
    r, t := CommitAll(r, t, i, term, log);
    r, t := EverybodyKnows(r, t, i, term, log);
  }

  /** Whatever has happened, and whatever the command, the run can go on so that every server applies the command as
      the same entry. */
  lemma CommandsCanAlwaysGetThrough(cs: seq<Cluster>, data: seq<Byte>)
    returns (r: seq<Cluster>, index: nat, term: nat)
    requires IsRun(cs)
    ensures IsRun(r) && cs <= r
    ensures forall j | 0 <= j < |cs[|cs| - 1].nodes| ::
      Application(j, index, Entry(index, term, Command, data)) in r[|r| - 1].applications
  {
    var t, i, log;
    r, t, i := SomebodyLeads(cs);
    term := t.nodes[i].term;
    r, t, log := EverybodyHasIt(r, t, i, data);
    index := |log|;
    var entry := Entry(index, term, Command, data);
    r, t := ApplyAll(r, t, index, entry, |t.nodes|);
    forall j | 0 <= j < |t.nodes|
      ensures Application(j, index, entry) in Last(r).applications
    {
      assert HasApplied(t.done, j, index, entry);
    }
  }
}
