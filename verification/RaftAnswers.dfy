// What the handlers answer, said without their own vocabulary, and what that comes to over runs.

module RaftAnswers {
  import opened Basics
  import opened RaftNode
  import opened RaftCluster
  import opened RaftInvariant
  import opened RaftSteps
  import opened RaftReplication
  import opened RaftSafety

  // ----------------------------------------------------------------- votes

  /** The vote is granted exactly when the request is not of an older term, the vote is free or already the
      candidate's, and the candidate's last entry is of a later term, or of the same term in a log that is no
      shorter. */
  lemma VoteAnswer(n: Node, candidate: NodeId, term: nat, lastIndex: nat, lastTerm: nat)
    ensures var o := HandleRequestVote(n, candidate, term, lastIndex, lastTerm);
      var own := if |n.log| == 0 then 0 else n.log[|n.log| - 1].term;
      && (o.granted <==>
            && term >= n.term
            && (term > n.term || n.votedFor == None || n.votedFor == Some(candidate))
            && (lastTerm > own || (lastTerm == own && lastIndex >= |n.log|)))
      && o.term == (if term > n.term then term else n.term)
      && o.node == n.(
           term := o.term,
           votedFor := if o.granted then Some(candidate) else if term > n.term then None else n.votedFor,
           role := if term > n.term then Follower else n.role,
           leader := if term > n.term then None else n.leader)
  {
  }

  /** A voter that is free in the candidate's term never refuses a candidate whose log extends its own. */
  lemma FreeVoterGrants(cs: seq<Cluster>, k: nat, i: nat, voter: NodeId, candidate: NodeId, term: nat)
    requires IsRun(cs) && k < |cs| && i < |cs| && voter < |cs[k].nodes| && candidate < |cs[i].nodes|
    requires cs[k].nodes[voter].log <= cs[i].nodes[candidate].log
    requires cs[k].nodes[voter].term < term || (cs[k].nodes[voter].term == term && cs[k].nodes[voter].votedFor == None)
    ensures var log := cs[i].nodes[candidate].log;
      HandleRequestVote(cs[k].nodes[voter], candidate, term, |log|,
                        if |log| == 0 then 0 else log[|log| - 1].term).granted
  {
    var own, log := cs[k].nodes[voter].log, cs[i].nodes[candidate].log;
    if own != [] {
      assert own[|own| - 1] == log[|own| - 1];
      LogOrder(cs, i, candidate, |own| - 1, |log| - 1);
    }
  }

  /** The log of server i is at least as up to date as that of server j: a later last term, or the same and no
      shorter. */
  predicate NoOlder(nodes: seq<Node>, i: nat, j: nat)
    requires i < |nodes| && j < |nodes|
  {
    var a, b := nodes[i].log, nodes[j].log;
    var s, t := if |a| == 0 then 0 else a[|a| - 1].term, if |b| == 0 then 0 else b[|b| - 1].term;
    s > t || (s == t && |a| >= |b|)
  }

  lemma {:induction false} BestLog(nodes: seq<Node>, k: nat) returns (i: nat)
    requires 0 < k <= |nodes|
    ensures i < k && forall j | 0 <= j < k :: NoOlder(nodes, i, j)
  {
    if k == 1 {
      i := 0;
    } else {
      var best := BestLog(nodes, k - 1);
      i := if NoOlder(nodes, best, k - 1) then best else k - 1;
      forall j | 0 <= j < k
        ensures NoOlder(nodes, i, j)
      {
        assert j < k - 1 ==> NoOlder(nodes, best, j);
      }
    }
  }

  /** In every cluster there is a server that every other one would vote for in any term above all present ones. */
  lemma SomebodyIsElectable(c: Cluster) returns (i: NodeId)
    requires |c.nodes| > 0
    ensures i < |c.nodes|
    ensures forall j, term | 0 <= j < |c.nodes| && term > c.nodes[j].term ::
      HandleRequestVote(c.nodes[j], i, term, |c.nodes[i].log|, LastTerm(c.nodes[i].log)).granted
  {
    i := BestLog(c.nodes, |c.nodes|);
    forall j, term | 0 <= j < |c.nodes| && term > c.nodes[j].term
      ensures HandleRequestVote(c.nodes[j], i, term, |c.nodes[i].log|, LastTerm(c.nodes[i].log)).granted
    {
      assert NoOlder(c.nodes, i, j);
    }
  }

  // ---------------------------------------------------------- AppendEntries

  /** The reply to an AppendEntries: accepted exactly when it is not of an older term and the entry before the new ones
      is there in the right term; the commit index moves only then, only up, and to what the leader had committed as
      far as the log reaches. */
  lemma AppendAnswer(n: Node, leader: NodeId, term: nat, prevIndex: nat, prevTerm: nat, entries: seq<Entry>,
                     commit: nat)
    ensures var o := HandleAppendEntries(n, leader, term, prevIndex, prevTerm, entries, commit);
      && (o.success <==>
            term >= n.term && (prevIndex == 0 || (prevIndex <= |n.log| && n.log[prevIndex - 1].term == prevTerm)))
      && o.term == o.node.term == (if term > n.term then term else n.term)
      && o.lastIndex == |o.node.log|
      && (!o.success ==> o.node.log == n.log)
      && (o.success && commit > n.commit ==>
            o.node.commit <= commit && o.node.commit <= |o.node.log|
            && (o.node.commit == commit || o.node.commit == |o.node.log|))
      && (!(o.success && commit > n.commit) ==> o.node.commit == n.commit)
      && o.node.applied == n.applied
      && (o.node.votedFor == if term > n.term || (term == n.term && n.role == Candidate) then None else n.votedFor)
      && (o.node.role == if term < n.term then n.role
                         else if term == n.term && n.role == Leader then Leader else Follower)
      && (o.node.leader == if term < n.term then n.leader
                           else if term == n.term && n.role == Candidate then None else Some(leader))
  {
  }

  /** An accepted request is stored to its end. */
  lemma StoredReachesEnd(c: Cluster, n: Node, m: Message)
    requires LogInv(c) && NodeLog(c.reigns, n) && m.AppendRequest? && RequestLog(c.reigns, m)
    requires m.term == n.term && PrevMatches(n.log, m.prevIndex, m.prevTerm)
    ensures m.prevIndex + |m.entries| <= |MergeEntries(n.log, m.entries)|
  {
    RequestAgrees(c, n, m);
    MergeFromFull(n.log, c.reigns[n.term].log, m.prevIndex, m.prevIndex + |m.entries|);
  }

  /** In every run a follower that accepts a request has committed exactly the larger of what it had and what the
      leader had: the bound by its own log never bites, because the leader ships the whole suffix. */
  lemma FollowerCommits(cs: seq<Cluster>, k: nat, m: Message)
    requires IsRun(cs) && k < |cs| && m in cs[k].net && m.AppendRequest? && m.dst < |cs[k].nodes|
    ensures var n := cs[k].nodes[m.dst];
      var o := HandleAppendEntries(n, m.src, m.term, m.prevIndex, m.prevTerm, m.entries, m.commit);
      o.success ==> o.node.commit == if n.commit > m.commit then n.commit else m.commit
  {
    RunInv(cs, k);
    var c, n := cs[k], cs[k].nodes[m.dst];
    assert MessageOk(c, m) && NodeLog(c.reigns, n);
    var o := HandleAppendEntries(n, m.src, m.term, m.prevIndex, m.prevTerm, m.entries, m.commit);
    if o.success {
      var n1 := StepDown(n, m.term).(role := Follower);
      assert NodeLog(c.reigns, n1);
      StoredReachesEnd(c, n1, m);
    }
  }

  // ------------------------------------------------------------ the leader

  /** How many peers are known to hold `index`. */
  ghost function KnownHolders(match_: seq<nat>, index: nat): set<nat> {
    set j | 0 <= j < |match_| && match_[j] >= index
  }

  lemma {:induction false} ReplicasCount(match_: seq<nat>, index: nat)
    ensures Replicas(match_, index) == |KnownHolders(match_, index)|
    decreases |match_|
  {
    if match_ != [] {
      var front, last := match_[..|match_| - 1], |match_| - 1;
      ReplicasCount(front, index);
      var these, those := KnownHolders(match_, index), KnownHolders(front, index);
      assert these == those + if match_[last] >= index then {last} else {};
    }
  }

  /** More than half of the servers, the leader counted, hold the entry at `index`, which is of the leader's term. */
  ghost predicate HeldByMajority(n: Node, index: nat) {
    && 1 <= index <= |n.log| && n.log[index - 1].term == n.term
    && 2 * (1 + |KnownHolders(n.match_, index)|) > n.peers + 1
  }

  /** The commit index of a leader moves to the greatest index of its own term that a majority holds, if that is above
      it; nobody else's moves, and nothing but the commit index does. */
  lemma CommitAnswer(n: Node)
    requires |n.match_| == n.peers
    ensures var n' := AdvanceCommit(n);
      && n' == n.(commit := n'.commit) && n'.commit >= n.commit
      && (n.role != Leader ==> n' == n)
      && (n'.commit > n.commit && n.peers > 0 ==> HeldByMajority(n, n'.commit))
      && (n.role == Leader && n.peers > 0 ==> forall i: nat | HeldByMajority(n, i) :: i <= n'.commit)
      && (n.role == Leader && n.peers == 0 ==> n'.commit == if n.commit > |n.log| then n.commit else |n.log|)
  {
    if n.role == Leader && n.peers > 0 {
      if n.commit < |n.log| {
        GreatestCommittableIsGreatest(n, n.commit, |n.log|);
        ReplicasCount(n.match_, AdvanceCommit(n).commit);
      }
      forall i: nat | HeldByMajority(n, i)
        ensures i <= AdvanceCommit(n).commit
      {
        ReplicasCount(n.match_, i);
        assert Committable(n, i);
      }
    }
  }

  /** What a leader makes of a reply of its own term before it looks at its commit index: a success sets what the peer
      is known to hold and the next entry for it, a failure goes one entry back, but not below the first. */
  lemma ReplyAnswer(n: Node, slot: nat, success: bool, peerTerm: nat, matchIndex: nat)
    requires slot < |n.next| == |n.match_|
    ensures var n' := HandleAppendReply(n, slot, success, peerTerm, matchIndex);
      && (peerTerm > n.term ==> n' == n.(term := peerTerm, role := Follower, votedFor := None, leader := None))
      && (peerTerm < n.term ==> n' == n)
      && (peerTerm == n.term ==>
            && |n'.next| == |n'.match_| == |n.next|
            && (forall j | 0 <= j < |n.next| && j != slot :: n'.next[j] == n.next[j] && n'.match_[j] == n.match_[j])
            && (success ==> n'.match_[slot] == matchIndex && n'.next[slot] == matchIndex + 1)
            && (!success ==>
                  n'.match_[slot] == n.match_[slot]
                  && n'.next[slot] == if n.next[slot] > 1 then n.next[slot] - 1 else n.next[slot])
            && n' == n.(next := n'.next, match_ := n'.match_, commit := n'.commit))
  {
  }

  // ------------------------------------------------------ elections and restarts

  /** Votes make a leader exactly of a candidate with more than half of the cluster; its log gains the no-op, and it
      starts every peer at that no-op. */
  lemma ElectionAnswer(n: Node, votes: nat)
    ensures var n' := ElectionResult(n, votes);
      && (n'.role == Leader && n.role != Leader <==> n.role == Candidate && 2 * votes > n.peers + 1)
      && (n'.role == Leader && n.role != Leader ==>
            && n'.log == n.log + [Entry(|n.log| + 1, n.term, Noop, [])]
            && |n'.next| == |n'.match_| == n.peers
            && (forall j | 0 <= j < n.peers :: n'.next[j] == |n'.log| && n'.match_[j] == 0)
            && n' == n.(role := Leader, leader := Some(n.id), log := n'.log, next := n'.next, match_ := n'.match_))
      && (!(n'.role == Leader && n.role != Leader) ==> n' == n)
  {
  }

  /** A timeout opens a new term with a vote for itself; a server without peers has then already won. */
  lemma TimeoutAnswer(n: Node)
    ensures var n' := StartElection(n);
      && n'.term == n.term + 1 && n'.votedFor == Some(n.id) && n'.commit == n.commit && n'.applied == n.applied
      && (n'.role == if n.peers == 0 then Leader else Candidate)
      && n'.leader == (if n.peers == 0 then Some(n.id) else None)
      && n'.log == n.log + if n.peers == 0 then [Entry(|n.log| + 1, n.term + 1, Noop, [])] else []
  {
  }

  /** A crash leaves what is on disk and nothing else: two servers with the same disk restart as the same server, and
      one with a blank disk as a new one. */
  lemma RestartAnswer(m: Node, n: Node)
    requires m.id == n.id && m.peers == n.peers
    ensures m.term == n.term && m.votedFor == n.votedFor && m.log == n.log <==> Restart(m) == Restart(n)
    ensures n.term == 0 && n.votedFor == None && n.log == [] <==> InitNode(Restart(n), n.id, n.peers)
  {
  }
}
