// The server as raft_core.c runs it: one object whose fields the handlers update in place, with loops over
// peers, entries and indices.  Every method is tied to the function of RaftNode.dfy it computes.

module RaftServer {
  import opened Basics
  import opened RaftNode

  class Server {
    const id: NodeId
    const peers: nat
    var term: nat
    var votedFor: Option<NodeId>
    var log: seq<Entry>
    var commit: nat
    var applied: nat
    var next: array<nat>
    var match_: array<nat>
    var role: Role
    var leader: Option<NodeId>

    ghost predicate Valid()
      reads this
    {
      next.Length == peers && match_.Length == peers && next != match_
    }

    /** The server as a value of the functional model. */
    ghost function State(): Node
      reads this, next, match_
      requires Valid()
    {
      Node(id, peers, term, votedFor, log, commit, applied, next[..], match_[..], role, leader)
    }

    /** Creation: term, vote and entries are what the disk gave back; entries are re-appended one by one. */
    constructor (id: NodeId, peers: nat, loadedTerm: nat, loadedVote: Option<NodeId>, loaded: seq<Entry>)
      requires Indexed(loaded)
      ensures Valid() && fresh(next) && fresh(match_)
      ensures State() == Node(id, peers, loadedTerm, loadedVote, loaded, 0, 0,
                              seq(peers, _ => 0), seq(peers, _ => 0), Follower, None)
    {
      this.id, this.peers := id, peers;
      term, votedFor, role, leader := loadedTerm, loadedVote, Follower, None;
      commit, applied := 0, 0;
      log := [];
      next := new nat[peers](_ => 0);
      match_ := new nat[peers](_ => 0);
      new;
      for i := 0 to |loaded|
        invariant Valid() && fresh(next) && fresh(match_)
        invariant log == loaded[..i]
        invariant State() == Node(id, peers, loadedTerm, loadedVote, log, 0, 0,
                                  seq(peers, _ => 0), seq(peers, _ => 0), Follower, None)
      {
        log := LogAppend(log, loaded[i].term, loaded[i].kind, loaded[i].data);
      }
      assert loaded[..|loaded|] == loaded;
    }

    method TransitionToFollower(t: nat)
      requires Valid()
      modifies this`term, this`role, this`votedFor, this`leader
      ensures Valid() && State() == BecomeFollower(old(State()), t)
    {
      term, role, votedFor, leader := t, Follower, None, None;
    }

    method TransitionToCandidate()
      requires Valid()
      modifies this`term, this`role, this`votedFor, this`leader
      ensures Valid() && State() == BecomeCandidate(old(State()))
    {
      term, role, votedFor, leader := term + 1, Candidate, Some(id), None;
    }

    method TransitionToLeader()
      requires Valid()
      modifies this`role, this`leader, this`log, next, match_
      ensures Valid() && State() == BecomeLeader(old(State()))
    {
      role, leader := Leader, Some(id);
      var last := LastIndex(log);
      for i := 0 to peers
        invariant role == Leader && leader == Some(id) && log == old(log)
        invariant forall k | 0 <= k < i :: next[k] == last + 1 && match_[k] == 0
      {
        next[i] := last + 1;
        match_[i] := 0;
      }
      log := LogAppend(log, term, Noop, []);
      ghost var s := BecomeLeader(old(State()));
      assert next[..] == s.next && match_[..] == s.match_;
    }

    method StartElection()
      requires Valid()
      modifies this, next, match_
      ensures Valid() && next == old(next) && match_ == old(match_)
      ensures State() == RaftNode.StartElection(old(State()))
    {
      TransitionToCandidate();
      if (peers + 1) / 2 + 1 == 1 {
        TransitionToLeader();
      }
    }

    method ProcessElectionResult(votes: nat)
      requires Valid()
      modifies this, next, match_
      ensures Valid() && next == old(next) && match_ == old(match_)
      ensures State() == ElectionResult(old(State()), votes)
    {
      if role != Candidate { return; }
      var majority := (peers + 1) / 2 + 1;
      if votes >= majority {
        TransitionToLeader();
      }
    }

    method HandleRequestVote(candidate: NodeId, t: nat, lastIndex: nat, lastTerm: nat)
      returns (granted: bool, termOut: nat)
      requires Valid()
      modifies this
      ensures Valid() && next == old(next) && match_ == old(match_)
      ensures VoteOutcome(State(), granted, termOut)
           == RaftNode.HandleRequestVote(old(State()), candidate, t, lastIndex, lastTerm)
    {
      granted := false;
      if t > term {
        TransitionToFollower(t);
      }
      termOut := term;
      if t < term { return; }
      var canVote := votedFor == None || votedFor == Some(candidate);
      if !canVote { return; }
      var ourIndex, ourTerm := LastIndex(log), LastTerm(log);
      var logOk := lastTerm > ourTerm || (lastTerm == ourTerm && lastIndex >= ourIndex);
      if logOk {
        granted := true;
        votedFor := Some(candidate);
      }
    }

    method StoreEntries(entries: seq<Entry>)
      modifies this`log
      ensures log == MergeEntries(old(log), entries)
    {
      for i := 0 to |entries|
        invariant log == MergeEntries(old(log), entries[..i])
      {
        assert entries[..i + 1][..i] == entries[..i];
        var e := entries[i];
        var existing := LogGet(log, e.index);
        if existing != None && existing.value.term != e.term {
          log := LogTruncate(log, e.index);
        }
        if LogGet(log, e.index) == None {
          log := LogAppend(log, e.term, e.kind, e.data);
        }
      }
      assert entries[..|entries|] == entries;
    }

    method HandleAppendEntries(leaderId: NodeId, t: nat, prevIndex: nat, prevTerm: nat,
                               entries: seq<Entry>, leaderCommit: nat)
      returns (success: bool, termOut: nat, lastOut: nat)
      requires Valid()
      modifies this
      ensures Valid() && next == old(next) && match_ == old(match_)
      ensures AppendOutcome(State(), success, termOut, lastOut)
           == RaftNode.HandleAppendEntries(old(State()), leaderId, t, prevIndex, prevTerm, entries, leaderCommit)
    {
      success := false;
      if t > term {
        TransitionToFollower(t);
      }
      termOut, lastOut := term, LastIndex(log);
      if t < term { return; }
      leader := Some(leaderId);
      if role == Candidate {
        TransitionToFollower(t);
      }
      if prevIndex > 0 {
        var prev := LogGet(log, prevIndex);
        if prev == None || prev.value.term != prevTerm { return; }
      }
      StoreEntries(entries);
      if leaderCommit > commit {
        commit := if leaderCommit < LastIndex(log) then leaderCommit else LastIndex(log);
      }
      success, lastOut := true, LastIndex(log);
    }

    /** Counts the replicas of every index above the commit index and commits the greatest one it may. */
    method UpdateCommitIndex()
      requires Valid()
      modifies this`commit
      ensures Valid() && State() == AdvanceCommit(old(State()))
    {
      if role != Leader { return; }
      var oldCommit, last := commit, LastIndex(log);
      if peers == 0 {
        if last > oldCommit { commit := last; }
        return;
      }
      ghost var s := State();
      var n := oldCommit + 1;
      while n <= last
        invariant oldCommit < n && (n <= last + 1 || n == oldCommit + 1)
        invariant commit == GreatestCommittable(s, oldCommit, n - 1)
        invariant State() == s.(commit := commit)
      {
        var entry := LogGet(log, n);
        if entry != None && entry.value.term == term {
          var replicas := CountReplicas(n);
          var majority := (peers + 1) / 2 + 1;
          if replicas >= majority {
            commit := n;
          }
        }
        n := n + 1;
      }
    }

    method CountReplicas(n: nat) returns (replicas: nat)
      requires Valid()
      ensures replicas == 1 + Replicas(match_[..], n)
    {
      replicas := 1;
      for i := 0 to peers
        invariant replicas == 1 + Replicas(match_[..i], n)
      {
        assert match_[..i + 1][..i] == match_[..i];
        if match_[i] >= n {
          replicas := replicas + 1;
        }
      }
      assert match_[..peers] == match_[..];
    }

    method HandleAppendReply(slot: nat, success: bool, peerTerm: nat, matchIndex: nat)
      requires Valid() && slot < peers
      modifies this, next, match_
      ensures Valid() && next == old(next) && match_ == old(match_)
      ensures State() == RaftNode.HandleAppendReply(old(State()), slot, success, peerTerm, matchIndex)
    {
      if peerTerm > term {
        TransitionToFollower(peerTerm);
        return;
      }
      if peerTerm < term { return; }
      if success {
        next[slot] := matchIndex + 1;
        match_[slot] := matchIndex;
      } else if next[slot] > 1 {
        next[slot] := next[slot] - 1;
      }
      assert State() == RecordReply(old(State()), slot, success, matchIndex);
      UpdateCommitIndex();
    }

    /** What the sender thread reads off the node for one peer: the entries from the peer's next index on. */
    method EntriesForPeer(slot: nat) returns (batch: Batch)
      requires Valid() && slot < peers
      ensures batch == BatchFor(State(), slot)
    {
      var nextIndex, last := next[slot], LastIndex(log);
      var entries := [];
      if nextIndex <= last {
        var i := nextIndex;
        while i < last + 1
          invariant nextIndex <= i <= last + 1
          invariant entries == log[(if nextIndex == 0 then 0 else nextIndex - 1)..(if i == 0 then 0 else i - 1)]
        {
          var e := LogGet(log, i);
          if e != None {
            entries := entries + [e.value];
          }
          i := i + 1;
        }
      }
      var prevIndex := if nextIndex > 1 then nextIndex - 1 else 0;
      var prev := LogGet(log, prevIndex);
      var prevTerm := if prevIndex > 0 && prev != None then prev.value.term else 0;
      batch := Batch(prevIndex, prevTerm, entries);
    }

    method AppendEntry(data: seq<Byte>) returns (index: Option<nat>)
      requires Valid()
      modifies this`log
      ensures Valid()
      ensures match ClientAppend(old(State()), data)
        case None => index == None && State() == old(State())
        case Some(n) => index == Some(|log|) && State() == n
    {
      if role != Leader { return None; }
      log := LogAppend(log, term, Command, data);
      index := Some(LastIndex(log));
    }

    /** Hands every committed entry that is not a no-op to the state machine, in order.  A missing entry ends
        the loop, with `applied` already moved past it. */
    method ApplyCommitted() returns (entries: seq<Entry>)
      requires Valid()
      modifies this`applied
      ensures Valid()
      ensures Applied(State(), entries) == ApplyRun(old(State()))
    {
      entries := [];
      var target := commit;
      ghost var s := State();
      while applied < target
        invariant Prepend(entries, ApplyRun(s.(applied := applied))) == ApplyRun(s)
        invariant State() == s.(applied := applied)
        decreases target - applied
      {
        ApplyAdvance(s, entries, s.(applied := applied));
        applied := applied + 1;
        var e := LogGet(log, applied);
        if e == None { return; }
        if e.value.kind != Noop {
          entries := entries + [e.value];
        }
      }
    }
  }

  datatype Applied = Applied(node: Node, entries: seq<Entry>)

  function Prepend(entries: seq<Entry>, a: Applied): Applied { Applied(a.node, entries + a.entries) }

  lemma ApplyAdvance(start: Node, entries: seq<Entry>, n: Node)
    requires Prepend(entries, ApplyRun(n)) == ApplyRun(start) && n.applied < n.commit
    ensures var n' := n.(applied := n.applied + 1);
            match LogGet(n.log, n.applied + 1)
            case None => Applied(n', entries) == ApplyRun(start)
            case Some(e) =>
              Prepend(if e.kind != Noop then entries + [e] else entries, ApplyRun(n')) == ApplyRun(start)
  {
    var o := ApplyNext(n);
    var more := if o.entry.Some? then [o.entry.value] else [];
    var rest := ApplyRun(o.node).entries;
    if LogGet(n.log, n.applied + 1).Some? {
      assert entries + (more + rest) == (entries + more) + rest;
    } else {
      assert entries + [] == entries;
    }
  }

  /** The step ApplyNext, repeated until nothing is left or an entry is missing. */
  function ApplyRun(n: Node): Applied
    decreases n.commit - n.applied
  {
    if n.applied >= n.commit then Applied(n, [])
    else
      var o := ApplyNext(n);
      if LogGet(n.log, n.applied + 1).None? then Applied(o.node, [])
      else Prepend(if o.entry.Some? then [o.entry.value] else [], ApplyRun(o.node))
  }

  /** The entries numbered lo + 1 .. hi that are commands or configurations. */
  function CommandsIn(log: seq<Entry>, lo: int, hi: int): seq<Entry>
    requires 0 <= lo <= hi <= |log|
    decreases hi - lo
  {
    if hi == lo then []
    else (if log[lo].kind != Noop then [log[lo]] else []) + CommandsIn(log, lo + 1, hi)
  }

  /** When all committed entries are present, each of them is handed over once and in order. */
  lemma {:induction false} ApplyRunIsComplete(n: Node)
    requires n.applied <= n.commit <= |n.log|
    ensures ApplyRun(n) == Applied(n.(applied := n.commit), CommandsIn(n.log, n.applied, n.commit))
    decreases n.commit - n.applied
  {
    if n.applied < n.commit {
      ApplyRunIsComplete(ApplyNext(n).node);
    }
  }
}
