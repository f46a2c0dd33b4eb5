// The single-node Raft state machine of raft_core.c, written as functions on values.
// RaftServer.dfy proves an imperative class against these functions and RaftCluster.dfy
// builds the distributed step system out of them.

module RaftNode {

  import opened Basics

  type NodeId = nat

  datatype Role = Follower | Candidate | Leader

  datatype EntryKind = Command | Config | Noop

  datatype Entry = Entry(index: nat, term: nat, kind: EntryKind, data: seq<Byte>)

  /** One Raft server.  `id` and `peers` (the number of the other servers) are configuration;
      `term`, `votedFor` and `log` are on disk; the rest is volatile.  The base index of the log is 0. */
  datatype Node = Node(
    id: NodeId,
    peers: nat,
    term: nat,
    votedFor: Option<NodeId>,
    log: seq<Entry>,
    commit: nat,
    applied: nat,
    next: seq<nat>,
    match_: seq<nat>,
    role: Role,
    leader: Option<NodeId>)

  // ------------------------------------------------------------------ the log

  function LastIndex(log: seq<Entry>): nat { |log| }

  function LastTerm(log: seq<Entry>): nat { if |log| == 0 then 0 else log[|log| - 1].term }

  function LogGet(log: seq<Entry>, index: nat): Option<Entry> {
    if 1 <= index <= |log| then Some(log[index - 1]) else None
  }

  /** The new entry is numbered by its position, whatever number the caller had in mind. */
  function LogAppend(log: seq<Entry>, term: nat, kind: EntryKind, data: seq<Byte>): seq<Entry> {
    log + [Entry(|log| + 1, term, kind, data)]
  }

  function LogTruncate(log: seq<Entry>, from: nat): seq<Entry> {
    if from == 0 || from > |log| then log else log[..from - 1]
  }

  /** Entry number k of a log carries index k. */
  predicate Indexed(log: seq<Entry>) {
    forall i | 0 <= i < |log| :: log[i].index == i + 1
  }

  // -------------------------------------------------------- state transitions

  function BecomeFollower(n: Node, term: nat): Node {
    n.(term := term, role := Follower, votedFor := None, leader := None)
  }

  function BecomeCandidate(n: Node): Node {
    n.(term := n.term + 1, role := Candidate, votedFor := Some(n.id), leader := None)
  }

  function BecomeLeader(n: Node): Node {
    n.(role := Leader,
       leader := Some(n.id),
       next := seq(n.peers, _ => |n.log| + 1),
       match_ := seq(n.peers, _ => 0),
       log := LogAppend(n.log, n.term, Noop, []))
  }

  /** Votes (or replicas) needed in a cluster of `peers + 1` servers. */
  function Majority(peers: nat): nat { (peers + 1) / 2 + 1 }

  function StartElection(n: Node): Node {
    var c := BecomeCandidate(n);
    if Majority(n.peers) == 1 then BecomeLeader(c) else c
  }

  function ElectionResult(n: Node, votes: nat): Node {
    if n.role == Candidate && votes >= Majority(n.peers) then BecomeLeader(n) else n
  }

  function StepDown(n: Node, term: nat): Node {
    if term > n.term then BecomeFollower(n, term) else n
  }

  /** What a crash leaves: term, vote and log come back from disk, the rest starts over. */
  function Restart(n: Node): Node {
    n.(commit := 0, applied := 0, role := Follower, leader := None,
       next := seq(n.peers, _ => 0), match_ := seq(n.peers, _ => 0))
  }

  // ------------------------------------------------------------- RequestVote

  /** (term, length) of one log is at least as up to date as that of another. */
  predicate UpToDate(lastTerm: nat, lastIndex: nat, otherTerm: nat, otherIndex: nat) {
    lastTerm > otherTerm || (lastTerm == otherTerm && lastIndex >= otherIndex)
  }

  predicate GrantsVote(n: Node, candidate: NodeId, term: nat, lastIndex: nat, lastTerm: nat) {
    && term == n.term
    && (n.votedFor == None || n.votedFor == Some(candidate))
    && UpToDate(lastTerm, lastIndex, LastTerm(n.log), LastIndex(n.log))
  }

  datatype VoteOutcome = VoteOutcome(node: Node, granted: bool, term: nat)

  function HandleRequestVote(n: Node, candidate: NodeId, term: nat, lastIndex: nat, lastTerm: nat): VoteOutcome {
    var n1 := StepDown(n, term);
    if GrantsVote(n1, candidate, term, lastIndex, lastTerm)
    then VoteOutcome(n1.(votedFor := Some(candidate)), true, n1.term)
    else VoteOutcome(n1, false, n1.term)
  }

  // ----------------------------------------------------------- AppendEntries

  /** One round of the loop that stores received entries. */
  function MergeOne(log: seq<Entry>, e: Entry): seq<Entry> {
    var existing := LogGet(log, e.index);
    var kept := if existing.Some? && existing.value.term != e.term then LogTruncate(log, e.index) else log;
    if LogGet(kept, e.index).None? then LogAppend(kept, e.term, e.kind, e.data) else kept
  }

  function MergeEntries(log: seq<Entry>, entries: seq<Entry>): seq<Entry>
    decreases |entries|
  {
    if entries == [] then log
    else MergeOne(MergeEntries(log, entries[..|entries| - 1]), entries[|entries| - 1])
  }

  predicate PrevMatches(log: seq<Entry>, prevIndex: nat, prevTerm: nat) {
    prevIndex == 0 || (LogGet(log, prevIndex).Some? && LogGet(log, prevIndex).value.term == prevTerm)
  }

  function Min(a: nat, b: nat): nat { if a < b then a else b }

  datatype AppendOutcome = AppendOutcome(node: Node, success: bool, term: nat, lastIndex: nat)

  /** The part of the handler that runs once the terms are known to agree. */
  function AcceptAppend(n: Node, leader: NodeId, prevIndex: nat, prevTerm: nat,
                        entries: seq<Entry>, leaderCommit: nat): AppendOutcome {
    // A candidate steps down here, which clears its vote and the leader it has just noted.
    var n1 := if n.role == Candidate then BecomeFollower(n, n.term) else n.(leader := Some(leader));
    if !PrevMatches(n1.log, prevIndex, prevTerm)
    then AppendOutcome(n1, false, n1.term, LastIndex(n1.log))
    else
      var log := MergeEntries(n1.log, entries);
      var commit := if leaderCommit > n1.commit then Min(leaderCommit, LastIndex(log)) else n1.commit;
      AppendOutcome(n1.(log := log, commit := commit), true, n1.term, LastIndex(log))
  }

  function HandleAppendEntries(n: Node, leader: NodeId, term: nat, prevIndex: nat, prevTerm: nat,
                               entries: seq<Entry>, leaderCommit: nat): AppendOutcome {
    var n1 := StepDown(n, term);
    if term < n1.term
    then AppendOutcome(n1, false, n1.term, LastIndex(n1.log))
    else AcceptAppend(n1, leader, prevIndex, prevTerm, entries, leaderCommit)
  }

  // ------------------------------------------------------------ leader's side

  /** What the sender ships to one peer: everything from the peer's next index on. */
  datatype Batch = Batch(prevIndex: nat, prevTerm: nat, entries: seq<Entry>)

  function BatchFor(n: Node, slot: nat): Batch
    requires slot < |n.next|
  {
    var next := n.next[slot];
    var prev := if next > 1 then next - 1 else 0;
    var prevTerm := if LogGet(n.log, prev).Some? then LogGet(n.log, prev).value.term else 0;
    var start := if next == 0 then 0 else next - 1;
    Batch(prev, prevTerm, if next <= |n.log| then n.log[start..] else [])
  }

  function Replicas(match_: seq<nat>, index: nat): nat {
    if match_ == [] then 0
    else Replicas(match_[..|match_| - 1], index) + (if match_[|match_| - 1] >= index then 1 else 0)
  }

  /** The leader may commit `index`: an entry of its own term held by a majority, itself included. */
  predicate Committable(n: Node, index: nat) {
    && 1 <= index <= |n.log|
    && n.log[index - 1].term == n.term
    && 1 + Replicas(n.match_, index) >= Majority(n.peers)
  }

  /** The greatest committable index in (floor, upTo], or floor. */
  function GreatestCommittable(n: Node, floor: nat, upTo: nat): (r: nat)
    requires floor <= upTo
    decreases upTo
  {
    if upTo == floor then floor
    else if Committable(n, upTo) then upTo
    else GreatestCommittable(n, floor, upTo - 1)
  }

  function AdvanceCommit(n: Node): Node {
    if n.role != Leader then n
    else if n.peers == 0 then (if |n.log| > n.commit then n.(commit := |n.log|) else n)
    else if n.commit < |n.log| then n.(commit := GreatestCommittable(n, n.commit, |n.log|))
    else n
  }

  function RecordReply(n: Node, slot: nat, success: bool, matchIndex: nat): Node
    requires slot < |n.next| == |n.match_|
  {
    if success then n.(next := n.next[slot := matchIndex + 1], match_ := n.match_[slot := matchIndex])
    else if n.next[slot] > 1 then n.(next := n.next[slot := n.next[slot] - 1])
    else n
  }

  function HandleAppendReply(n: Node, slot: nat, success: bool, peerTerm: nat, matchIndex: nat): Node
    requires slot < |n.next| == |n.match_|
  {
    if peerTerm > n.term then BecomeFollower(n, peerTerm)
    else if peerTerm < n.term then n
    else AdvanceCommit(RecordReply(n, slot, success, matchIndex))
  }

  /** A client command; `None` when this server is not the leader. */
  function ClientAppend(n: Node, data: seq<Byte>): Option<Node> {
    if n.role != Leader then None
    else Some(n.(log := LogAppend(n.log, n.term, Command, data)))
  }

  // ----------------------------------------------------------------- applying

  /** Takes the next committed entry, if there is one; a no-op is passed over without being applied. */
  datatype ApplyOutcome = ApplyOutcome(node: Node, entry: Option<Entry>)

  function ApplyNext(n: Node): ApplyOutcome {
    if n.applied >= n.commit then ApplyOutcome(n, None)
    else
      var n1 := n.(applied := n.applied + 1);
      var e := LogGet(n.log, n1.applied);
      ApplyOutcome(n1, if e.Some? && e.value.kind != Noop then e else None)
  }

  // ------------------------------------------- facts about one server's log

  /** One stored entry of a log `full`, on top of a log that agrees with it below that entry. */
  lemma MergeOneFromFull(m: seq<Entry>, full: seq<Entry>, k: nat)
    requires Indexed(m) && Indexed(full)
    requires 1 <= k <= |full| && k - 1 <= |m| && m[..k - 1] == full[..k - 1]
    requires k <= |m| && m[k - 1].term == full[k - 1].term ==> m[k - 1] == full[k - 1]
    ensures var r := MergeOne(m, full[k - 1]);
            && k <= |r| && r[..k] == full[..k]
            && (r == full[..k] || r == m)
  {
    var e := full[k - 1];
    assert full[..k] == full[..k - 1] + [e];
    if k <= |m| && m[k - 1].term == e.term {
      assert m[..k] == m[..k - 1] + [m[k - 1]];
    } else if k <= |m| {
      assert LogTruncate(m, k) == full[..k - 1];
    } else {
      assert m == m[..k - 1];
    }
  }

  lemma MergeUnroll(log: seq<Entry>, full: seq<Entry>, prev: nat, k: nat)
    requires prev < k <= |full|
    ensures MergeEntries(log, full[prev..k]) == MergeOne(MergeEntries(log, full[prev..k - 1]), full[k - 1])
  {
    var es := full[prev..k];
    assert es[..|es| - 1] == full[prev..k - 1];
  }

  /** `full` comes from the leader of the term that is being served: wherever the follower's log has an
      entry of the same term at the same place, it is the same entry. */
  predicate SameTermSameEntry(log: seq<Entry>, full: seq<Entry>) {
    forall i | 0 <= i < |log| && i < |full| && log[i].term == full[i].term :: log[i] == full[i]
  }

  /** Storing a leader's suffix leaves a log that agrees with the leader's log: either it ends with the
      suffix, or it already held all of it and is unchanged. */
  lemma {:induction false} MergeFromFull(log: seq<Entry>, full: seq<Entry>, prev: nat, k: nat)
    requires Indexed(log) && Indexed(full) && SameTermSameEntry(log, full)
    requires prev <= k <= |full|
    requires prev <= |log| && log[..prev] == full[..prev]
    ensures var m := MergeEntries(log, full[prev..k]);
            && k <= |m| && m[..k] == full[..k]
            && (m == full[..k] || m == log)
    decreases k
  {
    if k == prev {
      assert full[prev..k] == [];
    } else {
      MergeFromFull(log, full, prev, k - 1);
      MergeUnroll(log, full, prev, k);
      var m := MergeEntries(log, full[prev..k - 1]);
      MergeOneFromFull(m, full, k);
    }
  }

  /** A prefix on which both sides already agree survives. */
  lemma {:induction false} MergeKeepsAgreement(log: seq<Entry>, full: seq<Entry>, prev: nat, k: nat, c: nat)
    requires Indexed(log) && Indexed(full) && SameTermSameEntry(log, full)
    requires prev <= k <= |full|
    requires prev <= |log| && log[..prev] == full[..prev]
    requires c <= |log| && c <= |full| && log[..c] == full[..c]
    ensures var m := MergeEntries(log, full[prev..k]); c <= |m| && m[..c] == full[..c]
    decreases k
  {
    if k == prev {
      assert full[prev..k] == [];
    } else {
      MergeKeepsAgreement(log, full, prev, k - 1, c);
      MergeFromFull(log, full, prev, k - 1);
      MergeUnroll(log, full, prev, k);
      MergeOneKeepsAgreement(MergeEntries(log, full[prev..k - 1]), full, k, c);
    }
  }

  lemma MergeOneKeepsAgreement(m: seq<Entry>, full: seq<Entry>, k: nat, c: nat)
    requires 1 <= k <= |full| && full[k - 1].index == k
    requires c <= |m| && c <= |full| && m[..c] == full[..c]
    ensures var r := MergeOne(m, full[k - 1]); c <= |r| && r[..c] == full[..c]
  {
    var e := full[k - 1];
    if k <= c {
      assert m[k - 1] == m[..c][k - 1] == full[..c][k - 1];
    } else if k <= |m| && m[k - 1].term != e.term {
      assert LogTruncate(m, k)[..c] == m[..c];
    }
  }

  /** The commit rule finds the largest index it may commit, and nothing below the old commit index. */
  lemma {:induction false} GreatestCommittableIsGreatest(n: Node, floor: nat, upTo: nat)
    requires floor <= upTo
    ensures var g := GreatestCommittable(n, floor, upTo);
            && floor <= g <= upTo
            && (g > floor ==> Committable(n, g))
            && forall i :: g < i <= upTo ==> !Committable(n, i)
    decreases upTo
  {
    if upTo > floor && !Committable(n, upTo) {
      GreatestCommittableIsGreatest(n, floor, upTo - 1);
    }
  }
}
