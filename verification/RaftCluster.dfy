// A cluster of Raft servers over a network that may drop, duplicate and reorder messages:
// every message ever sent stays in `net` and may be delivered any number of times, or never.

module RaftCluster {
  import opened Basics
  import opened RaftNode

  /** Requests and replies, as raft_rpc.c exchanges them between the server `src` and the server `dst`. */
  datatype Message =
    | VoteRequest(src: NodeId, dst: NodeId, term: nat, lastIndex: nat, lastTerm: nat)
    | VoteReply(src: NodeId, dst: NodeId, term: nat, granted: bool)
    | AppendRequest(src: NodeId, dst: NodeId, term: nat, prevIndex: nat, prevTerm: nat,
                    entries: seq<Entry>, commit: nat)
    | AppendReply(src: NodeId, dst: NodeId, term: nat, success: bool, matchIndex: nat)

  // The history of a run.  No step reads it; it only gives the proofs something to speak about.

  /** `voter` voted for `candidate` in `term`. */
  datatype Ballot = Ballot(term: nat, voter: NodeId, candidate: NodeId)

  /** A won election: who won it with whose votes, and the log of the winner as of the last moment it led.
      `base` is the length of that log just before the no-op that opens the reign. */
  datatype Reign = Reign(leader: NodeId, voters: set<NodeId>, log: seq<Entry>, base: nat)

  /** While in `term`, `node` stored entries from that term's leader (or led). */
  datatype Holding = Holding(term: nat, node: NodeId)

  /** The leader of `term` found `index` replicated on `holders` and committed it. */
  datatype Decision = Decision(term: nat, index: nat, holders: set<NodeId>)

  /** `node` handed `entry` to its state machine as entry number `index`. */
  datatype Application = Application(node: NodeId, index: nat, entry: Entry)

  datatype Cluster = Cluster(
    nodes: seq<Node>,
    votes: seq<set<NodeId>>,   // votes each server has gathered for its current candidacy
    net: set<Message>,
    cast: set<Ballot>,
    reigns: map<nat, Reign>,
    held: map<Holding, nat>,   // how much of the leader's log was stored
    decisions: set<Decision>,
    applications: set<Application>)

  /** The peer array of server `id` lists all other servers in order. */
  function PeerAt(id: NodeId, slot: nat): NodeId { if slot < id then slot else slot + 1 }

  function SlotOf(id: NodeId, peer: NodeId): nat
    requires peer != id
  {
    if peer < id then peer else peer - 1
  }

  predicate InitNode(n: Node, id: NodeId, peers: nat) {
    n == Node(id, peers, 0, None, [], 0, 0, seq(peers, _ => 0), seq(peers, _ => 0), Follower, None)
  }

  ghost predicate Init(c: Cluster) {
    && |c.nodes| > 0
    && |c.votes| == |c.nodes|
    && (forall i | 0 <= i < |c.nodes| :: InitNode(c.nodes[i], i, |c.nodes| - 1))
    && c.net == {} && c.cast == {} && c.reigns == map[] && c.held == map[]
    && c.decisions == {} && c.applications == {}
  }

  datatype Action =
    | Timeout(i: NodeId)
    | AskVote(i: NodeId, slot: nat)
    | OnVoteRequest(m: Message)
    | OnVoteReply(m: Message)
    | Tally(i: NodeId)
    | Submit(i: NodeId, data: seq<Byte>)
    | Replicate(i: NodeId, slot: nat)
    | OnAppendRequest(m: Message)
    | OnAppendReply(m: Message)
    | Commit(i: NodeId)
    | Apply(i: NodeId)
    | Crash(i: NodeId)

  /** Lengths agree and messages travel between two different servers. */
  ghost predicate Shape(c: Cluster) {
    && |c.nodes| > 0
    && |c.votes| == |c.nodes|
    && (forall i | 0 <= i < |c.nodes| :: ShapeOf(c, c.nodes[i], i))
    && (forall m | m in c.net :: m.src < |c.nodes| && m.dst < |c.nodes| && m.src != m.dst)
  }

  predicate ShapeOf(c: Cluster, n: Node, i: nat) {
    n.id == i && n.peers == |c.nodes| - 1 && |n.next| == n.peers && |n.match_| == n.peers
  }

  ghost predicate Enabled(c: Cluster, a: Action)
    requires Shape(c)
  {
    match a
    case Timeout(i) => i < |c.nodes| && c.nodes[i].role != Leader
    case AskVote(i, slot) => i < |c.nodes| && c.nodes[i].role == Candidate && slot < c.nodes[i].peers
    case OnVoteRequest(m) => m in c.net && m.VoteRequest?
    case OnVoteReply(m) => m in c.net && m.VoteReply?
    case Tally(i) => i < |c.nodes| && c.nodes[i].role == Candidate && |c.votes[i]| >= Majority(c.nodes[i].peers)
    case Submit(i, data) => i < |c.nodes| && c.nodes[i].role == Leader
    case Replicate(i, slot) => i < |c.nodes| && c.nodes[i].role == Leader && slot < c.nodes[i].peers
    case OnAppendRequest(m) => m in c.net && m.AppendRequest?
    case OnAppendReply(m) => m in c.net && m.AppendReply?
    case Commit(i) => i < |c.nodes|
    case Apply(i) => i < |c.nodes|
    case Crash(i) => i < |c.nodes|
  }

  // ------------------------------------------------------- pieces of steps

  function Put(c: Cluster, i: NodeId, n: Node): Cluster
    requires i < |c.nodes|
  {
    c.(nodes := c.nodes[i := n])
  }

  function Send(c: Cluster, m: Message): Cluster { c.(net := c.net + {m}) }

  function Stand(c: Cluster, i: NodeId): Cluster
    requires i < |c.nodes| == |c.votes|
  {
    var n := BecomeCandidate(c.nodes[i]);
    Put(c, i, n).(votes := c.votes[i := {i}], cast := c.cast + {Ballot(n.term, i, i)})
  }

  /** Server i becomes leader with the votes it has gathered. */
  function Win(c: Cluster, i: NodeId): Cluster
    requires i < |c.nodes| == |c.votes|
  {
    var n := BecomeLeader(c.nodes[i]);
    Put(c, i, n).(
      reigns := c.reigns[n.term := Reign(i, c.votes[i], n.log, |c.nodes[i].log|)],
      held := c.held[Holding(n.term, i) := |n.log|])
  }

  /** Everybody who holds `index` as far as the leader n knows. */
  function Holders(n: Node, index: nat, k: nat): set<NodeId>
    requires k <= |n.match_|
  {
    if k == 0 then {n.id}
    else Holders(n, index, k - 1) + (if n.match_[k - 1] >= index then {PeerAt(n.id, k - 1)} else {})
  }

  function DecisionsOf(before: Node, after: Node): set<Decision> {
    if after.commit > before.commit
    then {Decision(after.term, after.commit, Holders(after, after.commit, |after.match_|))}
    else {}
  }

  function Advance(c: Cluster, i: NodeId): Cluster
    requires i < |c.nodes|
  {
    var n := AdvanceCommit(c.nodes[i]);
    Put(c, i, n).(decisions := c.decisions + DecisionsOf(c.nodes[i], n))
  }

  function Grant(c: Cluster, i: NodeId, candidate: NodeId): Cluster
    requires i < |c.nodes|
  {
    var n := c.nodes[i];
    Put(c, i, n.(votedFor := Some(candidate))).(cast := c.cast + {Ballot(n.term, i, candidate)})
  }

  function Store(c: Cluster, i: NodeId, o: AppendOutcome): Cluster
    requires i < |c.nodes|
  {
    var c1 := Put(c, i, o.node);
    if o.success then c1.(held := c.held[Holding(o.term, i) := |o.node.log|]) else c1
  }

  // ------------------------------------------------------------------ steps

  function VoteRequestFrom(n: Node, slot: nat): Message {
    VoteRequest(n.id, PeerAt(n.id, slot), n.term, LastIndex(n.log), LastTerm(n.log))
  }

  function AppendRequestFrom(n: Node, slot: nat): Message
    requires slot < |n.next|
  {
    var b := BatchFor(n, slot);
    AppendRequest(n.id, PeerAt(n.id, slot), n.term, b.prevIndex, b.prevTerm, b.entries, n.commit)
  }

  ghost function Perform(c: Cluster, a: Action): Cluster
    requires Shape(c) && Enabled(c, a)
  {
    match a
    case Timeout(i) =>
      var c1 := Stand(c, i);
      if Majority(c.nodes[i].peers) == 1 then Win(c1, i) else c1
    case AskVote(i, slot) =>
      Send(c, VoteRequestFrom(c.nodes[i], slot))
    case OnVoteRequest(m) =>
      var o := HandleRequestVote(c.nodes[m.dst], m.src, m.term, m.lastIndex, m.lastTerm);
      var c1 := Put(c, m.dst, o.node);
      var c2 := if o.granted then c1.(cast := c.cast + {Ballot(o.term, m.dst, m.src)}) else c1;
      Send(c2, VoteReply(m.dst, m.src, o.term, o.granted))
    case OnVoteReply(m) =>
      var n := c.nodes[m.dst];
      if m.granted && n.role == Candidate && m.term == n.term
      then c.(votes := c.votes[m.dst := c.votes[m.dst] + {m.src}])
      else Put(c, m.dst, StepDown(n, m.term))
    case Tally(i) => Win(c, i)
    case Submit(i, data) =>
      var n := ClientAppend(c.nodes[i], data).value;
      Put(c, i, n).(
        reigns := if n.term in c.reigns then c.reigns[n.term := c.reigns[n.term].(log := n.log)] else c.reigns,
        held := c.held[Holding(n.term, i) := |n.log|])
    case Replicate(i, slot) =>
      Send(c, AppendRequestFrom(c.nodes[i], slot))
    case OnAppendRequest(m) =>
      var o := HandleAppendEntries(c.nodes[m.dst], m.src, m.term, m.prevIndex, m.prevTerm, m.entries, m.commit);
      Send(Store(c, m.dst, o), AppendReply(m.dst, m.src, o.term, o.success, o.lastIndex))
    case OnAppendReply(m) =>
      var before := c.nodes[m.dst];
      var n := HandleAppendReply(before, SlotOf(m.dst, m.src), m.success, m.term, m.matchIndex);
      Put(c, m.dst, n).(decisions := c.decisions + DecisionsOf(before, n))
    case Commit(i) => Advance(c, i)
    case Apply(i) =>
      var o := ApplyNext(c.nodes[i]);
      Put(c, i, o.node).(applications := c.applications +
        (if o.entry.Some? then {Application(i, o.node.applied, o.entry.value)} else {}))
    case Crash(i) => Put(c, i, Restart(c.nodes[i])).(votes := c.votes[i := {}])
  }

  ghost predicate Next(c: Cluster, c': Cluster) {
    Shape(c) && exists a :: Enabled(c, a) && c' == Perform(c, a)
  }

  ghost predicate NextAt(cs: seq<Cluster>, k: nat)
    requires k + 1 < |cs|
  {
    Next(cs[k], cs[k + 1])
  }

  /** The states a cluster goes through, from an initial one on. */
  ghost predicate IsRun(cs: seq<Cluster>) {
    && |cs| > 0
    && Init(cs[0])
    && forall k {:trigger NextAt(cs, k)} | 0 <= k < |cs| - 1 :: NextAt(cs, k)
  }
}
