// Building runs: each lemma takes a run one or a few steps further and says what the steps leave.

module RaftRuns {
  import opened Basics
  import opened RaftNode
  import opened RaftCluster
  import opened RaftSafety

  function Fresh(id: NodeId, peers: nat): Node {
    Node(id, peers, 0, None, [], 0, 0, seq(peers, _ => 0), seq(peers, _ => 0), Follower, None)
  }

  ghost function Last(cs: seq<Cluster>): Cluster
    requires |cs| > 0
  {
    cs[|cs| - 1]
  }

  /** What a run has come to: the servers and their votes, and of what was sent, cast and applied on the way at least
      this. */
  datatype Scene = Scene(nodes: seq<Node>, votes: seq<set<NodeId>>, net: set<Message>, cast: set<Ballot>,
                         done: set<Application>)

  ghost predicate At(cs: seq<Cluster>, s: Scene) {
    && IsRun(cs) && Shape(Last(cs)) && Last(cs).nodes == s.nodes && Last(cs).votes == s.votes
    && s.net <= Last(cs).net && s.cast <= Last(cs).cast && s.done <= Last(cs).applications
  }

  function With(s: Scene, i: NodeId, n: Node): Scene
    requires i < |s.nodes|
  {
    s.(nodes := s.nodes[i := n])
  }

  function Opening(servers: nat): Scene
    requires servers > 0
  {
    Scene(seq(servers, (i: nat) => Fresh(i, servers - 1)), seq(servers, _ => {}), {}, {}, {})
  }

  lemma Started(servers: nat) returns (cs: seq<Cluster>)
    requires servers > 0
    ensures At(cs, Opening(servers))
  {
    var s := Opening(servers);
    cs := [Cluster(s.nodes, s.votes, {}, {}, map[], map[], {}, {})];
    RunInv(cs, 0);
  }

  /** One more step. */
  lemma Step(cs: seq<Cluster>, a: Action) returns (r: seq<Cluster>)
    requires IsRun(cs) && Shape(Last(cs)) && Enabled(Last(cs), a)
    ensures IsRun(r) && Shape(Last(r)) && Last(r) == Perform(Last(cs), a) && cs <= r
  {
    var c := Perform(Last(cs), a);
    r := cs + [c];
    forall k | 0 <= k < |r| - 1
      ensures NextAt(r, k)
    {
      if k < |cs| - 1 {
        assert NextAt(cs, k);
      }
    }
    RunInv(r, |cs|);
  }

  // -------------------------------------------------------------- elections

  lemma StandUp(cs: seq<Cluster>, s: Scene, i: NodeId) returns (r: seq<Cluster>, t: Scene)
    requires At(cs, s) && i < |s.nodes| == |s.votes|
    requires s.nodes[i].role != Leader && Majority(s.nodes[i].peers) > 1
    ensures cs <= r && At(r, t)
    ensures t == With(s, i, BecomeCandidate(s.nodes[i])).(
      votes := s.votes[i := {i}], cast := s.cast + {Ballot(s.nodes[i].term + 1, i, i)})
  {
    r := Step(cs, Timeout(i));
    t := With(s, i, BecomeCandidate(s.nodes[i])).(
      votes := s.votes[i := {i}], cast := s.cast + {Ballot(s.nodes[i].term + 1, i, i)});
  }

  function RequestTo(n: Node, j: NodeId): Message {
    VoteRequest(n.id, j, n.term, |n.log|, LastTerm(n.log))
  }

  lemma Ask(cs: seq<Cluster>, s: Scene, i: NodeId, j: NodeId) returns (r: seq<Cluster>, t: Scene)
    requires At(cs, s) && i < |s.nodes| && j < |s.nodes| && i != j && s.nodes[i].role == Candidate
    ensures cs <= r && At(r, t) && t == s.(net := s.net + {RequestTo(s.nodes[i], j)}) && s.nodes[i].id == i
  {
    assert ShapeOf(Last(cs), s.nodes[i], i);
    r := Step(cs, AskVote(i, SlotOf(i, j)));
    t := s.(net := s.net + {RequestTo(s.nodes[i], j)});
  }

  lemma Answer(cs: seq<Cluster>, s: Scene, m: Message) returns (r: seq<Cluster>, t: Scene)
    requires At(cs, s) && m in s.net && m.VoteRequest? && m.dst < |s.nodes|
    requires HandleRequestVote(s.nodes[m.dst], m.src, m.term, m.lastIndex, m.lastTerm).granted
    ensures cs <= r && At(r, t)
    ensures t == With(s, m.dst, HandleRequestVote(s.nodes[m.dst], m.src, m.term, m.lastIndex, m.lastTerm).node).(
      net := s.net + {VoteReply(m.dst, m.src, m.term, true)}, cast := s.cast + {Ballot(m.term, m.dst, m.src)})
  {
    r := Step(cs, OnVoteRequest(m));
    t := With(s, m.dst, HandleRequestVote(s.nodes[m.dst], m.src, m.term, m.lastIndex, m.lastTerm).node).(
      net := s.net + {VoteReply(m.dst, m.src, m.term, true)}, cast := s.cast + {Ballot(m.term, m.dst, m.src)});
  }

  lemma Count(cs: seq<Cluster>, s: Scene, m: Message) returns (r: seq<Cluster>, t: Scene)
    requires At(cs, s) && m in s.net && m.VoteReply? && m.granted && m.dst < |s.nodes| == |s.votes|
    requires s.nodes[m.dst].role == Candidate && s.nodes[m.dst].term == m.term
    ensures cs <= r && At(r, t) && t == s.(votes := s.votes[m.dst := s.votes[m.dst] + {m.src}])
  {
    r := Step(cs, OnVoteReply(m));
    t := s.(votes := s.votes[m.dst := s.votes[m.dst] + {m.src}]);
  }

  /** What server j makes of a request for its vote by server i. */
  function Voting(s: Scene, i: NodeId, j: NodeId): VoteOutcome
    requires i < |s.nodes| && j < |s.nodes|
  {
    HandleRequestVote(s.nodes[j], i, s.nodes[i].term, |s.nodes[i].log|, LastTerm(s.nodes[i].log))
  }

  /** Server i gathers the vote of server j. */
  lemma Gather(cs: seq<Cluster>, s: Scene, i: NodeId, j: NodeId) returns (r: seq<Cluster>, t: Scene)
    requires At(cs, s) && i < |s.nodes| == |s.votes| && j < |s.nodes| && i != j
    requires s.nodes[i].role == Candidate && Voting(s, i, j).granted
    ensures cs <= r && At(r, t) && s.net <= t.net && t.done == s.done && t.nodes == s.nodes[j := Voting(s, i, j).node]
    ensures t.votes == s.votes[i := s.votes[i] + {j}] && t.cast == s.cast + {Ballot(s.nodes[i].term, j, i)}
  {
    var m := RequestTo(s.nodes[i], j);
    r, t := Ask(cs, s, i, j);
    r, t := Answer(r, t, m);
    r, t := Count(r, t, VoteReply(j, i, m.term, true));
  }

  lemma Lead(cs: seq<Cluster>, s: Scene, i: NodeId) returns (r: seq<Cluster>, t: Scene)
    requires At(cs, s) && i < |s.nodes| == |s.votes|
    requires s.nodes[i].role == Candidate && |s.votes[i]| >= Majority(s.nodes[i].peers)
    ensures cs <= r && At(r, t) && t == With(s, i, BecomeLeader(s.nodes[i]))
  {
    r := Step(cs, Tally(i));
    t := With(s, i, BecomeLeader(s.nodes[i]));
  }

  lemma GoDown(cs: seq<Cluster>, s: Scene, i: NodeId) returns (r: seq<Cluster>, t: Scene)
    requires At(cs, s) && i < |s.nodes| == |s.votes|
    ensures cs <= r && At(r, t) && t == With(s, i, Restart(s.nodes[i])).(votes := s.votes[i := {}])
  {
    r := Step(cs, Crash(i));
    t := With(s, i, Restart(s.nodes[i])).(votes := s.votes[i := {}]);
  }

  // ------------------------------------------------------------ replication

  lemma Order(cs: seq<Cluster>, s: Scene, i: NodeId, data: seq<Byte>) returns (r: seq<Cluster>, t: Scene)
    requires At(cs, s) && i < |s.nodes| && s.nodes[i].role == Leader
    ensures cs <= r && At(r, t) && t == With(s, i, ClientAppend(s.nodes[i], data).value)
  {
    r := Step(cs, Submit(i, data));
    t := With(s, i, ClientAppend(s.nodes[i], data).value);
  }

  lemma Post(cs: seq<Cluster>, s: Scene, i: NodeId, slot: nat) returns (r: seq<Cluster>, t: Scene)
    requires At(cs, s) && i < |s.nodes| && slot < s.nodes[i].peers == |s.nodes[i].next|
    requires s.nodes[i].role == Leader
    ensures cs <= r && At(r, t) && t == s.(net := s.net + {AppendRequestFrom(s.nodes[i], slot)})
  {
    r := Step(cs, Replicate(i, slot));
    t := s.(net := s.net + {AppendRequestFrom(s.nodes[i], slot)});
  }

  function Taking(s: Scene, m: Message): AppendOutcome
    requires m.AppendRequest? && m.dst < |s.nodes|
  {
    HandleAppendEntries(s.nodes[m.dst], m.src, m.term, m.prevIndex, m.prevTerm, m.entries, m.commit)
  }

  function ReplyTo(m: Message, o: AppendOutcome): Message {
    AppendReply(m.dst, m.src, o.term, o.success, o.lastIndex)
  }

  lemma Take(cs: seq<Cluster>, s: Scene, m: Message) returns (r: seq<Cluster>, t: Scene)
    requires At(cs, s) && m in s.net && m.AppendRequest? && m.dst < |s.nodes|
    ensures cs <= r && At(r, t)
    ensures t == With(s, m.dst, Taking(s, m).node).(net := s.net + {ReplyTo(m, Taking(s, m))})
  {
    r := Step(cs, OnAppendRequest(m));
    t := With(s, m.dst, Taking(s, m).node).(net := s.net + {ReplyTo(m, Taking(s, m))});
  }

  /** The leader's next request to the peer behind `slot` reaches it. */
  lemma Ship(cs: seq<Cluster>, s: Scene, i: NodeId, slot: nat) returns (r: seq<Cluster>, t: Scene)
    requires At(cs, s) && i < |s.nodes| && slot < s.nodes[i].peers == |s.nodes[i].next|
    requires s.nodes[i].role == Leader && PeerAt(s.nodes[i].id, slot) < |s.nodes|
    ensures var m := AppendRequestFrom(s.nodes[i], slot);
      && cs <= r && At(r, t) && s.net <= t.net && ReplyTo(m, Taking(s, m)) in t.net
      && t.nodes == s.nodes[m.dst := Taking(s, m).node] && t.votes == s.votes && t.cast == s.cast && t.done == s.done
  {
    r, t := Post(cs, s, i, slot);
    r, t := Take(r, t, AppendRequestFrom(s.nodes[i], slot));
  }

  lemma Hear(cs: seq<Cluster>, s: Scene, m: Message) returns (r: seq<Cluster>, t: Scene)
    requires At(cs, s) && m in s.net && m.AppendReply? && m.dst < |s.nodes| && m.src != m.dst
    requires SlotOf(m.dst, m.src) < |s.nodes[m.dst].next| == |s.nodes[m.dst].match_|
    ensures cs <= r && At(r, t)
    ensures t == With(s, m.dst,
      HandleAppendReply(s.nodes[m.dst], SlotOf(m.dst, m.src), m.success, m.term, m.matchIndex))
  {
    r := Step(cs, OnAppendReply(m));
    t := With(s, m.dst, HandleAppendReply(s.nodes[m.dst], SlotOf(m.dst, m.src), m.success, m.term, m.matchIndex));
  }

  // --------------------------------------------------------------- applying

  lemma Settle(cs: seq<Cluster>, s: Scene, i: NodeId) returns (r: seq<Cluster>, t: Scene)
    requires At(cs, s) && i < |s.nodes|
    ensures cs <= r && At(r, t) && t == With(s, i, AdvanceCommit(s.nodes[i]))
  {
    r := Step(cs, Commit(i));
    t := With(s, i, AdvanceCommit(s.nodes[i]));
  }

  lemma HandOver(cs: seq<Cluster>, s: Scene, i: NodeId) returns (r: seq<Cluster>, t: Scene)
    requires At(cs, s) && i < |s.nodes|
    ensures cs <= r && At(r, t)
    ensures var o := ApplyNext(s.nodes[i]);
      t == With(s, i, o.node).(
        done := s.done + if o.entry.Some? then {Application(i, o.node.applied, o.entry.value)} else {})
  {
    r := Step(cs, Apply(i));
    var o := ApplyNext(s.nodes[i]);
    t := With(s, i, o.node).(
      done := s.done + if o.entry.Some? then {Application(i, o.node.applied, o.entry.value)} else {});
  }

  // ------------------------------------------- the first request to an empty log

  /** An empty log takes over the whole log of a leader. */
  lemma MergeIntoEmpty(log: seq<Entry>)
    requires Indexed(log) && log != []
    ensures MergeEntries([], log) == log
  {
    MergeFromFull([], log, 0, |log|);
    assert log[0..|log|] == log && log[..|log|] == log;
  }

  lemma StoredInEmpty(n: Node, leader: NodeId, log: seq<Entry>)
    requires n.log == [] && n.role == Follower && Indexed(log) && log != []
    ensures HandleAppendEntries(n, leader, n.term, 0, 0, log, 0).node == n.(log := log, leader := Some(leader))
  {
    MergeIntoEmpty(log);
  }

  lemma WholeLog(n: Node, slot: nat)
    requires slot < |n.next| && n.next[slot] == 1 && n.log != []
    ensures BatchFor(n, slot) == Batch(0, 0, n.log)
  {
    assert n.log[0..] == n.log;
  }
}
