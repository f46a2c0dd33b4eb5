// The step system is not empty: a command of a client goes all the way through a cluster of two servers and is
// applied by both, without any restart.

module RaftExample {
  import opened Basics
  import opened RaftNode
  import opened RaftCluster
  import opened RaftRuns

  function Ordered(data: seq<Byte>): seq<Entry> { [Entry(1, 1, Noop, []), Entry(2, 1, Command, data)] }

  function Leading(log: seq<Entry>): Node { Node(0, 1, 1, Some(0), log, 0, 0, [1], [0], Leader, Some(0)) }

  lemma Wins(n: Node)
    requires n == BecomeCandidate(Fresh(0, 1))
    ensures BecomeLeader(n) == Leading([Entry(1, 1, Noop, [])])
  {
  }

  /** Server 0 wins with the vote of server 1 and takes a command. */
  lemma Taken(data: seq<Byte>) returns (cs: seq<Cluster>, s: Scene)
    ensures At(cs, s) && |s.nodes| == 2 && s.nodes[0] == Leading(Ordered(data))
    ensures s.nodes[1].term == 1 && s.nodes[1].role == Follower && s.nodes[1].log == []
    ensures s.nodes[1].commit == s.nodes[1].applied == 0
  {
    cs := Started(2);
    cs, s := StandUp(cs, Opening(2), 0);
    cs, s := Gather(cs, s, 0, 1);
    assert s.votes[0] == {0, 1};
    Wins(s.nodes[0]);
    cs, s := Lead(cs, s, 0);
    cs, s := Order(cs, s, 0, data);
  }

  /** The report of a follower that holds both entries commits them. */
  lemma Confirmed(n: Node, data: seq<Byte>)
    requires n == Leading(Ordered(data))
    ensures HandleAppendReply(n, 0, true, 1, 2) == n.(next := [3], match_ := [2], commit := 2)
  {
    assert Replicas([2], 2) == Replicas([2][..0], 2) + 1;
  }

  predicate Holds(n: Node, data: seq<Byte>, commit: nat) {
    n.term == 1 && n.role == Follower && n.log == Ordered(data) && n.commit == commit && n.applied == 0
  }

  lemma Committed(data: seq<Byte>) returns (cs: seq<Cluster>, s: Scene)
    ensures At(cs, s) && |s.nodes| == 2 && Holds(s.nodes[1], data, 0)
    ensures s.nodes[0] == Leading(Ordered(data)).(next := [3], match_ := [2], commit := 2)
  {
    cs, s := Taken(data);
    WholeLog(s.nodes[0], 0);
    StoredInEmpty(s.nodes[1], 0, s.nodes[0].log);
    cs, s := Ship(cs, s, 0, 0);
    Confirmed(s.nodes[0], data);
    cs, s := Hear(cs, s, AppendReply(1, 0, 1, true, 2));
  }

  /** The next request tells the follower. */
  lemma Told(data: seq<Byte>) returns (cs: seq<Cluster>, s: Scene)
    ensures At(cs, s) && |s.nodes| == 2 && Holds(s.nodes[1], data, 2)
    ensures s.nodes[0].commit == 2 && s.nodes[0].applied == 0 && s.nodes[0].log == Ordered(data)
  {
    cs, s := Committed(data);
    assert BatchFor(s.nodes[0], 0) == Batch(2, 1, []);
    cs, s := Ship(cs, s, 0, 0);
  }

  /** Whatever the command, there is a run at whose end both servers have applied it as entry number 2. */
  lemma CommandsGetThrough(data: seq<Byte>) returns (cs: seq<Cluster>)
    ensures IsRun(cs)
    ensures Application(0, 2, Entry(2, 1, Command, data)) in cs[|cs| - 1].applications
    ensures Application(1, 2, Entry(2, 1, Command, data)) in cs[|cs| - 1].applications
  {
    var s;
    cs, s := Told(data);
    cs, s := HandOver(cs, s, 0);
    cs, s := HandOver(cs, s, 0);
    cs, s := HandOver(cs, s, 1);
    cs, s := HandOver(cs, s, 1);
  }
}
