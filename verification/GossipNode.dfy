// One gossip node of gossip_membership.c: its view of the others, how updates are merged into it and how it refutes
// claims about itself; first as functions on values, then as a class whose methods compute them.

module GossipNode {
  import opened Basics

  type NodeId = nat

  datatype Status = Alive | Suspected | Failed | Left

  datatype Info = Info(id: NodeId, status: Status, incarnation: nat)

  /** An entry of the membership array; `transmit` counts how often it is still to be passed on. */
  datatype Member = Member(info: Info, transmit: nat, isLocal: bool)

  datatype Node = Node(id: NodeId, maxTransmissions: nat, own: nat, members: seq<Member>)

  datatype Message = Message(sender: NodeId, incarnation: nat, updates: seq<Info>)

  function Find(ms: seq<Member>, id: NodeId): (r: Option<nat>)
    ensures r.Some? ==> r.value < |ms| && ms[r.value].info.id == id
  {
    if ms == [] then None
    else if ms[0].info.id == id then Some(0)
    else match Find(ms[1..], id)
      case Some(i) => Some(i + 1)
      case None => None
  }

  /** What the node believes about id. */
  function View(n: Node, id: NodeId): Option<Info> {
    match Find(n.members, id)
    case Some(i) => Some(n.members[i].info)
    case None => None
  }

  function Put(n: Node, i: nat, m: Member): Node
    requires i < |n.members|
  {
    n.(members := n.members[i := m])
  }

  function Added(n: Node, info: Info): Node {
    n.(members := n.members + [Member(info, n.maxTransmissions, info.id == n.id)])
  }

  /** A higher incarnation wins; within one, ALIVE beats the others and SUSPECTED beats FAILED. */
  predicate Overrides(info: Info, old_: Info) {
    info.incarnation > old_.incarnation
    || (info.incarnation == old_.incarnation
        && ((info.status == Alive && old_.status != Alive) || (info.status == Suspected && old_.status == Failed)))
  }

  function Updated(n: Node, info: Info): Node {
    match Find(n.members, info.id)
    case None => n
    case Some(i) =>
      if Overrides(info, n.members[i].info)
      then Put(n, i, n.members[i].(info := info, transmit := n.maxTransmissions))
      else n
  }

  function MarkedAlive(n: Node, id: NodeId): Node {
    match Find(n.members, id)
    case None => n
    case Some(i) =>
      var m := n.members[i];
      if m.info.status == Alive then n
      else Put(n, i, m.(info := m.info.(status := Alive), transmit := n.maxTransmissions))
  }

  function MarkedSuspected(n: Node, id: NodeId): Node {
    match Find(n.members, id)
    case None => n
    case Some(i) =>
      var m := n.members[i];
      if m.info.status == Failed || m.info.status == Left then n
      else if m.isLocal then
        Put(n, i, m.(info := m.info.(status := Alive, incarnation := n.own + 1), transmit := n.maxTransmissions))
          .(own := n.own + 1)
      else if m.info.status == Suspected then n
      else Put(n, i, m.(info := m.info.(status := Suspected), transmit := n.maxTransmissions))
  }

  function MarkedFailed(n: Node, id: NodeId): Node {
    match Find(n.members, id)
    case None => n
    case Some(i) =>
      var m := n.members[i];
      if m.isLocal || m.info.status == Failed then n
      else Put(n, i, m.(info := m.info.(status := Failed), transmit := n.maxTransmissions))
  }

  function MarkedLeft(n: Node, id: NodeId): Node {
    match Find(n.members, id)
    case None => n
    case Some(i) =>
      var m := n.members[i];
      Put(n, i, m.(info := m.info.(status := Left), transmit := n.maxTransmissions))
  }

  /** A claim about the node itself is answered with a higher incarnation. */
  function Refuted(n: Node): Node {
    var r := n.(own := n.own + 1);
    match Find(n.members, n.id)
    case None => r
    case Some(i) =>
      var m := n.members[i];
      Put(r, i, m.(info := m.info.(status := Alive, incarnation := n.own + 1), transmit := n.maxTransmissions))
  }

  /** The sender of a message is added, or its incarnation raised; its status stays, since the test that would
      revive it compares the incarnation just stored with itself. */
  function Heard(n: Node, sender: NodeId, incarnation: nat): Node {
    match Find(n.members, sender)
    case None => Added(n, Info(sender, Alive, incarnation))
    case Some(i) =>
      var m := n.members[i];
      if incarnation >= m.info.incarnation then Put(n, i, m.(info := m.info.(incarnation := incarnation))) else n
  }

  function Merged(n: Node, update: Info): Node {
    if update.id == n.id then (if update.status != Alive then Refuted(n) else n)
    else if View(n, update.id) == None then Added(n, update)
    else Updated(n, update)
  }

  function MergedAll(n: Node, updates: seq<Info>): Node
    decreases updates
  {
    if updates == [] then n else MergedAll(Merged(n, updates[0]), updates[1..])
  }

  function Received(n: Node, msg: Message): Node {
    MergedAll(Heard(n, msg.sender, msg.incarnation), msg.updates)
  }

  const MAX_UPDATES: nat := 10

  /** Entries still to be passed on, at most `limit` of them, from the front; each loses one transmission. */
  function Collected(ms: seq<Member>, limit: nat): (r: (seq<Member>, seq<Info>))
    ensures |r.0| == |ms| && |r.1| <= limit
  {
    if ms == [] || limit == 0 then (ms, [])
    else if ms[0].transmit > 0 then
      var rest := Collected(ms[1..], limit - 1);
      ([ms[0].(transmit := ms[0].transmit - 1)] + rest.0, [ms[0].info] + rest.1)
    else
      var rest := Collected(ms[1..], limit);
      ([ms[0]] + rest.0, rest.1)
  }

  /** Collecting changes no belief, and every update passed on is one. */
  lemma {:induction false} CollectedKeeps(ms: seq<Member>, limit: nat)
    ensures var r := Collected(ms, limit);
      (forall i | 0 <= i < |ms| :: r.0[i].info == ms[i].info && r.0[i].isLocal == ms[i].isLocal)
      && (forall u | u in r.1 :: exists i :: 0 <= i < |ms| && ms[i].info == u && ms[i].transmit > 0)
      && forall id :: Find(r.0, id) == Find(ms, id)
  {
    if ms != [] && limit > 0 {
      CollectedKeeps(ms[1..], if ms[0].transmit > 0 then limit - 1 else limit);
      var r := Collected(ms, limit);
      var rest := Collected(ms[1..], if ms[0].transmit > 0 then limit - 1 else limit);
      assert r.0[1..] == rest.0;
      forall u | u in r.1
        ensures exists i :: 0 <= i < |ms| && ms[i].info == u && ms[i].transmit > 0
      {
        if u in rest.1 {
          var i :| 0 <= i < |ms[1..]| && ms[1..][i].info == u && ms[1..][i].transmit > 0;
          assert ms[i + 1].info == u && ms[i + 1].transmit > 0;
        } else {
          assert ms[0].info == u && ms[0].transmit > 0;
        }
      }
    }
  }
}
