// The gossip cluster as a step system: messages may be lost, repeated and reordered, every node may suspect, fail,
// revive or refute at any time.  No node restarts.

module GossipCluster {
  import opened Basics
  import opened GossipNode

  // ---------------------------------------------------- one entry of a view

  function MergeInto(v: Option<Info>, u: Info): Option<Info> {
    match v
    case None => Some(u)
    case Some(old_) => if Overrides(u, old_) then Some(u) else v
  }

  function HearInto(v: Option<Info>, id: NodeId, incarnation: nat): Option<Info> {
    match v
    case None => Some(Info(id, Alive, incarnation))
    case Some(old_) => if incarnation >= old_.incarnation then Some(old_.(incarnation := incarnation)) else v
  }

  lemma {:induction false} FindAppended(ms: seq<Member>, m: Member, id: NodeId)
    ensures Find(ms + [m], id) ==
      if Find(ms, id) != None then Find(ms, id) else if m.info.id == id then Some(|ms|) else None
  {
    if ms == [] {
      assert ms + [m] == [m];
      assert Find([m][1..], id) == None;
    } else {
      FindAppended(ms[1..], m, id);
      assert (ms + [m])[1..] == ms[1..] + [m];
    }
  }

  lemma {:induction false} FindPut(ms: seq<Member>, i: nat, m: Member, id: NodeId)
    requires i < |ms| && m.info.id == ms[i].info.id
    ensures Find(ms[i := m], id) == Find(ms, id)
  {
    if i > 0 {
      FindPut(ms[1..], i - 1, m, id);
      assert ms[i := m][1..] == ms[1..][i - 1 := m];
    }
  }

  lemma AddedView(n: Node, info: Info, id: NodeId)
    ensures View(Added(n, info), id) ==
      if View(n, id) != None then View(n, id) else if info.id == id then Some(info) else None
  {
    FindAppended(n.members, Member(info, n.maxTransmissions, info.id == n.id), id);
  }

  lemma PutView(n: Node, i: nat, m: Member, id: NodeId)
    requires i < |n.members| && m.info.id == n.members[i].info.id && Find(n.members, m.info.id) == Some(i)
    ensures View(Put(n, i, m), id) == if id == m.info.id then Some(m.info) else View(n, id)
  {
    FindPut(n.members, i, m, id);
  }

  /** Merging an update touches the entry it is about, as long as it is not about the node itself. */
  lemma MergedView(n: Node, u: Info, id: NodeId)
    requires id != n.id
    ensures View(Merged(n, u), id) == if u.id == id then MergeInto(View(n, id), u) else View(n, id)
  {
    if u.id == n.id {
      match Find(n.members, n.id)
      case Some(i) => FindPut(n.members, i,
          n.members[i].(info := n.members[i].info.(status := Alive, incarnation := n.own + 1),
                        transmit := n.maxTransmissions), id);
      case None =>
    } else if View(n, u.id) == None {
      AddedView(n, u, id);
    } else {
      var i := Find(n.members, u.id).value;
      PutView(n, i, n.members[i].(info := u, transmit := n.maxTransmissions), id);
    }
  }

  lemma HeardView(n: Node, sender: NodeId, incarnation: nat, id: NodeId)
    ensures View(Heard(n, sender, incarnation), id) ==
      if sender == id then HearInto(View(n, id), id, incarnation) else View(n, id)
  {
    match Find(n.members, sender)
    case None => AddedView(n, Info(sender, Alive, incarnation), id);
    case Some(i) =>
      PutView(n, i, n.members[i].(info := n.members[i].info.(incarnation := incarnation)), id);
  }

  // ------------------------------------------------------ a refutation wins

  ghost predicate AtMost(v: Option<Info>, top: nat) { v.Some? ==> v.value.incarnation <= top }

  /** However claims of at most its incarnation are ordered around it, the refutation is what remains. */
  lemma {:induction false} RefutationRemains(n: Node, us: seq<Info>, id: NodeId, top: nat)
    requires id != n.id && AtMost(View(n, id), top)
    requires forall u | u in us && u.id == id :: u.incarnation <= top
    requires View(n, id) == Some(Info(id, Alive, top)) || Info(id, Alive, top) in us
    ensures View(MergedAll(n, us), id) == Some(Info(id, Alive, top))
    decreases us
  {
    if us != [] {
      assert us[0] in us;
      assert us == [us[0]] + us[1..];
      MergedView(n, us[0], id);
      MergedKeepsId(n, us[0]);
      RefutationRemains(Merged(n, us[0]), us[1..], id, top);
    }
  }

  lemma MergedKeepsId(n: Node, u: Info)
    ensures Merged(n, u).id == n.id && Merged(n, u).maxTransmissions == n.maxTransmissions
  {
  }

  lemma {:induction false} MergedAllAtMost(n: Node, us: seq<Info>, id: NodeId, top: nat)
    requires id != n.id && AtMost(View(n, id), top)
    requires forall u | u in us && u.id == id :: u.incarnation <= top
    ensures AtMost(View(MergedAll(n, us), id), top)
    decreases us
  {
    if us != [] {
      assert us[0] in us;
      MergedView(n, us[0], id);
      MergedKeepsId(n, us[0]);
      MergedAllAtMost(Merged(n, us[0]), us[1..], id, top);
    }
  }

  // ------------------------------------------------------------- the system

  datatype Cluster = Cluster(nodes: seq<Node>, net: set<Message>)

  /** What can happen at node i. */
  datatype Action =
    | Ping(i: NodeId)
    | SendOne(i: NodeId, k: nat)
    | Refute(i: NodeId)
    | Deliver(i: NodeId, msg: Message)
    | MarkAlive(i: NodeId, x: NodeId)
    | Suspect(i: NodeId, x: NodeId)
    | Fail(i: NodeId, x: NodeId)
    | Leave(i: NodeId, x: NodeId)
    | Seed(i: NodeId, x: NodeId)

  function Start(i: NodeId, maxTransmissions: nat): Node {
    Node(i, maxTransmissions, 0, [Member(Info(i, Alive, 0), maxTransmissions, true)])
  }

  function Init(size: nat, maxTransmissions: nat): Cluster {
    Cluster(seq(size, i requires 0 <= i < size => Start(i, maxTransmissions)), {})
  }

  predicate Enabled(c: Cluster, a: Action) {
    a.i < |c.nodes|
    && (a.SendOne? ==> a.k < |c.nodes[a.i].members|)
    && (a.Deliver? ==> a.msg in c.net)
    && (a.Seed? ==> a.x < |c.nodes|)
  }

  /** The node after the action; PING and ACK carry the collected updates, a PING-REQ or a refutation broadcast one
      entry. */
  function NodeAfter(n: Node, a: Action): Node {
    match a
    case Ping(_) => n.(members := Collected(n.members, MAX_UPDATES).0)
    case SendOne(_, _) => n
    case Refute(_) => Refuted(n)
    case Deliver(_, msg) => Received(n, msg)
    case MarkAlive(_, x) => MarkedAlive(n, x)
    case Suspect(_, x) => MarkedSuspected(n, x)
    case Fail(_, x) => MarkedFailed(n, x)
    case Leave(_, x) => MarkedLeft(n, x)
    case Seed(_, x) => if View(n, x) == None then Added(n, Info(x, Alive, 0)) else n
  }

  function Sent(n: Node, a: Action): set<Message> {
    match a
    case Ping(_) => {Message(n.id, n.own, Collected(n.members, MAX_UPDATES).1)}
    case SendOne(_, k) => if k < |n.members| then {Message(n.id, n.own, [n.members[k].info])} else {}
    case _ => {}
  }

  function Step(c: Cluster, a: Action): Cluster
    requires Enabled(c, a)
  {
    Cluster(c.nodes[a.i := NodeAfter(c.nodes[a.i], a)], c.net + Sent(c.nodes[a.i], a))
  }

  function Played(c: Cluster, acts: seq<Action>): Option<Cluster>
    decreases acts
  {
    if acts == [] then Some(c)
    else if Enabled(c, acts[0]) then Played(Step(c, acts[0]), acts[1..])
    else None
  }

  // -------------------------------------------------------------- the ceiling

  function Owns(c: Cluster): (own: seq<nat>)
    ensures |own| == |c.nodes|
  {
    seq(|c.nodes|, i requires 0 <= i < |c.nodes| => c.nodes[i].own)
  }

  /** No claim is above the incarnation of the node it is about. */
  predicate ClaimOk(u: Info, own: seq<nat>) { u.id < |own| && u.incarnation <= own[u.id] }

  ghost predicate MembersOk(ms: seq<Member>, id: NodeId, own: seq<nat>) {
    forall i | 0 <= i < |ms| :: ClaimOk(ms[i].info, own) && (ms[i].isLocal <==> ms[i].info.id == id)
  }

  ghost predicate NodeOk(n: Node, own: seq<nat>) {
    n.id < |own| && n.own == own[n.id] && MembersOk(n.members, n.id, own) && View(n, n.id).Some?
  }

  ghost predicate MessageOk(m: Message, own: seq<nat>) {
    m.sender < |own| && m.incarnation <= own[m.sender] && forall u | u in m.updates :: ClaimOk(u, own)
  }

  ghost predicate Ceiling(c: Cluster) {
    (forall i | 0 <= i < |c.nodes| :: c.nodes[i].id == i && NodeOk(c.nodes[i], Owns(c)))
    && forall m | m in c.net :: MessageOk(m, Owns(c))
  }

  /** The incarnations after node n has moved on to incarnation `to`. */
  function Raised(own: seq<nat>, n: Node): seq<nat> { if n.id < |own| then own[n.id := n.own] else own }

  /** What holds of a node after any of its operations. */
  ghost predicate Moved(n: Node, r: Node, own: seq<nat>) {
    r.id == n.id && r.own >= n.own && NodeOk(r, Raised(own, r))
    && forall x :: View(n, x).Some? ==> View(r, x).Some? && View(r, x).value.incarnation >= View(n, x).value.incarnation
  }

  lemma PutMoved(n: Node, i: nat, m: Member, more: nat, own: seq<nat>)
    requires NodeOk(n, own) && i < |n.members| && Find(n.members, m.info.id) == Some(i)
    requires m.info.id == n.members[i].info.id && m.isLocal == n.members[i].isLocal
    requires m.info.incarnation >= n.members[i].info.incarnation
    requires more == n.own || (more > n.own && m.info.id == n.id)
    requires m.info.incarnation <= if m.info.id == n.id then more else own[m.info.id]
    ensures Moved(n, Put(n, i, m).(own := more), own)
  {
    var r := Put(n, i, m).(own := more);
    forall x
      ensures View(r, x) == if x == m.info.id then Some(m.info) else View(n, x)
    {
      FindPut(n.members, i, m, x);
    }
  }

  lemma AddedMoved(n: Node, u: Info, own: seq<nat>)
    requires NodeOk(n, own) && ClaimOk(u, own) && View(n, u.id) == None
    ensures Moved(n, Added(n, u), own)
  {
    forall x
      ensures View(n, x).Some? ==> View(Added(n, u), x) == View(n, x)
    {
      AddedView(n, u, x);
    }
  }

  lemma MarkedAliveMoved(n: Node, x: NodeId, own: seq<nat>)
    requires NodeOk(n, own)
    ensures Moved(n, MarkedAlive(n, x), own)
  {
    match Find(n.members, x)
    case None =>
    case Some(i) =>
      var m := n.members[i];
      PutMoved(n, i, m.(info := m.info.(status := Alive), transmit := n.maxTransmissions), n.own, own);
  }

  lemma MarkedFailedMoved(n: Node, x: NodeId, own: seq<nat>)
    requires NodeOk(n, own)
    ensures Moved(n, MarkedFailed(n, x), own)
  {
    match Find(n.members, x)
    case None =>
    case Some(i) =>
      var m := n.members[i];
      PutMoved(n, i, m.(info := m.info.(status := Failed), transmit := n.maxTransmissions), n.own, own);
  }

  lemma MarkedLeftMoved(n: Node, x: NodeId, own: seq<nat>)
    requires NodeOk(n, own)
    ensures Moved(n, MarkedLeft(n, x), own)
  {
    match Find(n.members, x)
    case None =>
    case Some(i) =>
      var m := n.members[i];
      PutMoved(n, i, m.(info := m.info.(status := Left), transmit := n.maxTransmissions), n.own, own);
  }

  lemma MarkedSuspectedMoved(n: Node, x: NodeId, own: seq<nat>)
    requires NodeOk(n, own)
    ensures Moved(n, MarkedSuspected(n, x), own)
    ensures MarkedSuspected(n, x).own > n.own ==>
      View(MarkedSuspected(n, x), n.id) == Some(Info(n.id, Alive, MarkedSuspected(n, x).own))
  {
    match Find(n.members, x)
    case None =>
    case Some(i) =>
      var m := n.members[i];
      if m.isLocal {
        var p := m.(info := m.info.(status := Alive, incarnation := n.own + 1), transmit := n.maxTransmissions);
        PutMoved(n, i, p, n.own + 1, own);
        FindPut(n.members, i, p, n.id);
      } else {
        PutMoved(n, i, m.(info := m.info.(status := Suspected), transmit := n.maxTransmissions), n.own, own);
      }
  }

  lemma RefutedMoved(n: Node, own: seq<nat>)
    requires NodeOk(n, own)
    ensures Moved(n, Refuted(n), own)
    ensures Refuted(n).own == n.own + 1 && View(Refuted(n), n.id) == Some(Info(n.id, Alive, n.own + 1))
  {
    var i := Find(n.members, n.id).value;
    var m := n.members[i];
    var p := m.(info := m.info.(status := Alive, incarnation := n.own + 1), transmit := n.maxTransmissions);
    PutMoved(n, i, p, n.own + 1, own);
    FindPut(n.members, i, p, n.id);
  }

  lemma HeardMoved(n: Node, sender: NodeId, incarnation: nat, own: seq<nat>)
    requires NodeOk(n, own) && sender < |own| && incarnation <= own[sender]
    ensures Moved(n, Heard(n, sender, incarnation), own)
  {
    match Find(n.members, sender)
    case None => AddedMoved(n, Info(sender, Alive, incarnation), own);
    case Some(i) =>
      var m := n.members[i];
      if incarnation >= m.info.incarnation {
        PutMoved(n, i, m.(info := m.info.(incarnation := incarnation)), n.own, own);
      }
  }

  lemma MergedMoved(n: Node, u: Info, own: seq<nat>)
    requires NodeOk(n, own) && ClaimOk(u, own)
    ensures Moved(n, Merged(n, u), own)
    ensures Merged(n, u).own > n.own ==> View(Merged(n, u), n.id) == Some(Info(n.id, Alive, Merged(n, u).own))
    ensures Merged(n, u).own == n.own ==> View(Merged(n, u), n.id) == View(n, n.id)
  {
    if u.id == n.id {
      RefutedMoved(n, own);
    } else if View(n, u.id) == None {
      AddedMoved(n, u, own);
      AddedView(n, u, n.id);
    } else {
      var i := Find(n.members, u.id).value;
      var m := n.members[i];
      if Overrides(u, m.info) {
        PutMoved(n, i, m.(info := u, transmit := n.maxTransmissions), n.own, own);
        FindPut(n.members, i, m.(info := u, transmit := n.maxTransmissions), n.id);
      }
    }
  }

  lemma {:induction false} MergedAllMoved(n: Node, us: seq<Info>, own: seq<nat>)
    requires NodeOk(n, own) && forall u | u in us :: ClaimOk(u, own)
    ensures Moved(n, MergedAll(n, us), own)
    ensures var r := MergedAll(n, us);
      if r.own > n.own then View(r, n.id) == Some(Info(n.id, Alive, r.own)) else View(r, n.id) == View(n, n.id)
    decreases us
  {
    if us != [] {
      assert us[0] in us;
      MergedMoved(n, us[0], own);
      forall u | u in us[1..]
        ensures ClaimOk(u, Raised(own, Merged(n, us[0])))
      {
        assert u in us;
      }
      MergedAllMoved(Merged(n, us[0]), us[1..], Raised(own, Merged(n, us[0])));
    }
  }

  lemma ActionMoved(n: Node, a: Action, own: seq<nat>)
    requires NodeOk(n, own) && (a.Deliver? ==> MessageOk(a.msg, own)) && (a.Seed? ==> a.x < |own|)
    ensures Moved(n, NodeAfter(n, a), own)
    ensures NodeAfter(n, a).own > n.own ==> View(NodeAfter(n, a), n.id) == Some(Info(n.id, Alive, NodeAfter(n, a).own))
  {
    match a
    case Ping(_) => CollectedMoved(n, own);
    case SendOne(_, _) =>
    case Refute(_) => RefutedMoved(n, own);
    case Deliver(_, msg) =>
      HeardMoved(n, msg.sender, msg.incarnation, own);
      MergedAllMoved(Heard(n, msg.sender, msg.incarnation), msg.updates, own);
    case MarkAlive(_, x) => MarkedAliveMoved(n, x, own);
    case Suspect(_, x) => MarkedSuspectedMoved(n, x, own);
    case Fail(_, x) => MarkedFailedMoved(n, x, own);
    case Leave(_, x) => MarkedLeftMoved(n, x, own);
    case Seed(_, x) => if View(n, x) == None { AddedMoved(n, Info(x, Alive, 0), own); }
  }

  lemma CollectedMoved(n: Node, own: seq<nat>)
    requires NodeOk(n, own)
    ensures Moved(n, n.(members := Collected(n.members, MAX_UPDATES).0), own)
    ensures forall u | u in Collected(n.members, MAX_UPDATES).1 :: ClaimOk(u, own)
  {
    CollectedKeeps(n.members, MAX_UPDATES);
    var r := n.(members := Collected(n.members, MAX_UPDATES).0);
    forall x
      ensures View(r, x) == View(n, x)
    {
    }
  }

  lemma SentOk(n: Node, a: Action, own: seq<nat>)
    requires NodeOk(n, own)
    ensures forall m | m in Sent(n, a) :: MessageOk(m, own)
  {
    CollectedMoved(n, own);
  }

  lemma StepOwns(c: Cluster, a: Action)
    requires Ceiling(c) && Enabled(c, a)
    ensures Owns(Step(c, a)) == Raised(Owns(c), NodeAfter(c.nodes[a.i], a))
    ensures Moved(c.nodes[a.i], NodeAfter(c.nodes[a.i], a), Owns(c))
  {
    ActionMoved(c.nodes[a.i], a, Owns(c));
  }

  lemma OkAgain(n: Node, m: Message, own: seq<nat>, more: seq<nat>)
    requires |more| == |own| && forall i | 0 <= i < |own| :: more[i] >= own[i]
    ensures NodeOk(n, own) && n.id < |more| && more[n.id] == own[n.id] ==> NodeOk(n, more)
    ensures MessageOk(m, own) ==> MessageOk(m, more)
  {
  }

  lemma StepKeepsCeiling(c: Cluster, a: Action)
    requires Ceiling(c) && Enabled(c, a)
    ensures Ceiling(Step(c, a))
  {
    var d := Step(c, a);
    StepOwns(c, a);
    SentOk(c.nodes[a.i], a, Owns(c));
    forall i | 0 <= i < |d.nodes|
      ensures d.nodes[i].id == i && NodeOk(d.nodes[i], Owns(d))
    {
      OkAgain(c.nodes[i], Message(0, 0, []), Owns(c), Owns(d));
    }
    forall m | m in d.net
      ensures MessageOk(m, Owns(d))
    {
      OkAgain(c.nodes[a.i], m, Owns(c), Owns(d));
    }
  }

  lemma InitCeiling(size: nat, maxTransmissions: nat)
    ensures Ceiling(Init(size, maxTransmissions))
  {
  }

  /** In every run no view and no message carries an incarnation above that of the node it is about. */
  lemma {:induction false} NothingAboveItsNode(c: Cluster, acts: seq<Action>)
    requires Ceiling(c) && Played(c, acts).Some?
    ensures Ceiling(Played(c, acts).value)
    decreases acts
  {
    if acts != [] {
      StepKeepsCeiling(c, acts[0]);
      NothingAboveItsNode(Step(c, acts[0]), acts[1..]);
    }
  }

  /** So it is from the start, when every node knows itself alone. */
  lemma NothingAboveFromStart(size: nat, maxTransmissions: nat, acts: seq<Action>)
    requires Played(Init(size, maxTransmissions), acts).Some?
    ensures Ceiling(Played(Init(size, maxTransmissions), acts).value)
  {
    InitCeiling(size, maxTransmissions);
    NothingAboveItsNode(Init(size, maxTransmissions), acts);
  }

  /** In every run what a node believes about another only moves to higher incarnations. */
  lemma {:induction false} IncarnationsNeverFall(c: Cluster, acts: seq<Action>, i: nat, x: NodeId)
    requires Ceiling(c) && Played(c, acts).Some? && i < |c.nodes| && View(c.nodes[i], x).Some?
    ensures var d := Played(c, acts).value;
      |d.nodes| == |c.nodes| && View(d.nodes[i], x).Some?
      && View(d.nodes[i], x).value.incarnation >= View(c.nodes[i], x).value.incarnation
    decreases acts
  {
    if acts != [] {
      StepOwns(c, acts[0]);
      StepKeepsCeiling(c, acts[0]);
      IncarnationsNeverFall(Step(c, acts[0]), acts[1..], i, x);
    }
  }

  /** When a node takes a new incarnation it believes itself ALIVE in it, and every claim about it, in any other view
      or in any message, is older. */
  lemma RefutationOutranks(c: Cluster, a: Action)
    requires Ceiling(c) && Enabled(c, a) && Step(c, a).nodes[a.i].own > c.nodes[a.i].own
    ensures var d := Step(c, a); var v := d.nodes[a.i].own;
      View(d.nodes[a.i], a.i) == Some(Info(a.i, Alive, v))
      && (forall j | 0 <= j < |d.nodes| && j != a.i && View(d.nodes[j], a.i).Some? ::
            View(d.nodes[j], a.i).value.incarnation < v)
      && (forall m | m in d.net && m.sender == a.i :: m.incarnation < v)
      && forall m, u | m in d.net && u in m.updates && u.id == a.i :: u.incarnation < v
  {
    ActionMoved(c.nodes[a.i], a, Owns(c));
    SentOk(c.nodes[a.i], a, Owns(c));
  }

  // -------------------------------------------------- refutations over a run

  /** The action is a new suspicion, failure or departure of x at node i, not an old claim arriving. */
  predicate Accuses(a: Action, i: NodeId, x: NodeId) {
    a.i == i && (a.Suspect? || a.Fail? || a.Leave?) && a.x == x
  }

  /** The action delivers to node i the claim that x is alive in incarnation v. */
  predicate DeliversRefutation(a: Action, i: NodeId, x: NodeId, v: nat) {
    a.i == i && a.Deliver? && Info(x, Alive, v) in a.msg.updates
  }

  lemma DeliveryView(n: Node, msg: Message, x: NodeId, v: nat, own: seq<nat>)
    requires NodeOk(n, own) && MessageOk(msg, own) && x != n.id && x < |own| && own[x] <= v
    requires View(n, x) == Some(Info(x, Alive, v)) || Info(x, Alive, v) in msg.updates
    ensures View(Received(n, msg), x) == Some(Info(x, Alive, v))
  {
    var h := Heard(n, msg.sender, msg.incarnation);
    HeardMoved(n, msg.sender, msg.incarnation, own);
    HeardView(n, msg.sender, msg.incarnation, x);
    forall u | u in msg.updates && u.id == x
      ensures u.incarnation <= v
    {
      assert ClaimOk(u, own);
    }
    RefutationRemains(h, msg.updates, x, v);
  }

  /** At most one entry differs, and it is not the one about x. */
  lemma OneEntryChanged(n: Node, r: Node, j: nat, x: NodeId)
    requires j < |n.members| == |r.members| && r.members == n.members[j := r.members[j]]
    requires r.members[j].info.id == n.members[j].info.id != x
    ensures View(r, x) == View(n, x)
  {
    FindPut(n.members, j, r.members[j], x);
  }

  lemma OtherView(n: Node, a: Action, x: NodeId, v: nat, own: seq<nat>)
    requires NodeOk(n, own) && x != n.id && !Accuses(a, n.id, x) && a.i == n.id && !a.Deliver?
    requires View(n, x) == Some(Info(x, Alive, v))
    ensures View(NodeAfter(n, a), x) == Some(Info(x, Alive, v))
  {
    var r := NodeAfter(n, a);
    match a
    case Ping(_) => CollectedKeeps(n.members, MAX_UPDATES);
    case SendOne(_, _) =>
    case Refute(_) => OneEntryChanged(n, r, Find(n.members, n.id).value, x);
    case Seed(_, y) => if View(n, y) == None { AddedView(n, Info(y, Alive, 0), x); }
    case MarkAlive(_, y) => MarkView(n, r, y, x);
    case Suspect(_, y) => MarkView(n, r, y, x);
    case Fail(_, y) => MarkView(n, r, y, x);
    case Leave(_, y) => MarkView(n, r, y, x);
  }

  /** A mark on y leaves the entry about x alone. */
  lemma MarkView(n: Node, r: Node, y: NodeId, x: NodeId)
    requires r == MarkedAlive(n, y) || r == MarkedSuspected(n, y) || r == MarkedFailed(n, y) || r == MarkedLeft(n, y)
    requires y != x || (r == MarkedAlive(n, y) && View(n, x).Some? && View(n, x).value.status == Alive)
    ensures View(r, x) == View(n, x)
  {
    match Find(n.members, y)
    case Some(j) => if y != x { OneEntryChanged(n, r, j, x); }
    case None =>
  }

  lemma StepView(c: Cluster, a: Action, i: NodeId, x: NodeId, v: nat)
    requires Ceiling(c) && Enabled(c, a) && i < |c.nodes| && x < |c.nodes| && i != x && c.nodes[x].own <= v
    requires !Accuses(a, i, x)
    requires View(c.nodes[i], x) == Some(Info(x, Alive, v)) || DeliversRefutation(a, i, x, v)
    ensures View(Step(c, a).nodes[i], x) == Some(Info(x, Alive, v))
  {
    if a.i == i {
      if a.Deliver? {
        DeliveryView(c.nodes[i], a.msg, x, v, Owns(c));
      } else {
        OtherView(c.nodes[i], a, x, v, Owns(c));
      }
    }
  }

  lemma {:induction false} OwnNeverFalls(c: Cluster, acts: seq<Action>, x: NodeId)
    requires Ceiling(c) && Played(c, acts).Some? && x < |c.nodes|
    ensures var d := Played(c, acts).value;
      |d.nodes| == |c.nodes| && d.nodes[x].own >= c.nodes[x].own
    decreases acts
  {
    if acts != [] {
      StepOwns(c, acts[0]);
      StepKeepsCeiling(c, acts[0]);
      OwnNeverFalls(Step(c, acts[0]), acts[1..], x);
    }
  }

  /** Once the refutation in x's latest incarnation has reached node i, node i holds x ALIVE in it at the end of the
      run, whatever older claims reached it before or after, unless it accused x anew itself. */
  lemma {:induction false} RefutationWins(c: Cluster, acts: seq<Action>, i: NodeId, x: NodeId, v: nat)
    requires Ceiling(c) && Played(c, acts).Some? && i < |c.nodes| && x < |c.nodes| && i != x
    requires forall k | 0 <= k < |acts| :: !Accuses(acts[k], i, x)
    requires |Played(c, acts).value.nodes| == |c.nodes| && Played(c, acts).value.nodes[x].own == v
    requires View(c.nodes[i], x) == Some(Info(x, Alive, v))
          || exists k :: 0 <= k < |acts| && DeliversRefutation(acts[k], i, x, v)
    ensures View(Played(c, acts).value.nodes[i], x) == Some(Info(x, Alive, v))
    decreases acts
  {
    if acts != [] {
      var a, d := acts[0], Step(c, acts[0]);
      OwnNeverFalls(c, acts, x);
      StepKeepsCeiling(c, a);
      if View(c.nodes[i], x) == Some(Info(x, Alive, v)) || DeliversRefutation(a, i, x, v) {
        StepView(c, a, i, x, v);
      } else {
        var k :| 0 <= k < |acts| && DeliversRefutation(acts[k], i, x, v);
        assert acts[1..][k - 1] == acts[k];
      }
      RefutationWins(d, acts[1..], i, x, v);
    }
  }

  /** A direct message may lift a suspicion into the new incarnation without clearing it. */
  lemma HeaderKeepsSuspicion(n: Node, x: NodeId, v: nat)
    requires View(n, x).Some? && View(n, x).value.incarnation <= v
    ensures View(Heard(n, x, v), x) == Some(View(n, x).value.(incarnation := v))
  {
    HeardView(n, x, v, x);
  }
}
