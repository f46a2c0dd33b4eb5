// What merging comes to: each operation said entry by entry, and when the order in which updates arrive does not
// matter.

module GossipMerge {
  import opened Basics
  import opened GossipNode
  import opened GossipCluster

  /** A claim replaces another about the same node when its incarnation is higher, or when within one incarnation it
      says ALIVE and the other does not, or SUSPECTED and the other FAILED. */
  predicate Beats(u: Info, w: Info) {
    u.incarnation > w.incarnation
    || (u.incarnation == w.incarnation && u.status == Alive && w.status != Alive)
    || (u.incarnation == w.incarnation && u.status == Suspected && w.status == Failed)
  }

  /** One update about another node: an unknown node is added, a known one changes exactly when the update beats what
      was believed, and nothing else is touched. */
  lemma MergeAnswer(n: Node, u: Info, x: NodeId)
    requires u.id != n.id && x != n.id
    ensures var v := View(n, x);
      View(Merged(n, u), x) == if x == u.id && (v == None || Beats(u, v.value)) then Some(u) else v
    ensures Merged(n, u).own == n.own && Merged(n, u).id == n.id
  {
    MergedView(n, u, x);
  }

  /** An update about the node itself that does not say ALIVE is refuted by the next incarnation; one that does is
      ignored. */
  lemma SelfAnswer(n: Node, u: Info)
    requires u.id == n.id && View(n, n.id).Some?
    ensures u.status == Alive ==> Merged(n, u) == n
    ensures u.status != Alive ==>
      Merged(n, u).own == n.own + 1 && View(Merged(n, u), n.id) == Some(Info(n.id, Alive, n.own + 1))
  {
    if u.status != Alive {
      var i := Find(n.members, n.id).value;
      PutView(n.(own := n.own + 1), i,
              n.members[i].(info := n.members[i].info.(status := Alive, incarnation := n.own + 1),
                            transmit := n.maxTransmissions), n.id);
    }
  }

  /** Two claims about one node of which neither beats the other are the same, or say within one incarnation that it
      left and that it is suspected or failed. */
  lemma TiesIff(u: Info, w: Info)
    requires u.id == w.id
    ensures u != w && !Beats(u, w) && !Beats(w, u) <==>
      && u.incarnation == w.incarnation
      && ((u.status == Left && (w.status == Suspected || w.status == Failed))
          || (w.status == Left && (u.status == Suspected || u.status == Failed)))
  {
  }

  /** Members know which of them is the node itself. */
  ghost predicate KnowsItself(n: Node) {
    forall i | 0 <= i < |n.members| :: n.members[i].isLocal <==> n.members[i].info.id == n.id
  }

  lemma PutSeen(n: Node, x: NodeId, i: nat, info: Info, y: NodeId)
    requires Find(n.members, x) == Some(i) && i < |n.members| && info.id == x
    ensures View(Put(n, i, n.members[i].(info := info, transmit := n.maxTransmissions)), y)
         == if y == x then Some(info) else View(n, y)
  {
    PutView(n, i, n.members[i].(info := info, transmit := n.maxTransmissions), y);
  }

  /** Suspicion turns ALIVE into SUSPECTED within the same incarnation and touches no FAILED or LEFT entry; the node
      itself answers it with its next incarnation. */
  lemma SuspectAnswer(n: Node, x: NodeId, y: NodeId)
    requires KnowsItself(n) && View(n, x).Some?
    ensures var v, r := View(n, x).value, MarkedSuspected(n, x);
      var gone := v.status == Failed || v.status == Left;
      && (y != x ==> View(r, y) == View(n, y))
      && (gone || (x != n.id && v.status == Suspected) ==> r == n)
      && (!gone && x != n.id ==> View(r, x) == Some(Info(x, Suspected, v.incarnation)) && r.own == n.own)
      && (!gone && x == n.id ==> View(r, x) == Some(Info(x, Alive, n.own + 1)) && r.own == n.own + 1)
  {
    var i := Find(n.members, x).value;
    var v := n.members[i].info;
    PutSeen(n, x, i, v.(status := Suspected), y);
    PutSeen(n, x, i, v.(status := Suspected), x);
    PutSeen(n, x, i, v.(status := Alive, incarnation := n.own + 1), y);
    PutSeen(n, x, i, v.(status := Alive, incarnation := n.own + 1), x);
  }

  /** What the sender part of a message does: a new sender is added as ALIVE, a known one keeps its status, and its
      incarnation becomes the larger of the two; nothing else changes. */
  lemma SenderAnswer(n: Node, x: NodeId, v: nat, y: NodeId)
    ensures var r := Heard(n, x, v);
      && r.id == n.id && r.own == n.own
      && (x != y ==> View(r, y) == View(n, y))
      && View(r, x) == match View(n, x)
                       case None => Some(Info(x, Alive, v))
                       case Some(w) => Some(Info(x, w.status, if v > w.incarnation then v else w.incarnation))
  {
    HeardView(n, x, v, y);
    HeardView(n, x, v, x);
  }

  /** Failure, departure and a successful probe set the status and leave the incarnation; the node never fails
      itself. */
  lemma MarkAnswers(n: Node, x: NodeId, y: NodeId)
    requires KnowsItself(n) && View(n, x).Some?
    ensures var v := View(n, x).value;
      && View(MarkedFailed(n, x), y) == (if y == x != n.id then Some(Info(x, Failed, v.incarnation)) else View(n, y))
      && View(MarkedLeft(n, x), y) == (if y == x then Some(Info(x, Left, v.incarnation)) else View(n, y))
      && View(MarkedAlive(n, x), y) == (if y == x then Some(Info(x, Alive, v.incarnation)) else View(n, y))
      && MarkedFailed(n, x).own == MarkedLeft(n, x).own == MarkedAlive(n, x).own == n.own
  {
    var i := Find(n.members, x).value;
    var v := n.members[i].info;
    PutSeen(n, x, i, v.(status := Failed), y);
    PutSeen(n, x, i, v.(status := Left), y);
    PutSeen(n, x, i, v.(status := Alive), y);
  }

  /** Every entry that is new in r, or says something new, is to be passed on the full number of times. */
  ghost predicate NewsIsPassedOn(n: Node, r: Node) {
    |n.members| <= |r.members| && r.maxTransmissions == n.maxTransmissions
    && forall i | 0 <= i < |r.members| && (i >= |n.members| || r.members[i].info != n.members[i].info) ::
         r.members[i].transmit == n.maxTransmissions
  }

  lemma UpdatesPassedOn(n: Node, u: Info)
    ensures NewsIsPassedOn(n, Merged(n, u)) && NewsIsPassedOn(n, Refuted(n))
  {
  }

  lemma MarksPassedOn(n: Node, x: NodeId)
    ensures NewsIsPassedOn(n, MarkedSuspected(n, x)) && NewsIsPassedOn(n, MarkedFailed(n, x))
    ensures NewsIsPassedOn(n, MarkedLeft(n, x)) && NewsIsPassedOn(n, MarkedAlive(n, x))
  {
  }

  // --------------------------------------------------------------- many updates

  /** Whatever does not beat a belief does not beat what it becomes. */
  lemma {:induction false} StaysUnbeaten(n: Node, us: seq<Info>, id: NodeId, u: Info)
    requires id != n.id && View(n, id).Some? && !Beats(u, View(n, id).value)
    ensures View(MergedAll(n, us), id).Some? && !Beats(u, View(MergedAll(n, us), id).value)
    decreases us
  {
    if us != [] {
      MergedView(n, us[0], id);
      MergedKeepsId(n, us[0]);
      StaysUnbeaten(Merged(n, us[0]), us[1..], id, u);
    }
  }

  /** No merged claim beats what is believed in the end. */
  lemma {:induction false} EndsUnbeaten(n: Node, us: seq<Info>, id: NodeId, k: nat)
    requires id != n.id && k < |us| && us[k].id == id
    ensures View(MergedAll(n, us), id).Some? && !Beats(us[k], View(MergedAll(n, us), id).value)
    decreases us
  {
    MergedView(n, us[0], id);
    MergedKeepsId(n, us[0]);
    if k == 0 {
      StaysUnbeaten(Merged(n, us[0]), us[1..], id, us[0]);
    } else {
      EndsUnbeaten(Merged(n, us[0]), us[1..], id, k - 1);
    }
  }

  /** What is believed in the end was believed before or is one of the claims. */
  lemma {:induction false} EndsWithClaim(n: Node, us: seq<Info>, id: NodeId)
    requires id != n.id
    ensures var r := View(MergedAll(n, us), id); r == View(n, id) || (r.Some? && r.value in us && r.value.id == id)
    decreases us
  {
    if us != [] {
      MergedView(n, us[0], id);
      MergedKeepsId(n, us[0]);
      EndsWithClaim(Merged(n, us[0]), us[1..], id);
    }
  }

  /** One of the claims beats all the others. */
  predicate IsTop(us: seq<Info>, id: NodeId, top: Info) {
    top in us && top.id == id && forall u | u in us && u.id == id && u != top :: Beats(top, u)
  }

  /** The same claims about id, in any order and any number. */
  ghost predicate SameClaims(us: seq<Info>, vs: seq<Info>, id: NodeId) {
    forall u: Info | u.id == id :: u in us <==> u in vs
  }

  lemma TopRemains(n: Node, us: seq<Info>, id: NodeId, top: Info)
    requires id != n.id && View(n, id) == None && IsTop(us, id, top)
    ensures View(MergedAll(n, us), id) == Some(top)
  {
    EndsWithClaim(n, us, id);
    var k :| 0 <= k < |us| && us[k] == top;
    EndsUnbeaten(n, us, id, k);
  }

  /** Convergence: nodes that have merged the same claims about a node believe the same of it, in whatever order and
      however often the claims came, as long as one of them beats the others. */
  lemma NodesConverge(m: Node, n: Node, us: seq<Info>, vs: seq<Info>, id: NodeId, top: Info)
    requires id != m.id && id != n.id && View(m, id) == None && View(n, id) == None
    requires SameClaims(us, vs, id) && IsTop(us, id, top)
    ensures View(MergedAll(m, us), id) == View(MergedAll(n, vs), id) == Some(top)
  {
    assert IsTop(vs, id, top);
    TopRemains(m, us, id, top);
    TopRemains(n, vs, id, top);
  }

  ghost predicate OrderIrrelevant(n: Node, us: seq<Info>, id: NodeId) {
    forall vs {:trigger SameClaims(us, vs, id)} | SameClaims(us, vs, id) ::
      View(MergedAll(n, vs), id) == View(MergedAll(n, us), id)
  }

  function Repeated(c: Info, us: seq<Info>): seq<Info> { [c] + us }

  /** Without such a claim the order decides. */
  lemma WithoutTopOrderMatters(n: Node, us: seq<Info>, id: NodeId, k: nat)
    requires id != n.id && View(n, id) == None && k < |us| && us[k].id == id
    requires forall top | top in us :: !IsTop(us, id, top)
    ensures !OrderIrrelevant(n, us, id)
  {
    EndsUnbeaten(n, us, id, k);
    EndsWithClaim(n, us, id);
    var a := View(MergedAll(n, us), id).value;
    assert !IsTop(us, id, a);
    var c :| c in us && c.id == id && c != a && !Beats(a, c);
    OtherwiseAfter(n, us, id, a, c);
  }

  /** What does not beat a claim is not believed in the end if that claim comes first. */
  lemma OtherwiseAfter(n: Node, us: seq<Info>, id: NodeId, a: Info, c: Info)
    requires id != n.id && View(n, id) == None && View(MergedAll(n, us), id) == Some(a)
    requires c in us && c.id == id && c != a && !Beats(a, c)
    ensures !OrderIrrelevant(n, us, id)
  {
    StartsWith(n, c, us, id);
    assert SameClaims(us, Repeated(c, us), id);
  }

  /** A belief is only ever replaced by one that beats it. */
  lemma {:induction false} OnlyBeaten(n: Node, us: seq<Info>, id: NodeId)
    requires id != n.id && View(n, id).Some?
    ensures var r := View(MergedAll(n, us), id); r == View(n, id) || (r.Some? && Beats(r.value, View(n, id).value))
    decreases us
  {
    if us != [] {
      MergedView(n, us[0], id);
      MergedKeepsId(n, us[0]);
      OnlyBeaten(Merged(n, us[0]), us[1..], id);
    }
  }

  lemma StartsWith(n: Node, c: Info, us: seq<Info>, id: NodeId)
    requires id != n.id && View(n, id) == None && c.id == id
    ensures var r := View(MergedAll(n, Repeated(c, us)), id); r == Some(c) || (r.Some? && Beats(r.value, c))
  {
    MergedView(n, c, id);
    MergedKeepsId(n, c);
    assert Repeated(c, us)[1..] == us;
    OnlyBeaten(Merged(n, c), us, id);
  }

  /** The order of updates is irrelevant exactly when one of the claims beats all the others. */
  lemma OrderIrrelevantIff(n: Node, us: seq<Info>, id: NodeId, k: nat)
    requires id != n.id && View(n, id) == None && k < |us| && us[k].id == id
    ensures OrderIrrelevant(n, us, id) <==> exists top :: top in us && IsTop(us, id, top)
  {
    if top :| top in us && IsTop(us, id, top) {
      forall vs | SameClaims(us, vs, id)
        ensures View(MergedAll(n, vs), id) == View(MergedAll(n, us), id)
      {
        NodesConverge(n, n, us, vs, id, top);
      }
    } else {
      WithoutTopOrderMatters(n, us, id, k);
    }
  }

  // -------------------------------------------------------- the documented order

  /** The ranking of gossip_conflict_resolution.c. */
  function Priority(s: Status): nat {
    match s case Alive => 3 case Suspected => 2 case Failed => 1 case Left => 0
  }

  predicate ShouldApply(u: Info, w: Info) {
    u.incarnation > w.incarnation || (u.incarnation == w.incarnation && Priority(u.status) > Priority(w.status))
  }

  /** The merge rule departs from it exactly when a suspicion or failure meets a departure of the same incarnation. */
  lemma RulesDifferIff(u: Info, w: Info)
    ensures Beats(u, w) != ShouldApply(u, w) <==>
      u.incarnation == w.incarnation && w.status == Left && (u.status == Suspected || u.status == Failed)
  {
  }

  /** By the documented ranking one claim always beats all the others, so no order of arrival could matter. */
  lemma {:induction false} RankedTop(us: seq<Info>, id: NodeId, k: nat) returns (top: Info)
    requires k < |us| && us[k].id == id
    ensures top in us && top.id == id && forall u | u in us && u.id == id && u != top :: ShouldApply(top, u)
  {
    if us[0].id != id {
      top := RankedTop(us[1..], id, k - 1);
    } else if forall j | 0 < j < |us| :: us[j].id != id {
      top := us[0];
    } else {
      var j :| 0 < j < |us| && us[j].id == id;
      assert us[1..][j - 1].id == id;
      top := RankedTop(us[1..], id, j - 1);
      if ShouldApply(us[0], top) {
        top := us[0];
      }
    }
    assert us == [us[0]] + us[1..];
  }

  // ------------------------------------------------------------- passing on

  /** What is still to be passed on, in the order of the members. */
  function Pending(ms: seq<Member>): seq<Info> {
    if ms == [] then [] else (if ms[0].transmit > 0 then [ms[0].info] else []) + Pending(ms[1..])
  }

  /** How many of the first i members that are. */
  function PendingBefore(ms: seq<Member>, i: nat): nat
    requires i <= |ms|
  {
    if i == 0 then 0 else (if ms[0].transmit > 0 then 1 else 0) + PendingBefore(ms[1..], i - 1)
  }

  /** Exactly the first `limit` pending entries are passed on. */
  lemma {:induction false} FirstPassedOn(ms: seq<Member>, limit: nat)
    ensures var p := Pending(ms); Collected(ms, limit).1 == p[..if |p| < limit then |p| else limit]
  {
    if ms != [] && limit > 0 {
      FirstPassedOn(ms[1..], if ms[0].transmit > 0 then limit - 1 else limit);
    }
  }

  /** Each of them loses one transmission, and nothing else changes. */
  lemma {:induction false} PassedOnLoseOne(ms: seq<Member>, limit: nat, i: nat)
    requires i < |ms|
    ensures Collected(ms, limit).0[i] == ms[i].(
      transmit := ms[i].transmit - if ms[i].transmit > 0 && PendingBefore(ms, i) < limit then 1 else 0)
  {
    if i > 0 && limit > 0 {
      PassedOnLoseOne(ms[1..], if ms[0].transmit > 0 then limit - 1 else limit, i - 1);
    }
  }
}
