// What the connection pool does, on the list of its entries from the most to the least recently touched, and what
// every run of it keeps.

module PoolModel {
  import opened Basics

  type Conn = nat

  datatype Item = Item(conn: Conn, host: string, port: nat, inUse: bool, failed: bool)

  /** s without its element i. */
  function Without<T>(s: seq<T>, i: nat): (r: seq<T>)
    requires i < |s|
    ensures |r| == |s| - 1
  {
    s[..i] + s[i + 1..]
  }

  /** Entry i can be lent for this host and port. */
  predicate Fits(items: seq<Item>, i: nat, host: string, port: nat) {
    i < |items| && !items[i].inUse && !items[i].failed && items[i].host == host && items[i].port == port
  }

  function Lent(items: seq<Item>, i: nat): seq<Item>
    requires i < |items|
  {
    [items[i].(inUse := true)] + Without(items, i)
  }

  /** The idle entry furthest from the head. */
  function OldestIdle(items: seq<Item>): Option<nat> {
    if items == [] then None
    else if !items[|items| - 1].inUse then Some(|items| - 1)
    else OldestIdle(items[..|items| - 1])
  }

  lemma {:induction false} OldestIdleIs(items: seq<Item>)
    ensures match OldestIdle(items)
      case Some(i) => i < |items| && !items[i].inUse && forall j | i < j < |items| :: items[j].inUse
      case None => forall j | 0 <= j < |items| :: items[j].inUse
  {
    if items != [] {
      OldestIdleIs(items[..|items| - 1]);
    }
  }

  function Evicted(items: seq<Item>): seq<Item> {
    OldestIdleIs(items);
    match OldestIdle(items)
    case Some(i) => Without(items, i)
    case None => items
  }

  function Connected(items: seq<Item>, max: nat, conn: Conn, host: string, port: nat): seq<Item> {
    [Item(conn, host, port, true, false)] + if |items| >= max then Evicted(items) else items
  }

  function IndexOf(items: seq<Item>, conn: Conn): (r: Option<nat>)
    ensures r.Some? ==> r.value < |items| && items[r.value].conn == conn
  {
    if items == [] then None
    else if items[|items| - 1].conn == conn then Some(|items| - 1)
    else IndexOf(items[..|items| - 1], conn)
  }

  lemma {:induction false} IndexOfIs(items: seq<Item>, conn: Conn)
    ensures IndexOf(items, conn) == None <==> forall i | 0 <= i < |items| :: items[i].conn != conn
  {
    if items != [] && items[|items| - 1].conn != conn {
      IndexOfIs(items[..|items| - 1], conn);
    }
  }

  function Released(items: seq<Item>, max: nat, conn: Conn): seq<Item> {
    match IndexOf(items, conn)
    case None => items
    case Some(i) =>
      if items[i].failed || |items| > max then Without(items, i)
      else [items[i].(inUse := false)] + Without(items, i)
  }

  function MarkedFailed(items: seq<Item>, conn: Conn): seq<Item> {
    match IndexOf(items, conn)
    case None => items
    case Some(i) => items[i := items[i].(failed := true)]
  }

  /** Freeing an entry closes its connection unless it has been marked failed. */
  function ClosedWith(x: Item): set<Conn> { if x.failed then {} else {x.conn} }

  function ClosedByEviction(items: seq<Item>): set<Conn> {
    OldestIdleIs(items);
    match OldestIdle(items)
    case Some(i) => ClosedWith(items[i])
    case None => {}
  }

  function ClosedByRelease(items: seq<Item>, max: nat, conn: Conn): set<Conn> {
    match IndexOf(items, conn)
    case None => {conn}
    case Some(i) => if items[i].failed || |items| > max then ClosedWith(items[i]) else {}
  }

  // --------------------------------------------------------------- invariants

  ghost predicate DistinctConns(items: seq<Item>) {
    forall i, j | 0 <= i < j < |items| :: items[i].conn != items[j].conn
  }

  /** No connection twice, and over the limit only when nothing is idle. */
  ghost predicate Coherent(items: seq<Item>, max: nat) {
    DistinctConns(items) && (|items| > max ==> forall i | 0 <= i < |items| :: items[i].inUse)
  }

  ghost function InUse(items: seq<Item>): set<Conn> {
    set i | 0 <= i < |items| && items[i].inUse :: items[i].conn
  }

  lemma WithoutKeeps(items: seq<Item>, i: nat)
    requires i < |items| && DistinctConns(items)
    ensures var r := Without(items, i);
      DistinctConns(r) && (forall x | x in r :: x in items && x.conn != items[i].conn)
      && InUse(r) == InUse(items) - {items[i].conn}
  {
    var r := Without(items, i);
    forall c
      ensures c in InUse(r) <==> c in InUse(items) && c != items[i].conn
    {
      if c in InUse(items) && c != items[i].conn {
        var k :| 0 <= k < |items| && items[k].inUse && items[k].conn == c;
        assert r[if k < i then k else k - 1] == items[k];
      }
    }
  }

  lemma FrontAdded(x: Item, rest: seq<Item>)
    requires DistinctConns(rest) && forall y | y in rest :: y.conn != x.conn
    ensures DistinctConns([x] + rest)
    ensures InUse([x] + rest) == InUse(rest) + if x.inUse then {x.conn} else {}
  {
    var s := [x] + rest;
    forall c
      ensures c in InUse(s) <==> c in InUse(rest) || (x.inUse && c == x.conn)
    {
      if c in InUse(rest) {
        var k :| 0 <= k < |rest| && rest[k].inUse && rest[k].conn == c;
        assert s[k + 1] == rest[k];
      }
      if x.inUse && c == x.conn {
        assert s[0] == x;
      }
    }
  }

  /** A lent connection was nobody's before. */
  lemma LentKeeps(items: seq<Item>, max: nat, i: nat)
    requires Coherent(items, max) && i < |items| && !items[i].inUse
    ensures Coherent(Lent(items, i), max) && |Lent(items, i)| <= max
    ensures items[i].conn !in InUse(items) && InUse(Lent(items, i)) == InUse(items) + {items[i].conn}
  {
    WithoutKeeps(items, i);
    FrontAdded(items[i].(inUse := true), Without(items, i));
  }

  lemma EvictedKeeps(items: seq<Item>)
    requires DistinctConns(items)
    ensures DistinctConns(Evicted(items)) && InUse(Evicted(items)) == InUse(items)
    ensures forall x | x in Evicted(items) :: x in items
  {
    OldestIdleIs(items);
    match OldestIdle(items)
    case Some(i) => WithoutKeeps(items, i);
    case None =>
  }

  /** A new connection goes in; the limit is passed only when every entry is lent out. */
  lemma ConnectedKeeps(items: seq<Item>, max: nat, conn: Conn, host: string, port: nat)
    requires Coherent(items, max) && forall x | x in items :: x.conn != conn
    ensures Coherent(Connected(items, max, conn, host, port), max)
    ensures InUse(Connected(items, max, conn, host, port)) == InUse(items) + {conn}
    ensures |Connected(items, max, conn, host, port)| > max <==>
      |items| >= max && forall i | 0 <= i < |items| :: items[i].inUse
  {
    var rest := if |items| >= max then Evicted(items) else items;
    EvictedKeeps(items);
    OldestIdleIs(items);
    FrontAdded(Item(conn, host, port, true, false), rest);
  }

  lemma ReleasedKeeps(items: seq<Item>, max: nat, conn: Conn)
    requires Coherent(items, max)
    ensures Coherent(Released(items, max, conn), max)
    ensures InUse(Released(items, max, conn)) == InUse(items) - {conn}
  {
    IndexOfIs(items, conn);
    match IndexOf(items, conn)
    case None =>
    case Some(i) =>
      WithoutKeeps(items, i);
      FrontAdded(items[i].(inUse := false), Without(items, i));
  }

  lemma MarkedFailedKeeps(items: seq<Item>, max: nat, conn: Conn)
    requires Coherent(items, max)
    ensures Coherent(MarkedFailed(items, conn), max) && InUse(MarkedFailed(items, conn)) == InUse(items)
  {
    var marked := MarkedFailed(items, conn);
    assert forall i | 0 <= i < |items| :: marked[i].conn == items[i].conn && marked[i].inUse == items[i].inUse;
  }

  // --------------------------------------------------------------------- runs

  datatype Op =
    | Reuse(i: nat, host: string, port: nat)
    | Connect(conn: Conn, host: string, port: nat)
    | Release(conn: Conn)
    | Fail(conn: Conn)

  /** The pool with what an observer knows: who has been lent what, and when each connection was last touched. */
  datatype Run = Run(items: seq<Item>, lent: set<Conn>, touched: map<Conn, nat>, clock: nat)

  const START := Run([], {}, map[], 0)

  /** A reused entry must fit; a new connection is not one the pool already has. */
  predicate Enabled(r: Run, op: Op) {
    match op
    case Reuse(i, host, port) => Fits(r.items, i, host, port)
    case Connect(conn, host, port) => forall x | x in r.items :: x.conn != conn
    case Release(conn) => true
    case Fail(conn) => true
  }

  function Step(r: Run, op: Op, max: nat): Run
    requires Enabled(r, op)
  {
    match op
    case Reuse(i, host, port) =>
      var conn := r.items[i].conn;
      Run(Lent(r.items, i), r.lent + {conn}, r.touched[conn := r.clock], r.clock + 1)
    case Connect(conn, host, port) =>
      Run(Connected(r.items, max, conn, host, port), r.lent + {conn}, r.touched[conn := r.clock], r.clock + 1)
    case Release(conn) =>
      Run(Released(r.items, max, conn), r.lent - {conn}, r.touched[conn := r.clock], r.clock + 1)
    case Fail(conn) => Run(MarkedFailed(r.items, conn), r.lent, r.touched, r.clock + 1)
  }

  /** The pool after a sequence of operations, if each was possible when its turn came. */
  function Played(ops: seq<Op>, max: nat): Option<Run> {
    if ops == [] then Some(START)
    else match Played(ops[..|ops| - 1], max)
      case None => None
      case Some(r) => if Enabled(r, ops[|ops| - 1]) then Some(Step(r, ops[|ops| - 1], max)) else None
  }

  predicate CanRun(ops: seq<Op>, max: nat) { Played(ops, max).Some? }

  function After(ops: seq<Op>, max: nat): Run
    requires CanRun(ops, max)
  {
    Played(ops, max).value
  }

  /** The list runs from the most to the least recently touched. */
  ghost predicate InTouchOrder(items: seq<Item>, touched: map<Conn, nat>, clock: nat) {
    (forall i | 0 <= i < |items| :: items[i].conn in touched && touched[items[i].conn] < clock)
    && forall i, j | 0 <= i < j < |items| :: touched[items[i].conn] > touched[items[j].conn]
  }

  ghost predicate Good(r: Run, max: nat) {
    Coherent(r.items, max) && r.lent == InUse(r.items) && InTouchOrder(r.items, r.touched, r.clock)
  }

  lemma WithoutInOrder(items: seq<Item>, i: nat, touched: map<Conn, nat>, clock: nat)
    requires i < |items| && InTouchOrder(items, touched, clock)
    ensures InTouchOrder(Without(items, i), touched, clock)
  {
  }

  /** Touching an entry, or adding one, puts it first. */
  lemma FrontInOrder(x: Item, rest: seq<Item>, touched: map<Conn, nat>, clock: nat)
    requires InTouchOrder(rest, touched, clock) && forall y | y in rest :: y.conn != x.conn
    ensures InTouchOrder([x] + rest, touched[x.conn := clock], clock + 1)
  {
  }

  lemma ReuseKeeps(r: Run, i: nat, host: string, port: nat, max: nat)
    requires Good(r, max) && Fits(r.items, i, host, port)
    ensures Good(Step(r, Reuse(i, host, port), max), max) && r.items[i].conn !in r.lent
  {
    LentKeeps(r.items, max, i);
    WithoutKeeps(r.items, i);
    WithoutInOrder(r.items, i, r.touched, r.clock);
    FrontInOrder(r.items[i].(inUse := true), Without(r.items, i), r.touched, r.clock);
  }

  lemma ConnectKeeps(r: Run, conn: Conn, host: string, port: nat, max: nat)
    requires Good(r, max) && Enabled(r, Connect(conn, host, port))
    ensures Good(Step(r, Connect(conn, host, port), max), max) && conn !in r.lent
  {
    ConnectedKeeps(r.items, max, conn, host, port);
    EvictedKeeps(r.items);
    OldestIdleIs(r.items);
    var rest := if |r.items| >= max then Evicted(r.items) else r.items;
    match OldestIdle(r.items)
    case Some(i) => WithoutInOrder(r.items, i, r.touched, r.clock);
    case None =>
    FrontInOrder(Item(conn, host, port, true, false), rest, r.touched, r.clock);
  }

  lemma OthersInOrder(items: seq<Item>, conn: Conn, touched: map<Conn, nat>, clock: nat)
    requires InTouchOrder(items, touched, clock) && forall x | x in items :: x.conn != conn
    ensures InTouchOrder(items, touched[conn := clock], clock + 1)
  {
  }

  lemma ReleaseKeeps(r: Run, conn: Conn, max: nat)
    requires Good(r, max)
    ensures Good(Step(r, Release(conn), max), max)
  {
    ReleasedKeeps(r.items, max, conn);
    IndexOfIs(r.items, conn);
    match IndexOf(r.items, conn)
    case None => OthersInOrder(r.items, conn, r.touched, r.clock);
    case Some(i) =>
      WithoutKeeps(r.items, i);
      WithoutInOrder(r.items, i, r.touched, r.clock);
      OthersInOrder(Without(r.items, i), conn, r.touched, r.clock);
      FrontInOrder(r.items[i].(inUse := false), Without(r.items, i), r.touched, r.clock);
  }

  lemma FailKeeps(r: Run, conn: Conn, max: nat)
    requires Good(r, max)
    ensures Good(Step(r, Fail(conn), max), max)
  {
    MarkedFailedKeeps(r.items, max, conn);
    var marked := MarkedFailed(r.items, conn);
    assert forall i | 0 <= i < |marked| :: marked[i].conn == r.items[i].conn;
  }

  /** In every run: no connection twice in the pool, over the limit only when all is lent out, the entries in use are
      exactly the connections lent and not yet given back, and the list is in order of touching. */
  lemma {:induction false} RunsAreGood(ops: seq<Op>, max: nat)
    requires CanRun(ops, max)
    ensures Good(After(ops, max), max)
  {
    if ops != [] {
      var front, last := ops[..|ops| - 1], ops[|ops| - 1];
      RunsAreGood(front, max);
      match last
      case Reuse(i, host, port) => ReuseKeeps(After(front, max), i, host, port, max);
      case Connect(conn, host, port) => ConnectKeeps(After(front, max), conn, host, port, max);
      case Release(conn) => ReleaseKeeps(After(front, max), conn, max);
      case Fail(conn) => FailKeeps(After(front, max), conn, max);
    }
  }

  /** No step lends a connection that is still out. */
  lemma NeverLentTwice(ops: seq<Op>, op: Op, max: nat)
    requires CanRun(ops, max) && Enabled(After(ops, max), op)
    ensures op.Reuse? ==> After(ops, max).items[op.i].conn !in After(ops, max).lent
    ensures op.Connect? ==> op.conn !in After(ops, max).lent
  {
    RunsAreGood(ops, max);
    match op
    case Reuse(i, host, port) => ReuseKeeps(After(ops, max), i, host, port, max);
    case Connect(conn, host, port) => ConnectKeeps(After(ops, max), conn, host, port, max);
    case Release(conn) =>
    case Fail(conn) =>
  }

  /** When entry i was last touched, never being before the first step. */
  function LastTouch(r: Run, i: nat): int
    requires i < |r.items|
  {
    if r.items[i].conn in r.touched then r.touched[r.items[i].conn] else -1
  }

  /** What eviction takes was touched before every other idle entry. */
  lemma EvictsLeastRecent(ops: seq<Op>, max: nat, j: nat)
    requires CanRun(ops, max)
    requires var items := After(ops, max).items; j < |items| && !items[j].inUse
    ensures var r := After(ops, max);
      exists i :: OldestIdle(r.items) == Some(i) && i < |r.items| && LastTouch(r, i) <= LastTouch(r, j)
  {
    RunsAreGood(ops, max);
    var r := After(ops, max);
    OldestIdleIs(r.items);
    var i := OldestIdle(r.items).value;
    assert LastTouch(r, i) <= LastTouch(r, j);
  }

  // ------------------------------------------------------ what is lent to whom

  /** The host and port conn was last connected to. */
  function ConnectedTo(ops: seq<Op>, conn: Conn): Option<(string, nat)> {
    if ops == [] then None
    else match ops[|ops| - 1]
      case Connect(c, host, port) => if c == conn then Some((host, port)) else ConnectedTo(ops[..|ops| - 1], conn)
      case _ => ConnectedTo(ops[..|ops| - 1], conn)
  }

  /** It has been marked failed since. */
  predicate FailedSince(ops: seq<Op>, conn: Conn) {
    if ops == [] then false
    else match ops[|ops| - 1]
      case Connect(c, _, _) => c != conn && FailedSince(ops[..|ops| - 1], conn)
      case Fail(c) => c == conn || FailedSince(ops[..|ops| - 1], conn)
      case _ => FailedSince(ops[..|ops| - 1], conn)
  }

  predicate True(x: Item, ops: seq<Op>) {
    ConnectedTo(ops, x.conn) == Some((x.host, x.port)) && x.failed == FailedSince(ops, x.conn)
  }

  ghost predicate AllTrue(items: seq<Item>, ops: seq<Op>) { forall i | 0 <= i < |items| :: True(items[i], ops) }

  lemma WithoutTrue(items: seq<Item>, i: nat, ops: seq<Op>)
    requires i < |items| && AllTrue(items, ops)
    ensures AllTrue(Without(items, i), ops)
  {
  }

  lemma FrontTrue(x: Item, rest: seq<Item>, ops: seq<Op>)
    requires True(x, ops) && AllTrue(rest, ops)
    ensures AllTrue([x] + rest, ops)
  {
  }

  /** An operation on another connection, or one that neither connects nor fails, leaves what is known as it was. */
  lemma StaysTrue(x: Item, ops: seq<Op>, op: Op)
    requires True(x, ops) && (op.Reuse? || op.Release? || op.conn != x.conn)
    ensures True(x, OneMore(ops, op))
  {
    assert OneMore(ops, op)[..|ops|] == ops;
  }

  lemma AllStayTrue(items: seq<Item>, ops: seq<Op>, op: Op)
    requires AllTrue(items, ops)
    requires op.Reuse? || op.Release? || forall i | 0 <= i < |items| :: items[i].conn != op.conn
    ensures AllTrue(items, OneMore(ops, op))
  {
    forall i | 0 <= i < |items|
      ensures True(items[i], OneMore(ops, op))
    {
      StaysTrue(items[i], ops, op);
    }
  }

  lemma ConnectTrue(items: seq<Item>, ops: seq<Op>, op: Op, max: nat)
    requires AllTrue(items, ops) && op.Connect? && forall x | x in items :: x.conn != op.conn
    ensures AllTrue(Connected(items, max, op.conn, op.host, op.port), OneMore(ops, op))
  {
    AllStayTrue(items, ops, op);
    OldestIdleIs(items);
    if |items| >= max && OldestIdle(items).Some? {
      WithoutTrue(items, OldestIdle(items).value, OneMore(ops, op));
    }
    assert OneMore(ops, op)[..|ops|] == ops;
    FrontTrue(Item(op.conn, op.host, op.port, true, false), if |items| >= max then Evicted(items) else items,
              OneMore(ops, op));
  }

  lemma FailTrue(items: seq<Item>, ops: seq<Op>, op: Op)
    requires DistinctConns(items) && AllTrue(items, ops) && op.Fail?
    ensures AllTrue(MarkedFailed(items, op.conn), OneMore(ops, op))
  {
    IndexOfIs(items, op.conn);
    assert OneMore(ops, op)[..|ops|] == ops;
    forall i | 0 <= i < |items|
      ensures True(MarkedFailed(items, op.conn)[i], OneMore(ops, op))
    {
      if items[i].conn != op.conn {
        StaysTrue(items[i], ops, op);
      }
    }
  }

  lemma TouchTrue(items: seq<Item>, i: nat, inUse: bool, ops: seq<Op>, op: Op)
    requires i < |items| && AllTrue(items, ops) && (op.Reuse? || op.Release?)
    ensures AllTrue(Without(items, i), OneMore(ops, op))
    ensures AllTrue([items[i].(inUse := inUse)] + Without(items, i), OneMore(ops, op))
  {
    AllStayTrue(items, ops, op);
    WithoutTrue(items, i, OneMore(ops, op));
    FrontTrue(items[i].(inUse := inUse), Without(items, i), OneMore(ops, op));
  }

  lemma StepTrue(r: Run, ops: seq<Op>, op: Op, max: nat)
    requires DistinctConns(r.items) && AllTrue(r.items, ops) && Enabled(r, op)
    ensures AllTrue(Step(r, op, max).items, OneMore(ops, op))
  {
    match op
    case Reuse(i, _, _) => TouchTrue(r.items, i, true, ops, op);
    case Connect(_, _, _) => ConnectTrue(r.items, ops, op, max);
    case Release(conn) =>
      if IndexOf(r.items, conn).Some? {
        TouchTrue(r.items, IndexOf(r.items, conn).value, false, ops, op);
      } else {
        AllStayTrue(r.items, ops, op);
      }
    case Fail(_) => FailTrue(r.items, ops, op);
  }

  /** In every run each entry carries the host and port its connection was connected to, and is marked failed exactly
      when the connection has been reported so since. */
  lemma {:induction false} ItemsAreTrue(ops: seq<Op>, max: nat)
    requires CanRun(ops, max)
    ensures forall i | 0 <= i < |After(ops, max).items| ::
      var x := After(ops, max).items[i];
      ConnectedTo(ops, x.conn) == Some((x.host, x.port)) && (x.failed <==> FailedSince(ops, x.conn))
  {
    if ops != [] {
      var front, last := ops[..|ops| - 1], ops[|ops| - 1];
      ItemsAreTrue(front, max);
      RunsAreGood(front, max);
      StepTrue(After(front, max), front, last, max);
      assert OneMore(front, last) == ops;
    }
  }

  /** A reuse lends a connection that was connected to the very host and port asked for, has not been reported failed
      since and was not out. */
  lemma ReuseIsRight(ops: seq<Op>, i: nat, host: string, port: nat, max: nat)
    requires CanRun(ops, max) && CanRun(OneMore(ops, Reuse(i, host, port)), max)
    ensures exists conn ::
      && ConnectedTo(ops, conn) == Some((host, port)) && !FailedSince(ops, conn)
      && conn !in After(ops, max).lent
      && After(OneMore(ops, Reuse(i, host, port)), max).lent == After(ops, max).lent + {conn}
  {
    assert OneMore(ops, Reuse(i, host, port))[..|ops|] == ops;
    ItemsAreTrue(ops, max);
    RunsAreGood(ops, max);
    ReuseKeeps(After(ops, max), i, host, port, max);
  }

  /** A pooled connection to that host and port that is not out and has not been reported failed. */
  ghost predicate Usable(ops: seq<Op>, r: Run, conn: Conn, host: string, port: nat) {
    Pooled(r.items, conn) && conn !in r.lent && ConnectedTo(ops, conn) == Some((host, port)) && !FailedSince(ops, conn)
  }

  /** Nothing usable is missed: a request can be served from the pool exactly when there is a usable connection. */
  lemma ReusableIff(ops: seq<Op>, host: string, port: nat, max: nat)
    requires CanRun(ops, max)
    ensures (exists i: nat :: Enabled(After(ops, max), Reuse(i, host, port)))
       <==> (exists conn :: Usable(ops, After(ops, max), conn, host, port))
  {
    ItemsAreTrue(ops, max);
    RunsAreGood(ops, max);
    var r := After(ops, max);
    if i: nat :| Enabled(r, Reuse(i, host, port)) {
      NotInUse(r.items, i);
      assert Usable(ops, r, r.items[i].conn, host, port);
    }
    if conn :| Usable(ops, r, conn, host, port) {
      var i: nat :| i < |r.items| && r.items[i].conn == conn;
      assert Enabled(r, Reuse(i, host, port));
    }
  }

  lemma NotInUse(items: seq<Item>, i: nat)
    requires DistinctConns(items) && i < |items| && !items[i].inUse
    ensures items[i].conn !in InUse(items)
  {
  }

  /** The hit: a connection given back in health, while the pool is within its limit, serves the next request for its
      host and port. */
  lemma ReleasedIsReusable(ops: seq<Op>, conn: Conn, host: string, port: nat, max: nat)
    requires CanRun(ops, max) && conn in After(ops, max).lent && |After(ops, max).items| <= max
    requires ConnectedTo(ops, conn) == Some((host, port)) && !FailedSince(ops, conn)
    ensures CanRun(OneMore(ops, Release(conn)), max)
    ensures Enabled(After(OneMore(ops, Release(conn)), max), Reuse(0, host, port))
    ensures After(OneMore(ops, Release(conn)), max).items[0].conn == conn
  {
    ItemsAreTrue(ops, max);
    RunsAreGood(ops, max);
    PlayedOneMore(ops, Release(conn), max);
    var items := After(ops, max).items;
    IndexOfIs(items, conn);
  }

  // ------------------------------------------------------- what becomes of connections

  /** The connections the pool closes in a step. */
  function ClosedBy(r: Run, op: Op, max: nat): set<Conn> {
    match op
    case Reuse(_, _, _) => {}
    case Connect(_, _, _) => if |r.items| >= max then ClosedByEviction(r.items) else {}
    case Release(conn) => ClosedByRelease(r.items, max, conn)
    case Fail(_) => {}
  }

  ghost predicate Pooled(items: seq<Item>, conn: Conn) { exists i :: 0 <= i < |items| && items[i].conn == conn }

  lemma OthersStay(items: seq<Item>, i: nat, k: nat)
    requires i < |items| && k < |items| && k != i
    ensures Pooled(Without(items, i), items[k].conn)
  {
    assert Without(items, i)[if k < i then k else k - 1] == items[k];
  }

  lemma StaysBehind(x: Item, rest: seq<Item>, conn: Conn)
    requires conn == x.conn || Pooled(rest, conn)
    ensures Pooled([x] + rest, conn)
  {
    if conn == x.conn {
      assert ([x] + rest)[0] == x;
    } else {
      var k :| 0 <= k < |rest| && rest[k].conn == conn;
      assert ([x] + rest)[k + 1] == rest[k];
    }
  }

  lemma TouchedStay(items: seq<Item>, i: nat, x: Item, k: nat)
    requires i < |items| && x.conn == items[i].conn && k < |items|
    ensures Pooled([x] + Without(items, i), items[k].conn)
  {
    if k != i {
      OthersStay(items, i, k);
    }
    StaysBehind(x, Without(items, i), items[k].conn);
  }

  /** Connecting drops nothing but the entry it evicts. */
  lemma ConnectDrops(items: seq<Item>, max: nat, conn: Conn, host: string, port: nat, k: nat)
    requires k < |items|
    ensures Pooled(Connected(items, max, conn, host, port), items[k].conn)
         || (|items| >= max && OldestIdle(items) == Some(k))
  {
    OldestIdleIs(items);
    var x := Item(conn, host, port, true, false);
    if |items| >= max && OldestIdle(items).Some? {
      if OldestIdle(items).value != k {
        OthersStay(items, OldestIdle(items).value, k);
        StaysBehind(x, Evicted(items), items[k].conn);
      }
    } else {
      StaysBehind(x, items, items[k].conn);
    }
  }

  /** Releasing drops nothing but the released entry, and that only when it failed or the pool is over its limit. */
  lemma ReleaseDrops(items: seq<Item>, max: nat, conn: Conn, k: nat)
    requires k < |items|
    ensures Pooled(Released(items, max, conn), items[k].conn)
         || (IndexOf(items, conn) == Some(k) && (items[k].failed || |items| > max))
  {
    match IndexOf(items, conn)
    case None =>
    case Some(i) =>
      TouchedStay(items, i, items[i].(inUse := false), k);
      if k != i {
        OthersStay(items, i, k);
      }
  }

  /** Whoever leaves is closed unless it was marked failed. */
  lemma LeavesAs(r: Run, op: Op, max: nat, k: nat)
    requires Enabled(r, op) && k < |r.items|
    requires !Pooled(Step(r, op, max).items, r.items[k].conn)
    ensures r.items[k].conn in ClosedBy(r, op, max) <==> !r.items[k].failed
  {
    match op
    case Reuse(i, _, _) => TouchedStay(r.items, i, r.items[i].(inUse := true), k);
    case Connect(conn, host, port) => ConnectDrops(r.items, max, conn, host, port, k);
    case Release(conn) => ReleaseDrops(r.items, max, conn, k);
    case Fail(conn) => FailDrops(r.items, conn, k);
  }

  lemma FailDrops(items: seq<Item>, conn: Conn, k: nat)
    requires k < |items|
    ensures Pooled(MarkedFailed(items, conn), items[k].conn)
  {
    assert MarkedFailed(items, conn)[k].conn == items[k].conn;
  }

  /** In every run, a connection that leaves the pool is closed in that very step exactly when it has not been marked
      failed. */
  lemma LeavingClosedIff(ops: seq<Op>, op: Op, max: nat, k: nat)
    requires CanRun(ops, max) && Enabled(After(ops, max), op)
    requires var r := After(ops, max); k < |r.items| && !Pooled(Step(r, op, max).items, r.items[k].conn)
    ensures var r := After(ops, max); r.items[k].conn in ClosedBy(r, op, max) <==> !r.items[k].failed
  {
    LeavesAs(After(ops, max), op, max, k);
  }

  /** Exactly who leaves in a step: the idle entry touched longest ago when a new connection finds the pool at its
      limit, and a connection that is given back failed or to a pool over its limit. */
  lemma LeavesIff(ops: seq<Op>, op: Op, max: nat, k: nat)
    requires CanRun(ops, max) && Enabled(After(ops, max), op) && k < |After(ops, max).items|
    ensures var r := After(ops, max); var conn := r.items[k].conn;
      !Pooled(Step(r, op, max).items, conn) <==>
        || (op.Connect? && |r.items| >= max && conn !in r.lent
            && forall j | 0 <= j < |r.items| && r.items[j].conn !in r.lent :: LastTouch(r, k) <= LastTouch(r, j))
        || (op.Release? && op.conn == conn && (FailedSince(ops, conn) || |r.items| > max))
  {
    RunsAreGood(ops, max);
    ItemsAreTrue(ops, max);
    var r := After(ops, max);
    match op
    case Reuse(i, _, _) => TouchedStay(r.items, i, r.items[i].(inUse := true), k);
    case Connect(conn, host, port) => ConnectLeaves(r, max, conn, host, port, k);
    case Release(conn) => ReleaseLeaves(r.items, max, conn, k);
    case Fail(conn) => FailDrops(r.items, conn, k);
  }

  lemma LentIff(items: seq<Item>, i: nat)
    requires DistinctConns(items) && i < |items|
    ensures items[i].conn in InUse(items) <==> items[i].inUse
  {
  }

  /** The entry furthest from the head that is idle is the one that is not lent and was touched longest ago. */
  lemma OldestIff(r: Run, max: nat, k: nat)
    requires Good(r, max) && k < |r.items|
    ensures OldestIdle(r.items) == Some(k) <==>
      r.items[k].conn !in r.lent
      && forall j | 0 <= j < |r.items| && r.items[j].conn !in r.lent :: LastTouch(r, k) <= LastTouch(r, j)
  {
    OldestIdleIs(r.items);
    forall j | 0 <= j < |r.items|
      ensures r.items[j].conn in r.lent <==> r.items[j].inUse
    {
      LentIff(r.items, j);
    }
    if OldestIdle(r.items).Some? {
      var i := OldestIdle(r.items).value;
      assert i != k ==> LastTouch(r, i) != LastTouch(r, k);
    }
  }

  lemma ConnectLeaves(r: Run, max: nat, conn: Conn, host: string, port: nat, k: nat)
    requires Good(r, max) && k < |r.items| && Enabled(r, Connect(conn, host, port))
    ensures !Pooled(Connected(r.items, max, conn, host, port), r.items[k].conn) <==>
      |r.items| >= max && r.items[k].conn !in r.lent
      && forall j | 0 <= j < |r.items| && r.items[j].conn !in r.lent :: LastTouch(r, k) <= LastTouch(r, j)
  {
    OldestIff(r, max, k);
    ConnectDrops(r.items, max, conn, host, port, k);
    if |r.items| >= max && OldestIdle(r.items) == Some(k) {
      WithoutKeeps(r.items, k);
      assert r.items[k] in r.items;
    }
  }

  lemma ReleaseLeaves(items: seq<Item>, max: nat, conn: Conn, k: nat)
    requires DistinctConns(items) && k < |items|
    ensures !Pooled(Released(items, max, conn), items[k].conn) <==>
      conn == items[k].conn && (items[k].failed || |items| > max)
  {
    ReleaseDrops(items, max, conn, k);
    IndexOfIs(items, conn);
    if IndexOf(items, conn).Some? {
      WithoutKeeps(items, IndexOf(items, conn).value);
    }
  }

  /** What a step closes is not in the pool afterwards. */
  lemma ClosedAreGone(ops: seq<Op>, op: Op, max: nat, conn: Conn)
    requires CanRun(ops, max) && Enabled(After(ops, max), op) && conn in ClosedBy(After(ops, max), op, max)
    ensures !Pooled(Step(After(ops, max), op, max).items, conn)
  {
    RunsAreGood(ops, max);
    var items := After(ops, max).items;
    match op
    case Connect(c, _, _) =>
      OldestIdleIs(items);
      WithoutKeeps(items, OldestIdle(items).value);
      assert items[OldestIdle(items).value] in items;
    case Release(c) =>
      IndexOfIs(items, c);
      if IndexOf(items, c).Some? {
        WithoutKeeps(items, IndexOf(items, c).value);
      }
  }

  function OneMore(ops: seq<Op>, op: Op): seq<Op> { ops + [op] }

  lemma PlayedOneMore(ops: seq<Op>, op: Op, max: nat)
    requires CanRun(ops, max) && Enabled(After(ops, max), op)
    ensures CanRun(OneMore(ops, op), max) && After(OneMore(ops, op), max) == Step(After(ops, max), op, max)
  {
    assert OneMore(ops, op)[..|ops|] == ops;
  }

  /** A leak: a connection is lent, marked failed and given back; it is gone and no step has closed it. */
  lemma FailedOneLeaks(conn: Conn, host: string, port: nat, max: nat)
    requires max > 0
    ensures var lent, failed := [Connect(conn, host, port)], [Connect(conn, host, port), Fail(conn)];
      && CanRun([], max) && CanRun(lent, max) && CanRun(failed, max) && CanRun(failed + [Release(conn)], max)
      && Pooled(After(failed, max).items, conn) && !Pooled(After(failed + [Release(conn)], max).items, conn)
      && ClosedBy(After([], max), Connect(conn, host, port), max) == {}
      && ClosedBy(After(lent, max), Fail(conn), max) == {}
      && ClosedBy(After(failed, max), Release(conn), max) == {}
  {
    var lent := OneMore([], Connect(conn, host, port));
    PlayedOneMore([], Connect(conn, host, port), max);
    PlayedOneMore(lent, Fail(conn), max);
    var failed := OneMore(lent, Fail(conn));
    assert lent == [Connect(conn, host, port)] && failed == [Connect(conn, host, port), Fail(conn)];
    assert After(failed, max).items == [Item(conn, host, port, true, true)];
    PlayedOneMore(failed, Release(conn), max);
    assert OneMore(failed, Release(conn)) == failed + [Release(conn)];
  }
}
