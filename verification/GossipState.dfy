// The gossip state object: the membership array with its transmit counts and the node's own incarnation, updated in
// place; every method computes the function of module GossipNode.

module GossipState {
  import opened Basics
  import opened GossipNode

  class State {
    const id: NodeId
    const maxTransmissions: nat
    var selfIncarnation: nat
    var members: seq<Member>

    /** The value of the object. */
    function Value(): Node
      reads this
    {
      Node(id, maxTransmissions, selfIncarnation, members)
    }

    constructor (id: NodeId, maxTransmissions: nat)
      ensures Value() ==
        Node(id, maxTransmissions, 0, [Member(Info(id, Alive, 0), maxTransmissions, true)])
    {
      this.id, this.maxTransmissions := id, maxTransmissions;
      selfIncarnation := 0;
      members := [Member(Info(id, Alive, 0), maxTransmissions, true)];
    }

    method FindIndex(x: NodeId) returns (r: Option<nat>)
      ensures r == Find(members, x)
    {
      for i := 0 to |members|
        invariant Find(members, x) == match Find(members[i..], x)
          case Some(k) => Some(k + i)
          case None => None
      {
        if members[i].info.id == x { return Some(i); }
      }
      return None;
    }

    method Add(info: Info)
      modifies this`members
      ensures Value() == Added(old(Value()), info)
    {
      members := members + [Member(info, maxTransmissions, info.id == id)];
    }

    method Update(info: Info)
      modifies this`members
      ensures Value() == Updated(old(Value()), info)
    {
      var r := FindIndex(info.id);
      if r == None { return; }
      var i := r.value;
      var m := members[i];
      var should := false;
      if info.incarnation > m.info.incarnation {
        should := true;
      } else if info.incarnation == m.info.incarnation {
        if info.status == Alive && m.info.status != Alive {
          should := true;
        } else if info.status == Suspected && m.info.status == Failed {
          should := true;
        }
      }
      if should {
        members := members[i := m.(info := info, transmit := maxTransmissions)];
      }
    }

    method MarkAlive(x: NodeId)
      modifies this`members
      ensures Value() == MarkedAlive(old(Value()), x)
    {
      var r := FindIndex(x);
      if r == None { return; }
      var i := r.value;
      if members[i].info.status != Alive {
        members := members[i := members[i].(info := members[i].info.(status := Alive), transmit := maxTransmissions)];
      }
    }

    method MarkSuspected(x: NodeId)
      modifies this`members, this`selfIncarnation
      ensures Value() == MarkedSuspected(old(Value()), x)
    {
      var r := FindIndex(x);
      if r == None { return; }
      var i := r.value;
      var m := members[i];
      if m.info.status == Failed || m.info.status == Left { return; }
      if m.isLocal {
        selfIncarnation := selfIncarnation + 1;
        members := members[i := m.(info := m.info.(incarnation := selfIncarnation, status := Alive),
                                   transmit := maxTransmissions)];
        return;
      }
      if m.info.status != Suspected {
        members := members[i := m.(info := m.info.(status := Suspected), transmit := maxTransmissions)];
      }
    }

    method MarkFailed(x: NodeId)
      modifies this`members
      ensures Value() == MarkedFailed(old(Value()), x)
    {
      var r := FindIndex(x);
      if r == None { return; }
      var i := r.value;
      var m := members[i];
      if m.isLocal { return; }
      if m.info.status != Failed {
        members := members[i := m.(info := m.info.(status := Failed), transmit := maxTransmissions)];
      }
    }

    method HandleLeave(x: NodeId)
      modifies this`members
      ensures Value() == MarkedLeft(old(Value()), x)
    {
      var r := FindIndex(x);
      if r == None { return; }
      var m := members[r.value];
      members := members[r.value := m.(info := m.info.(status := Left), transmit := maxTransmissions)];
    }

    method Refute()
      modifies this`members, this`selfIncarnation
      ensures Value() == Refuted(old(Value()))
    {
      selfIncarnation := selfIncarnation + 1;
      var r := FindIndex(id);
      if r.Some? {
        var m := members[r.value];
        members := members[r.value := m.(info := m.info.(incarnation := selfIncarnation, status := Alive),
                                         transmit := maxTransmissions)];
      }
    }

    method UpdateSender(sender: NodeId, incarnation: nat)
      modifies this`members
      ensures Value() == Heard(old(Value()), sender, incarnation)
    {
      var r := FindIndex(sender);
      if r == None {
        Add(Info(sender, Alive, incarnation));
        return;
      }
      var i := r.value;
      var m := members[i];
      if incarnation >= m.info.incarnation {
        members := members[i := m.(info := m.info.(incarnation := incarnation))];
        // Never taken: the incarnation has just been stored.
        if incarnation > members[i].info.incarnation {
          assert false;
        }
      }
    }

    method Process(update: Info)
      modifies this`members, this`selfIncarnation
      ensures Value() == Merged(old(Value()), update)
    {
      if update.id == id {
        if update.status != Alive { Refute(); }
        return;
      }
      var r := FindIndex(update.id);
      if r == None { Add(update); } else { Update(update); }
    }

    method UpdateFromMessage(msg: Message)
      modifies this`members, this`selfIncarnation
      ensures Value() == Received(old(Value()), msg)
    {
      UpdateSender(msg.sender, msg.incarnation);
      for i := 0 to |msg.updates|
        invariant MergedAll(Value(), msg.updates[i..]) == Received(old(Value()), msg)
      {
        Process(msg.updates[i]);
        assert msg.updates[i..][1..] == msg.updates[i + 1..];
      }
    }

    method CountPending() returns (count: nat)
      ensures count == Pending(members)
    {
      count := 0;
      for i := 0 to |members|
        invariant count == Pending(members[..i])
      {
        assert members[..i + 1][..i] == members[..i];
        if members[i].transmit > 0 { count := count + 1; }
      }
      assert members[..|members|] == members;
    }

    /** First how many, then which: at most ten entries with transmissions left, from the front. */
    method GetUpdates() returns (updates: seq<Info>)
      modifies this`members
      ensures Value() == old(Value()).(members := Collected(old(members), MAX_UPDATES).0)
      ensures updates == Collected(old(members), MAX_UPDATES).1
    {
      var count := CountPending();
      if count > MAX_UPDATES { count := MAX_UPDATES; }
      CollectedEnough(members, count);
      updates := CollectPending(count);
    }

    method CollectPending(count: nat) returns (updates: seq<Info>)
      modifies this`members
      ensures (members, updates) == Collected(old(members), count)
    {
      updates := [];
      ghost var all := members;
      var i := 0;
      NothingJoined(Collected(all, count));
      while i < |members| && |updates| < count
        invariant 0 <= i <= |members| == |all| && |updates| <= count && members[i..] == all[i..]
        invariant Collected(all, count) == Joined(members[..i], updates, Collected(all[i..], count - |updates|))
      {
        ghost var done := members[..i];
        OneTurn(done, updates, all[i..], count - |updates|);
        assert all[i..][1..] == all[i + 1..];
        if members[i].transmit > 0 {
          updates := updates + [members[i].info];
          members := members[i := members[i].(transmit := members[i].transmit - 1)];
        }
        assert members[..i + 1] == done + [members[i]];
        i := i + 1;
      }
      ghost var rest := all[i..];
      assert Collected(rest, count - |updates|) == (rest, []);
      assert members[..i] + rest == members && updates + [] == updates;
    }
  }

  function Joined(done: seq<Member>, updates: seq<Info>, rest: (seq<Member>, seq<Info>)): (seq<Member>, seq<Info>) {
    (done + rest.0, updates + rest.1)
  }

  lemma NothingJoined(rest: (seq<Member>, seq<Info>))
    ensures Joined([], [], rest) == rest
  {
    assert [] + rest.0 == rest.0 && [] + rest.1 == rest.1;
  }

  /** One turn of the collecting loop. */
  lemma OneTurn(done: seq<Member>, updates: seq<Info>, tail: seq<Member>, n: nat)
    requires tail != [] && n > 0
    ensures var m := tail[0];
      Joined(done, updates, Collected(tail, n)) ==
        if m.transmit > 0
        then Joined(done + [m.(transmit := m.transmit - 1)], updates + [m.info], Collected(tail[1..], n - 1))
        else Joined(done + [m], updates, Collected(tail[1..], n))
  {
    var m := tail[0];
    var rest := Collected(tail[1..], if m.transmit > 0 then n - 1 else n);
    var first := if m.transmit > 0 then m.(transmit := m.transmit - 1) else m;
    assert done + ([first] + rest.0) == (done + [first]) + rest.0;
    assert updates + ([m.info] + rest.1) == (updates + [m.info]) + rest.1;
  }

  /** How many entries have transmissions left. */
  function Pending(ms: seq<Member>): nat {
    if ms == [] then 0
    else Pending(ms[..|ms| - 1]) + if ms[|ms| - 1].transmit > 0 then 1 else 0
  }

  lemma {:induction false} PendingFront(ms: seq<Member>)
    requires ms != []
    ensures Pending(ms) == Pending(ms[1..]) + if ms[0].transmit > 0 then 1 else 0
  {
    if |ms| > 1 {
      PendingFront(ms[..|ms| - 1]);
      assert ms[..|ms| - 1][1..] == ms[1..][..|ms| - 2];
    }
  }

  /** A limit that covers everything pending, or all ten, collects the same. */
  lemma CollectedEnough(ms: seq<Member>, count: nat)
    requires count == if Pending(ms) > MAX_UPDATES then MAX_UPDATES else Pending(ms)
    ensures Collected(ms, count) == Collected(ms, MAX_UPDATES)
  {
    if count < MAX_UPDATES {
      CollectedAll(ms, count, MAX_UPDATES);
    }
  }

  lemma {:induction false} CollectedAll(ms: seq<Member>, k: nat, l: nat)
    requires Pending(ms) <= k <= l
    ensures Collected(ms, k) == Collected(ms, l)
  {
    if ms != [] {
      PendingFront(ms);
      if ms[0].transmit > 0 {
        CollectedAll(ms[1..], k - 1, l - 1);
      } else if k > 0 {
        CollectedAll(ms[1..], k, l);
      } else {
        NothingPending(ms, l);
      }
    }
  }

  lemma {:induction false} NothingPending(ms: seq<Member>, l: nat)
    requires Pending(ms) == 0
    ensures Collected(ms, l) == (ms, [])
  {
    if ms != [] && l > 0 {
      PendingFront(ms);
      NothingPending(ms[1..], l);
      assert ms == [ms[0]] + ms[1..];
    }
  }
}
