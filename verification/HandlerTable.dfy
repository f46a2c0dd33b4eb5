// The dispatch table of rpc.c: open addressing over 64 slots with tombstones, and the map it stands for.

module HandlerTable {
  import opened Basics

  const SIZE: nat := 64
  const EMPTY: nat := 0
  const TOMBSTONE: nat := 0xFFFF

  datatype Slot<H> = Slot(key: nat, handler: H)

  predicate Live<H>(s: Slot<H>) { s.key != EMPTY && s.key != TOMBSTONE }

  /** The multiplicative hash: the top six bits of a 32-bit product. */
  function Home(key: nat): (p: nat)
    ensures p < SIZE
  {
    key * 2654435769 % 0x1_0000_0000 / 0x400_0000
  }

  /** The i-th position probed for a key. */
  function Probe(key: nat, i: nat): (p: nat)
    ensures p < SIZE
  {
    (Home(key) + i) % SIZE
  }

  /** How many probes come before position p. */
  function Distance(key: nat, p: nat): (i: nat)
    requires p < SIZE
    ensures i < SIZE && Probe(key, i) == p
    ensures forall j | 0 <= j < SIZE && Probe(key, j) == p :: j == i
  {
    (p + SIZE - Home(key)) % SIZE
  }

  /** No key twice, and no empty slot in front of a key in its own probe order. */
  ghost predicate Sound<H>(slots: seq<Slot<H>>) {
    |slots| == SIZE
    && (forall p, q | 0 <= p < SIZE && 0 <= q < SIZE && p != q && Live(slots[p]) :: slots[p].key != slots[q].key)
    && (forall p, j: nat | 0 <= p < SIZE && Live(slots[p]) && j < Distance(slots[p].key, p) ::
          slots[Probe(slots[p].key, j)].key != EMPTY)
  }

  /** The live slots hold exactly the entries. */
  ghost predicate Holds<H>(slots: seq<Slot<H>>, entries: map<nat, H>) {
    (forall p | 0 <= p < |slots| && Live(slots[p]) ::
       slots[p].key in entries && entries[slots[p].key] == slots[p].handler)
    && (forall k | k in entries :: exists p :: 0 <= p < |slots| && Live(slots[p]) && slots[p].key == k)
  }

  /** A search that met an empty slot, or every slot, has missed nothing. */
  lemma NotBeyond<H>(slots: seq<Slot<H>>, entries: map<nat, H>, key: nat, i: nat)
    requires Sound(slots) && Holds(slots, entries) && i <= SIZE
    requires forall j | 0 <= j < i :: slots[Probe(key, j)].key != key || !Live(slots[Probe(key, j)])
    requires i < SIZE ==> slots[Probe(key, i)].key == EMPTY
    ensures key !in entries
  {
    forall p | 0 <= p < SIZE && Live(slots[p])
      ensures slots[p].key != key
    {
      var d := Distance(key, p);
      assert d < i ==> slots[Probe(key, d)].key != key;
      assert i < SIZE ==> slots[Probe(key, i)].key == EMPTY;
    }
  }

  /** Filling a slot that is not live with a key that is not there, in front of the first empty slot of its chain. */
  lemma FilledIsSound<H>(slots: seq<Slot<H>>, entries: map<nat, H>, key: nat, h: H, i: nat)
    requires Sound(slots) && Holds(slots, entries) && key !in entries && Live(Slot(key, h)) && i < SIZE
    requires !Live(slots[Probe(key, i)])
    requires forall j | 0 <= j < i :: slots[Probe(key, j)].key != EMPTY
    ensures var after := slots[Probe(key, i) := Slot(key, h)];
      Sound(after) && Holds(after, entries[key := h])
  {
    var t := Probe(key, i);
    var after := slots[t := Slot(key, h)];
    assert Distance(key, t) == i;
    forall p, j: nat | 0 <= p < SIZE && Live(after[p]) && j < Distance(after[p].key, p)
      ensures after[Probe(after[p].key, j)].key != EMPTY
    {
      if p != t {
        assert slots[Probe(slots[p].key, j)].key != EMPTY;
      }
    }
    var more := entries[key := h];
    forall k | k in more
      ensures exists p :: 0 <= p < |after| && Live(after[p]) && after[p].key == k
    {
      if k == key {
        assert Live(after[t]) && after[t].key == k;
      } else {
        var p :| 0 <= p < |slots| && Live(slots[p]) && slots[p].key == k;
        assert p != t && after[p] == slots[p];
      }
    }
  }

  lemma ReplacedIsSound<H>(slots: seq<Slot<H>>, entries: map<nat, H>, p: nat, h: H)
    requires Sound(slots) && Holds(slots, entries) && p < SIZE && Live(slots[p])
    ensures var after := slots[p := Slot(slots[p].key, h)];
      Sound(after) && Holds(after, entries[slots[p].key := h])
  {
    var after := slots[p := Slot(slots[p].key, h)];
    var key := slots[p].key;
    forall q, j: nat | 0 <= q < SIZE && Live(after[q]) && j < Distance(after[q].key, q)
      ensures after[Probe(after[q].key, j)].key != EMPTY
    {
      assert slots[Probe(slots[q].key, j)].key != EMPTY;
    }
    var more := entries[key := h];
    forall k | k in more
      ensures exists q :: 0 <= q < |after| && Live(after[q]) && after[q].key == k
    {
      if k == key {
        assert Live(after[p]) && after[p].key == k;
      } else {
        var q :| 0 <= q < |slots| && Live(slots[q]) && slots[q].key == k;
        assert after[q] == slots[q];
      }
    }
  }

  /** A tombstone keeps the chains through its slot unbroken. */
  lemma RemovedIsSound<H>(slots: seq<Slot<H>>, entries: map<nat, H>, p: nat, h: H)
    requires Sound(slots) && Holds(slots, entries) && p < SIZE && Live(slots[p])
    ensures var after := slots[p := Slot(TOMBSTONE, h)];
      Sound(after) && Holds(after, entries - {slots[p].key})
  {
    var after := slots[p := Slot(TOMBSTONE, h)];
    forall q, j: nat | 0 <= q < SIZE && Live(after[q]) && j < Distance(after[q].key, q)
      ensures after[Probe(after[q].key, j)].key != EMPTY
    {
      assert slots[Probe(slots[q].key, j)].key != EMPTY;
    }
    forall k | k in entries - {slots[p].key}
      ensures exists q :: 0 <= q < |after| && Live(after[q]) && after[q].key == k
    {
      var q :| 0 <= q < |slots| && Live(slots[q]) && slots[q].key == k;
      assert q != p && after[q] == slots[q];
    }
  }

  // ------------------------------------------------------------ how full it is

  function LiveKeys<H>(slots: seq<Slot<H>>): set<nat> {
    set p | 0 <= p < |slots| && Live(slots[p]) :: slots[p].key
  }

  predicate AllLive<H>(slots: seq<Slot<H>>) { forall p | 0 <= p < |slots| :: Live(slots[p]) }

  lemma AllLiveOneMore<H>(slots: seq<Slot<H>>)
    requires slots != []
    ensures AllLive(slots) <==> AllLive(slots[..|slots| - 1]) && Live(slots[|slots| - 1])
  {
  }

  lemma {:induction false} CountLive<H>(slots: seq<Slot<H>>)
    requires forall p, q | 0 <= p < |slots| && 0 <= q < |slots| && p != q && Live(slots[p]) ::
      slots[p].key != slots[q].key
    ensures |LiveKeys(slots)| <= |slots| && (|LiveKeys(slots)| == |slots| <==> AllLive(slots))
  {
    if slots != [] {
      var front, last := slots[..|slots| - 1], slots[|slots| - 1];
      CountLive(front);
      if Live(last) {
        assert LiveKeys(slots) == LiveKeys(front) + {last.key};
        assert last.key !in LiveKeys(front);
      } else {
        assert LiveKeys(slots) == LiveKeys(front);
      }
      AllLiveOneMore(slots);
    }
  }

  /** The table is full exactly when it holds 64 entries. */
  lemma FullIff<H>(slots: seq<Slot<H>>, entries: map<nat, H>)
    requires Sound(slots) && Holds(slots, entries)
    ensures |entries| <= SIZE && (|entries| == SIZE <==> AllLive(slots))
  {
    CountLive(slots);
    assert LiveKeys(slots) == entries.Keys;
  }

  // ----------------------------------------------------------------- the table

  class Table<H(==)> {
    var slots: array<Slot<H>>
    ghost var entries: map<nat, H>

    ghost predicate Valid()
      reads this, slots
    {
      slots.Length == SIZE && Sound(slots[..]) && Holds(slots[..], entries)
    }

    constructor (none: H)
      ensures Valid() && entries == map[] && fresh(slots)
    {
      slots := new Slot<H>[SIZE](_ => Slot(EMPTY, none));
      entries := map[];
    }

    method Find(key: nat) returns (r: Option<H>)
      requires Valid()
      ensures r == if key in entries then Some(entries[key]) else None
    {
      for i := 0 to SIZE
        invariant forall j | 0 <= j < i :: slots[Probe(key, j)].key != key || !Live(slots[Probe(key, j)])
      {
        var slot := slots[Probe(key, i)];
        if slot.key == EMPTY {
          NotBeyond(slots[..], entries, key, i);
          return None;
        }
        if slot.key != TOMBSTONE && slot.key == key { return Some(slot.handler); }
      }
      NotBeyond(slots[..], entries, key, SIZE);
      return None;
    }

    method Insert(key: nat, h: H) returns (ok: bool)
      requires Valid() && Live(Slot(key, h))
      modifies slots, this`entries
      ensures Valid()
      ensures entries == if ok then old(entries)[key := h] else old(entries)
      ensures !ok <==> key !in old(entries) && |old(entries)| == SIZE
    {
      FullIff(slots[..], entries);
      var tombstone: Option<nat> := None;
      for i := 0 to SIZE
        invariant slots[..] == old(slots[..]) && entries == old(entries)
        invariant forall j | 0 <= j < i :: slots[Probe(key, j)].key != key && slots[Probe(key, j)].key != EMPTY
        invariant tombstone == None ==> forall j | 0 <= j < i :: Live(slots[Probe(key, j)])
        invariant tombstone.Some? ==> tombstone.value < i && !Live(slots[Probe(key, tombstone.value)])
      {
        var p := Probe(key, i);
        if slots[p].key == key {
          ReplacedIsSound(slots[..], entries, p, h);
          slots[p], entries := Slot(key, h), entries[key := h];
          assert slots[..] == old(slots[..])[p := Slot(key, h)];
          return true;
        }
        if slots[p].key == TOMBSTONE && tombstone == None { tombstone := Some(i); }
        if slots[p].key == EMPTY {
          NotBeyond(slots[..], entries, key, i);
          var t := if tombstone.Some? then tombstone.value else i;
          Fill(key, h, t);
          return true;
        }
      }
      NotBeyond(slots[..], entries, key, SIZE);
      if tombstone.Some? {
        Fill(key, h, tombstone.value);
        return true;
      }
      forall p | 0 <= p < SIZE
        ensures Live(slots[p])
      {
        assert Live(slots[Probe(key, Distance(key, p))]);
      }
      return false;
    }

    method Fill(key: nat, h: H, i: nat)
      requires Valid() && Live(Slot(key, h)) && key !in entries && i < SIZE
      requires !Live(slots[Probe(key, i)])
      requires forall j | 0 <= j < i :: slots[Probe(key, j)].key != EMPTY
      modifies slots, this`entries
      ensures Valid() && entries == old(entries)[key := h]
      ensures |old(entries)| < SIZE
    {
      FullIff(slots[..], entries);
      FilledIsSound(slots[..], entries, key, h, i);
      slots[Probe(key, i)], entries := Slot(key, h), entries[key := h];
      assert slots[..] == old(slots[..])[Probe(key, i) := Slot(key, h)];
    }

    method Remove(key: nat, none: H) returns (ok: bool)
      requires Valid()
      modifies slots, this`entries
      ensures Valid()
      ensures ok <==> key in old(entries)
      ensures entries == old(entries) - {key}
    {
      for i := 0 to SIZE
        invariant slots[..] == old(slots[..]) && entries == old(entries)
        invariant forall j | 0 <= j < i :: slots[Probe(key, j)].key != key || !Live(slots[Probe(key, j)])
      {
        var p := Probe(key, i);
        if slots[p].key == EMPTY {
          NotBeyond(slots[..], entries, key, i);
          return false;
        }
        if slots[p].key != TOMBSTONE && slots[p].key == key {
          RemovedIsSound(slots[..], entries, p, none);
          slots[p], entries := Slot(TOMBSTONE, none), entries - {key};
          assert slots[..] == old(slots[..])[p := Slot(TOMBSTONE, none)];
          return true;
        }
      }
      NotBeyond(slots[..], entries, key, SIZE);
      return false;
    }
  }
}
