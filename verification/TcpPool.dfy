// The connection pool of tcp_pool.c: hash chains and a doubly linked LRU list rewired in place over the same entries,
// proved against the lists of PoolModel.

module TcpPool {
  import opened Basics
  import opened PoolModel

  const BUCKETS: nat := 64

  class Entry {
    const conn: Conn
    const host: string
    const port: nat
    var inUse: bool
    var failed: bool
    var bucketNext: Entry?
    var lruPrev: Entry?
    var lruNext: Entry?

    ghost function AsItem(): Item
      reads this`inUse, this`failed
    {
      Item(conn, host, port, inUse, failed)
    }

    constructor (conn: Conn, host: string, port: nat)
      ensures this.conn == conn && this.host == host && this.port == port
      ensures inUse && !failed && bucketNext == null && lruPrev == null && lruNext == null
    {
      this.conn, this.host, this.port := conn, host, port;
      inUse, failed := true, false;
      bucketNext, lruPrev, lruNext := null, null, null;
    }
  }

  ghost predicate Distinct<T>(s: seq<T>) { forall i, j | 0 <= i < j < |s| :: s[i] != s[j] }

  /** Element i of s, null outside. */
  ghost function At(s: seq<Entry>, i: int): Entry? { if 0 <= i < |s| then s[i] else null }

  lemma {:induction false} OldestIdleFound(items: seq<Item>, k: nat)
    requires k < |items| && !items[k].inUse && forall j | k < j < |items| :: items[j].inUse
    ensures OldestIdle(items) == Some(k)
  {
    if k < |items| - 1 {
      OldestIdleFound(items[..|items| - 1], k);
    }
  }

  lemma FoundAt(items: seq<Item>, i: nat)
    requires DistinctConns(items) && i < |items|
    ensures var x, rest := items[i], Without(items, i);
      IndexOf(items, x.conn) == Some(i)
      && DistinctConns(rest) && DistinctConns([x.(inUse := false)] + rest)
      && DistinctConns(items[i := x.(failed := true)])
  {
    IndexOfIs(items, items[i].conn);
    WithoutKeeps(items, i);
    FrontAdded(items[i].(inUse := false), Without(items, i));
  }

  lemma EvictedIs(items: seq<Item>)
    ensures match OldestIdle(items)
      case Some(k) =>
        k < |items| && Evicted(items) == Without(items, k) && ClosedByEviction(items) == ClosedWith(items[k])
      case None => Evicted(items) == items && ClosedByEviction(items) == {}
  {
    OldestIdleIs(items);
  }

  lemma WithoutDistinct<T>(s: seq<T>, i: nat)
    requires i < |s| && Distinct(s)
    ensures Distinct(Without(s, i)) && s[i] !in Without(s, i)
  {
  }

  lemma WithoutOthers<T>(s: seq<T>, i: nat, x: T)
    requires i < |s| && x != s[i]
    ensures x in s <==> x in Without(s, i)
  {
    assert s == s[..i] + [s[i]] + s[i + 1..];
  }

  /** Taking element i out joins its neighbours. */
  lemma WithoutNeighbours(s: seq<Entry>, i: nat, j: nat)
    requires i < |s| && j < |s| - 1
    ensures var r, k := Without(s, i), if j < i then j else j + 1;
      r[j] == s[k]
      && At(r, j - 1) == (if k == i + 1 then At(s, i - 1) else At(s, k - 1))
      && At(r, j + 1) == (if k == i - 1 then At(s, i + 1) else At(s, k + 1))
  {
  }

  lemma AtDistinct(s: seq<Entry>, k: nat, j: int)
    requires Distinct(s) && k < |s|
    ensures s[k] == At(s, j) <==> j == k
  {
  }

  lemma AtDistinctAll(s: seq<Entry>, i: nat)
    requires Distinct(s) && i < |s|
    ensures forall j | 0 <= j < |s| && j != i :: s[j] != s[i]
  {
  }

  lemma WithoutEnds(s: seq<Entry>, i: nat)
    requires i < |s|
    ensures At(Without(s, i), 0) == if i == 0 then At(s, 1) else At(s, 0)
    ensures At(Without(s, i), |s| - 2) == if i == |s| - 1 then At(s, |s| - 2) else At(s, |s| - 1)
  {
  }

  class Pool {
    const hash: (string, nat) -> nat
    const maxConnections: nat
    var buckets: array<Entry?>
    var lruHead: Entry?
    var lruTail: Entry?
    var currentSize: nat

    /** The list from head to tail, the chains, and all entries. */
    ghost var lru: seq<Entry>
    ghost var chains: seq<seq<Entry>>
    ghost var repr: set<Entry>

    /** What the entries of the list say, in its order. */
    ghost var items: seq<Item>

    ghost predicate LinkAt(i: nat)
      reads this`lru, this`repr, repr`lruPrev, repr`lruNext
    {
      i < |lru| && lru[i] in repr && lru[i].lruPrev == At(lru, i - 1) && lru[i].lruNext == At(lru, i + 1)
    }

    /** The list pointers spell out `lru`. */
    ghost predicate LruLinked()
      reads this`lru, this`lruHead, this`lruTail, this`repr, repr`lruPrev, repr`lruNext
    {
      Distinct(lru) && (forall i | 0 <= i < |lru| :: lru[i] in repr)
      && lruHead == At(lru, 0) && lruTail == At(lru, |lru| - 1)
      && forall i | 0 <= i < |lru| :: LinkAt(i)
    }

    method LruPrepend(e: Entry)
      requires LruLinked() && e in repr && e !in lru
      modifies this`lruHead, this`lruTail, this`lru, repr`lruPrev, repr`lruNext
      ensures LruLinked() && lru == [e] + old(lru)
    {
      assert lru != [] ==> LinkAt(0);
      e.lruPrev := null;
      e.lruNext := lruHead;
      if lruHead != null { lruHead.lruPrev := e; }
      lruHead := e;
      if lruTail == null { lruTail := e; }
      lru := [e] + lru;
      forall j | 0 <= j < |lru|
        ensures LinkAt(j)
      {
        if j > 0 {
          assert old(LinkAt(j - 1));
        }
      }
    }

    /** The pointer surgery of lru_remove. */
    method Unlink(e: Entry)
      requires e in repr && e.lruPrev != e && e.lruNext != e
      requires e.lruPrev != null ==> e.lruPrev in repr
      requires e.lruNext != null ==> e.lruNext in repr
      modifies this`lruHead, this`lruTail, repr`lruPrev, repr`lruNext
      ensures lruHead == if old(e.lruPrev) == null then old(e.lruNext) else old(lruHead)
      ensures lruTail == if old(e.lruNext) == null then old(e.lruPrev) else old(lruTail)
      ensures forall x | x in repr ::
        x.lruNext == if x == e then null else if x == old(e.lruPrev) then old(e.lruNext) else old(x.lruNext)
      ensures forall x | x in repr ::
        x.lruPrev == if x == e then null else if x == old(e.lruNext) then old(e.lruPrev) else old(x.lruPrev)
    {
      if e.lruPrev != null { e.lruPrev.lruNext := e.lruNext; } else { lruHead := e.lruNext; }
      if e.lruNext != null { e.lruNext.lruPrev := e.lruPrev; } else { lruTail := e.lruPrev; }
      e.lruPrev, e.lruNext := null, null;
    }

    lemma NeighboursKnown(i: nat)
      requires LruLinked() && i < |lru|
      ensures lru[i].lruPrev == At(lru, i - 1) && lru[i].lruNext == At(lru, i + 1)
      ensures lru[i].lruPrev != lru[i] && lru[i].lruNext != lru[i]
      ensures lru[i].lruPrev != null ==> lru[i].lruPrev in repr
      ensures lru[i].lruNext != null ==> lru[i].lruNext in repr
    {
      assert LinkAt(i);
      AtDistinct(lru, i, i - 1);
      AtDistinct(lru, i, i + 1);
    }

    method LruRemove(e: Entry, ghost i: nat)
      requires LruLinked() && i < |lru| && lru[i] == e
      modifies this`lruHead, this`lruTail, this`lru, repr`lruPrev, repr`lruNext
      ensures LruLinked() && lru == Without(old(lru), i)
    {
      ghost var s := lru;
      NeighboursKnown(i);
      Unlink(e);
      lru := Without(s, i);
      WithoutDistinct(s, i);
      WithoutEnds(s, i);
      forall j | 0 <= j < |lru|
        ensures LinkAt(j)
      {
        WithoutNeighbours(s, i, j);
        ghost var k := if j < i then j else j + 1;
        assert old(LinkAt(k));
        AtDistinct(s, k, i - 1);
        AtDistinct(s, k, i + 1);
      }
    }

    method LruTouch(e: Entry, ghost i: nat)
      requires LruLinked() && i < |lru| && lru[i] == e
      modifies this`lruHead, this`lruTail, this`lru, repr`lruPrev, repr`lruNext
      ensures LruLinked() && lru == [e] + Without(old(lru), i)
    {
      if lruHead == e { return; }
      LruRemove(e, i);
      LruPrepend(e);
    }

    // ------------------------------------------------------------- the chains

    ghost predicate NextAt(b: nat, i: nat)
      reads this`chains, this`repr, repr`bucketNext
    {
      b < |chains| && i < |chains[b]| && chains[b][i] in repr && chains[b][i].bucketNext == At(chains[b], i + 1)
    }

    ghost predicate ChainLinked(b: nat)
      reads this`chains, this`buckets, this`repr, repr`bucketNext, buckets
      requires b < |chains| && b < buckets.Length
    {
      Distinct(chains[b]) && buckets[b] == At(chains[b], 0)
      && (forall e | e in chains[b] :: e in repr && hash(e.host, e.port) == b)
      && forall i | 0 <= i < |chains[b]| :: NextAt(b, i)
    }

    ghost predicate BucketsLinked()
      reads this`chains, this`buckets, this`repr, repr`bucketNext, buckets
    {
      buckets.Length == BUCKETS && |chains| == BUCKETS && (forall h, p :: hash(h, p) < BUCKETS)
      && forall b | 0 <= b < BUCKETS :: ChainLinked(b)
    }

    method BucketInsert(e: Entry)
      requires BucketsLinked() && e in repr && forall b | 0 <= b < BUCKETS :: e !in chains[b]
      modifies this`chains, buckets, e`bucketNext
      ensures BucketsLinked()
      ensures var b := hash(e.host, e.port); chains == old(chains)[b := [e] + old(chains)[b]]
    {
      var b := hash(e.host, e.port);
      e.bucketNext := buckets[b];
      buckets[b] := e;
      chains := chains[b := [e] + chains[b]];
      forall c | 0 <= c < BUCKETS
        ensures ChainLinked(c)
      {
        assert old(ChainLinked(c));
        forall i | 0 <= i < |chains[c]|
          ensures NextAt(c, i)
        {
          if c != b {
            assert old(NextAt(c, i));
          } else if i > 0 {
            assert old(NextAt(b, i - 1));
          }
        }
      }
    }

    /** Walk the chain to the entry and take it out. */
    method BucketRemove(e: Entry, ghost i: nat)
      requires BucketsLinked()
      requires var b := hash(e.host, e.port); i < |chains[b]| && chains[b][i] == e
      modifies this`chains, buckets, repr`bucketNext
      ensures BucketsLinked()
      ensures var b := hash(e.host, e.port); chains == old(chains)[b := Without(old(chains)[b], i)]
    {
      var b := hash(e.host, e.port);
      var prev := FindPrevious(b, e, i);
      ChainCut(b, e, prev, i);
    }

    method FindPrevious(b: nat, e: Entry, ghost i: nat) returns (prev: Entry?)
      requires b < buckets.Length && b < |chains| && ChainLinked(b)
      requires i < |chains[b]| && chains[b][i] == e
      ensures prev == At(chains[b], i - 1)
    {
      prev := null;
      var cur := buckets[b];
      ghost var k := 0;
      while cur != e
        invariant 0 <= k <= i && cur == At(chains[b], k) && prev == At(chains[b], k - 1)
        decreases i - k
      {
        assert NextAt(b, k);
        prev := cur;
        cur := cur.bucketNext;
        k := k + 1;
      }
      AtDistinct(chains[b], i, k);
    }

    /** The pointer surgery of bucket_remove. */
    method CutPointer(b: nat, e: Entry, prev: Entry?)
      requires b < buckets.Length && e in repr && prev != e && (prev != null ==> prev in repr)
      modifies buckets, repr`bucketNext
      ensures buckets[..] == if prev == null then old(buckets[..])[b := old(e.bucketNext)] else old(buckets[..])
      ensures forall x | x in repr ::
        x.bucketNext == if x == e then null else if x == prev then old(e.bucketNext) else old(x.bucketNext)
    {
      if prev == null { buckets[b] := e.bucketNext; } else { prev.bucketNext := e.bucketNext; }
      e.bucketNext := null;
    }

    method ChainCut(b: nat, e: Entry, prev: Entry?, ghost i: nat)
      requires BucketsLinked() && b < BUCKETS && i < |chains[b]| && chains[b][i] == e && prev == At(chains[b], i - 1)
      modifies this`chains, buckets, repr`bucketNext
      ensures BucketsLinked() && chains == old(chains)[b := Without(old(chains)[b], i)]
    {
      ghost var s := chains[b];
      assert ChainLinked(b);
      assert NextAt(b, i);
      AtDistinct(s, i, i - 1);
      CutPointer(b, e, prev);
      chains := chains[b := Without(s, i)];
      assert hash(e.host, e.port) == b && (prev != null ==> hash(prev.host, prev.port) == b);
      forall k | 0 <= k < |s|
        ensures s[k].bucketNext == if k == i then null else if k == i - 1 then At(s, i + 1) else At(s, k + 1)
      {
        assert old(NextAt(b, k));
        AtDistinct(s, k, i - 1);
        AtDistinct(s, k, i);
      }
      ChainCutHere(b, s, prev, i);
      forall c | 0 <= c < BUCKETS && c != b
        ensures ChainLinked(c)
      {
        assert old(ChainLinked(c));
        assert buckets[c] == buckets[..][c] == old(buckets[..])[c];
        forall k | 0 <= k < |chains[c]|
          ensures NextAt(c, k)
        {
          assert old(NextAt(c, k));
          assert chains[c][k] != e && chains[c][k] != prev;
        }
      }
    }

    lemma ChainCutHere(b: nat, s: seq<Entry>, prev: Entry?, i: nat)
      requires b < BUCKETS && buckets.Length == BUCKETS && i < |s| && Distinct(s) && prev == At(s, i - 1)
      requires |chains| == BUCKETS && chains[b] == Without(s, i)
      requires forall k | 0 <= k < |s| :: s[k] in repr && hash(s[k].host, s[k].port) == b
      requires forall k | 0 <= k < |s| ::
        s[k].bucketNext == if k == i then null else if k == i - 1 then At(s, i + 1) else At(s, k + 1)
      requires buckets[b] == if i == 0 then At(s, 1) else At(s, 0)
      ensures ChainLinked(b)
    {
      WithoutDistinct(s, i);
      WithoutEnds(s, i);
      forall j | 0 <= j < |chains[b]|
        ensures NextAt(b, j) && hash(chains[b][j].host, chains[b][j].port) == b
      {
        WithoutNeighbours(s, i, j);
      }
    }

    // ----------------------------------------------------------------- the pool

    ghost predicate Matches()
      reads this`items, this`lru, lru`inUse, lru`failed
    {
      |items| == |lru| && forall i | 0 <= i < |lru| :: items[i] == lru[i].AsItem()
    }

    /** The list and the chains hold the same entries, once each, and the size counts them. */
    ghost predicate Structure()
      reads this`lru, this`lruHead, this`lruTail, this`chains, this`buckets, this`repr, this`currentSize, buckets
      reads repr`lruPrev, repr`lruNext, repr`bucketNext
    {
      LruLinked() && BucketsLinked() && currentSize == |lru|
      && forall e {:trigger Listed(e)} | e in repr :: Listed(e)
    }

    ghost predicate Listed(e: Entry)
      reads this`lru, this`chains
    {
      var b := hash(e.host, e.port);
      e in lru && b < |chains| && e in chains[b]
    }

    ghost predicate Valid()
      reads this`lru, this`lruHead, this`lruTail, this`chains, this`buckets, this`repr, this`currentSize, buckets
      reads repr`lruPrev, repr`lruNext, repr`bucketNext, this`items, lru`inUse, lru`failed
    {
      Structure() && Matches() && DistinctConns(items)
    }

    constructor (maxConnections: nat, hash: (string, nat) -> nat)
      requires maxConnections > 0 && forall h, p :: hash(h, p) < BUCKETS
      ensures Valid() && items == [] && this.maxConnections == maxConnections
    {
      this.maxConnections, this.hash := maxConnections, hash;
      buckets := new Entry?[BUCKETS](_ => null);
      lruHead, lruTail, currentSize := null, null, 0;
      lru, chains, repr, items := [], seq(BUCKETS, _ => []), {}, [];
    }

    /** Nothing the chains are made of has changed. */
    twostate lemma SameChains()
      requires old(BucketsLinked()) && chains == old(chains) && buckets == old(buckets) && repr <= old(repr)
      requires buckets[..] == old(buckets[..])
      requires forall b, e | 0 <= b < BUCKETS && e in chains[b] :: e in repr && e.bucketNext == old(e.bucketNext)
      ensures BucketsLinked()
    {
      forall b | 0 <= b < BUCKETS
        ensures ChainLinked(b)
      {
        assert old(ChainLinked(b));
        assert buckets[b] == buckets[..][b] == old(buckets[..])[b];
        forall i | 0 <= i < |chains[b]|
          ensures NextAt(b, i)
        {
          assert old(NextAt(b, i));
        }
      }
    }

    /** Nothing the list is made of has changed. */
    twostate lemma SameList()
      requires old(LruLinked()) && lru == old(lru) && lruHead == old(lruHead) && lruTail == old(lruTail)
      requires repr <= old(repr)
      requires forall e | e in lru :: e in repr && e.lruPrev == old(e.lruPrev) && e.lruNext == old(e.lruNext)
      ensures LruLinked()
    {
      forall i | 0 <= i < |lru|
        ensures LinkAt(i)
      {
        assert old(LinkAt(i));
      }
    }

    method Detach(e: Entry, ghost i: nat, ghost k: nat)
      requires LruLinked() && BucketsLinked() && i < |lru| && lru[i] == e
      requires var c := chains[hash(e.host, e.port)]; k < |c| && c[k] == e
      modifies this`lruHead, this`lruTail, this`lru, this`chains, buckets
      modifies repr`lruPrev, repr`lruNext, repr`bucketNext
      ensures LruLinked() && BucketsLinked()
      ensures lru == Without(old(lru), i)
      ensures var b := hash(e.host, e.port); chains == old(chains)[b := Without(old(chains)[b], k)]
    {
      LruRemove(e, i);
      forall b, x | 0 <= b < BUCKETS && x in chains[b]
        ensures x in repr && x.bucketNext == old(x.bucketNext)
      {
        assert old(ChainLinked(b));
      }
      SameChains();
      label Linked:
      BucketRemove(e, k);
      SameList@Linked();
    }

    /** An entry in neither structure can be dropped. */
    method Forget(e: Entry)
      requires LruLinked() && BucketsLinked() && e !in lru && e !in chains[hash(e.host, e.port)] && currentSize > 0
      modifies this`currentSize, this`repr
      ensures LruLinked() && BucketsLinked() && currentSize == old(currentSize) - 1 && repr == old(repr) - {e}
    {
      currentSize := currentSize - 1;
      repr := repr - {e};
      forall b, x | 0 <= b < BUCKETS && x in chains[b]
        ensures x in repr && x.bucketNext == old(x.bucketNext)
      {
        assert old(ChainLinked(b));
      }
      SameChains();
      SameList();
    }

    /** Out of the list, out of its chain, and no longer an entry. */
    method RemoveEntry(e: Entry, ghost i: nat)
      requires Structure() && i < |lru| && lru[i] == e
      modifies this`lruHead, this`lruTail, this`lru, this`chains, this`currentSize, this`repr, buckets
      modifies repr`lruPrev, repr`lruNext, repr`bucketNext
      ensures Structure() && lru == Without(old(lru), i) && repr == old(repr) - {e}
    {
      ghost var all, list := chains, lru;
      ghost var b := hash(e.host, e.port);
      assert ChainLinked(b);
      assert Listed(e);
      ghost var k :| 0 <= k < |chains[b]| && chains[b][k] == e;
      Detach(e, i, k);
      WithoutDistinct(list, i);
      WithoutDistinct(all[b], k);
      Forget(e);
      forall x | x in repr
        ensures Listed(x)
      {
        assert old(Listed(x));
        WithoutOthers(list, i, x);
        WithoutOthers(all[b], k, x);
      }
    }

    method RemoveItem(e: Entry, ghost i: nat)
      requires Structure() && Matches() && i < |lru| && lru[i] == e
      modifies this`lruHead, this`lruTail, this`lru, this`chains, this`currentSize, this`repr, this`items, buckets
      modifies repr`lruPrev, repr`lruNext, repr`bucketNext
      ensures Structure() && Matches() && repr <= old(repr)
      ensures lru == Without(old(lru), i) && items == Without(old(items), i)
    {
      RemoveEntry(e, i);
      items := Without(items, i);
    }

    /** Walk from the tail to the first idle entry. */
    method FindOldestIdle() returns (e: Entry?, ghost k: int)
      requires LruLinked() && Matches()
      ensures e == At(lru, k)
      ensures match OldestIdle(items)
        case Some(i) => k == i
        case None => k < 0
    {
      e, k := lruTail, |lru| - 1;
      while e != null
        invariant -1 <= k < |lru| && e == At(lru, k)
        invariant forall j | k < j < |lru| :: items[j].inUse
        decreases k
      {
        if !e.inUse {
          OldestIdleFound(items, k);
          return;
        }
        assert LinkAt(k);
        e, k := e.lruPrev, k - 1;
      }
      OldestIdleIs(items);
    }

    /** Drop the oldest idle entry, if there is one; `closed` are the connections closed on the way. */
    method EvictLruIdle() returns (closed: set<Conn>)
      requires Structure() && Matches()
      modifies this`lruHead, this`lruTail, this`lru, this`chains, this`currentSize, this`repr, this`items, buckets
      modifies repr`lruPrev, repr`lruNext, repr`bucketNext
      ensures Structure() && Matches() && items == Evicted(old(items)) && repr <= old(repr)
      ensures closed == ClosedByEviction(old(items))
    {
      EvictedIs(items);
      var e, k := FindOldestIdle();
      if e == null { return {}; }
      closed := if e.failed then {} else {e.conn};
      RemoveItem(e, k);
    }

    // ------------------------------------------------------------- operations

    predicate EntryFits(e: Entry, host: string, port: nat)
      reads e`inUse, e`failed
    {
      !e.inUse && !e.failed && e.port == port && e.host == host
    }

    /** Walk the chain of this host and port to an idle healthy entry. */
    method FindFitting(host: string, port: nat) returns (e: Entry?)
      requires Structure()
      ensures e != null ==> e in lru && EntryFits(e, host, port)
      ensures e == null ==> forall x | x in lru :: !EntryFits(x, host, port)
    {
      var b := hash(host, port);
      assert ChainLinked(b);
      e := buckets[b];
      ghost var k := 0;
      while e != null
        invariant 0 <= k <= |chains[b]| && e == At(chains[b], k)
        invariant forall j | 0 <= j < k :: !EntryFits(chains[b][j], host, port)
        decreases |chains[b]| - k
      {
        assert NextAt(b, k);
        if EntryFits(e, host, port) {
          assert Listed(e);
          return;
        }
        e := e.bucketNext;
        k := k + 1;
      }
      forall x | x in lru
        ensures !EntryFits(x, host, port)
      {
        assert Listed(x);
      }
    }

    /** Look through every chain for the entry of a connection. */
    method FindConn(conn: Conn) returns (e: Entry?)
      requires Structure()
      ensures e != null ==> e in lru && e.conn == conn
      ensures e == null ==> forall x | x in lru :: x.conn != conn
    {
      for b := 0 to BUCKETS
        invariant forall c, x | 0 <= c < b && x in chains[c] :: x.conn != conn
      {
        assert ChainLinked(b);
        e := buckets[b];
        ghost var k := 0;
        while e != null
          invariant 0 <= k <= |chains[b]| && e == At(chains[b], k)
          invariant forall j | 0 <= j < k :: chains[b][j].conn != conn
          decreases |chains[b]| - k
        {
          assert NextAt(b, k);
          if e.conn == conn {
            assert Listed(e);
            return;
          }
          e := e.bucketNext;
          k := k + 1;
        }
      }
      e := null;
      forall x | x in lru
        ensures x.conn != conn
      {
        assert Listed(x);
      }
    }

    method Touch(e: Entry, ghost i: nat)
      requires Structure() && i < |lru| && lru[i] == e
      modifies this`lruHead, this`lruTail, this`lru, repr`lruPrev, repr`lruNext
      ensures Structure() && lru == [e] + Without(old(lru), i)
    {
      ghost var list := lru;
      LruTouch(e, i);
      forall x | x in repr
        ensures Listed(x)
      {
        assert old(Listed(x));
        if x != e { WithoutOthers(list, i, x); }
      }
    }

    method SetInUse(e: Entry, inUse: bool)
      requires Structure()
      modifies e`inUse
      ensures Structure() && e.inUse == inUse
    {
      e.inUse := inUse;
    }

    ghost method NoteItems(now: seq<Item>)
      requires Structure()
      modifies this`items
      ensures Structure() && items == now
    {
      items := now;
    }

    method SetAndTouch(e: Entry, inUse: bool, ghost i: nat)
      requires Structure() && i < |lru| && lru[i] == e
      modifies this`lruHead, this`lruTail, this`lru, repr`lruPrev, repr`lruNext, e`inUse
      ensures Structure() && lru == [e] + Without(old(lru), i) && e.inUse == inUse
    {
      SetInUse(e, inUse);
      Touch(e, i);
    }

    /** Lend the entry or take it back; either way it moves to the front. */
    method TouchAs(e: Entry, inUse: bool, ghost i: nat)
      requires Structure() && Matches() && i < |lru| && lru[i] == e
      modifies this`lruHead, this`lruTail, this`lru, this`items, repr`lruPrev, repr`lruNext, e`inUse
      ensures Structure() && Matches() && lru == [e] + Without(old(lru), i)
      ensures items == [old(items)[i].(inUse := inUse)] + Without(old(items), i)
    {
      ghost var list, x := lru, items[i].(inUse := inUse);
      AtDistinctAll(list, i);
      SetAndTouch(e, inUse, i);
      assert forall j | 0 <= j < |list| && j != i :: items[j] == list[j].AsItem();
      TouchedMatches(items, list, i, x);
      NoteItems([x] + Without(items, i));
    }

    lemma TouchedMatches(was: seq<Item>, list: seq<Entry>, i: nat, x: Item)
      requires |was| == |list| && i < |list| && x == list[i].AsItem()
      requires forall j | 0 <= j < |list| && j != i :: was[j] == list[j].AsItem()
      ensures var now, front := [x] + Without(was, i), [list[i]] + Without(list, i);
        |now| == |front| && forall k | 0 <= k < |front| :: now[k] == front[k].AsItem()
    {
    }

    /** The hit path of tcp_pool_acquire. */
    method TryReuse(host: string, port: nat) returns (r: Option<Conn>, ghost i: nat)
      requires Valid()
      modifies this`lruHead, this`lruTail, this`lru, this`items, repr`lruPrev, repr`lruNext, repr`inUse
      ensures Valid()
      ensures r == None ==> items == old(items) && forall k: nat :: !Fits(items, k, host, port)
      ensures r.Some? ==>
        Fits(old(items), i, host, port) && old(items)[i].conn == r.value && items == Lent(old(items), i)
    {
      var e := FindFitting(host, port);
      if e == null {
        assert forall k: nat :: Fits(items, k, host, port) ==> lru[k] in lru && EntryFits(lru[k], host, port);
        return None, 0;
      }
      i :| 0 <= i < |lru| && lru[i] == e;
      LentDistinct(items, items[i].(inUse := true), i);
      TouchAs(e, true, i);
      return Some(e.conn), i;
    }

    lemma LentDistinct(items: seq<Item>, x: Item, i: nat)
      requires i < |items| && DistinctConns(items) && x.conn == items[i].conn
      ensures DistinctConns([x] + Without(items, i))
    {
      WithoutKeeps(items, i);
      FrontAdded(x, Without(items, i));
    }

    method Link(e: Entry)
      requires LruLinked() && BucketsLinked() && e in repr && e !in lru
      requires forall b | 0 <= b < BUCKETS :: e !in chains[b]
      modifies this`lruHead, this`lruTail, this`lru, this`chains, buckets, repr`lruPrev, repr`lruNext, e`bucketNext
      ensures LruLinked() && BucketsLinked() && lru == [e] + old(lru)
      ensures var b := hash(e.host, e.port); chains == old(chains)[b := [e] + old(chains)[b]]
    {
      BucketInsert(e);
      LruPrepend(e);
    }

    /** A new entry at the front of its chain and of the list. */
    method AddEntry(e: Entry)
      requires Structure() && e !in repr
      modifies this`lruHead, this`lruTail, this`lru, this`chains, this`currentSize, this`repr, buckets
      modifies repr`lruPrev, repr`lruNext, e`lruPrev, e`lruNext, e`bucketNext
      ensures Structure() && lru == [e] + old(lru) && repr == old(repr) + {e}
    {
      Adopt(e);
      Link(e);
      currentSize := currentSize + 1;
      forall x | x in repr
        ensures Listed(x)
      {
        if x != e { assert old(Listed(x)); }
      }
    }

    ghost method Adopt(e: Entry)
      requires Structure() && e !in repr
      modifies this`repr
      ensures LruLinked() && BucketsLinked() && repr == old(repr) + {e} && e !in lru
      ensures forall b | 0 <= b < BUCKETS :: e !in chains[b]
    {
      forall b | 0 <= b < BUCKETS
        ensures e !in chains[b]
      {
        assert ChainLinked(b);
      }
      repr := repr + {e};
      forall i | 0 <= i < |lru|
        ensures LinkAt(i)
      {
        assert old(LinkAt(i));
      }
      forall b | 0 <= b < BUCKETS
        ensures ChainLinked(b)
      {
        assert old(ChainLinked(b));
        forall i | 0 <= i < |chains[b]|
          ensures NextAt(b, i)
        {
          assert old(NextAt(b, i));
        }
      }
    }

    method MakeEntry(conn: Conn, host: string, port: nat)
      requires Structure() && Matches()
      modifies this`lruHead, this`lruTail, this`lru, this`chains, this`currentSize, this`repr, this`items, buckets
      modifies repr`lruPrev, repr`lruNext
      ensures Structure() && Matches() && items == [Item(conn, host, port, true, false)] + old(items)
    {
      var e := new Entry(conn, host, port);
      AddEntry(e);
      NoteItems([Item(conn, host, port, true, false)] + items);
    }

    /** The miss path of tcp_pool_acquire, once connected. */
    method InsertConnected(conn: Conn, host: string, port: nat) returns (closed: set<Conn>)
      requires Valid() && forall x | x in items :: x.conn != conn
      modifies this`lruHead, this`lruTail, this`lru, this`chains, this`currentSize, this`repr, this`items, buckets
      modifies repr`lruPrev, repr`lruNext, repr`bucketNext
      ensures Valid() && items == Connected(old(items), maxConnections, conn, host, port)
      ensures closed == if |old(items)| >= maxConnections then ClosedByEviction(old(items)) else {}
    {
      ConnectedDistinct(items, conn, host, port);
      closed := {};
      if currentSize >= maxConnections {
        closed := EvictLruIdle();
      }
      MakeEntry(conn, host, port);
    }

    lemma ConnectedDistinct(items: seq<Item>, conn: Conn, host: string, port: nat)
      requires DistinctConns(items) && forall x | x in items :: x.conn != conn
      ensures DistinctConns(Connected(items, maxConnections, conn, host, port))
    {
      EvictedKeeps(items);
      FrontAdded(Item(conn, host, port, true, false), if |items| >= maxConnections then Evicted(items) else items);
    }

    method RemoveFirst(e: Entry)
      requires Structure() && Matches() && |lru| > 0 && lru[0] == e
      modifies this`lruHead, this`lruTail, this`lru, this`chains, this`currentSize, this`repr, this`items, buckets
      modifies repr`lruPrev, repr`lruNext, repr`bucketNext
      ensures Structure() && Matches() && items == old(items)[1..]
    {
      RemoveItem(e, 0);
    }

    /** Back to the front as idle, and out of the pool when it failed or the pool is over its limit. */
    method ReleaseEntry(e: Entry, ghost i: nat) returns (closed: set<Conn>)
      requires Structure() && Matches() && i < |lru| && lru[i] == e
      modifies this`lruHead, this`lruTail, this`lru, this`chains, this`currentSize, this`repr, this`items, buckets
      modifies repr`lruPrev, repr`lruNext, repr`bucketNext, e`inUse
      ensures Structure() && Matches()
      ensures var x, rest := old(items)[i], Without(old(items), i);
        if x.failed || |old(items)| > maxConnections then items == rest && closed == ClosedWith(x)
        else items == [x.(inUse := false)] + rest && closed == {}
    {
      ghost var x, rest := items[i].(inUse := false), Without(items, i);
      TouchAs(e, false, i);
      closed := {};
      if e.failed || currentSize > maxConnections {
        closed := if e.failed then {} else {e.conn};
        RemoveFirst(e);
      }
    }

    method ReleaseConn(conn: Conn) returns (closed: set<Conn>)
      requires Valid()
      modifies this`lruHead, this`lruTail, this`lru, this`chains, this`currentSize, this`repr, this`items, buckets
      modifies repr`lruPrev, repr`lruNext, repr`bucketNext, repr`inUse
      ensures Valid() && items == Released(old(items), maxConnections, conn)
      ensures closed == ClosedByRelease(old(items), maxConnections, conn)
    {
      var e, i := LookUp(conn);
      if e == null { return {conn}; }
      FoundAt(items, i);
      closed := ReleaseEntry(e, i);
    }

    method LookUp(conn: Conn) returns (e: Entry?, ghost i: nat)
      requires Valid()
      ensures e != null ==> i < |lru| && lru[i] == e
      ensures IndexOf(items, conn) == if e == null then None else Some(i)
    {
      i := 0;
      e := FindConn(conn);
      if e == null {
        assert forall k | 0 <= k < |lru| :: lru[k] in lru && items[k].conn == lru[k].conn;
        IndexOfIs(items, conn);
      } else {
        i :| 0 <= i < |lru| && lru[i] == e;
        FoundAt(items, i);
      }
    }

    method SetFailed(e: Entry)
      requires Structure()
      modifies e`failed
      ensures Structure() && e.failed
    {
      e.failed := true;
    }

    method MarkEntry(e: Entry, ghost i: nat)
      requires Structure() && Matches() && i < |lru| && lru[i] == e
      modifies this`items, e`failed
      ensures Structure() && Matches() && items == old(items)[i := old(items)[i].(failed := true)]
    {
      AtDistinctAll(lru, i);
      SetFailed(e);
      items := items[i := items[i].(failed := true)];
    }

    method MarkFailed(conn: Conn)
      requires Valid()
      modifies this`items, repr`failed
      ensures Valid() && items == MarkedFailed(old(items), conn)
    {
      var e, i := LookUp(conn);
      if e == null { return; }
      FoundAt(items, i);
      MarkEntry(e, i);
    }
  }
}
