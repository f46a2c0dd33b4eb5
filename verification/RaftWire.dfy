// Replication over the real wire: the leader's suffix is serialised, the follower deserialises it and stores what
// arrives.  The decoder's limits cut the batch, and large entries are skipped or emptied by the encoder.

module RaftWire {
  import opened Basics
  import opened RaftNode
  import opened RaftCluster
  import opened RaftInvariant
  import opened RaftBatches
  import DurableLog
  import Tlv
  import TlvCoder
  import AppendEntriesWire

  type WireEntry = AppendEntriesWire.WireEntry

  predicate IsWord(x: nat) { x < 0x1_0000_0000 }

  /** The numbers of the entry fit their fields. */
  predicate InWords(e: Entry) { IsWord(e.index) && IsWord(e.term) }

  predicate AllInWords(es: seq<Entry>) { forall i | 0 <= i < |es| :: InWords(es[i]) }

  function ToWire(e: Entry): WireEntry
    requires InWords(e)
  {
    AppendEntriesWire.WireEntry(e.index, e.term, DurableLog.KindCode(e.kind), e.data)
  }

  function FromWire(w: WireEntry): Entry { Entry(w.index, w.term, DurableLog.KindOf(w.kind), w.data) }

  function AllToWire(es: seq<Entry>): (ws: seq<WireEntry>)
    requires AllInWords(es)
    ensures |ws| == |es|
  {
    if es == [] then [] else [ToWire(es[0])] + AllToWire(es[1..])
  }

  function AllFromWire(ws: seq<WireEntry>): (es: seq<Entry>)
    ensures |es| == |ws|
  {
    if ws == [] then [] else [FromWire(ws[0])] + AllFromWire(ws[1..])
  }

  /** The message a leader with a batch sends. */
  predicate Sendable(n: Node, b: Batch, name: seq<Byte>) {
    && AppendEntriesWire.IsString(name)
    && IsWord(n.term) && IsWord(b.prevIndex) && IsWord(b.prevTerm) && IsWord(n.commit) && AllInWords(b.entries)
  }

  function Posted(n: Node, b: Batch, name: seq<Byte>): AppendEntriesWire.AppendEntries
    requires Sendable(n, b, name)
  {
    AppendEntriesWire.AppendEntries(n.term, name, b.prevIndex, b.prevTerm, n.commit, AllToWire(b.entries))
  }

  /** What the other side makes of the bytes. */
  function Delivered(n: Node, b: Batch, name: seq<Byte>): AppendEntriesWire.Reply
    requires Sendable(n, b, name)
  {
    AppendEntriesWire.Deserialized(AppendEntriesWire.Serialized(Posted(n, b, name)))
  }

  function BatchOf(m: AppendEntriesWire.AppendEntries): Batch {
    Batch(m.prevIndex, m.prevTerm, AllFromWire(m.entries))
  }

  // ---------------------------------------------------------- what gets through

  /** How many entries arrive before the first that does not arrive as it was. */
  function Whole(es: seq<Entry>, left: nat): (k: nat)
    ensures k <= |es| && k <= left
  {
    if es == [] || left == 0 || |es[0].data| > AppendEntriesWire.MAX_DATA then 0 else 1 + Whole(es[1..], left - 1)
  }

  function EncodedSize(e: Entry): nat {
    if 0 < |e.data| <= Tlv.MAX_FIELD_SIZE then 37 + |e.data| else 30
  }

  /** The entries that arrive when the decoder takes `left` more fields: too large a field is skipped by the encoder,
      a smaller one ends what the decoder reads, and data that is too large is left out. */
  function Arriving(es: seq<Entry>, left: nat): seq<Entry> {
    if es == [] then []
    else if EncodedSize(es[0]) > Tlv.MAX_FIELD_SIZE then Arriving(es[1..], left)
    else if left == 0 || EncodedSize(es[0]) > TlvCoder.DEFAULT_MAX_STRING then []
    else [if |es[0].data| <= Tlv.MAX_FIELD_SIZE then es[0] else es[0].(data := [])] + Arriving(es[1..], left - 1)
  }

  /** What arrives behind the whole ones. */
  function Stray(es: seq<Entry>, left: nat): seq<Entry> {
    var k := Whole(es, left);
    Arriving(es[k..], left - k)
  }

  lemma FromWireOneMore(w: WireEntry, ws: seq<WireEntry>)
    ensures AllFromWire([w] + ws) == [FromWire(w)] + AllFromWire(ws)
  {
    assert ([w] + ws)[1..] == ws;
  }

  lemma {:induction false} ReceivedIsArriving(es: seq<Entry>, left: nat)
    requires AllInWords(es)
    ensures AllFromWire(AppendEntriesWire.Received(AllToWire(es), left)) == Arriving(es, left)
    decreases es
  {
    if es != [] {
      var w, ws := ToWire(es[0]), AllToWire(es[1..]);
      assert AllToWire(es)[1..] == ws;
      AppendEntriesWire.BlobSize(w);
      if EncodedSize(es[0]) > Tlv.MAX_FIELD_SIZE {
        ReceivedIsArriving(es[1..], left);
      } else if left > 0 {
        ReceivedIsArriving(es[1..], left - 1);
        FromWireOneMore(AppendEntriesWire.Kept(w), AppendEntriesWire.Received(ws, left - 1));
      }
    }
  }

  lemma {:induction false} ArrivingParts(es: seq<Entry>, left: nat)
    ensures var k := Whole(es, left); Arriving(es, left) == es[..k] + Arriving(es[k..], left - k)
  {
    var k := Whole(es, left);
    if k == 0 {
      assert es[0..] == es;
    } else {
      var rest := es[1..];
      ArrivingParts(rest, left - 1);
      assert rest[k - 1..] == es[k..];
      assert es[..k] == [es[0]] + rest[..k - 1];
      assert Arriving(es, left) == [es[0]] + Arriving(rest, left - 1);
    }
  }

  /** The entries of a batch arrive as a whole piece of it, with stray entries behind it. */
  lemma DeliveredParts(n: Node, b: Batch, name: seq<Byte>)
    requires Sendable(n, b, name)
    ensures Delivered(n, b, name).Ok?
    ensures var d := BatchOf(Delivered(n, b, name).m);
      && d.prevIndex == b.prevIndex && d.prevTerm == b.prevTerm
      && d.entries == b.entries[..Whole(b.entries, AppendEntriesWire.MAX_ENTRIES)]
                      + Stray(b.entries, AppendEntriesWire.MAX_ENTRIES)
  {
    AppendEntriesWire.WhatArrives(Posted(n, b, name));
    ReceivedIsArriving(b.entries, AppendEntriesWire.MAX_ENTRIES);
    ArrivingParts(b.entries, AppendEntriesWire.MAX_ENTRIES);
  }

  // --------------------------------------------------------- stray entries do harm

  predicate NumberedFrom(es: seq<Entry>, first: nat) {
    forall i | 0 <= i < |es| :: es[i].index >= first + i
  }

  predicate AllSmall(es: seq<Entry>) {
    forall i | 0 <= i < |es| :: |es[i].data| <= AppendEntriesWire.MAX_DATA
  }

  lemma {:induction false} ArrivingNumbered(es: seq<Entry>, first: nat, left: nat)
    requires NumberedFrom(es, first)
    ensures NumberedFrom(Arriving(es, left), first) && AllSmall(Arriving(es, left))
    decreases es
  {
    if es != [] {
      ArrivingNumbered(es[1..], first + 1, left);
      if left > 0 {
        ArrivingNumbered(es[1..], first + 1, left - 1);
      }
    }
  }

  /** Entries numbered beyond the end of the log are appended under new numbers. */
  lemma {:induction false} StrayAppended(log: seq<Entry>, es: seq<Entry>)
    requires NumberedFrom(es, |log| + 1)
    ensures var m := MergeEntries(log, es);
      && |m| == |log| + |es| && m[..|log|] == log
      && (es != [] ==> m[|log|].data == es[0].data)
    decreases |es|
  {
    if es != [] {
      StrayAppended(log, es[..|es| - 1]);
    }
  }

  lemma {:induction false} MergeSplit(log: seq<Entry>, a: seq<Entry>, b: seq<Entry>)
    ensures MergeEntries(log, a + b) == MergeEntries(MergeEntries(log, a), b)
    decreases |b|
  {
    if b == [] {
      assert a + b == a;
    } else {
      MergeSplit(log, a, b[..|b| - 1]);
      assert (a + b)[..|a + b| - 1] == a + b[..|b| - 1];
    }
  }

  /** A log that takes k entries of its own and then stray ones has the first of these behind its end. */
  lemma StrayStored(log: seq<Entry>, prev: nat, es: seq<Entry>)
    requires Indexed(log) && prev <= |log| && es != [] && NumberedFrom(es, |log| + 1)
    ensures var m := MergeEntries(log, log[prev..] + es);
      |m| == |log| + |es| && m[|log|].data == es[0].data
  {
    assert log[prev..] == log[prev..|log|];
    MergeSplit(log, log[prev..], es);
    MergeOwn(log, prev, |log|);
    StrayAppended(log, es);
  }

  /** The follower that ends where the stray entries begin stores the first of them in another one's place. */
  lemma StrayIsUnsafe(c: Cluster, n: Node, d: Batch, end: nat, es: seq<Entry>)
    requires Indexed(n.log) && AllGenuine(c.reigns, n.log) && (forall i | 0 <= i < |n.log| :: n.log[i].term <= n.term)
    requires d.prevIndex <= end < |n.log| && d.entries == n.log[d.prevIndex..end] + es
    requires d.prevIndex > 0 ==> d.prevTerm == n.log[d.prevIndex - 1].term
    requires es != [] && NumberedFrom(es, end + 1) && es[0].data != n.log[end].data
    ensures !Safe(c, n, d)
  {
    var f := Behind(n, n.log[..end]);
    GenuinePrefix(c.reigns, n.log, end);
    assert f.log[d.prevIndex..] == n.log[d.prevIndex..end];
    StrayStored(f.log, d.prevIndex, es);
    assert PrevMatches(f.log, d.prevIndex, d.prevTerm);
    assert Takes(c.reigns, n, d, f);
    assert Outcome(n, d, f).node.log[end].data == es[0].data;
  }

  // ------------------------------------------------------------------ the result

  lemma {:induction false} WholeStops(es: seq<Entry>, left: nat)
    ensures var k := Whole(es, left); k == |es| || k == left || |es[k].data| > AppendEntriesWire.MAX_DATA
  {
    if Whole(es, left) > 0 {
      WholeStops(es[1..], left - 1);
    }
  }

  lemma {:induction false} NothingLeft(es: seq<Entry>)
    ensures Arriving(es, 0) == []
  {
    if es != [] {
      NothingLeft(es[1..]);
    }
  }

  /** Stray entries follow one that was too large. */
  lemma StrayCause(es: seq<Entry>, left: nat)
    requires Stray(es, left) != []
    ensures var k := Whole(es, left);
      k < |es| && |es[k].data| > AppendEntriesWire.MAX_DATA
  {
    var k := Whole(es, left);
    WholeStops(es, left);
    NothingLeft(es[k..]);
  }

  /** A stray entry stands where one with more data was sent. */
  lemma StrayBreaks(rest: seq<Entry>, first: nat, left: nat)
    requires NumberedFrom(rest, first)
    requires rest != [] && |rest[0].data| > AppendEntriesWire.MAX_DATA
    ensures NumberedFrom(Arriving(rest, left), first)
    ensures Arriving(rest, left) != [] ==> Arriving(rest, left)[0].data != rest[0].data
  {
    ArrivingNumbered(rest, first, left);
    var stray := Arriving(rest, left);
    assert AllSmall(stray);
    if stray != [] {
      assert |stray[0].data| <= AppendEntriesWire.MAX_DATA;
    }
  }

  lemma WholeIsCut(n: Node, slot: nat, d: Batch, k: nat)
    requires slot < |n.next| && 1 <= n.next[slot] <= |n.log| + 1
    requires var b := BatchFor(n, slot);
      d.prevIndex == b.prevIndex && d.prevTerm == b.prevTerm && k <= |b.entries| && d.entries == b.entries[..k]
    ensures d == CutBatch(n, slot, k) && BatchEnd(d) == BatchFor(n, slot).prevIndex + k
  {
  }

  /** Nothing strays in behind the whole ones: the batch that arrives is a cut one. */
  lemma CleanIsSafeIff(c: Cluster, l: NodeId, slot: nat, d: Batch, k: nat)
    requires Leading(c, l, slot)
    requires var b := BatchFor(c.nodes[l], slot);
      d.prevIndex == b.prevIndex && d.prevTerm == b.prevTerm && k <= |b.entries| && d.entries == b.entries[..k]
    ensures c.nodes[l].term in c.reigns
    ensures Safe(c, c.nodes[l], d) <==> d.prevIndex + k > BaseOf(c, c.nodes[l])
  {
    LeadingFacts(c, l, slot);
    WholeIsCut(c.nodes[l], slot, d, k);
    CutIsSafeIff(c, l, slot, k);
  }

  lemma PieceNumbered(log: seq<Entry>, es: seq<Entry>, prev: nat, k: nat)
    requires Indexed(log) && prev + |es| <= |log| && es == log[prev..prev + |es|] && k < |es|
    ensures NumberedFrom(es[k..], prev + k + 1) && es[..k] == log[prev..prev + k]
    ensures es[k..] != [] && es[k..][0] == log[prev + k]
  {
  }

  /** Where the stray entries come in, the sender's log has another entry. */
  lemma StrayStandsWrong(log: seq<Entry>, es: seq<Entry>, prev: nat, k: nat, left: nat)
    requires Indexed(log) && prev + |es| <= |log| && es == log[prev..prev + |es|]
    requires k < |es| && |es[k].data| > AppendEntriesWire.MAX_DATA && Arriving(es[k..], left) != []
    ensures es[..k] == log[prev..prev + k]
    ensures NumberedFrom(Arriving(es[k..], left), prev + k + 1) && Arriving(es[k..], left)[0].data != log[prev + k].data
  {
    PieceNumbered(log, es, prev, k);
    StrayBreaks(es[k..], prev + k + 1, left);
  }

  lemma LeaderHasReign(c: Cluster, l: NodeId, slot: nat)
    requires Leading(c, l, slot)
    ensures c.nodes[l].term in c.reigns
  {
    LeadingFacts(c, l, slot);
  }

  /** The batch a follower makes of the leader's suffix when the decoder takes `left` entries. */
  ghost predicate ArrivedAs(n: Node, slot: nat, d: Batch, left: nat)
    requires slot < |n.next|
  {
    var b := BatchFor(n, slot);
    && d.prevIndex == b.prevIndex && d.prevTerm == b.prevTerm
    && d.entries == b.entries[..Whole(b.entries, left)] + Stray(b.entries, left)
  }

  lemma ArrivedClean(c: Cluster, l: NodeId, slot: nat, d: Batch, left: nat)
    requires Leading(c, l, slot) && ArrivedAs(c.nodes[l], slot, d, left) && c.nodes[l].term in c.reigns
    ensures var es := BatchFor(c.nodes[l], slot).entries;
      Stray(es, left) == [] ==> (Safe(c, c.nodes[l], d) <==> d.prevIndex + Whole(es, left) > BaseOf(c, c.nodes[l]))
  {
    var es := BatchFor(c.nodes[l], slot).entries;
    if Stray(es, left) == [] {
      assert d.entries == es[..Whole(es, left)];
      CleanIsSafeIff(c, l, slot, d, Whole(es, left));
    }
  }

  /** Where the whole entries end and which stray ones follow. */
  lemma StrayPart(log: seq<Entry>, sent: seq<Entry>, prev: nat, left: nat) returns (end: nat, es: seq<Entry>)
    requires Indexed(log) && prev + |sent| <= |log| && sent == log[prev..prev + |sent|] && Stray(sent, left) != []
    ensures prev <= end < |log| && end == prev + Whole(sent, left) && es == Stray(sent, left)
    ensures sent[..Whole(sent, left)] == log[prev..end]
    ensures NumberedFrom(es, end + 1) && es[0].data != log[end].data
  {
    var k := Whole(sent, left);
    StrayCause(sent, left);
    StrayStandsWrong(log, sent, prev, k, left - k);
    end, es := prev + k, Stray(sent, left);
  }

  lemma SuffixIsPiece(n: Node, slot: nat)
    requires slot < |n.next| && 1 <= n.next[slot] <= |n.log| + 1
    ensures var b := BatchFor(n, slot);
      && b.prevIndex + |b.entries| <= |n.log| && b.entries == n.log[b.prevIndex..b.prevIndex + |b.entries|]
      && (b.prevIndex > 0 ==> b.prevTerm == n.log[b.prevIndex - 1].term)
  {
  }

  lemma ArrivedBreaks(c: Cluster, n: Node, slot: nat, d: Batch, left: nat)
    requires Indexed(n.log) && AllGenuine(c.reigns, n.log) && (forall i | 0 <= i < |n.log| :: n.log[i].term <= n.term)
    requires slot < |n.next| && 1 <= n.next[slot] <= |n.log| + 1
    requires ArrivedAs(n, slot, d, left) && Stray(BatchFor(n, slot).entries, left) != []
    ensures !Safe(c, n, d)
  {
    SuffixIsPiece(n, slot);
    var end, es := StrayPart(n.log, BatchFor(n, slot).entries, d.prevIndex, left);
    StrayIsUnsafe(c, n, d, end, es);
  }

  lemma ArrivedStraying(c: Cluster, l: NodeId, slot: nat, d: Batch, left: nat)
    requires Leading(c, l, slot) && ArrivedAs(c.nodes[l], slot, d, left) && c.nodes[l].term in c.reigns
    ensures Stray(BatchFor(c.nodes[l], slot).entries, left) != [] ==> !Safe(c, c.nodes[l], d)
  {
    LeadingFacts(c, l, slot);
    if Stray(BatchFor(c.nodes[l], slot).entries, left) != [] {
      ArrivedBreaks(c, c.nodes[l], slot, d, left);
    }
  }

  /** A leader's suffix that has gone over the wire is safe for everybody who takes it exactly when the entries that
      arrive whole reach the no-op of the leader's reign and nothing strays in behind them. */
  lemma WireIsSafeIff(c: Cluster, l: NodeId, slot: nat, name: seq<Byte>)
    requires Leading(c, l, slot) && Sendable(c.nodes[l], BatchFor(c.nodes[l], slot), name)
    ensures c.nodes[l].term in c.reigns && Delivered(c.nodes[l], BatchFor(c.nodes[l], slot), name).Ok?
    ensures var n := c.nodes[l]; var b := BatchFor(n, slot);
      Safe(c, n, BatchOf(Delivered(n, b, name).m)) <==>
        Stray(b.entries, AppendEntriesWire.MAX_ENTRIES) == []
        && b.prevIndex + Whole(b.entries, AppendEntriesWire.MAX_ENTRIES) > BaseOf(c, n)
  {
    LeaderHasReign(c, l, slot);
    var n := c.nodes[l];
    var b := BatchFor(n, slot);
    DeliveredParts(n, b, name);
    var d := BatchOf(Delivered(n, b, name).m);
    ArrivedClean(c, l, slot, d, AppendEntriesWire.MAX_ENTRIES);
    ArrivedStraying(c, l, slot, d, AppendEntriesWire.MAX_ENTRIES);
  }
}
