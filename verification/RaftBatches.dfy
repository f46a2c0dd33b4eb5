// When a batch may stop early.  The safety proof rests on every AppendEntries reaching the no-op that opens its
// leader's reign; here is exactly what a shorter batch costs.

module RaftBatches {
  import opened Basics
  import opened RaftNode
  import opened RaftCluster
  import opened RaftInvariant
  import opened RaftSteps
  import opened RaftReplication

  /** The suffix from the peer's next index on, cut after its first k entries. */
  function CutBatch(n: Node, slot: nat, k: nat): Batch
    requires slot < |n.next|
  {
    var b := BatchFor(n, slot);
    if |b.entries| <= k then b else b.(entries := b.entries[..k])
  }

  function BatchEnd(b: Batch): nat { b.prevIndex + |b.entries| }

  const BATCH_LIMIT: nat := 100

  /** The other batch builder of raft_core.c, which stops after BATCH_LIMIT entries. */
  function CappedBatchFor(n: Node, slot: nat): Batch
    requires slot < |n.next| && n.next[slot] >= 1
  {
    var next := n.next[slot];
    var prev := next - 1;
    var prevTerm := if LogGet(n.log, prev).Some? then LogGet(n.log, prev).value.term else 0;
    var end := if next + BATCH_LIMIT > |n.log| + 1 then |n.log| + 1 else next + BATCH_LIMIT;
    Batch(prev, prevTerm, if next > |n.log| then [] else n.log[next - 1..end - 1])
  }

  lemma CutSlice(log: seq<Entry>, from: nat, k: nat)
    requires from <= |log|
    ensures |log| - from <= k ==> log[from..|log|] == log[from..]
    ensures |log| - from >= k ==> log[from..from + k] == log[from..][..k]
  {
  }

  lemma CappedIsCut(n: Node, slot: nat)
    requires slot < |n.next| && 1 <= n.next[slot] <= |n.log| + 1
    ensures CappedBatchFor(n, slot) == CutBatch(n, slot, BATCH_LIMIT)
  {
    var next := n.next[slot];
    if next <= |n.log| {
      CutSlice(n.log, next - 1, BATCH_LIMIT);
    }
  }

  /** The batch lies in the log, between its two ends. */
  predicate IsPiece(b: Batch, log: seq<Entry>) {
    && BatchEnd(b) <= |log|
    && b.entries == log[b.prevIndex..BatchEnd(b)]
    && (b.prevIndex > 0 ==> b.prevTerm == log[b.prevIndex - 1].term)
  }

  lemma PieceOfPrefix(b: Batch, log: seq<Entry>, k: nat)
    requires BatchEnd(b) <= k <= |log|
    ensures IsPiece(b, log[..k]) <==> IsPiece(b, log)
  {
    assert log[..k][b.prevIndex..BatchEnd(b)] == log[b.prevIndex..BatchEnd(b)];
  }

  lemma CutIsPiece(n: Node, slot: nat, k: nat)
    requires slot < |n.next| && 1 <= n.next[slot] <= |n.log| + 1
    ensures var b := CutBatch(n, slot, k);
      IsPiece(b, n.log) && b.prevIndex == n.next[slot] - 1 && BatchEnd(b) == Min(n.next[slot] - 1 + k, |n.log|)
  {
  }

  // ------------------------------------------------------- whom it may meet

  ghost predicate Histories(reigns: map<nat, Reign>) {
    forall t {:trigger ReignLog(reigns, t, reigns[t])} | t in reigns :: ReignLog(reigns, t, reigns[t])
  }

  /** What became of the reigns that c knows, as far as the leader n is concerned: the others may have gone on. */
  ghost predicate LaterHistory(c: Cluster, n: Node, reigns: map<nat, Reign>) {
    && ReignsGrow(c.reigns, reigns) && Histories(reigns)
    && n.term in reigns && reigns[n.term].log == n.log
  }

  function Outcome(n: Node, b: Batch, f: Node): AppendOutcome {
    HandleAppendEntries(f, n.id, n.term, b.prevIndex, b.prevTerm, b.entries, n.commit)
  }

  /** A server of the leader's term whose log came from leaders accepts the leader's batch. */
  ghost predicate Takes(reigns: map<nat, Reign>, n: Node, b: Batch, f: Node) {
    NodeLog(reigns, f) && f.term == n.term && f.role != Leader && Outcome(n, b, f).success
  }

  /** Everybody who takes the batch ends with a piece of the leader's log that reaches into the leader's term. */
  ghost predicate Safe(c: Cluster, n: Node, b: Batch) {
    forall f {:trigger Takes(c.reigns, n, b, f)} | Takes(c.reigns, n, b, f) ::
      var log := Outcome(n, b, f).node.log;
      log <= n.log && LastTerm(log) == n.term
  }

  /** Everybody who takes the batch reports an index up to which it has the leader's log, whatever the leaders of
      other terms may have written by then. */
  ghost predicate ReportsTruly(c: Cluster, n: Node, b: Batch) {
    forall reigns, f {:trigger Takes(reigns, n, b, f)} | LaterHistory(c, n, reigns) && Takes(reigns, n, b, f) ::
      var o := Outcome(n, b, f);
      o.lastIndex == |o.node.log| && o.node.log <= n.log
  }

  /** A leader of c and one of its peers. */
  ghost predicate Leading(c: Cluster, l: NodeId, slot: nat) {
    Inv(c) && l < |c.nodes| && c.nodes[l].role == Leader && slot < |c.nodes[l].next|
  }

  function BaseOf(c: Cluster, n: Node): nat
    requires n.term in c.reigns
  {
    c.reigns[n.term].base
  }

  lemma LeadingFacts(c: Cluster, l: NodeId, slot: nat)
    requires Leading(c, l, slot)
    ensures var n := c.nodes[l];
      && n.term in c.reigns && c.reigns[n.term].log == n.log && ReignLog(c.reigns, n.term, c.reigns[n.term])
      && n.id == l && 1 <= n.next[slot] <= |n.log| + 1
      && LaterHistory(c, n, c.reigns)
  {
    var n := c.nodes[l];
    assert ShapeOf(c, n, l) && NodeLog(c.reigns, n) && PeersKnown(c, n);
    assert ReignLog(c.reigns, n.term, c.reigns[n.term]);
  }

  // ----------------------------------------------------- reaching the no-op

  /** A batch that reaches the no-op does what the whole suffix does. */
  lemma ReachingIsSafe(c: Cluster, n: Node, b: Batch, reigns: map<nat, Reign>, f: Node)
    requires LaterHistory(c, n, reigns) && n.term in c.reigns && Takes(reigns, n, b, f)
    requires BaseOf(c, n) < BatchEnd(b) && IsPiece(b, n.log)
    ensures var o := Outcome(n, b, f);
      o.lastIndex == |o.node.log| && o.node.log <= n.log && LastTerm(o.node.log) == n.term
  {
    assert ReignGrows(c.reigns[n.term], reigns[n.term]);
    var d := c.(reigns := reigns, nodes := []);
    var m := AppendRequest(n.id, 0, n.term, b.prevIndex, b.prevTerm, b.entries, n.commit);
    StoredIsPrefix(d, f, m);
  }

  // ------------------------------------------------- stopping at the no-op or before

  /** A server that has followed the leader's predecessors up to the end of the batch. */
  function Behind(n: Node, log: seq<Entry>): Node {
    Node(n.id + 1, n.peers, n.term, None, log, 0, 0, n.next, n.match_, Follower, None)
  }

  /** Receiving a piece of one's own log changes nothing. */
  lemma MergeOwn(log: seq<Entry>, from: nat, to: nat)
    requires Indexed(log) && from <= to <= |log|
    ensures MergeEntries(log, log[from..to]) == log
  {
    MergeFromFull(log, log, from, to);
    MergeKeepsAgreement(log, log, from, to, |log|);
    assert log[..|log|] == log;
  }

  lemma TakesOwn(reigns: map<nat, Reign>, n: Node, b: Batch, log: seq<Entry>)
    requires Indexed(log) && AllGenuine(reigns, log) && LastTerm(log) < n.term
    requires IsPiece(b, log)
    ensures Takes(reigns, n, b, Behind(n, log))
    ensures Outcome(n, b, Behind(n, log)).node.log == log && Outcome(n, b, Behind(n, log)).lastIndex == |log|
  {
    MergeOwn(log, b.prevIndex, BatchEnd(b));
  }

  lemma GenuinePrefix(reigns: map<nat, Reign>, log: seq<Entry>, k: nat)
    requires Indexed(log) && AllGenuine(reigns, log) && k <= |log|
    ensures Indexed(log[..k]) && AllGenuine(reigns, log[..k])
  {
    forall i | 0 <= i < k ensures Genuine(reigns, log[..k], i) {
      assert Genuine(reigns, log, i);
      assert log[..k][..i + 1] == log[..i + 1];
    }
  }

  /** It can leave a follower with nothing of the leader's term. */
  lemma ShortIsUnsafe(c: Cluster, l: NodeId, slot: nat, b: Batch)
    requires Leading(c, l, slot) && c.nodes[l].term in c.reigns
    requires IsPiece(b, c.nodes[l].log) && BatchEnd(b) <= BaseOf(c, c.nodes[l])
    ensures !Safe(c, c.nodes[l], b)
  {
    LeadingFacts(c, l, slot);
    var n, k := c.nodes[l], BatchEnd(b);
    assert ReignHolds(c, n.term, c.reigns[n.term]);
    GenuinePrefix(c.reigns, n.log, k);
    PieceOfPrefix(b, n.log, k);
    TakesOwn(c.reigns, n, b, n.log[..k]);
  }

  /** The batch is safe exactly when it reaches the no-op at position base + 1. */
  lemma CutIsSafeIff(c: Cluster, l: NodeId, slot: nat, k: nat)
    requires Leading(c, l, slot)
    ensures c.nodes[l].term in c.reigns
    ensures Safe(c, c.nodes[l], CutBatch(c.nodes[l], slot, k))
        <==> BatchEnd(CutBatch(c.nodes[l], slot, k)) > BaseOf(c, c.nodes[l])
  {
    LeadingFacts(c, l, slot);
    var n := c.nodes[l];
    var b := CutBatch(n, slot, k);
    CutIsPiece(n, slot, k);
    if BatchEnd(b) > BaseOf(c, n) {
      forall f | Takes(c.reigns, n, b, f)
        ensures Outcome(n, b, f).node.log <= n.log && LastTerm(Outcome(n, b, f).node.log) == n.term
      {
        ReachingIsSafe(c, n, b, c.reigns, f);
      }
    } else {
      ShortIsUnsafe(c, l, slot, b);
    }
  }

  // ----------------------------------------------------- a report that is false

  /** The history in which the leader of term t goes on after `log`, unless it already has. */
  function GoneOn(reigns: map<nat, Reign>, t: nat): map<nat, Reign>
    requires t in reigns
  {
    var r := reigns[t];
    reigns[t := r.(log := LogAppend(r.log, t, Noop, []))]
  }

  lemma GoneOnHistories(reigns: map<nat, Reign>, t: nat)
    requires Histories(reigns) && t in reigns
    ensures ReignsGrow(reigns, GoneOn(reigns, t)) && Histories(GoneOn(reigns, t))
  {
    var later := GoneOn(reigns, t);
    assert ReignLog(reigns, t, reigns[t]);
    forall u | u in later ensures ReignLog(later, u, later[u]) {
      assert ReignLog(reigns, u, reigns[u]);
      GenuineGrows(reigns, later, reigns[u].log);
      if u == t {
        var log, log' := reigns[t].log, later[t].log;
        forall i | 0 <= i < |log'| ensures Genuine(later, log', i) {
          if i < |log| {
            assert Genuine(later, log, i);
            assert log'[..i + 1] == log[..i + 1];
          }
        }
      }
    }
  }

  /** The leader of the term before the no-op may have written another entry where the no-op stands. */
  lemma Rival(c: Cluster, n: Node) returns (reigns: map<nat, Reign>, log: seq<Entry>)
    requires Histories(c.reigns) && n.term in c.reigns && c.reigns[n.term].log == n.log
    requires BaseOf(c, n) > 0
    ensures LaterHistory(c, n, reigns)
    ensures var base := BaseOf(c, n);
      && base < |n.log| && |log| == base + 1 && log[..base] == n.log[..base]
      && LastTerm(log) < n.term && !(log <= n.log)
      && Indexed(log) && AllGenuine(reigns, log)
  {
    var base := BaseOf(c, n);
    assert ReignLog(c.reigns, n.term, c.reigns[n.term]);
    var t := n.log[base - 1].term;
    assert Genuine(c.reigns, n.log, base - 1);
    reigns := GoneOn(c.reigns, t);
    GoneOnHistories(c.reigns, t);
    var full := reigns[t].log;
    assert ReignLog(reigns, t, reigns[t]) && ReignLog(c.reigns, t, c.reigns[t]);
    GenuinePrefix(reigns, full, base + 1);
    log := full[..base + 1];
    assert log[..base] == c.reigns[t].log[..base];
    assert c.reigns[t].log[base - 1] == c.reigns[t].log[..base][base - 1];
    assert full[base].term == t && n.log[base].term == n.term;
  }

  lemma ShortMisreports(c: Cluster, l: NodeId, slot: nat, b: Batch)
    requires Leading(c, l, slot) && c.nodes[l].term in c.reigns
    requires IsPiece(b, c.nodes[l].log) && BatchEnd(b) <= BaseOf(c, c.nodes[l]) && BaseOf(c, c.nodes[l]) > 0
    ensures !ReportsTruly(c, c.nodes[l], b)
  {
    LeadingFacts(c, l, slot);
    var n, base := c.nodes[l], BaseOf(c, c.nodes[l]);
    var reigns, log := Rival(c, n);
    PieceOfPrefix(b, n.log, base);
    PieceOfPrefix(b, log, base);
    TakesOwn(reigns, n, b, log);
  }

  /** What followers report after a batch of at most k entries is true, whatever they held, exactly when the batch
      reaches the no-op. */
  lemma CutReportsTrulyIff(c: Cluster, l: NodeId, slot: nat, k: nat)
    requires Leading(c, l, slot) && k > 0
    ensures c.nodes[l].term in c.reigns
    ensures ReportsTruly(c, c.nodes[l], CutBatch(c.nodes[l], slot, k))
        <==> BatchEnd(CutBatch(c.nodes[l], slot, k)) > BaseOf(c, c.nodes[l])
  {
    LeadingFacts(c, l, slot);
    var n := c.nodes[l];
    var b := CutBatch(n, slot, k);
    CutIsPiece(n, slot, k);
    if BatchEnd(b) > BaseOf(c, n) {
      forall reigns, f | LaterHistory(c, n, reigns) && Takes(reigns, n, b, f)
        ensures var o := Outcome(n, b, f); o.lastIndex == |o.node.log| && o.node.log <= n.log
      {
        ReachingIsSafe(c, n, b, reigns, f);
      }
    } else {
      ShortMisreports(c, l, slot, b);
    }
  }

  /** The capped batch is safe, and what is reported after it is true, exactly when its hundred entries reach the
      no-op. */
  lemma CappedBatchSafeIff(c: Cluster, l: NodeId, slot: nat)
    requires Leading(c, l, slot)
    ensures c.nodes[l].next[slot] >= 1 && c.nodes[l].term in c.reigns
    ensures var n := c.nodes[l]; var b := CappedBatchFor(n, slot);
      && (Safe(c, n, b) <==> n.next[slot] + BATCH_LIMIT - 1 > BaseOf(c, n))
      && (ReportsTruly(c, n, b) <==> n.next[slot] + BATCH_LIMIT - 1 > BaseOf(c, n))
  {
    LeadingFacts(c, l, slot);
    var n := c.nodes[l];
    CappedIsCut(n, slot);
    CutIsPiece(n, slot, BATCH_LIMIT);
    CutIsSafeIff(c, l, slot, BATCH_LIMIT);
    CutReportsTrulyIff(c, l, slot, BATCH_LIMIT);
  }
}
