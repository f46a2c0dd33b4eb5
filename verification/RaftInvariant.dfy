// The invariant of every reachable cluster, in five parts: elections, logs, holdings, commits and messages.

module RaftInvariant {
  import opened Basics
  import opened RaftNode
  import opened RaftCluster

  ghost predicate IsQuorum(q: set<NodeId>, n: nat) {
    (forall v | v in q :: v < n) && |q| >= n / 2 + 1
  }

  // ------------------------------------------------------------- 1. elections

  /** Nobody votes, or is voted for, in a term it has not reached. */
  ghost predicate BallotsPast(c: Cluster) {
    forall b | b in c.cast ::
      && b.voter < |c.nodes| && b.term <= c.nodes[b.voter].term
      && b.candidate < |c.nodes| && b.term <= c.nodes[b.candidate].term
  }

  ghost predicate CandidatesVoted(c: Cluster)
    requires |c.votes| == |c.nodes|
  {
    forall i | 0 <= i < |c.nodes| && c.nodes[i].role == Candidate ::
      && c.nodes[i].term >= 1
      && c.nodes[i].votedFor == Some(i)
      && Ballot(c.nodes[i].term, i, i) in c.cast
      && i in c.votes[i]
  }

  ghost predicate VotesCast(c: Cluster)
    requires |c.votes| == |c.nodes|
  {
    forall i, v | 0 <= i < |c.nodes| && c.nodes[i].role == Candidate && v in c.votes[i] ::
      Ballot(c.nodes[i].term, v, i) in c.cast
  }

  /** Until somebody has won a term, a vote given in it is remembered and so is the only one. */
  ghost predicate OpenTerms(c: Cluster)
    requires BallotsPast(c)
  {
    forall b | b in c.cast && b.term !in c.reigns ::
      && (c.nodes[b.voter].term == b.term ==> c.nodes[b.voter].votedFor == Some(b.candidate))
      && (forall b' | b' in c.cast && b'.term == b.term && b'.voter == b.voter :: b'.candidate == b.candidate)
  }

  ghost predicate ReignHolds(c: Cluster, t: nat, r: Reign) {
    && t >= 1
    && IsQuorum(r.voters, |c.nodes|)
    && r.leader in r.voters
    && (forall v | v in r.voters ::
          && c.nodes[v].term >= t
          && (c.nodes[v].term == t ==> c.nodes[v].votedFor == Some(r.leader) && c.nodes[v].role != Candidate))
  }

  /** The voters of a winner never have another vote in that term: they are not candidates of it, so no
      AppendEntries of the term makes them forget. */
  ghost predicate WonTerms(c: Cluster) {
    && (forall t {:trigger ReignHolds(c, t, c.reigns[t])} | t in c.reigns :: ReignHolds(c, t, c.reigns[t]))
    && (forall b | b in c.cast && b.term in c.reigns && b.voter in c.reigns[b.term].voters ::
          b.candidate == c.reigns[b.term].leader)
  }

  ghost predicate LeadersReign(c: Cluster) {
    forall i | 0 <= i < |c.nodes| && c.nodes[i].role == Leader ::
      c.nodes[i].term in c.reigns && c.reigns[c.nodes[i].term].leader == i
  }

  ghost predicate ElectionInv(c: Cluster)
    requires Shape(c)
  {
    && BallotsPast(c) && CandidatesVoted(c) && VotesCast(c)
    && OpenTerms(c) && WonTerms(c) && LeadersReign(c)
  }

  // ------------------------------------------------------------------ 2. logs

  /** Entry i came, with everything before it, from the leader of its term. */
  ghost predicate Genuine(reigns: map<nat, Reign>, log: seq<Entry>, i: nat)
    requires i < |log|
  {
    var t := log[i].term;
    t in reigns && i < |reigns[t].log| && log[..i + 1] == reigns[t].log[..i + 1]
  }

  ghost predicate AllGenuine(reigns: map<nat, Reign>, log: seq<Entry>) {
    forall i {:trigger Genuine(reigns, log, i)} | 0 <= i < |log| :: Genuine(reigns, log, i)
  }

  ghost predicate ReignLog(reigns: map<nat, Reign>, t: nat, r: Reign) {
    && r.base < |r.log|
    && Indexed(r.log)
    && (forall i | 0 <= i < |r.log| :: if i < r.base then r.log[i].term < t else r.log[i].term == t)
    && AllGenuine(reigns, r.log)
  }

  ghost predicate NodeLog(reigns: map<nat, Reign>, n: Node) {
    && Indexed(n.log)
    && AllGenuine(reigns, n.log)
    && LastTerm(n.log) <= n.term
    && (n.role == Leader ==> n.term in reigns && n.log == reigns[n.term].log)
  }

  ghost predicate LogInv(c: Cluster) {
    && (forall t {:trigger ReignLog(c.reigns, t, c.reigns[t])} | t in c.reigns :: ReignLog(c.reigns, t, c.reigns[t]))
    && (forall i {:trigger NodeLog(c.reigns, c.nodes[i])} | 0 <= i < |c.nodes| :: NodeLog(c.reigns, c.nodes[i]))
  }

  // -------------------------------------------------------------- 3. holdings

  ghost predicate HoldingOk(c: Cluster, h: Holding, len: nat) {
    && h.node < |c.nodes|
    && h.term <= c.nodes[h.node].term
    && h.term in c.reigns
    && c.reigns[h.term].base < len <= |c.reigns[h.term].log|
  }

  /** The last entry of a log tells when the server last stored anything, and how much. */
  ghost predicate LogIsLastHolding(c: Cluster, i: NodeId)
    requires i < |c.nodes|
  {
    var log := c.nodes[i].log;
    && (log != [] ==> Holding(LastTerm(log), i) in c.held && c.held[Holding(LastTerm(log), i)] == |log|)
    && (forall h | h in c.held && h.node == i :: log != [] && h.term <= LastTerm(log))
  }

  /** A log of (lastTerm, length) is up to date with everything `voter` stored before `term`. */
  ghost predicate Covers(held: map<Holding, nat>, voter: NodeId, term: nat, lastTerm: nat, length: nat) {
    forall h | h in held && h.node == voter && h.term < term :: UpToDate(lastTerm, length, h.term, held[h])
  }

  ghost predicate CandidateCovers(c: Cluster, b: Ballot) {
    b.candidate < |c.nodes| && c.nodes[b.candidate].role == Candidate && c.nodes[b.candidate].term == b.term ==>
      Covers(c.held, b.voter, b.term, LastTerm(c.nodes[b.candidate].log), |c.nodes[b.candidate].log|)
  }

  ghost predicate ReignCovers(c: Cluster, t: nat, v: NodeId)
    requires t in c.reigns
  {
    var r := c.reigns[t];
    r.base <= |r.log| && Covers(c.held, v, t, LastTerm(r.log[..r.base]), r.base)
  }

  ghost predicate Confirmed(held: map<Holding, nat>, term: nat, node: NodeId, index: nat) {
    Holding(term, node) in held && held[Holding(term, node)] >= index
  }

  ghost predicate PeersKnown(c: Cluster, n: Node)
    requires |n.match_| == |n.next|
  {
    n.role == Leader ==> forall j | 0 <= j < |n.match_| ::
      && (n.match_[j] > 0 ==> Confirmed(c.held, n.term, PeerAt(n.id, j), n.match_[j]))
      && 1 <= n.next[j] <= |n.log| + 1
  }

  ghost predicate HeldInv(c: Cluster)
    requires Shape(c)
  {
    && (forall h {:trigger HoldingOk(c, h, c.held[h])} | h in c.held :: HoldingOk(c, h, c.held[h]))
    && (forall i {:trigger LogIsLastHolding(c, i)} | 0 <= i < |c.nodes| :: LogIsLastHolding(c, i))
    && (forall b {:trigger CandidateCovers(c, b)} | b in c.cast :: CandidateCovers(c, b))
    && (forall t, v {:trigger ReignCovers(c, t, v)} | t in c.reigns && v in c.reigns[t].voters :: ReignCovers(c, t, v))
    && (forall i {:trigger PeersKnown(c, c.nodes[i])} | 0 <= i < |c.nodes| :: PeersKnown(c, c.nodes[i]))
  }

  // --------------------------------------------------------------- 4. commits

  ghost predicate DecisionOk(c: Cluster, d: Decision) {
    && d.term in c.reigns
    && c.reigns[d.term].base < d.index <= |c.reigns[d.term].log|
    && IsQuorum(d.holders, |c.nodes|)
    && (forall v | v in d.holders :: Confirmed(c.held, d.term, v, d.index))
  }

  /** The first `commit` entries of `log` were decided no later than in `term`. */
  ghost predicate Decided(reigns: map<nat, Reign>, decisions: set<Decision>, term: nat, log: seq<Entry>, commit: nat) {
    commit > 0 ==> exists d ::
      && d in decisions && d.term <= term && d.term in reigns
      && commit <= d.index && commit <= |log| && commit <= |reigns[d.term].log|
      && log[..commit] == reigns[d.term].log[..commit]
  }

  ghost predicate CommitOk(c: Cluster, n: Node) {
    n.applied <= n.commit && Decided(c.reigns, c.decisions, n.term, n.log, n.commit)
  }

  ghost predicate ApplicationOk(c: Cluster, a: Application) {
    exists d ::
      && d in c.decisions && d.term in c.reigns
      && 1 <= a.index <= d.index && a.index <= |c.reigns[d.term].log|
      && a.entry == c.reigns[d.term].log[a.index - 1]
  }

  ghost predicate CommitInv(c: Cluster) {
    && (forall d {:trigger DecisionOk(c, d)} | d in c.decisions :: DecisionOk(c, d))
    && (forall i {:trigger CommitOk(c, c.nodes[i])} | 0 <= i < |c.nodes| :: CommitOk(c, c.nodes[i]))
    && (forall a {:trigger ApplicationOk(c, a)} | a in c.applications :: ApplicationOk(c, a))
  }

  // ------------------------------------------------------------- 5. messages

  /** As long as the sender still stands in that term, its request describes its log. */
  ghost predicate VoteRequestHonest(c: Cluster, m: Message)
    requires m.VoteRequest? && m.src < |c.nodes|
  {
    && m.term <= c.nodes[m.src].term
    && (c.nodes[m.src].term == m.term && c.nodes[m.src].role == Candidate ==>
          m.lastIndex == |c.nodes[m.src].log| && m.lastTerm == LastTerm(c.nodes[m.src].log))
  }

  /** An AppendEntries in flight carries a piece of its leader's log that reaches into the leader's own term. */
  ghost predicate RequestLog(reigns: map<nat, Reign>, m: Message)
    requires m.AppendRequest?
  {
    && m.term in reigns
    && var r := reigns[m.term];
    && var end := m.prevIndex + |m.entries|;
    && r.base < end <= |r.log|
    && m.entries == r.log[m.prevIndex..end]
    && (m.prevIndex > 0 ==> m.prevTerm == r.log[m.prevIndex - 1].term)
  }

  ghost predicate MessageOk(c: Cluster, m: Message)
    requires m.src < |c.nodes|
  {
    match m
    case VoteRequest(_, _, _, _, _) => VoteRequestHonest(c, m)
    case VoteReply(src, dst, term, granted) => granted ==> Ballot(term, src, dst) in c.cast
    case AppendRequest(src, _, term, prevIndex, _, entries, commit) =>
      && term in c.reigns && c.reigns[term].leader == src
      && RequestLog(c.reigns, m) && commit <= prevIndex + |entries|
      && Decided(c.reigns, c.decisions, term, c.reigns[term].log, commit)
    case AppendReply(src, _, term, success, matchIndex) => success ==> Confirmed(c.held, term, src, matchIndex)
  }

  ghost predicate NetInv(c: Cluster)
    requires Shape(c)
  {
    forall m {:trigger MessageOk(c, m)} | m in c.net :: MessageOk(c, m)
  }

  ghost predicate Inv(c: Cluster) {
    && Shape(c)
    && ElectionInv(c)
    && LogInv(c)
    && HeldInv(c)
    && CommitInv(c)
    && NetInv(c)
  }

  lemma InitInv(c: Cluster)
    requires Init(c)
    ensures Inv(c)
  {
    forall i | 0 <= i < |c.nodes| ensures ShapeOf(c, c.nodes[i], i) {
      assert InitNode(c.nodes[i], i, |c.nodes| - 1);
    }
  }
}
