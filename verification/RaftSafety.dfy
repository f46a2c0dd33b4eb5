// The safety of every run: election safety, log matching, leader completeness, state machine safety.

module RaftSafety {
  import opened Basics
  import opened RaftNode
  import opened RaftCluster
  import opened RaftInvariant
  import opened RaftSteps
  import opened RaftReplication

  ghost predicate Kept(c: Cluster, a: Action) {
    Shape(c) && Enabled(c, a) && Inv(Perform(c, a))
  }

  lemma ElectionActionKeeps(c: Cluster, a: Action)
    requires Inv(c) && Enabled(c, a)
    requires a.Timeout? || a.AskVote? || a.OnVoteRequest? || a.OnVoteReply? || a.Tally? || a.Crash?
    ensures Kept(c, a)
  {
    match a
    case Timeout(i) => TimeoutKeeps(c, i);
    case AskVote(i, slot) => AskVoteKeeps(c, i, slot);
    case OnVoteRequest(m) => OnVoteRequestKeeps(c, m);
    case OnVoteReply(m) => OnVoteReplyKeeps(c, m);
    case Tally(i) => WinKeeps(c, i);
    case Crash(i) => CrashKeeps(c, i);
  }

  lemma ReplicationActionKeeps(c: Cluster, a: Action)
    requires Inv(c) && Enabled(c, a)
    requires a.Submit? || a.Replicate? || a.OnAppendRequest? || a.OnAppendReply? || a.Commit? || a.Apply?
    ensures Kept(c, a)
  {
    match a
    case Submit(i, data) => SubmitKeeps(c, i, data);
    case Replicate(i, slot) => ReplicateKeeps(c, i, slot);
    case OnAppendRequest(m) => OnAppendRequestKeeps(c, m);
    case OnAppendReply(m) => OnAppendReplyKeeps(c, m);
    case Commit(i) => AdvanceKeeps(c, i);
    case Apply(i) => ApplyKeeps(c, i);
  }

  lemma NextKeeps(c: Cluster, c': Cluster)
    requires Inv(c) && Next(c, c')
    ensures Inv(c')
  {
    var a :| Enabled(c, a) && c' == Perform(c, a);
    if a.Submit? || a.Replicate? || a.OnAppendRequest? || a.OnAppendReply? || a.Commit? || a.Apply? {
      ReplicationActionKeeps(c, a);
    } else {
      ElectionActionKeeps(c, a);
    }
  }

  lemma {:induction false} RunInv(cs: seq<Cluster>, k: nat)
    requires IsRun(cs) && k < |cs|
    ensures Inv(cs[k])
    decreases k
  {
    if k == 0 {
      InitInv(cs[0]);
    } else {
      RunInv(cs, k - 1);
      assert NextAt(cs, k - 1);
      NextKeeps(cs[k - 1], cs[k]);
    }
  }

  // ---------------------------------------------------- histories only grow

  lemma GrowsTrans(a: Cluster, b: Cluster, c: Cluster)
    requires Grows(a, b) && Grows(b, c)
    ensures Grows(a, c)
  {
  }

  lemma TallyGrows(c: Cluster, i: NodeId)
    requires Inv(c) && Enabled(c, Tally(i))
    ensures Grows(c, Win(c, i))
  {
    WinIsFirst(c, i);
    WinGrows(c, i);
  }

  lemma StandGrows(c: Cluster, i: NodeId)
    requires i < |c.nodes| == |c.votes|
    ensures Grows(c, Stand(c, i))
  {
  }

  lemma TimeoutGrows(c: Cluster, i: NodeId)
    requires Inv(c) && Enabled(c, Timeout(i))
    ensures Grows(c, Perform(c, Timeout(i)))
  {
    StandGrows(c, i);
    if Majority(c.nodes[i].peers) == 1 {
      StandKeeps(c, i);
      TallyGrows(Stand(c, i), i);
      GrowsTrans(c, Stand(c, i), Win(Stand(c, i), i));
    }
  }

  /** A step that only turns up terms, votes, ballots or messages. */
  lemma PutGrows(c: Cluster, c': Cluster, i: NodeId)
    requires i < |c.nodes| && |c'.nodes| == |c.nodes| && c'.nodes[i].term >= c.nodes[i].term
    requires forall k | 0 <= k < |c.nodes| && k != i :: c'.nodes[k] == c.nodes[k]
    requires c.cast <= c'.cast && c'.reigns == c.reigns && c'.held == c.held
    requires c.decisions <= c'.decisions && c.applications <= c'.applications
    ensures Grows(c, c')
  {
  }

  lemma VotingGrows(c: Cluster, a: Action)
    requires Shape(c) && Enabled(c, a) && (a.AskVote? || a.OnVoteRequest? || a.OnVoteReply? || a.Crash?)
    ensures Grows(c, Perform(c, a))
  {
    var x := match a
      case AskVote(i, _) => i case OnVoteRequest(m) => m.dst case OnVoteReply(m) => m.dst case Crash(i) => i;
    PutGrows(c, Perform(c, a), x);
  }

  lemma ElectionActionGrows(c: Cluster, a: Action)
    requires Inv(c) && Enabled(c, a)
    requires a.Timeout? || a.AskVote? || a.OnVoteRequest? || a.OnVoteReply? || a.Tally? || a.Crash?
    ensures Grows(c, Perform(c, a))
  {
    match a
    case Timeout(i) => TimeoutGrows(c, i);
    case Tally(i) => TallyGrows(c, i);
    case _ => VotingGrows(c, a);
  }

  lemma AcceptGrows(c: Cluster, m: Message)
    requires Inv(c) && Acceptable(c, m)
    ensures var o := AcceptAppend(c.nodes[m.dst], m.src, m.prevIndex, m.prevTerm, m.entries, m.commit);
            Grows(c, Store(c, m.dst, o))
  {
    var c1 := Put(c, m.dst, Met(c.nodes[m.dst], m.src));
    assert MessageOk(c, m);
    MetKeeps(c, m.dst, m.src);
    AcceptIsStored(c, m);
    PutGrows(c, c1, m.dst);
    if PrevMatches(c1.nodes[m.dst].log, m.prevIndex, m.prevTerm) {
      StoredGrows(c1, m);
      GrowsTrans(c, c1, Stored(c1, m));
    }
  }

  lemma AppendAnswerGrows(c: Cluster, m: Message)
    requires Inv(c) && Enabled(c, OnAppendRequest(m)) && m.term <= c.nodes[m.dst].term
    ensures Grows(c, Perform(c, OnAppendRequest(m)))
  {
    if m.term == c.nodes[m.dst].term {
      AcceptGrows(c, m);
    }
  }

  lemma OnAppendRequestGrows(c: Cluster, m: Message)
    requires Inv(c) && Enabled(c, OnAppendRequest(m))
    ensures Grows(c, Perform(c, OnAppendRequest(m)))
  {
    var c1 := Put(c, m.dst, StepDown(c.nodes[m.dst], m.term));
    StepDownKeeps(c, m.dst, m.term);
    AppendAfterStepDown(c, m);
    AppendAnswerGrows(c1, m);
    PutGrows(c, c1, m.dst);
    GrowsTrans(c, c1, Perform(c, OnAppendRequest(m)));
  }

  lemma HearingGrows(c: Cluster, a: Action)
    requires Shape(c) && Enabled(c, a) && (a.Replicate? || a.OnAppendReply? || a.Commit? || a.Apply?)
    ensures Grows(c, Perform(c, a))
  {
    var x := match a case Replicate(i, _) => i case OnAppendReply(m) => m.dst case Commit(i) => i case Apply(i) => i;
    PutGrows(c, Perform(c, a), x);
  }

  lemma ReplicationActionGrows(c: Cluster, a: Action)
    requires Inv(c) && Enabled(c, a)
    requires a.Submit? || a.Replicate? || a.OnAppendRequest? || a.OnAppendReply? || a.Commit? || a.Apply?
    ensures Grows(c, Perform(c, a))
  {
    match a
    case Submit(i, data) => SubmitGrows(c, i, data);
    case OnAppendRequest(m) => OnAppendRequestGrows(c, m);
    case _ => HearingGrows(c, a);
  }

  lemma NextGrows(c: Cluster, c': Cluster)
    requires Inv(c) && Next(c, c')
    ensures Grows(c, c')
  {
    var a :| Enabled(c, a) && c' == Perform(c, a);
    if a.Submit? || a.Replicate? || a.OnAppendRequest? || a.OnAppendReply? || a.Commit? || a.Apply? {
      ReplicationActionGrows(c, a);
    } else {
      ElectionActionGrows(c, a);
    }
  }

  lemma StepGrows(cs: seq<Cluster>, k: nat)
    requires IsRun(cs) && k + 1 < |cs|
    ensures Grows(cs[k], cs[k + 1])
  {
    RunInv(cs, k);
    assert NextAt(cs, k);
    NextGrows(cs[k], cs[k + 1]);
  }

  lemma {:induction false} RunGrows(cs: seq<Cluster>, i: nat, j: nat)
    requires IsRun(cs) && i <= j < |cs|
    ensures Grows(cs[i], cs[j])
    decreases j
  {
    if i < j {
      RunGrows(cs, i, j - 1);
      StepGrows(cs, j - 1);
      GrowsTrans(cs[i], cs[j - 1], cs[j]);
    }
  }

  // ------------------------------------------------------------ main results

  /** Election safety: over a whole run, with crashes, at most one server ever leads in a term, although a
      candidate that steps down forgets its vote and may vote again. */
  lemma ElectionSafety(cs: seq<Cluster>, i: nat, j: nat, a: NodeId, b: NodeId)
    requires IsRun(cs) && i < |cs| && j < |cs| && a < |cs[i].nodes| && b < |cs[j].nodes|
    requires cs[i].nodes[a].role == Leader && cs[j].nodes[b].role == Leader
    requires cs[i].nodes[a].term == cs[j].nodes[b].term
    ensures a == b
  {
    RunInv(cs, i);
    RunInv(cs, j);
    if i <= j { RunGrows(cs, i, j); } else { RunGrows(cs, j, i); }
  }

  /** Log matching, between any two servers at any two moments of a run. */
  lemma LogMatching(cs: seq<Cluster>, i: nat, j: nat, a: NodeId, b: NodeId, k: nat)
    requires IsRun(cs) && i < |cs| && j < |cs| && a < |cs[i].nodes| && b < |cs[j].nodes|
    requires k < |cs[i].nodes[a].log| && k < |cs[j].nodes[b].log|
    requires cs[i].nodes[a].log[k].term == cs[j].nodes[b].log[k].term
    ensures cs[i].nodes[a].log[..k + 1] == cs[j].nodes[b].log[..k + 1]
  {
    RunInv(cs, i);
    RunInv(cs, j);
    assert NodeLog(cs[i].reigns, cs[i].nodes[a]) && NodeLog(cs[j].reigns, cs[j].nodes[b]);
    if i <= j {
      RunGrows(cs, i, j);
      GenuineGrows(cs[i].reigns, cs[j].reigns, cs[i].nodes[a].log);
      SamePrefix(cs[j].reigns, cs[i].nodes[a].log, cs[j].nodes[b].log, k);
    } else {
      RunGrows(cs, j, i);
      GenuineGrows(cs[j].reigns, cs[i].reigns, cs[j].nodes[b].log);
      SamePrefix(cs[i].reigns, cs[i].nodes[a].log, cs[j].nodes[b].log, k);
    }
  }

  /** Along every log indices count up from 1, terms never decrease and none exceeds the server's own. */
  lemma LogOrder(cs: seq<Cluster>, i: nat, a: NodeId, k: nat, l: nat)
    requires IsRun(cs) && i < |cs| && a < |cs[i].nodes| && k <= l < |cs[i].nodes[a].log|
    ensures cs[i].nodes[a].log[k].index == k + 1
    ensures 1 <= cs[i].nodes[a].log[k].term <= cs[i].nodes[a].log[l].term <= cs[i].nodes[a].term
  {
    RunInv(cs, i);
    var n := cs[i].nodes[a];
    assert NodeLog(cs[i].reigns, n);
    TermsBounded(cs[i], n, l);
    assert Genuine(cs[i].reigns, n.log, l) && Genuine(cs[i].reigns, n.log, k);
    var t := n.log[l].term;
    assert ReignLog(cs[i].reigns, t, cs[i].reigns[t]);
    assert n.log[..l + 1][k] == cs[i].reigns[t].log[..l + 1][k];
    assert ReignHolds(cs[i], n.log[k].term, cs[i].reigns[n.log[k].term]);
  }

  /** Leader completeness: whatever some server counts as committed is in the log of everybody who leads in a
      later term, at any moment of the run, and from that moment on of whoever leads in the same term. */
  lemma CommittedInLaterLeaders(cs: seq<Cluster>, i: nat, a: NodeId, j: nat, b: NodeId)
    requires IsRun(cs) && i < |cs| && j < |cs| && a < |cs[i].nodes| && b < |cs[j].nodes|
    requires cs[j].nodes[b].role == Leader
    requires cs[j].nodes[b].term > cs[i].nodes[a].term || (i <= j && cs[j].nodes[b].term == cs[i].nodes[a].term)
    ensures var c := cs[i].nodes[a].commit;
            && c <= |cs[i].nodes[a].log| && c <= |cs[j].nodes[b].log|
            && cs[i].nodes[a].log[..c] == cs[j].nodes[b].log[..c]
  {
    if cs[j].nodes[b].term > cs[i].nodes[a].term {
      CommittedInLaterTerm(cs, i, a, j, b);
    } else {
      CommittedInSameTerm(cs, i, a, j, b);
    }
  }

  lemma CommittedInLaterTerm(cs: seq<Cluster>, i: nat, a: NodeId, j: nat, b: NodeId)
    requires IsRun(cs) && i < |cs| && j < |cs| && a < |cs[i].nodes| && b < |cs[j].nodes|
    requires cs[j].nodes[b].role == Leader && cs[j].nodes[b].term > cs[i].nodes[a].term
    ensures var c := cs[i].nodes[a].commit;
            && c <= |cs[i].nodes[a].log| && c <= |cs[j].nodes[b].log|
            && cs[i].nodes[a].log[..c] == cs[j].nodes[b].log[..c]
  {
    RunInv(cs, i);
    RunInv(cs, j);
    var n, l := cs[i].nodes[a], cs[j].nodes[b];
    assert CommitOk(cs[i], n) && NodeLog(cs[j].reigns, l) && ReignLog(cs[j].reigns, l.term, cs[j].reigns[l.term]);
    var k := if i <= j then j else i;
    RunInv(cs, k);
    RunGrows(cs, i, k);
    RunGrows(cs, j, k);
    DecidedGrows(cs[i].reigns, cs[k].reigns, cs[i].decisions, cs[k].decisions, n.term, n.term, n.log, n.log, n.commit);
    if n.commit > 0 {
      DecidedInLaterReign(cs[k], n.term, n.log, n.commit, l.term);
      var full := cs[k].reigns[l.term].log;
      assert l.log <= full && cs[k].reigns[l.term].base < |l.log|;
      assert l.log[..n.commit] == full[..n.commit];
    }
  }

  lemma CommittedInSameTerm(cs: seq<Cluster>, i: nat, a: NodeId, j: nat, b: NodeId)
    requires IsRun(cs) && i <= j < |cs| && a < |cs[i].nodes| && b < |cs[j].nodes|
    requires cs[j].nodes[b].role == Leader && cs[j].nodes[b].term == cs[i].nodes[a].term
    ensures var c := cs[i].nodes[a].commit;
            && c <= |cs[i].nodes[a].log| && c <= |cs[j].nodes[b].log|
            && cs[i].nodes[a].log[..c] == cs[j].nodes[b].log[..c]
  {
    RunInv(cs, i);
    RunInv(cs, j);
    var n, l := cs[i].nodes[a], cs[j].nodes[b];
    assert CommitOk(cs[i], n) && NodeLog(cs[j].reigns, l);
    RunGrows(cs, i, j);
    DecidedGrows(cs[i].reigns, cs[j].reigns, cs[i].decisions, cs[j].decisions, n.term, n.term, n.log, n.log, n.commit);
    if n.commit > 0 {
      DecidedInLeader(cs[j], n.term, n.log, n.commit);
    }
  }

  lemma DecidedInLaterReign(c: Cluster, term: nat, log: seq<Entry>, commit: nat, t: nat)
    requires Inv(c) && commit > 0 && Decided(c.reigns, c.decisions, term, log, commit)
    requires t in c.reigns && t > term
    ensures commit <= |log| && commit <= c.reigns[t].base < |c.reigns[t].log|
    ensures log[..commit] == c.reigns[t].log[..commit]
  {
    var d :| d in c.decisions && d.term <= term && d.term in c.reigns && commit <= d.index && commit <= |log|
             && commit <= |c.reigns[d.term].log| && log[..commit] == c.reigns[d.term].log[..commit];
    assert DecisionOk(c, d);
    LeaderCompleteness(c, d, t);
    assert c.reigns[t].log[..commit] == c.reigns[t].log[..d.index][..commit];
    assert c.reigns[d.term].log[..commit] == c.reigns[d.term].log[..d.index][..commit];
  }

  /** State machine safety: no two servers ever apply different entries at the same index, and neither does one
      server before and after a crash. */
  lemma StateMachineSafety(cs: seq<Cluster>, i: nat, j: nat, x: Application, y: Application)
    requires IsRun(cs) && i < |cs| && j < |cs|
    requires x in cs[i].applications && y in cs[j].applications && x.index == y.index
    ensures x.entry == y.entry
  {
    var k := if i <= j then j else i;
    RunInv(cs, k);
    RunGrows(cs, i, k);
    RunGrows(cs, j, k);
    AppliedTheSame(cs[k], x, y);
  }

  lemma AppliedTheSame(c: Cluster, x: Application, y: Application)
    requires Inv(c) && x in c.applications && y in c.applications && x.index == y.index
    ensures x.entry == y.entry
  {
    assert ApplicationOk(c, x) && ApplicationOk(c, y);
    var dx :| dx in c.decisions && dx.term in c.reigns && 1 <= x.index <= dx.index
              && x.index <= |c.reigns[dx.term].log| && x.entry == c.reigns[dx.term].log[x.index - 1];
    var dy :| dy in c.decisions && dy.term in c.reigns && 1 <= y.index <= dy.index
              && y.index <= |c.reigns[dy.term].log| && y.entry == c.reigns[dy.term].log[y.index - 1];
    if dx.term < dy.term {
      SameDecidedEntry(c, dx, dy.term, x.index);
    } else if dy.term < dx.term {
      SameDecidedEntry(c, dy, dx.term, x.index);
    }
  }

  lemma SameDecidedEntry(c: Cluster, d: Decision, t: nat, index: nat)
    requires Inv(c) && d in c.decisions && d.term in c.reigns && t in c.reigns && d.term < t
    requires 1 <= index <= d.index
    ensures index <= |c.reigns[t].log| && index <= |c.reigns[d.term].log|
    ensures c.reigns[t].log[index - 1] == c.reigns[d.term].log[index - 1]
  {
    assert DecisionOk(c, d);
    LeaderCompleteness(c, d, t);
    assert c.reigns[t].log[..d.index][index - 1] == c.reigns[d.term].log[..d.index][index - 1];
  }

  // -------------------------------------- what a follower reports is the truth

  lemma LeadersLogIsReign(c: Cluster, l: NodeId)
    requires Shape(c) && ElectionInv(c) && LogInv(c) && l < |c.nodes| && c.nodes[l].role == Leader
    ensures c.nodes[l].term in c.reigns && c.reigns[c.nodes[l].term].leader == l
    ensures c.reigns[c.nodes[l].term].log == c.nodes[l].log
  {
    assert NodeLog(c.reigns, c.nodes[l]);
  }

  lemma ReignsUntouched(c: Cluster, a: Action)
    requires Shape(c) && Enabled(c, a) && !a.Timeout? && !a.Tally? && !a.Submit?
    ensures Perform(c, a).reigns == c.reigns
  {
  }

  lemma ReignChange(c: Cluster, a: Action, t: nat)
    requires Shape(c) && Enabled(c, a)
    requires Shape(Perform(c, a)) && ElectionInv(Perform(c, a)) && LogInv(Perform(c, a))
    requires t in Perform(c, a).reigns && (t !in c.reigns || Perform(c, a).reigns[t] != c.reigns[t])
    ensures var c' := Perform(c, a); var l := c'.reigns[t].leader;
            && l < |c'.nodes| && c'.nodes[l].role == Leader && c'.nodes[l].term == t
  {
    match a
    case Timeout(i) => LeadersLogIsReign(Perform(c, a), i);
    case Tally(i) => LeadersLogIsReign(Perform(c, a), i);
    case Submit(i, data) => LeadersLogIsReign(Perform(c, a), i);
    case _ => ReignsUntouched(c, a);
  }

  /** The logs kept in the history are logs that a leader of that term really had. */
  lemma {:induction false} ReignIsReal(cs: seq<Cluster>, k: nat, t: nat) returns (i: nat)
    requires IsRun(cs) && k < |cs| && t in cs[k].reigns
    ensures i <= k
    ensures var l := cs[k].reigns[t].leader;
            && l < |cs[i].nodes| && cs[i].nodes[l].role == Leader && cs[i].nodes[l].term == t
            && cs[i].nodes[l].log == cs[k].reigns[t].log
    decreases k
  {
    if t in cs[k - 1].reigns && cs[k - 1].reigns[t] == cs[k].reigns[t] {
      i := ReignIsReal(cs, k - 1, t);
    } else {
      i := k;
      ReignIsNew(cs, k, t);
    }
  }

  lemma ReignIsNew(cs: seq<Cluster>, k: nat, t: nat)
    requires IsRun(cs) && 0 < k < |cs| && t in cs[k].reigns
    requires t !in cs[k - 1].reigns || cs[k - 1].reigns[t] != cs[k].reigns[t]
    ensures var l := cs[k].reigns[t].leader;
            && l < |cs[k].nodes| && cs[k].nodes[l].role == Leader && cs[k].nodes[l].term == t
            && cs[k].nodes[l].log == cs[k].reigns[t].log
  {
    RunInv(cs, k);
    assert NextAt(cs, k - 1);
    ReignStep(cs[k - 1], cs[k], t);
  }

  lemma ReignStep(c: Cluster, c': Cluster, t: nat)
    requires Next(c, c') && Shape(c') && ElectionInv(c') && LogInv(c')
    requires t in c'.reigns && (t !in c.reigns || c'.reigns[t] != c.reigns[t])
    ensures var l := c'.reigns[t].leader;
            && l < |c'.nodes| && c'.nodes[l].role == Leader && c'.nodes[l].term == t
            && c'.nodes[l].log == c'.reigns[t].log
  {
    var a :| Enabled(c, a) && c' == Perform(c, a);
    ReignChange(c, a, t);
    LeadersLogIsReign(c', c'.reigns[t].leader);
  }

  /** Follower prefix: whenever a server accepts an AppendEntries of term T, fresh, old or duplicated, its whole
      log is then a piece of a log that the leader of T had, it ends with an entry of T, and the reported index
      is its length.  So the report is a true match index. */
  lemma FollowerPrefix(cs: seq<Cluster>, k: nat, m: Message) returns (i: nat)
    requires IsRun(cs) && k < |cs| && m in cs[k].net && m.AppendRequest? && m.dst < |cs[k].nodes|
    requires HandleAppendEntries(cs[k].nodes[m.dst], m.src, m.term, m.prevIndex, m.prevTerm, m.entries,
                                 m.commit).success
    ensures var o := HandleAppendEntries(cs[k].nodes[m.dst], m.src, m.term, m.prevIndex, m.prevTerm, m.entries,
                                         m.commit);
            && i <= k && m.src < |cs[i].nodes|
            && cs[i].nodes[m.src].role == Leader && cs[i].nodes[m.src].term == m.term
            && o.node.log <= cs[i].nodes[m.src].log
            && LastTerm(o.node.log) == m.term
            && o.lastIndex == |o.node.log|
  {
    RunInv(cs, k);
    var c := cs[k];
    assert MessageOk(c, m);
    i := ReignIsReal(cs, k, m.term);
    var n := StepDown(c.nodes[m.dst], m.term);
    assert NodeLog(c.reigns, c.nodes[m.dst]);
    assert NodeLog(c.reigns, n.(role := Follower));
    StoredIsPrefix(c, n.(role := Follower), m);
  }

  // -------------------------------------------------- committed entries stay

  /** No step removes or changes an entry of a decided prefix. */
  lemma DecidedPrefixKept(c: Cluster, a: Action, x: NodeId, len: nat)
    requires Inv(c) && Enabled(c, a) && x < |c.nodes| && len > 0
    requires Decided(c.reigns, c.decisions, c.nodes[x].term, c.nodes[x].log, len)
    ensures var log, log' := c.nodes[x].log, Perform(c, a).nodes[x].log;
            len <= |log| && len <= |log'| && log'[..len] == log[..len]
  {
    if a.OnAppendRequest? && a.m.dst == x {
      StoringKeepsDecided(c, a.m, len);
    } else {
      LogsOnlyGrow(c, a, x);
      DecidedFits(c.reigns, c.decisions, c.nodes[x].term, c.nodes[x].log, len);
    }
  }

  lemma DecidedFits(reigns: map<nat, Reign>, ds: set<Decision>, term: nat, log: seq<Entry>, len: nat)
    requires len > 0 && Decided(reigns, ds, term, log, len)
    ensures len <= |log|
  {
  }

  lemma ElectionLogsGrow(c: Cluster, a: Action, x: NodeId)
    requires Shape(c) && Enabled(c, a) && x < |c.nodes|
    requires a.Timeout? || a.AskVote? || a.OnVoteRequest? || a.OnVoteReply? || a.Tally? || a.Crash?
    ensures c.nodes[x].log <= Perform(c, a).nodes[x].log
  {
    if a.AskVote? || a.OnVoteRequest? || a.OnVoteReply? {
      VotingKeepsLogs(c, a, x);
    }
  }

  lemma VotingKeepsLogs(c: Cluster, a: Action, x: NodeId)
    requires Shape(c) && Enabled(c, a) && x < |c.nodes| && (a.AskVote? || a.OnVoteRequest? || a.OnVoteReply?)
    ensures c.nodes[x].log == Perform(c, a).nodes[x].log
  {
  }

  lemma ReplicationLogsGrow(c: Cluster, a: Action, x: NodeId)
    requires Shape(c) && Enabled(c, a) && x < |c.nodes|
    requires a.Submit? || a.Replicate? || a.OnAppendReply? || a.Commit? || a.Apply?
          || (a.OnAppendRequest? && a.m.dst != x)
    ensures c.nodes[x].log <= Perform(c, a).nodes[x].log
  {
  }

  lemma LogsOnlyGrow(c: Cluster, a: Action, x: NodeId)
    requires Shape(c) && Enabled(c, a) && x < |c.nodes|
    requires !(a.OnAppendRequest? && a.m.dst == x)
    ensures c.nodes[x].log <= Perform(c, a).nodes[x].log
  {
    if a.Submit? || a.Replicate? || a.OnAppendReply? || a.Commit? || a.Apply? || a.OnAppendRequest? {
      ReplicationLogsGrow(c, a, x);
    } else {
      ElectionLogsGrow(c, a, x);
    }
  }

  lemma StoringKeepsDecided(c: Cluster, m: Message, len: nat)
    requires Inv(c) && m in c.net && m.AppendRequest? && len > 0
    requires Decided(c.reigns, c.decisions, c.nodes[m.dst].term, c.nodes[m.dst].log, len)
    ensures var n := c.nodes[m.dst];
            var n' := HandleAppendEntries(n, m.src, m.term, m.prevIndex, m.prevTerm, m.entries, m.commit).node;
            len <= |n.log| && len <= |n'.log| && n'.log[..len] == n.log[..len]
  {
    var n := c.nodes[m.dst];
    var n1 := StepDown(n, m.term).(role := Follower);
    assert MessageOk(c, m) && NodeLog(c.reigns, n);
    if HandleAppendEntries(n, m.src, m.term, m.prevIndex, m.prevTerm, m.entries, m.commit).success {
      assert NodeLog(c.reigns, n1);
      DecidedGrows(c.reigns, c.reigns, c.decisions, c.decisions, n.term, n1.term, n.log, n.log, len);
      DecidedInLeader(c, n1.term, n.log, len);
      StoredIsPrefix(c, n1, m);
    }
  }

  lemma DecidedPrefixNext(cs: seq<Cluster>, k: nat, x: NodeId, len: nat)
    requires IsRun(cs) && k + 1 < |cs| && x < |cs[k].nodes| == |cs[k + 1].nodes| && len > 0
    requires Decided(cs[k].reigns, cs[k].decisions, cs[k].nodes[x].term, cs[k].nodes[x].log, len)
    ensures len <= |cs[k].nodes[x].log| && len <= |cs[k + 1].nodes[x].log|
    ensures cs[k + 1].nodes[x].log[..len] == cs[k].nodes[x].log[..len]
  {
    RunInv(cs, k);
    assert NextAt(cs, k);
    var c, c' := cs[k], cs[k + 1];
    var a :| Enabled(c, a) && c' == Perform(c, a);
    DecidedPrefixKept(c, a, x, len);
  }

  lemma {:induction false} DecidedPrefixStays(cs: seq<Cluster>, i: nat, j: nat, x: NodeId, len: nat)
    requires IsRun(cs) && i <= j < |cs| && x < |cs[i].nodes| && len > 0
    requires Decided(cs[i].reigns, cs[i].decisions, cs[i].nodes[x].term, cs[i].nodes[x].log, len)
    ensures |cs[j].nodes| == |cs[i].nodes|
    ensures len <= |cs[i].nodes[x].log| && len <= |cs[j].nodes[x].log|
    ensures cs[j].nodes[x].log[..len] == cs[i].nodes[x].log[..len]
    decreases j
  {
    if i < j {
      DecidedPrefixStays(cs, i, j - 1, x, len);
      RunGrows(cs, i, j - 1);
      StepGrows(cs, j - 1);
      var c := cs[j - 1];
      DecidedGrows(cs[i].reigns, c.reigns, cs[i].decisions, c.decisions,
                   cs[i].nodes[x].term, c.nodes[x].term, cs[i].nodes[x].log, c.nodes[x].log, len);
      DecidedPrefixNext(cs, j - 1, x, len);
    }
  }

  /** What a server once counted as committed stays in its log for good, across crashes and new leaders. */
  lemma CommittedEntriesStay(cs: seq<Cluster>, i: nat, j: nat, x: NodeId)
    requires IsRun(cs) && i <= j < |cs| && x < |cs[i].nodes|
    ensures x < |cs[j].nodes|
    ensures var len := cs[i].nodes[x].commit;
            && len <= |cs[i].nodes[x].log| && len <= |cs[j].nodes[x].log|
            && cs[j].nodes[x].log[..len] == cs[i].nodes[x].log[..len]
  {
    RunInv(cs, i);
    RunGrows(cs, i, j);
    assert CommitOk(cs[i], cs[i].nodes[x]);
    if cs[i].nodes[x].commit > 0 {
      DecidedPrefixStays(cs, i, j, x, cs[i].nodes[x].commit);
    }
  }
}
