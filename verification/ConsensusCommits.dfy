/** When the commits of a run lie on one chain: there is no lock rule, so it depends on what certificates build on. */
module ConsensusCommits {
  import opened Common
  import opened Staking
  import opened Consensus
  import opened ConsensusTheorems

  // -------- the tree of blocks --------

  /** Blocks are filed under their ids over a first block that is its own parent, and a commit is of a known block. */
  ghost predicate Tree(cfg: Config, s: State) {
    && Chained(cfg, s) && s.blocks[GENESIS].prop.parent == GENESIS
    && (forall id | id in s.blocks :: s.blocks[id].id == id)
    && (s.committed.Some? ==> s.committed.value.id in s.blocks)
  }

  function Rank(s: State, b: BlockId): nat {
    if b == GENESIS || b !in s.blocks then 0 else s.blocks[b].prop.height + 1
  }

  /** `a` is `b` or one of the blocks below it. */
  predicate Descends(cfg: Config, s: State, b: BlockId, a: BlockId)
    requires Chained(cfg, s)
    decreases Rank(s, b)
  {
    b == a || (b in s.blocks && b != GENESIS && Descends(cfg, s, s.blocks[b].prop.parent, a))
  }

  predicate Below(cfg: Config, s: State, b: BlockId, a: BlockId) {
    Chained(cfg, s) && Descends(cfg, s, b, a)
  }

  predicate OnOneChain(cfg: Config, s: State, a: BlockId, b: BlockId) {
    Below(cfg, s, a, b) || Below(cfg, s, b, a)
  }

  lemma {:induction false} DescendsOn(cfg: Config, s: State, c: BlockId, b: BlockId, a: BlockId)
    requires Chained(cfg, s) && Descends(cfg, s, c, b) && Descends(cfg, s, b, a)
    ensures Descends(cfg, s, c, a)
    decreases Rank(s, c)
  {
    if c != b {
      DescendsOn(cfg, s, s.blocks[c].prop.parent, b, a);
    }
  }

  /** What lies below one block is a chain. */
  lemma {:induction false} BelowIsAChain(cfg: Config, s: State, c: BlockId, a: BlockId, b: BlockId)
    requires Chained(cfg, s) && Descends(cfg, s, c, a) && Descends(cfg, s, c, b)
    ensures Descends(cfg, s, a, b) || Descends(cfg, s, b, a)
    decreases Rank(s, c)
  {
    if c != a && c != b {
      BelowIsAChain(cfg, s, s.blocks[c].prop.parent, a, b);
    }
  }

  /** A block is on one chain with what lies below another exactly when the other is built on it, or it goes below. */
  lemma OnOneChainIff(cfg: Config, s: State, h: BlockId, g: BlockId, a: BlockId)
    requires Chained(cfg, s) && Descends(cfg, s, h, g)
    ensures OnOneChain(cfg, s, a, g) <==> Below(cfg, s, h, a) || Below(cfg, s, a, g)
  {
    if Descends(cfg, s, g, a) {
      DescendsOn(cfg, s, h, g, a);
    }
    if Descends(cfg, s, h, a) {
      BelowIsAChain(cfg, s, h, a, g);
    }
  }

  /** More blocks do not change what lies below a known one. */
  lemma {:induction false} DescendsStays(cfg: Config, s: State, s': State, b: BlockId, a: BlockId)
    requires Chained(cfg, s) && Chained(cfg, s') && KeepsProposals(s, s') && b in s.blocks
    ensures Descends(cfg, s, b, a) <==> Descends(cfg, s', b, a)
    decreases Rank(s, b)
  {
    if b != a && b != GENESIS {
      DescendsStays(cfg, s, s', s.blocks[b].prop.parent, a);
    }
  }

  // -------- one event --------

  lemma NextKeepsProposals(cfg: Config, s: State, e: Event)
    requires IdsAreHashes(cfg) && Chained(cfg, s)
    ensures KeepsProposals(s, Next(cfg, s, e))
  {
    hide HasQuorum, CountedVoters, Slash, TryCommit;
    if e.CastVote? && Admitted(cfg, e.halted, s, e.v) && !Equivocates(s, e.v) {
      var qc := Certificate(cfg, Recorded(s, e.v), e.v.block, e.v.round);
      if qc.Some? {
        CommitTouches(cfg, Install(Recorded(s, e.v), qc.value));
      }
    }
  }

  /** A certificate for `h` commits `g`: three generations of certified blocks, the first block its own parent. */
  predicate Commits(s: State, h: BlockId, g: BlockId) {
    && QcOf(s, h).Some? && QcOf(s, s.blocks[h].prop.parent).Some?
    && g == s.blocks[s.blocks[h].prop.parent].prop.parent && QcOf(s, g).Some?
  }

  lemma CommitsBelow(cfg: Config, s: State, h: BlockId, g: BlockId)
    requires Tree(cfg, s) && Commits(s, h, g)
    ensures Descends(cfg, s, h, g)
  {
    var parent := s.blocks[h].prop.parent;
    assert Descends(cfg, s, parent, g);
  }

  /** What two certified blocks commit is on one chain exactly when one of them is built on what the other commits. */
  lemma CommitsAgreeIff(cfg: Config, s: State, h1: BlockId, g1: BlockId, h2: BlockId, g2: BlockId)
    requires Tree(cfg, s) && Commits(s, h1, g1) && Commits(s, h2, g2)
    ensures OnOneChain(cfg, s, g1, g2) <==> Below(cfg, s, h2, g1) || Below(cfg, s, h1, g2)
  {
    CommitsBelow(cfg, s, h1, g1);
    CommitsBelow(cfg, s, h2, g2);
    OnOneChainIff(cfg, s, h2, g2, g1);
    OnOneChainIff(cfg, s, h1, g1, g2);
    if Descends(cfg, s, g1, g2) {
      DescendsOn(cfg, s, h1, g1, g2);
    }
  }

  /** The block that a change of the commit is about. */
  lemma ChangeIsACommit(cfg: Config, s: State, e: Event)
    requires Tree(cfg, s) && Next(cfg, s, e).committed != s.committed
    ensures var next := Next(cfg, s, e);
      && next.committed.Some? && next.highQc.Some? && Commits(next, next.highQc.value.block, next.committed.value.id)
      && e.CastVote?
  {
    hide HasQuorum, CountedVoters, Slash, Chained;
    var r := Recorded(s, e.v);
    var qc := Certificate(cfg, r, e.v.block, e.v.round);
    CommitTouches(cfg, Install(r, qc.value));
  }

  lemma NextKeepsTree(cfg: Config, s: State, e: Event)
    requires IdsAreHashes(cfg) && Tree(cfg, s) && CommitCertified(s)
    ensures Tree(cfg, Next(cfg, s, e)) && CommitCertified(Next(cfg, s, e))
  {
    hide HasQuorum, CountedVoters, Slash, TryCommit, Chained;
    NextKeepsChain(cfg, s, e);
    NextKeepsProposals(cfg, s, e);
    GenesisKnown(cfg, s);
    var next := Next(cfg, s, e);
    if e.CastVote? && Admitted(cfg, e.halted, s, e.v) && !Equivocates(s, e.v) {
      var qc := Certificate(cfg, Recorded(s, e.v), e.v.block, e.v.round);
      if qc.Some? {
        CommitTouches(cfg, Install(Recorded(s, e.v), qc.value));
      }
    }
    if next.committed != s.committed {
      ChangeIsACommit(cfg, s, e);
    }
  }

  lemma GenesisKnown(cfg: Config, s: State)
    requires Chained(cfg, s)
    ensures GENESIS in s.blocks
  {
  }

  /** The newly certified block is built on `known`, or `known` on what is now committed. */
  predicate BuiltOn(cfg: Config, next: State, known: BlockId)
    requires next.highQc.Some? && next.committed.Some?
  {
    Below(cfg, next, next.highQc.value.block, known) || Below(cfg, next, known, next.committed.value.id)
  }

  /** An event that changes the commit: the new one is on one chain with a known block exactly when it builds on it. */
  lemma CommitAgreesIff(cfg: Config, s: State, e: Event, known: BlockId)
    requires IdsAreHashes(cfg) && Tree(cfg, s) && CommitCertified(s)
    requires known in s.blocks && Next(cfg, s, e).committed != s.committed
    ensures var next := Next(cfg, s, e);
      && next.committed.Some? && next.highQc.Some? && next.committed.value.id in next.blocks
      && (OnOneChain(cfg, next, known, next.committed.value.id) <==> BuiltOn(cfg, next, known))
  {
    hide Next, Chained;
    var next := Next(cfg, s, e);
    ChangeIsACommit(cfg, s, e);
    NextKeepsTree(cfg, s, e);
    var h, g := next.highQc.value.block, next.committed.value.id;
    CommitsBelow(cfg, next, h, g);
    OnOneChainIff(cfg, next, h, g, known);
  }

  // -------- runs --------

  lemma {:induction false} RunKeepsTree(cfg: Config, ledger: Ledger, events: seq<Event>)
    requires IdsAreHashes(cfg)
    ensures Tree(cfg, After(cfg, ledger, events)) && CommitCertified(After(cfg, ledger, events))
  {
    hide Next, Tree;
    if events != [] {
      RunKeepsTree(cfg, ledger, events[..|events| - 1]);
      NextKeepsTree(cfg, After(cfg, ledger, events[..|events| - 1]), events[|events| - 1]);
    } else {
      StartIsTree(cfg, ledger);
    }
  }

  lemma StartIsTree(cfg: Config, ledger: Ledger)
    ensures Tree(cfg, Start(ledger))
  {
  }

  /** Every block that a run has had as its commit, at whatever time. */
  ghost function AllCommits(cfg: Config, ledger: Ledger, events: seq<Event>): set<BlockId> {
    if events == [] then {}
    else
      var c := After(cfg, ledger, events).committed;
      AllCommits(cfg, ledger, events[..|events| - 1]) + if c.Some? then {c.value.id} else {}
  }

  lemma {:induction false} CommitsAreKnown(cfg: Config, ledger: Ledger, events: seq<Event>)
    requires IdsAreHashes(cfg)
    ensures forall id | id in AllCommits(cfg, ledger, events) :: id in After(cfg, ledger, events).blocks
  {
    if events != [] {
      hide Next, Chained;
      var front, e := events[..|events| - 1], events[|events| - 1];
      CommitsAreKnown(cfg, ledger, front);
      RunKeepsTree(cfg, ledger, front);
      RunKeepsTree(cfg, ledger, events);
      NextKeepsProposals(cfg, After(cfg, ledger, front), e);
    }
  }

  lemma {:induction false} CurrentIsACommit(cfg: Config, ledger: Ledger, events: seq<Event>)
    ensures After(cfg, ledger, events).committed.Some? ==>
      After(cfg, ledger, events).committed.value.id in AllCommits(cfg, ledger, events)
  {
  }

  lemma {:induction false} CommitsStay(cfg: Config, ledger: Ledger, events: seq<Event>, more: seq<Event>)
    ensures AllCommits(cfg, ledger, events) <= AllCommits(cfg, ledger, events + more)
    decreases |more|
  {
    if more == [] {
      assert events + more == events;
    } else {
      CommitsStay(cfg, ledger, events, more[..|more| - 1]);
      assert (events + more)[..|events + more| - 1] == events + more[..|more| - 1];
    }
  }

  ghost predicate CommitsOnOneChain(cfg: Config, ledger: Ledger, events: seq<Event>) {
    forall a, b | a in AllCommits(cfg, ledger, events) && b in AllCommits(cfg, ledger, events) ::
      OnOneChain(cfg, After(cfg, ledger, events), a, b)
  }

  /** Whether event `n` changes the commit. */
  ghost predicate Changes(cfg: Config, ledger: Ledger, events: seq<Event>, n: nat)
    requires n < |events|
  {
    After(cfg, ledger, events[..n + 1]).committed != After(cfg, ledger, events[..n]).committed
  }

  /** At event `n` the certified block builds on every earlier commit, or an earlier commit on the new one. */
  ghost predicate BuildsOnCommits(cfg: Config, ledger: Ledger, events: seq<Event>, n: nat)
    requires n < |events|
  {
    var next := After(cfg, ledger, events[..n + 1]);
    && next.highQc.Some? && next.committed.Some?
    && forall known | known in AllCommits(cfg, ledger, events[..n]) :: BuiltOn(cfg, next, known)
  }

  /**
   All commits of a run lie on one chain exactly when each event that changes the commit certifies a block built on
   every earlier commit, or goes back below it.
   */
  lemma {:induction false} CommitsOnOneChainIff(cfg: Config, ledger: Ledger, events: seq<Event>)
    requires IdsAreHashes(cfg)
    ensures CommitsOnOneChain(cfg, ledger, events) <==>
      forall n | 0 <= n < |events| && Changes(cfg, ledger, events, n) :: BuildsOnCommits(cfg, ledger, events, n)
  {
    hide Next, After, AllCommits, BuildsOnCommits, Changes, CommitsOnOneChain, IdsAreHashes;
    if events == [] {
      NoCommitsYet(cfg, ledger);
    } else {
      var k := |events| - 1;
      var front := events[..k];
      CommitsOnOneChainIff(cfg, ledger, front);
      OneMore(cfg, ledger, front, events[k]);
      assert events == front + [events[k]] && events[..k + 1] == events;
      forall n | 0 <= n < k
        ensures Changes(cfg, ledger, events, n) == Changes(cfg, ledger, front, n)
        ensures BuildsOnCommits(cfg, ledger, events, n) == BuildsOnCommits(cfg, ledger, front, n)
      {
        SamePrefix(cfg, ledger, front, events[k], n);
      }
    }
  }

  lemma NoCommitsYet(cfg: Config, ledger: Ledger)
    ensures CommitsOnOneChain(cfg, ledger, [])
  {
  }

  lemma SamePrefix(cfg: Config, ledger: Ledger, front: seq<Event>, e: Event, n: nat)
    requires n < |front|
    ensures Changes(cfg, ledger, front + [e], n) == Changes(cfg, ledger, front, n)
    ensures BuildsOnCommits(cfg, ledger, front + [e], n) == BuildsOnCommits(cfg, ledger, front, n)
  {
    hide After, AllCommits, BuiltOn;
    assert (front + [e])[..n] == front[..n] && (front + [e])[..n + 1] == front[..n + 1];
  }

  lemma OneMore(cfg: Config, ledger: Ledger, front: seq<Event>, e: Event)
    requires IdsAreHashes(cfg)
    ensures CommitsOnOneChain(cfg, ledger, front + [e]) <==>
      && CommitsOnOneChain(cfg, ledger, front)
      && (Changes(cfg, ledger, front + [e], |front|) ==> BuildsOnCommits(cfg, ledger, front + [e], |front|))
  {
    hide Next, Chained, IdsAreHashes, Tree;
    var events := front + [e];
    assert events[..|front|] == front && events[..|front| + 1] == events;
    var s, next := After(cfg, ledger, front), After(cfg, ledger, events);
    assert next == Next(cfg, s, e);
    RunKeepsTree(cfg, ledger, front);
    RunKeepsTree(cfg, ledger, events);
    CommitsAreKnown(cfg, ledger, front);
    CurrentIsACommit(cfg, ledger, front);
    var known := AllCommits(cfg, ledger, front);
    SameChains(cfg, s, next, e, known);
    if next.committed != s.committed {
      Grown(cfg, s, e, known);
    }
  }

  /** What holds between known blocks before an event holds after it. */
  lemma SameChains(cfg: Config, s: State, next: State, e: Event, known: set<BlockId>)
    requires IdsAreHashes(cfg) && Tree(cfg, s) && CommitCertified(s) && next == Next(cfg, s, e)
    requires forall a | a in known :: a in s.blocks
    ensures forall a, b | a in known && b in known :: OnOneChain(cfg, s, a, b) <==> OnOneChain(cfg, next, a, b)
  {
    hide Next, Chained, IdsAreHashes, Descends;
    NextKeepsTree(cfg, s, e);
    NextKeepsProposals(cfg, s, e);
    forall a, b | a in known && b in known ensures OnOneChain(cfg, s, a, b) <==> OnOneChain(cfg, next, a, b) {
      DescendsStays(cfg, s, next, a, b);
      DescendsStays(cfg, s, next, b, a);
    }
  }

  lemma Grown(cfg: Config, s: State, e: Event, known: set<BlockId>)
    requires IdsAreHashes(cfg) && Tree(cfg, s) && CommitCertified(s) && Next(cfg, s, e).committed != s.committed
    requires forall a | a in known :: a in s.blocks
    ensures var next := Next(cfg, s, e);
      && next.committed.Some? && next.highQc.Some?
      && OnOneChain(cfg, next, next.committed.value.id, next.committed.value.id)
      && (forall a | a in known :: OnOneChain(cfg, next, a, next.committed.value.id) <==> BuiltOn(cfg, next, a))
  {
    hide Next, Chained, IdsAreHashes, BuiltOn, Tree;
    var next := Next(cfg, s, e);
    NextKeepsTree(cfg, s, e);
    TreeIsChained(cfg, s);
    TreeIsChained(cfg, next);
    CommitAgreesIff(cfg, s, e, GENESIS);
    forall a | a in known ensures OnOneChain(cfg, next, a, next.committed.value.id) <==> BuiltOn(cfg, next, a) {
      CommitAgreesIff(cfg, s, e, a);
    }
  }

  lemma TreeIsChained(cfg: Config, s: State)
    requires Tree(cfg, s)
    ensures Chained(cfg, s) && GENESIS in s.blocks
  {
  }
}
