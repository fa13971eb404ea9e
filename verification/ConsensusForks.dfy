/** What the consensus core does not promise: certificates that are lost, and commits on two forks. */
module ConsensusForks {
  import opened Common
  import opened Sums
  import opened Staking
  import opened Consensus
  import opened ConsensusTheorems
  import opened ConsensusCommits

  // -------- losing a certificate --------

  /** The event is a proposal that is filed, and under this id. */
  predicate Files(cfg: Config, s: State, e: Event, id: BlockId) {
    && e.Propose? && cfg.proposalId(e.p) == id
    && !s.invalid && !e.halted && e.p.proposer == cfg.leader(s.ledger, e.p.round)
    && e.p.round >= s.lastProgress && Extends(s, e.p)
  }

  /** A certified block loses its certificate exactly when a proposal with its id is filed again. */
  lemma CertificateIsLostIff(cfg: Config, s: State, e: Event, id: BlockId)
    requires QcOf(s, id).Some?
    ensures QcOf(Next(cfg, s, e), id).None? <==> Files(cfg, s, e, id)
    ensures e.Propose? ==> (QcOf(Next(cfg, s, e), id) == QcOf(s, id) <==> !Files(cfg, s, e, id))
  {
    hide HasQuorum, CountedVoters, Slash, TryCommit;
    if e.CastVote? && Admitted(cfg, e.halted, s, e.v) && !Equivocates(s, e.v) {
      var qc := Certificate(cfg, Recorded(s, e.v), e.v.block, e.v.round);
      if qc.Some? {
        CommitTouches(cfg, Install(Recorded(s, e.v), qc.value));
      }
    }
  }

  /** The state after the first `n` of some more events. */
  ghost function At(cfg: Config, ledger: Ledger, events: seq<Event>, more: seq<Event>, n: nat): State
    requires n <= |more|
  {
    After(cfg, ledger, events + more[..n])
  }

  lemma AtNext(cfg: Config, ledger: Ledger, events: seq<Event>, more: seq<Event>, n: nat)
    requires n < |more|
    ensures At(cfg, ledger, events, more, n + 1) == Next(cfg, At(cfg, ledger, events, more, n), more[n])
  {
    assert events + more[..n + 1] == (events + more[..n]) + [more[n]];
    AfterAppend(cfg, ledger, events + more[..n], more[n]);
  }

  ghost predicate StaysCertified(cfg: Config, ledger: Ledger, events: seq<Event>, more: seq<Event>, id: BlockId) {
    forall n | 0 <= n <= |more| :: QcOf(At(cfg, ledger, events, more, n), id).Some?
  }

  ghost predicate NotFiledAgain(cfg: Config, ledger: Ledger, events: seq<Event>, more: seq<Event>, id: BlockId) {
    forall n | 0 <= n < |more| :: !Files(cfg, At(cfg, ledger, events, more, n), more[n], id)
  }

  /** Over a run: a certified block stays certified exactly as long as no proposal with its id is filed. */
  lemma StaysCertifiedIff(cfg: Config, ledger: Ledger, events: seq<Event>, more: seq<Event>, id: BlockId)
    requires QcOf(After(cfg, ledger, events), id).Some?
    ensures StaysCertified(cfg, ledger, events, more, id) <==> NotFiledAgain(cfg, ledger, events, more, id)
  {
    hide At, Next, Files, QcOf;
    if StaysCertified(cfg, ledger, events, more, id) {
      forall n | 0 <= n < |more| ensures !Files(cfg, At(cfg, ledger, events, more, n), more[n], id) {
        AtNext(cfg, ledger, events, more, n);
        CertificateIsLostIff(cfg, At(cfg, ledger, events, more, n), more[n], id);
        assert QcOf(At(cfg, ledger, events, more, n + 1), id).Some?;
      }
    }
    if NotFiledAgain(cfg, ledger, events, more, id) {
      forall n | 0 <= n <= |more| ensures QcOf(At(cfg, ledger, events, more, n), id).Some? {
        KeptSoFar(cfg, ledger, events, more, id, n);
      }
    }
  }

  lemma {:induction false} KeptSoFar(cfg: Config, ledger: Ledger, events: seq<Event>, more: seq<Event>, id: BlockId,
                                     n: nat)
    requires QcOf(After(cfg, ledger, events), id).Some? && NotFiledAgain(cfg, ledger, events, more, id) && n <= |more|
    ensures QcOf(At(cfg, ledger, events, more, n), id).Some?
  {
    hide Next, Files, After;
    if n == 0 {
      assert events + more[..0] == events;
    } else {
      KeptSoFar(cfg, ledger, events, more, id, n - 1);
      AtNext(cfg, ledger, events, more, n - 1);
      CertificateIsLostIff(cfg, At(cfg, ledger, events, more, n - 1), more[n - 1], id);
    }
  }

  // -------- one validator with enough stake --------

  /** One validator leads every round, signs anything, and holds enough for a certificate; rewards do not fail. */
  ghost predicate Solo(cfg: Config, ledger: Ledger, who: ValidatorId) {
    && IdsAreHashes(cfg) && cfg.blockReward == 0
    && (forall round :: cfg.leader(ledger, round) == who)
    && (forall round, block :: cfg.sign(who, round, block).Some?)
    && !IsSlashed(ledger, who) && Threshold(cfg, Wrap64(Total(ledger))) != 0
    && BondedOf(ledger, who) >= Threshold(cfg, Wrap64(Total(ledger)))
  }

  function Ballot(cfg: Config, p: Proposal, who: ValidatorId): Vote
    requires cfg.sign(who, p.round, cfg.proposalId(p)).Some?
  {
    Vote(p.round, cfg.proposalId(p), who, cfg.sign(who, p.round, cfg.proposalId(p)).value)
  }

  /** Nothing has been seen of the rounds after `round`. */
  ghost predicate Quiet(cfg: Config, ledger: Ledger, s: State, round: u64) {
    && !s.invalid && s.ledger == ledger && s.lastProgress <= round
    && s.highQc.Some? && s.highQc.value.round <= round
    && (forall r | r in s.votes :: r <= round)
    && forall p: Proposal | p.round > round :: cfg.proposalId(p) !in s.blocks && cfg.proposalId(p) !in s.sigs
  }

  lemma StartIsQuiet(cfg: Config, ledger: Ledger, who: ValidatorId)
    requires Solo(cfg, ledger, who)
    ensures Quiet(cfg, ledger, Start(ledger), 0)
  {
  }

  ghost function AfterRound(cfg: Config, s: State, p: Proposal, who: ValidatorId): State
    requires cfg.sign(who, p.round, cfg.proposalId(p)).Some?
  {
    Next(cfg, Next(cfg, s, Propose(false, p)), CastVote(false, Ballot(cfg, p, who)))
  }

  lemma LoneVoterCounts(cfg: Config, s: State, block: BlockId, who: ValidatorId)
    requires SigsOf(s, block).Keys == {who} && !IsSlashed(s.ledger, who)
    requires Threshold(cfg, Wrap64(Total(s.ledger))) != 0
      && BondedOf(s.ledger, who) >= Threshold(cfg, Wrap64(Total(s.ledger)))
    ensures HasQuorum(cfg, s, block)
  {
    hide Weight, Total, Threshold;
    assert CountedVoters(s, block) == {who};
    WeightOfNone(Stakes(s.ledger));
    WeightAdd(Stakes(s.ledger), {}, who);
    assert {} + {who} == {who};
    BondedIsStake(s.ledger, who);
  }

  /** A proposal and one vote later its block is certified, and its grandparent committed if all three are. */
  lemma RoundCertifies(cfg: Config, ledger: Ledger, s: State, round: u64, p: Proposal, who: ValidatorId)
    requires Solo(cfg, ledger, who) && Quiet(cfg, ledger, s, round) && p.round > round && p.proposer == who
      && Extends(s, p)
    ensures var next, id := AfterRound(cfg, s, p, who), cfg.proposalId(p);
      && Quiet(cfg, ledger, next, p.round)
      && next.blocks == s.blocks[id := Block(p, id, Some(QuorumCert(p.round, id, {who})))]
      && (p.parent != id && QcOf(s, p.parent).Some? && s.blocks[p.parent].prop.parent != id
          && QcOf(s, s.blocks[p.parent].prop.parent).Some? ==>
            next.committed == Some(s.blocks[s.blocks[p.parent].prop.parent]))
      && (QcOf(s, p.parent).None? && p.parent != id ==> next.committed == s.committed)
  {
    hide Weight, Total, Threshold, IdsAreHashes, HasQuorum;
    var id, v := cfg.proposalId(p), Ballot(cfg, p, who);
    var s1 := OnProposal(cfg, false, s, p);
    assert s1.blocks == s.blocks[id := Block(p, id, None)];
    var r := Recorded(s1, v);
    assert SigsOf(r, id).Keys == {who};
    LoneVoterCounts(cfg, r, id, who);
    assert CountedVoters(r, id) == {who} by { VoterHasStake(cfg, ledger, who); }
    var qc := QuorumCert(p.round, id, {who});
    assert Certificate(cfg, r, id, p.round) == Some(qc);
    var installed := Install(r, qc);
    assert installed.highQc == Some(qc);
    CommitTouches(cfg, installed);
    assert AfterRound(cfg, s, p, who) == TryCommit(cfg, installed);
    OtherRounds(cfg, p);
  }

  lemma VoterHasStake(cfg: Config, ledger: Ledger, who: ValidatorId)
    requires Solo(cfg, ledger, who)
    ensures BondedOf(ledger, who) > 0
  {
  }

  lemma OtherRounds(cfg: Config, p: Proposal)
    requires IdsAreHashes(cfg)
    ensures forall q: Proposal | q.round > p.round :: cfg.proposalId(q) != cfg.proposalId(p)
  {
  }

  function Round(cfg: Config, p: Proposal, who: ValidatorId): seq<Event>
    requires cfg.sign(who, p.round, cfg.proposalId(p)).Some?
  {
    [Propose(false, p), CastVote(false, Ballot(cfg, p, who))]
  }

  lemma RoundIsAfterRound(cfg: Config, ledger: Ledger, events: seq<Event>, p: Proposal, who: ValidatorId)
    requires cfg.sign(who, p.round, cfg.proposalId(p)).Some?
    ensures After(cfg, ledger, events + Round(cfg, p, who)) == AfterRound(cfg, After(cfg, ledger, events), p, who)
  {
    hide Next;
    var e, f := Propose(false, p), CastVote(false, Ballot(cfg, p, who));
    assert events + Round(cfg, p, who) == events + [e] + [f];
    AfterAppend(cfg, ledger, events, e);
    AfterAppend(cfg, ledger, events + [e], f);
  }

  // -------- two runs --------

  /** A run in which a certificate is lost: the leader sends its proposal a second time. */
  lemma CertificateCanBeLost(cfg: Config, ledger: Ledger, who: ValidatorId)
    returns (events: seq<Event>, again: Event, id: BlockId)
    requires Solo(cfg, ledger, who)
    ensures QcOf(After(cfg, ledger, events), id).Some? && QcOf(After(cfg, ledger, events + [again]), id).None?
  {
    hide After, Next, IdsAreHashes, Total, Threshold;
    var p := Proposal(1, 1, GENESIS, 0, who);
    id, again := cfg.proposalId(p), Propose(false, p);
    events := Round(cfg, p, who);
    StartIsQuiet(cfg, ledger, who);
    RoundCertifies(cfg, ledger, Start(ledger), 0, p, who);
    assert [] + events == events;
    RoundIsAfterRound(cfg, ledger, [], p, who);
    NothingYet(cfg, ledger);
    AfterAppend(cfg, ledger, events, again);
    GenesisStays(cfg, p, ledger);
    CertificateIsLostIff(cfg, After(cfg, ledger, events), again, id);
  }

  lemma NothingYet(cfg: Config, ledger: Ledger)
    ensures After(cfg, ledger, []) == Start(ledger)
  {
  }

  lemma GenesisStays(cfg: Config, p: Proposal, ledger: Ledger)
    requires IdsAreHashes(cfg)
    ensures cfg.proposalId(p) != GENESIS
    ensures GENESIS in Start(ledger).blocks && Start(ledger).blocks[GENESIS].prop.height == 0
  {
  }

  /** Three rounds on top of the first block, whatever came before them. */
  lemma Branch(cfg: Config, ledger: Ledger, events: seq<Event>, round: u64, who: ValidatorId)
    returns (more: seq<Event>, tip: Proposal)
    requires Solo(cfg, ledger, who) && Quiet(cfg, ledger, After(cfg, ledger, events), round) && round + 3 <= U64_MAX
    requires var s := After(cfg, ledger, events); GENESIS in s.blocks && s.blocks[GENESIS].prop.height == 0
    ensures Quiet(cfg, ledger, After(cfg, ledger, events + more), round + 3)
    ensures var s := After(cfg, ledger, events + more); GENESIS in s.blocks && s.blocks[GENESIS].prop.height == 0
    ensures tip.height == 1 && tip.parent == GENESIS && tip.round == round + 1
    ensures var c := After(cfg, ledger, events + more).committed;
      c.Some? && c.value.prop == tip && c.value.id == cfg.proposalId(tip)
    ensures NoRecovery(more) && VotesFromProposals(cfg, more)
  {
    hide After, Next, AfterRound, IdsAreHashes, Total, Threshold, Quiet, QcOf;
    var s := After(cfg, ledger, events);
    var p1 := Proposal(1, round + 1, GENESIS, 0, who);
    var p2 := Proposal(2, round + 2, cfg.proposalId(p1), 0, who);
    var p3 := Proposal(3, round + 3, cfg.proposalId(p2), 0, who);
    DifferentRounds(cfg, p1, p2, p3);
    var s1, s2 := AfterRound(cfg, s, p1, who), AfterRound(cfg, AfterRound(cfg, s, p1, who), p2, who);
    RoundCertifies(cfg, ledger, s, round, p1, who);
    RoundCertifies(cfg, ledger, s1, round + 1, p2, who);
    assert s2.blocks[p2.parent].prop == p1;
    CertifiedParents(s2, p1, p2, p3, cfg);
    RoundCertifies(cfg, ledger, s2, round + 2, p3, who);
    more, tip := Round(cfg, p1, who) + Round(cfg, p2, who) + Round(cfg, p3, who), p1;
    assert events + more == events + Round(cfg, p1, who) + Round(cfg, p2, who) + Round(cfg, p3, who);
    RoundIsAfterRound(cfg, ledger, events, p1, who);
    RoundIsAfterRound(cfg, ledger, events + Round(cfg, p1, who), p2, who);
    RoundIsAfterRound(cfg, ledger, events + Round(cfg, p1, who) + Round(cfg, p2, who), p3, who);
    forall i | 0 <= i < |more| && more[i].CastVote? ensures exists p :: FromProposal(cfg, p, more[i].v) {
      assert FromProposal(cfg, if i == 1 then p1 else if i == 3 then p2 else p3, more[i].v);
    }
  }

  lemma DifferentRounds(cfg: Config, p: Proposal, q: Proposal, r: Proposal)
    requires IdsAreHashes(cfg) && p.round < q.round < r.round
    ensures cfg.proposalId(p) != GENESIS && cfg.proposalId(q) != GENESIS && cfg.proposalId(r) != GENESIS
    ensures cfg.proposalId(p) != cfg.proposalId(q) && cfg.proposalId(q) != cfg.proposalId(r)
    ensures cfg.proposalId(p) != cfg.proposalId(r)
  {
  }

  lemma CertifiedParents(s: State, p: Proposal, q: Proposal, r: Proposal, cfg: Config)
    requires q.parent == cfg.proposalId(p) && r.parent == cfg.proposalId(q)
    requires cfg.proposalId(p) in s.blocks && s.blocks[cfg.proposalId(p)].qc.Some?
    requires cfg.proposalId(q) in s.blocks && s.blocks[cfg.proposalId(q)].qc.Some?
      && s.blocks[cfg.proposalId(q)].prop == q
    ensures QcOf(s, r.parent).Some? && QcOf(s, s.blocks[r.parent].prop.parent).Some?
  {
  }

  /** Two blocks on the first one are on different chains. */
  lemma TwoForks(cfg: Config, s: State, p: Proposal, q: Proposal)
    requires IdsAreHashes(cfg) && Tree(cfg, s) && p != q && p.parent == GENESIS == q.parent
    requires cfg.proposalId(p) in s.blocks && cfg.proposalId(q) in s.blocks
    ensures !OnOneChain(cfg, s, cfg.proposalId(p), cfg.proposalId(q))
  {
    var a, b := cfg.proposalId(p), cfg.proposalId(q);
    assert s.blocks[a].prop == p && s.blocks[b].prop == q;
    assert !Descends(cfg, s, GENESIS, a) && !Descends(cfg, s, GENESIS, b);
  }

  lemma ForksDisagree(cfg: Config, ledger: Ledger, first: seq<Event>, second: seq<Event>, p: Proposal, q: Proposal)
    requires IdsAreHashes(cfg) && p != q && p.parent == GENESIS == q.parent
    requires After(cfg, ledger, first).committed.Some? && After(cfg, ledger, first + second).committed.Some?
    requires After(cfg, ledger, first).committed.value.id == cfg.proposalId(p)
    requires After(cfg, ledger, first + second).committed.value.id == cfg.proposalId(q)
    ensures !CommitsOnOneChain(cfg, ledger, first + second)
  {
    hide After, AllCommits, Tree, IdsAreHashes, OnOneChain;
    CurrentIsACommit(cfg, ledger, first);
    CurrentIsACommit(cfg, ledger, first + second);
    CommitsStay(cfg, ledger, first, second);
    CommitsAreKnown(cfg, ledger, first + second);
    RunKeepsTree(cfg, ledger, first + second);
    TwoForks(cfg, After(cfg, ledger, first + second), p, q);
  }

  /**
   There is no lock: certificates of later rounds may be formed on another branch. A run commits two different blocks of
   height one, without recovery, with votes built from proposals, and with nobody slashed.
   */
  lemma ForksCanCommit(cfg: Config, ledger: Ledger, who: ValidatorId) returns (first: seq<Event>, second: seq<Event>)
    requires Solo(cfg, ledger, who)
    ensures var a, b := After(cfg, ledger, first).committed, After(cfg, ledger, first + second).committed;
      && a.Some? && b.Some? && a.value.id != b.value.id && a.value.prop.height == b.value.prop.height == 1
    ensures !CommitsOnOneChain(cfg, ledger, first + second)
    ensures After(cfg, ledger, first + second).ledger == ledger
    ensures NoRecovery(first + second) && VotesFromProposals(cfg, first + second)
  {
    hide After, Next, Total, Threshold, IdsAreHashes, CommitsOnOneChain;
    StartIsQuiet(cfg, ledger, who);
    NothingYet(cfg, ledger);
    var p, q: Proposal;
    GenesisStays(cfg, Proposal(0, 0, GENESIS, 0, who), ledger);
    first, p := Branch(cfg, ledger, [], 0, who);
    assert [] + first == first;
    second, q := Branch(cfg, ledger, first, 3, who);
    DifferentRounds(cfg, p, q, Proposal(0, 9, GENESIS, 0, who));
    ForksDisagree(cfg, ledger, first, second, p, q);
  }
}
