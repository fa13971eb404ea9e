/** What one event does to each part of the consensus core, and what that means over runs. */
module ConsensusSteps {
  import opened Common
  import opened Sums
  import opened Staking
  import opened Consensus
  import opened ConsensusTheorems

  // -------- proposals --------

  /** From the round's leader, not of a past round, one above a known parent, while the core runs. */
  predicate Fileable(cfg: Config, halted: bool, s: State, p: Proposal) {
    && !s.invalid && !halted && p.proposer == cfg.leader(s.ledger, p.round) && s.lastProgress <= p.round
    && (p.height == 0 ==> p.parent == GENESIS)
    && (p.height > 0 ==> p.parent in s.blocks && p.height == (s.blocks[p.parent].prop.height + 1) % (U64_MAX + 1))
  }

  /** Only the blocks and the progress change: one block is there, without a certificate, the others as before. */
  lemma ProposalDoes(cfg: Config, halted: bool, s: State, p: Proposal)
    ensures var next := Next(cfg, s, Propose(halted, p));
      if Fileable(cfg, halted, s, p) then
        && next == s.(blocks := next.blocks, lastProgress := p.round)
        && next.blocks.Keys == s.blocks.Keys + {cfg.proposalId(p)}
        && (forall id | id in next.blocks ::
              next.blocks[id] == if id == cfg.proposalId(p) then Block(p, id, None) else s.blocks[id])
      else next == s
  {
  }

  // -------- votes --------

  /** Signed by its voter, who is not slashed, while the core runs. */
  predicate Heard(cfg: Config, halted: bool, s: State, v: Vote) {
    && !s.invalid && !halted && !(v.voter in s.ledger && s.ledger[v.voter].slashed)
    && cfg.sign(v.voter, v.round, v.block) == Some(v.signature)
  }

  /** The voter has voted for another block of this round. */
  predicate Contradicts(s: State, v: Vote) {
    v.round in s.votes && v.voter in s.votes[v.round] && s.votes[v.round][v.voter] != v.block
  }

  /** The stake that a slash burns: all of it, unless bonded and unbonding stake overflow together. */
  function Burns(ledger: Ledger, who: ValidatorId): Option<nat> {
    if who in ledger && ledger[who].bonded + ledger[who].unbonding <= U64_MAX then
      Some(ledger[who].bonded + ledger[who].unbonding)
    else None
  }

  /** A contradicting vote takes its voter's whole stake and nothing else, and a refusing callback stops the core. */
  lemma ContradictionDoes(cfg: Config, halted: bool, s: State, v: Vote)
    requires Heard(cfg, halted, s, v) && Contradicts(s, v)
    ensures var next := Next(cfg, s, CastVote(halted, v));
      match Burns(s.ledger, v.voter)
      case None => next == s
      case Some(stake) =>
        && next == s.(ledger := next.ledger, invalid := next.invalid)
        && next.ledger == s.ledger[v.voter := Position(0, 0, 0, true)]
        && (next.invalid <==> cfg.onSlash.Some? && !cfg.onSlash.value(v.voter, stake))
  {
  }

  /** Those who have signed a block, are not slashed and have stake, once `v` has signed too. */
  function Behind(s: State, v: Vote): set<ValidatorId> {
    set who | who in SigsOf(s, v.block).Keys + {v.voter} && who in s.ledger && !s.ledger[who].slashed
              && s.ledger[who].bonded > 0
  }

  ghost predicate Carries(cfg: Config, s: State, v: Vote) {
    var total := Wrap64(Total(s.ledger));
    && v.block in s.blocks && Threshold(cfg, total) > 0
    && Wrap64(Weight(Stakes(s.ledger), Behind(s, v))) >= Threshold(cfg, total)
  }

  /** The vote is noted with its signature; everything noted before stays. */
  predicate Noted(s: State, next: State, v: Vote) {
    && next.votes.Keys == s.votes.Keys + {v.round} && next.sigs.Keys == s.sigs.Keys + {v.block}
    && next.votes[v.round] == (if v.round in s.votes then s.votes[v.round] else map[])[v.voter := v.block]
    && next.sigs[v.block] == (if v.block in s.sigs then s.sigs[v.block] else map[])[v.voter := v.signature]
    && (forall r | r in s.votes && r != v.round :: next.votes[r] == s.votes[r])
    && (forall b | b in s.sigs && b != v.block :: next.sigs[b] == s.sigs[b])
  }

  /** What a new certificate changes before anything is committed. */
  predicate Certified(s: State, next: State, qc: QuorumCert) {
    && next.blocks.Keys == s.blocks.Keys && qc.block in s.blocks
    && (forall id | id in s.blocks ::
          next.blocks[id] == if id == qc.block then s.blocks[id].(qc := Some(qc)) else s.blocks[id])
    && next.highQc == (if s.highQc.Some? && qc.round <= s.highQc.value.round then s.highQc else Some(qc))
    && next.lastProgress == if qc.round < s.lastProgress then s.lastProgress else qc.round
  }

  /** The three generations that the highest certificate commits, if all are certified. */
  predicate Commits3(s: State, grand: BlockId) {
    && s.highQc.Some? && QcOf(s, s.highQc.value.block).Some?
    && QcOf(s, s.blocks[s.highQc.value.block].prop.parent).Some?
    && grand == s.blocks[s.blocks[s.highQc.value.block].prop.parent].prop.parent && QcOf(s, grand).Some?
  }

  /** A commit is of another height than the last one rewarded exactly when it is rewarded, and refused as said. */
  ghost predicate Settles(cfg: Config, s: State, next: State) {
    if exists grand :: Commits3(next, grand) then
      var grand :| Commits3(next, grand);
      var b := next.blocks[grand];
      && next.committed == Some(b) && next.lastRewarded == b.prop.height
      && (next.invalid <==> b.prop.height != s.lastRewarded && cfg.blockReward != 0 && cfg.onReward.Some?
                            && !cfg.onReward.value(s.ledger, b, cfg.blockReward))
    else next.committed == s.committed && next.lastRewarded == s.lastRewarded && !next.invalid
  }

  /** A heard vote that contradicts none is noted, certifies its block when it carries it, and may commit. */
  lemma VoteDoes(cfg: Config, halted: bool, s: State, v: Vote)
    requires Heard(cfg, halted, s, v) && !Contradicts(s, v)
    ensures var next := Next(cfg, s, CastVote(halted, v));
      && Noted(s, next, v) && next.ledger == s.ledger
      && if Carries(cfg, s, v) then
           Certified(s, next, QuorumCert(v.round, v.block, Behind(s, v))) && Settles(cfg, s, next)
         else next == s.(votes := next.votes, sigs := next.sigs)
  {
    hide Total, Weight, Threshold, Stakes, Recorded, Install, TryCommit, Noted, Certified, Settles, Certificate,
      Carries;
    RecordedIsNoted(s, v);
    CertificateIs(cfg, s, v);
    if Carries(cfg, s, v) {
      var qc := QuorumCert(v.round, v.block, Behind(s, v));
      InstalledIsCertified(s, Recorded(s, v), qc);
      CommitSettles(cfg, s, Install(Recorded(s, v), qc));
      CommittedIsCertified(s, Install(Recorded(s, v), qc), TryCommit(cfg, Install(Recorded(s, v), qc)), v, qc);
    }
  }

  lemma RecordedIsNoted(s: State, v: Vote)
    ensures var r := Recorded(s, v); Noted(s, r, v) && r == s.(votes := r.votes, sigs := r.sigs)
  {
  }

  lemma CertificateIs(cfg: Config, s: State, v: Vote)
    ensures Certificate(cfg, Recorded(s, v), v.block, v.round) ==
      if Carries(cfg, s, v) then Some(QuorumCert(v.round, v.block, Behind(s, v))) else None
    ensures Carries(cfg, s, v) ==> v.block in s.blocks
  {
    hide Total, Weight, Threshold, Stakes;
    assert CountedVoters(Recorded(s, v), v.block) == Behind(s, v);
  }

  lemma InstalledIsCertified(s: State, r: State, qc: QuorumCert)
    requires r == s.(votes := r.votes, sigs := r.sigs) && qc.block in s.blocks
    ensures var i := Install(r, qc);
      && Certified(s, i, qc)
      && i == s.(votes := r.votes, sigs := r.sigs, blocks := i.blocks, highQc := i.highQc,
                 lastProgress := i.lastProgress)
  {
  }

  /** A commit leaves alone what was noted and certified. */
  lemma CommittedIsCertified(s: State, installed: State, next: State, v: Vote, qc: QuorumCert)
    requires next ==
      installed.(committed := next.committed, lastRewarded := next.lastRewarded, invalid := next.invalid)
    ensures Certified(s, installed, qc) ==> Certified(s, next, qc)
    ensures Noted(s, installed, v) ==> Noted(s, next, v)
    ensures forall r: State | installed.votes == r.votes && installed.sigs == r.sigs && Noted(s, r, v) ::
              Noted(s, next, v)
  {
  }

  lemma CommitSettles(cfg: Config, s: State, installed: State)
    requires !installed.invalid && installed.ledger == s.ledger
    requires installed.committed == s.committed && installed.lastRewarded == s.lastRewarded
    ensures var next := TryCommit(cfg, installed);
      && next == installed.(committed := next.committed, lastRewarded := next.lastRewarded, invalid := next.invalid)
      && Settles(cfg, s, next)
  {
    var next := TryCommit(cfg, installed);
    forall grand
      ensures Commits3(next, grand) <==> Commits3(installed, grand)
    {
    }
    if exists grand :: Commits3(next, grand) {
      var grand :| Commits3(next, grand);
      assert Commits3(installed, grand);
    } else {
      if next.committed != installed.committed || next.lastRewarded != installed.lastRewarded || next.invalid {
        var h := installed.highQc.value.block;
        assert Commits3(installed, installed.blocks[installed.blocks[h].prop.parent].prop.parent);
      }
    }
  }

  lemma UnheardDoesNothing(cfg: Config, halted: bool, s: State, v: Vote)
    requires !Heard(cfg, halted, s, v)
    ensures Next(cfg, s, CastVote(halted, v)) == s
  {
  }

  // -------- recovery --------

  /** After the timeout, and no sooner, all votes and signatures are forgotten and progress is at the given round. */
  lemma RecoveryDoes(cfg: Config, s: State, round: u64)
    ensures Next(cfg, s, Recovery(round)) ==
      if s.lastProgress + cfg.partitionTimeout <= round then
        s.(votes := map[], sigs := map[], lastProgress := round)
      else s
  {
  }

  // -------- runs --------

  /** The highest certificate of a run: genesis' own, or one of those formed, and none formed is of a higher round. */
  lemma {:induction false} HighQcIsHighest(cfg: Config, ledger: Ledger, events: seq<Event>)
    ensures var s := After(cfg, ledger, events);
      && s.highQc.Some?
      && (forall n | 0 <= n < |events| && FormedAt(cfg, ledger, events, n).Some? ::
            FormedAt(cfg, ledger, events, n).value.round <= s.highQc.value.round)
      && (s.highQc.value == QuorumCert(0, GENESIS, {}) ||
          exists n | 0 <= n < |events| :: FormedAt(cfg, ledger, events, n) == s.highQc)
  {
    if events != [] {
      var k := |events| - 1;
      var front, before := events[..k], After(cfg, ledger, events[..k]);
      HighQcIsHighest(cfg, ledger, front);
      HighQcNeverFalls(cfg, before, events[k]);
      HighQcComesFrom(cfg, before, events[k]);
      FormedRound(cfg, before, events[k]);
      forall n | 0 <= n < k
        ensures FormedAt(cfg, ledger, front, n) == FormedAt(cfg, ledger, events, n)
      {
        assert front[..n] == events[..n] && front[n] == events[n];
      }
      assert FormedAt(cfg, ledger, events, k) == FormedBy(cfg, before, events[k]);
      hide Next, FormedBy, FormedAt;
      if After(cfg, ledger, events).highQc == before.highQc && before.highQc.value != QuorumCert(0, GENESIS, {}) {
        var n :| 0 <= n < k && FormedAt(cfg, ledger, front, n) == before.highQc;
        assert FormedAt(cfg, ledger, events, n) == before.highQc;
      }
    }
  }

  /** The certificate that event `n` of a run forms. */
  ghost function FormedAt(cfg: Config, ledger: Ledger, events: seq<Event>, n: nat): Option<QuorumCert>
    requires n < |events|
  {
    FormedBy(cfg, After(cfg, ledger, events[..n]), events[n])
  }

  lemma FormedRound(cfg: Config, s: State, e: Event)
    ensures FormedBy(cfg, s, e).Some? ==> e.CastVote? && FormedBy(cfg, s, e).value.round == e.v.round
  {
  }

  lemma HighQcComesFrom(cfg: Config, s: State, e: Event)
    requires s.highQc.Some?
    ensures Next(cfg, s, e).highQc == s.highQc || Next(cfg, s, e).highQc == FormedBy(cfg, s, e)
  {
    hide HasQuorum, CountedVoters, Slash, TryCommit;
    if e.CastVote? && Admitted(cfg, e.halted, s, e.v) && !Equivocates(s, e.v) {
      var qc := Certificate(cfg, Recorded(s, e.v), e.v.block, e.v.round);
      if qc.Some? {
        CommitTouches(cfg, Install(Recorded(s, e.v), qc.value));
      }
    }
  }

  /** What is committed has been rewarded, whatever the run: the last height rewarded is the committed block's. */
  lemma {:induction false} CommitIsRewarded(cfg: Config, ledger: Ledger, events: seq<Event>)
    ensures var s := After(cfg, ledger, events);
      if s.committed.Some? then s.lastRewarded == s.committed.value.prop.height else s.lastRewarded == 0
  {
    if events != [] {
      hide Next;
      CommitIsRewarded(cfg, ledger, events[..|events| - 1]);
      NextIsRewarded(cfg, After(cfg, ledger, events[..|events| - 1]), events[|events| - 1]);
    }
  }

  lemma NextIsRewarded(cfg: Config, s: State, e: Event)
    requires if s.committed.Some? then s.lastRewarded == s.committed.value.prop.height else s.lastRewarded == 0
    ensures var next := Next(cfg, s, e);
      if next.committed.Some? then next.lastRewarded == next.committed.value.prop.height else next.lastRewarded == 0
  {
    hide HasQuorum, CountedVoters, Slash;
  }

  /** A core that is stopped by a refusing callback stays as it is, but for recovery. */
  lemma StoppedStays(cfg: Config, s: State, e: Event)
    requires s.invalid && !e.Recovery?
    ensures Next(cfg, s, e) == s
  {
  }
}
