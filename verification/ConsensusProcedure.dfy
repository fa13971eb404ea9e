/** The consensus core as its handlers update it in place. */
module ConsensusProcedure {
  import opened Common
  import opened Sums
  import opened Staking
  import opened Consensus

  class ConsensusCore {
    const cfg: Config
    var blocks: map<BlockId, Block>
    var votesByRound: map<u64, map<ValidatorId, BlockId>>
    var sigsByBlock: map<BlockId, map<ValidatorId, Hash>>
    var highQc: Option<QuorumCert>
    var committed: Option<Block>
    var ledger: Ledger
    var lastProgressRound: u64
    var invalid: bool
    var lastRewardedHeight: u64

    ghost function Abs(): State
      reads this
    {
      State(blocks, votesByRound, sigsByBlock, highQc, committed, ledger, lastProgressRound, invalid,
        lastRewardedHeight)
    }

    constructor (cfg: Config, ledger: Ledger)
      ensures this.cfg == cfg && Abs() == Start(ledger)
    {
      this.cfg := cfg;
      blocks := map[GENESIS := Block(Proposal(0, 0, GENESIS, 0, ""), GENESIS, None)];
      votesByRound, sigsByBlock := map[], map[];
      highQc, committed := Some(QuorumCert(0, GENESIS, {})), None;
      this.ledger, lastProgressRound, invalid, lastRewardedHeight := ledger, 0, false, 0;
    }

    method OnProposalReceived(halted: bool, p: Proposal)
      modifies this
      ensures Abs() == OnProposal(cfg, halted, old(Abs()), p)
    {
      if invalid || halted {
        return;
      }
      if p.proposer != cfg.leader(ledger, p.round) || p.round < lastProgressRound {
        return;
      }
      if p.height == 0 {
        if p.parent != GENESIS {
          return;
        }
      } else {
        if p.parent !in blocks {
          return;
        }
        if p.height != Wrap64(blocks[p.parent].prop.height + 1) {
          return;
        }
      }
      var id := cfg.proposalId(p);
      blocks := blocks[id := Block(p, id, None)];
      lastProgressRound := Max(lastProgressRound, p.round);
    }

    /** The signers of a block that count, and their stake added up on 64 bits. */
    method CountVoters(block: BlockId) returns (voters: set<ValidatorId>, weight: u64)
      ensures voters == CountedVoters(Abs(), block)
      ensures weight == Wrap64(Weight(Stakes(ledger), voters))
    {
      hide Weight, Stakes, IsSlashed, BondedOf, Wrap64;
      var sigs := if block in sigsByBlock then sigsByBlock[block] else map[];
      var todo := sigs.Keys;
      voters, weight := {}, 0;
      NoWeight(Stakes(ledger));
      while todo != {}
        invariant todo <= sigs.Keys
        invariant forall v :: v in voters <==>
          v in sigs && v !in todo && !IsSlashed(ledger, v) && BondedOf(ledger, v) > 0
        invariant weight == Wrap64(Weight(Stakes(ledger), voters))
        decreases |todo|
      {
        var v :| v in todo;
        todo := todo - {v};
        if !IsSlashed(ledger, v) {
          var s: nat := BondedOf(ledger, v);
          if s != 0 {
            AddVoter(ledger, voters, v, weight);
            weight := Wrap64(weight + s);
            voters := voters + {v};
          }
        }
      }
      assert voters == CountedVoters(Abs(), block);
    }

    method TryCommitNow()
      modifies this`committed, this`lastRewardedHeight, this`invalid
      ensures Abs() == TryCommit(cfg, old(Abs()))
    {
      if invalid || highQc.None? || highQc.value.block !in blocks {
        return;
      }
      var b := blocks[highQc.value.block];
      if b.qc.None? {
        return;
      }
      if b.prop.parent !in blocks || blocks[b.prop.parent].qc.None? {
        return;
      }
      var grandId := blocks[b.prop.parent].prop.parent;
      if grandId !in blocks || blocks[grandId].qc.None? {
        return;
      }
      var grand := blocks[grandId];
      committed := Some(grand);
      if grand.prop.height != lastRewardedHeight {
        lastRewardedHeight := grand.prop.height;
        if cfg.blockReward != 0 && cfg.onReward.Some? {
          if !cfg.onReward.value(ledger, grand, cfg.blockReward) {
            invalid := true;
          }
        }
      }
    }

    method TryFormQcNow(block: BlockId, round: u64)
      modifies this
      ensures Abs() == TryFormQc(cfg, old(Abs()), block, round)
    {
      hide CountedVoters, TryCommit, Threshold;
      if block !in blocks {
        return;
      }
      var voters, weight := CountVoters(block);
      var total := TotalBonded(ledger);
      var threshold := Threshold(cfg, total);
      if threshold == 0 || weight < threshold {
        return;
      }
      var qc := QuorumCert(round, block, voters);
      blocks := blocks[block := blocks[block].(qc := Some(qc))];
      if highQc.None? || qc.round > highQc.value.round {
        highQc := Some(qc);
      }
      lastProgressRound := Max(lastProgressRound, round);
      TryCommitNow();
    }

    method OnVoteReceived(halted: bool, v: Vote)
      modifies this
      ensures Abs() == OnVote(cfg, halted, old(Abs()), v)
    {
      hide TryFormQc;
      if invalid || halted {
        return;
      }
      if IsSlashed(ledger, v.voter) {
        return;
      }
      var expected := cfg.sign(v.voter, v.round, v.block);
      if expected.None? || expected.value != v.signature {
        return;
      }
      var roundMap := if v.round in votesByRound then votesByRound[v.round] else map[];
      if v.voter in roundMap && roundMap[v.voter] != v.block {
        var r := Slash(ledger, v.voter);
        ledger := r.0;
        if r.1.Some? && cfg.onSlash.Some? {
          if !cfg.onSlash.value(v.voter, r.1.value) {
            invalid := true;
          }
        }
        return;
      }
      votesByRound := votesByRound[v.round := roundMap[v.voter := v.block]];
      var sigs := if v.block in sigsByBlock then sigsByBlock[v.block] else map[];
      sigsByBlock := sigsByBlock[v.block := sigs[v.voter := v.signature]];
      TryFormQcNow(v.block, v.round);
    }

    method RecoverIfPartitioned(round: u64) returns (recovered: bool)
      modifies this
      ensures Abs() == Recover(cfg, old(Abs()), round)
      ensures recovered == Partitioned(cfg, old(Abs()), round)
    {
      if round < lastProgressRound || round - lastProgressRound < cfg.partitionTimeout {
        return false;
      }
      votesByRound, sigsByBlock, lastProgressRound := map[], map[], round;
      return true;
    }

    /** Handling any events in turn reaches the state that the theorems speak of. */
    method HandleAll(events: seq<Event>, ghost start: Ledger)
      requires Abs() == Start(start)
      modifies this
      ensures Abs() == After(cfg, start, events)
    {
      hide OnVote;
      for i := 0 to |events|
        invariant Abs() == After(cfg, start, events[..i])
      {
        assert events[..i + 1][..i] == events[..i];
        match events[i] {
          case Propose(halted, p) => OnProposalReceived(halted, p);
          case CastVote(halted, v) => OnVoteReceived(halted, v);
          case Recovery(round) => var recovered := RecoverIfPartitioned(round);
        }
      }
      assert events[..|events|] == events;
    }
  }

  lemma NoWeight(stakes: map<ValidatorId, nat>)
    ensures Wrap64(Weight(stakes, {})) == 0
  {
    WeightOfNone(stakes);
  }

  lemma AddVoter(ledger: Ledger, voters: set<ValidatorId>, v: ValidatorId, weight: u64)
    requires v !in voters && weight == Wrap64(Weight(Stakes(ledger), voters))
    ensures Wrap64(weight + BondedOf(ledger, v)) == Wrap64(Weight(Stakes(ledger), voters + {v}))
  {
    hide Weight;
    WeightAdd(Stakes(ledger), voters, v);
    BondedIsStake(ledger, v);
  }
}
