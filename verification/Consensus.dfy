/** The consensus core: votes, certificates, commits and slashing as a state machine. */
module Consensus {
  import opened Common
  import opened Sums
  import opened Staking
  import U256

  type BlockId = nat
  type Hash = nat

  const GENESIS: BlockId := 0

  datatype Proposal = Proposal(height: u64, round: u64, parent: BlockId, stateRoot: Hash, proposer: ValidatorId)

  datatype Vote = Vote(round: u64, block: BlockId, voter: ValidatorId, signature: Hash)

  datatype QuorumCert = QuorumCert(round: u64, block: BlockId, voters: set<ValidatorId>)

  datatype Block = Block(prop: Proposal, id: BlockId, qc: Option<QuorumCert>)

  type Denominator = n: u64 | n > 0 witness 1

  /** What the core is configured with, and what it calls: hashes, signatures and the owner's callbacks. */
  datatype Config = Config(
    numerator: u64,
    denominator: Denominator,
    partitionTimeout: u64,
    blockReward: u64,
    proposalId: Proposal -> BlockId,
    sign: (ValidatorId, u64, BlockId) -> Option<Hash>,
    leader: (Ledger, u64) -> ValidatorId,
    onSlash: Option<(ValidatorId, nat) -> bool>,
    onReward: Option<(Ledger, Block, u64) -> bool>)

  datatype State = State(
    blocks: map<BlockId, Block>,
    votes: map<u64, map<ValidatorId, BlockId>>,
    sigs: map<BlockId, map<ValidatorId, Hash>>,
    highQc: Option<QuorumCert>,
    committed: Option<Block>,
    ledger: Ledger,
    lastProgress: u64,
    invalid: bool,
    lastRewarded: u64)

  function Start(ledger: Ledger): State {
    var genesis := Block(Proposal(0, 0, GENESIS, 0, ""), GENESIS, None);
    State(map[GENESIS := genesis], map[], map[], Some(QuorumCert(0, GENESIS, {})), None, ledger, 0, false, 0)
  }

  function Max(a: u64, b: u64): u64 {
    if a < b then b else a
  }

  // -------- proposals --------

  predicate Extends(s: State, p: Proposal) {
    if p.height == 0 then p.parent == GENESIS
    else p.parent in s.blocks && p.height == Wrap64(s.blocks[p.parent].prop.height + 1)
  }

  function OnProposal(cfg: Config, halted: bool, s: State, p: Proposal): State {
    if s.invalid || halted || p.proposer != cfg.leader(s.ledger, p.round) || p.round < s.lastProgress || !Extends(s, p)
    then s
    else
      var id := cfg.proposalId(p);
      s.(blocks := s.blocks[id := Block(p, id, None)], lastProgress := Max(s.lastProgress, p.round))
  }

  // -------- certificates --------

  /** The stake that a certificate needs; the product is on 64 bits. */
  function Threshold(cfg: Config, total: u64): u64 {
    if total == 0 then 0 else Wrap64(U256.Quotient(Wrap64(total * cfg.numerator), cfg.denominator) + 1)
  }

  function SigsOf(s: State, block: BlockId): map<ValidatorId, Hash> {
    if block in s.sigs then s.sigs[block] else map[]
  }

  /** The signers of a block that still count: not slashed, and with stake. */
  function CountedVoters(s: State, block: BlockId): set<ValidatorId> {
    set v | v in SigsOf(s, block) && !IsSlashed(s.ledger, v) && BondedOf(s.ledger, v) > 0
  }

  ghost predicate HasQuorum(cfg: Config, s: State, block: BlockId) {
    var threshold := Threshold(cfg, Wrap64(Total(s.ledger)));
    threshold != 0 && Wrap64(Weight(Stakes(s.ledger), CountedVoters(s, block))) >= threshold
  }

  ghost function Certificate(cfg: Config, s: State, block: BlockId, round: u64): Option<QuorumCert> {
    if block in s.blocks && HasQuorum(cfg, s, block) then Some(QuorumCert(round, block, CountedVoters(s, block)))
      else None
  }

  function QcOf(s: State, id: BlockId): Option<QuorumCert> {
    if id in s.blocks then s.blocks[id].qc else None
  }

  /** Commits the grandparent of the highest certified block, if all three are certified. */
  function TryCommit(cfg: Config, s: State): State {
    if s.invalid || s.highQc.None? || QcOf(s, s.highQc.value.block).None? then s
    else
      var parent := s.blocks[s.highQc.value.block].prop.parent;
      if QcOf(s, parent).None? then s
      else
        var grand := s.blocks[parent].prop.parent;
        if QcOf(s, grand).None? then s
        else
          var b := s.blocks[grand];
          var rewarded := b.prop.height != s.lastRewarded;
          var refused := rewarded && cfg.blockReward != 0 && cfg.onReward.Some?
            && !cfg.onReward.value(s.ledger, b, cfg.blockReward);
          s.(committed := Some(b),
             lastRewarded := if rewarded then b.prop.height else s.lastRewarded,
             invalid := refused)
  }

  function Install(s: State, qc: QuorumCert): State
    requires qc.block in s.blocks
  {
    s.(blocks := s.blocks[qc.block := s.blocks[qc.block].(qc := Some(qc))],
       highQc := if s.highQc.None? || qc.round > s.highQc.value.round then Some(qc) else s.highQc,
       lastProgress := Max(s.lastProgress, qc.round))
  }

  ghost function TryFormQc(cfg: Config, s: State, block: BlockId, round: u64): State {
    var qc := Certificate(cfg, s, block, round);
    if qc.None? then s else TryCommit(cfg, Install(s, qc.value))
  }

  // -------- votes --------

  function RoundVotes(s: State, round: u64): map<ValidatorId, BlockId> {
    if round in s.votes then s.votes[round] else map[]
  }

  predicate Admitted(cfg: Config, halted: bool, s: State, v: Vote) {
    && !s.invalid && !halted && !IsSlashed(s.ledger, v.voter)
    && cfg.sign(v.voter, v.round, v.block) == Some(v.signature)
  }

  predicate Equivocates(s: State, v: Vote) {
    v.voter in RoundVotes(s, v.round) && RoundVotes(s, v.round)[v.voter] != v.block
  }

  function Recorded(s: State, v: Vote): State {
    s.(votes := s.votes[v.round := RoundVotes(s, v.round)[v.voter := v.block]],
       sigs := s.sigs[v.block := SigsOf(s, v.block)[v.voter := v.signature]])
  }

  function Punished(cfg: Config, s: State, v: Vote): State {
    var r := Slash(s.ledger, v.voter);
    var refused := r.1.Some? && cfg.onSlash.Some? && !cfg.onSlash.value(v.voter, r.1.value);
    s.(ledger := r.0, invalid := s.invalid || refused)
  }

  ghost function OnVote(cfg: Config, halted: bool, s: State, v: Vote): State {
    if !Admitted(cfg, halted, s, v) then s
    else if Equivocates(s, v) then Punished(cfg, s, v)
    else TryFormQc(cfg, Recorded(s, v), v.block, v.round)
  }

  // -------- recovery --------

  predicate Partitioned(cfg: Config, s: State, round: u64) {
    round >= s.lastProgress && round - s.lastProgress >= cfg.partitionTimeout
  }

  function Recover(cfg: Config, s: State, round: u64): State {
    if Partitioned(cfg, s, round) then s.(votes := map[], sigs := map[], lastProgress := round) else s
  }

  // -------- runs --------

  datatype Event = Propose(halted: bool, p: Proposal) | CastVote(halted: bool, v: Vote) | Recovery(round: u64)

  ghost function Next(cfg: Config, s: State, e: Event): State {
    match e
    case Propose(halted, p) => OnProposal(cfg, halted, s, p)
    case CastVote(halted, v) => OnVote(cfg, halted, s, v)
    case Recovery(round) => Recover(cfg, s, round)
  }

  ghost function After(cfg: Config, ledger: Ledger, events: seq<Event>): State {
    if events == [] then Start(ledger)
    else Next(cfg, After(cfg, ledger, events[..|events| - 1]), events[|events| - 1])
  }

  /** The certificate that a vote forms when it is cast. */
  ghost function FormedBy(cfg: Config, s: State, e: Event): Option<QuorumCert> {
    if e.CastVote? && Admitted(cfg, e.halted, s, e.v) && !Equivocates(s, e.v) then
      Certificate(cfg, Recorded(s, e.v), e.v.block, e.v.round)
    else None
  }
}
