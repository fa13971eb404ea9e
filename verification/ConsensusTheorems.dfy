/** Safety of certificates over every run of the consensus core. */
module ConsensusTheorems {
  import opened Common
  import opened Sums
  import opened Staking
  import opened Consensus
  import U256

  // -------- assumptions on the messages --------

  /** Votes are built from proposals: the round of a vote is the round of its block. */
  predicate FromProposal(cfg: Config, p: Proposal, v: Vote) {
    cfg.proposalId(p) == v.block && p.round == v.round
  }

  ghost predicate VotesFromProposals(cfg: Config, events: seq<Event>) {
    forall i | 0 <= i < |events| && events[i].CastVote? :: exists p :: FromProposal(cfg, p, events[i].v)
  }

  ghost predicate DistinctIds(cfg: Config) {
    forall p, q :: cfg.proposalId(p) == cfg.proposalId(q) ==> p == q
  }

  /** Half of the stake at least, and no 64-bit product or sum that wraps. */
  ghost predicate SoundQuorum(cfg: Config, ledger: Ledger) {
    && 2 * cfg.numerator >= cfg.denominator
    && Total(ledger) <= U64_MAX && Total(ledger) * cfg.numerator < U64_MAX
  }

  /** With enough stake the product wraps, and a single unit of stake then is a quorum. */
  lemma WrappedQuorumIsAnything(cfg: Config, total: u64)
    requires cfg.numerator == 2 && cfg.denominator == 3 && total == 0x8000_0000_0000_0000
    ensures Threshold(cfg, total) == 1
  {
  }

  // -------- what one step keeps --------

  /** Every counted signature of a block is its signer's one vote in the block's round. */
  ghost predicate OneVoteEach(cfg: Config, s: State) {
    forall p, v | v in SigsOf(s, cfg.proposalId(p)) ::
      v in RoundVotes(s, p.round) && RoundVotes(s, p.round)[v] == cfg.proposalId(p)
  }

  lemma CommitTouches(cfg: Config, s: State)
    ensures var s' := TryCommit(cfg, s);
      s'.blocks == s.blocks && s'.votes == s.votes && s'.sigs == s.sigs && s'.ledger == s.ledger
        && s'.highQc == s.highQc
  {
  }

  lemma FormTouches(cfg: Config, s: State, block: BlockId, round: u64)
    ensures var s' := TryFormQc(cfg, s, block, round);
      s'.votes == s.votes && s'.sigs == s.sigs && s'.ledger == s.ledger
  {
    hide TryCommit, HasQuorum, CountedVoters;
    var qc := Certificate(cfg, s, block, round);
    if qc.Some? {
      CommitTouches(cfg, Install(s, qc.value));
    }
  }

  lemma SameVotesSame(cfg: Config, s: State, s': State)
    requires OneVoteEach(cfg, s) && s'.votes == s.votes && s'.sigs == s.sigs
    ensures OneVoteEach(cfg, s')
  {
    forall p, v | v in SigsOf(s', cfg.proposalId(p))
      ensures v in RoundVotes(s', p.round) && RoundVotes(s', p.round)[v] == cfg.proposalId(p)
    {
      assert v in SigsOf(s, cfg.proposalId(p));
    }
  }

  lemma NoVotesAtAll(cfg: Config, s: State)
    requires s.sigs == map[]
    ensures OneVoteEach(cfg, s)
  {
  }

  lemma VoteKeepsOneVoteEach(cfg: Config, halted: bool, s: State, v: Vote, p: Proposal)
    requires OneVoteEach(cfg, s) && DistinctIds(cfg) && FromProposal(cfg, p, v)
    ensures OneVoteEach(cfg, OnVote(cfg, halted, s, v))
  {
    hide TryFormQc;
    if Admitted(cfg, halted, s, v) && !Equivocates(s, v) {
      FormTouches(cfg, Recorded(s, v), v.block, v.round);
      var s' := OnVote(cfg, halted, s, v);
      forall q, x | x in SigsOf(s', cfg.proposalId(q))
        ensures x in RoundVotes(s', q.round) && RoundVotes(s', q.round)[x] == cfg.proposalId(q)
      {
        if x == v.voter && cfg.proposalId(q) == v.block {
          assert q == p;
        } else {
          assert x in SigsOf(s, cfg.proposalId(q));
        }
      }
    } else {
      SameVotesSame(cfg, s, OnVote(cfg, halted, s, v));
    }
  }

  lemma {:induction false} RunKeepsOneVoteEach(cfg: Config, ledger: Ledger, events: seq<Event>)
    requires DistinctIds(cfg) && VotesFromProposals(cfg, events)
    ensures OneVoteEach(cfg, After(cfg, ledger, events))
  {
    if events == [] {
      NoVotesAtAll(cfg, After(cfg, ledger, events));
    } else {
      hide OnVote, DistinctIds, OneVoteEach;
      var front, e := events[..|events| - 1], events[|events| - 1];
      assert events == front + [e];
      PrefixFromProposals(cfg, front, [e]);
      RunKeepsOneVoteEach(cfg, ledger, front);
      var s := After(cfg, ledger, front);
      match e
      case CastVote(halted, v) =>
        var p :| FromProposal(cfg, p, v);
        VoteKeepsOneVoteEach(cfg, halted, s, v, p);
      case Propose(_, _) => SameVotesSame(cfg, s, Next(cfg, s, e));
      case Recovery(_) =>
        if Recover(cfg, s, e.round) == s {
        } else {
          NoVotesAtAll(cfg, Next(cfg, s, e));
        }
    }
  }

  /** How a later ledger relates to an earlier one: stakes only vanish, by slashing. */
  ghost predicate OnlySlashed(before: Ledger, after: Ledger) {
    && Total(after) <= Total(before)
    && (forall v :: IsSlashed(before, v) ==> IsSlashed(after, v))
    && (forall v :: !IsSlashed(after, v) ==> BondedOf(after, v) == BondedOf(before, v))
  }

  lemma NextOnlySlashes(cfg: Config, s: State, e: Event)
    ensures OnlySlashed(s.ledger, Next(cfg, s, e).ledger)
  {
    hide TryFormQc, Total, Slash;
    if e.CastVote? && Admitted(cfg, e.halted, s, e.v) {
      if Equivocates(s, e.v) {
        SlashOnlyLowers(s.ledger, e.v.voter);
      } else {
        FormTouches(cfg, Recorded(s, e.v), e.v.block, e.v.round);
      }
    }
  }

  predicate NoRecovery(events: seq<Event>) {
    forall i | 0 <= i < |events| :: !events[i].Recovery?
  }

  /** A recorded vote stays recorded for the same block until a recovery. */
  lemma NextKeepsVotes(cfg: Config, s: State, e: Event, round: u64, v: ValidatorId)
    requires !e.Recovery? && v in RoundVotes(s, round)
    ensures v in RoundVotes(Next(cfg, s, e), round)
    ensures RoundVotes(Next(cfg, s, e), round)[v] == RoundVotes(s, round)[v]
  {
    hide TryFormQc, Slash;
    if e.CastVote? && Admitted(cfg, e.halted, s, e.v) && !Equivocates(s, e.v) {
      FormTouches(cfg, Recorded(s, e.v), e.v.block, e.v.round);
    }
  }

  lemma {:induction false} RunKeepsVotes(cfg: Config, ledger: Ledger, events: seq<Event>, more: seq<Event>, round: u64,
                                         v: ValidatorId)
    requires NoRecovery(more) && v in RoundVotes(After(cfg, ledger, events), round)
    ensures v in RoundVotes(After(cfg, ledger, events + more), round)
    ensures RoundVotes(After(cfg, ledger, events + more), round)[v] == RoundVotes(After(cfg, ledger, events), round)[v]
  {
    if more == [] {
      assert events + more == events;
    } else {
      hide Next, RoundVotes, After;
      var front, e := more[..|more| - 1], more[|more| - 1];
      RunKeepsVotes(cfg, ledger, events, front, round, v);
      assert events + more == events + front + [e];
      AfterAppend(cfg, ledger, events + front, e);
      NextKeepsVotes(cfg, After(cfg, ledger, events + front), e, round, v);
    }
  }

  lemma OnlySlashedTransitive(a: Ledger, b: Ledger, c: Ledger)
    requires OnlySlashed(a, b) && OnlySlashed(b, c)
    ensures OnlySlashed(a, c)
  {
    hide Total;
  }

  lemma {:induction false} RunOnlySlashes(cfg: Config, ledger: Ledger, events: seq<Event>, more: seq<Event>)
    ensures OnlySlashed(After(cfg, ledger, events).ledger, After(cfg, ledger, events + more).ledger)
  {
    hide Total;
    if more == [] {
      assert events + more == events;
    } else {
      hide Next, OnlySlashed, After;
      var front, e := more[..|more| - 1], more[|more| - 1];
      RunOnlySlashes(cfg, ledger, events, front);
      assert events + more == events + front + [e];
      AfterAppend(cfg, ledger, events + front, e);
      NextOnlySlashes(cfg, After(cfg, ledger, events + front), e);
      OnlySlashedTransitive(
        After(cfg, ledger, events).ledger, After(cfg, ledger, events + front).ledger,
          After(cfg, ledger, events + more).ledger);
    }
  }

  // -------- quorums intersect --------

  /**
   Exactly when the threshold is more than half of the stake: by the product as 64 bits hold it, and the one that is
   added must not wrap.
   */
  lemma ThresholdIsOverHalfIff(cfg: Config, total: u64)
    requires total > 0
    ensures 2 * Threshold(cfg, total) > total <==>
      && Wrap64(total * cfg.numerator) >= cfg.denominator * (total / 2)
      && !(cfg.denominator == 1 && Wrap64(total * cfg.numerator) == U64_MAX)
  {
    hide U256.Quotient, Wrap64;
    var product, d: nat := Wrap64(total * cfg.numerator), cfg.denominator;
    var q := U256.Quotient(product, d);
    U256.QuotientAtMost(product, d);
    assert q >= total / 2 <==> product >= d * (total / 2) by {
      QuotientAtLeast(product, d, total / 2);
    }
    assert q == U64_MAX <==> d == 1 && product == U64_MAX by {
      QuotientIsMax(product, d);
    }
    NextWraps(q);
  }

  lemma NextWraps(q: u64)
    ensures Wrap64(q + 1) == if q == U64_MAX then 0 else q + 1
  {
  }

  lemma QuotientAtLeast(x: nat, d: nat, k: nat)
    requires d > 0
    ensures U256.Quotient(x, d) >= k <==> x >= d * k
  {
    hide U256.Quotient;
    var q := U256.Quotient(x, d);
    if q >= k {
      FewerProduct(k, q, d);
    } else {
      FewerProduct(q + 1, k, d);
    }
  }

  lemma QuotientIsMax(x: u64, d: nat)
    requires d > 0
    ensures U256.Quotient(x, d) == U64_MAX <==> d == 1 && x == U64_MAX
  {
    hide U256.Quotient;
    QuotientAtLeast(x, d, U64_MAX);
    U256.QuotientAtMost(x, d);
  }

  /** With the usual two thirds that is so exactly for stake below 2^63: from there on the product wraps. */
  lemma TwoThirdsIsOverHalfIff(cfg: Config, total: u64)
    requires cfg.numerator == 2 && cfg.denominator == 3 && total > 0
    ensures 2 * Threshold(cfg, total) > total <==> total < 0x8000_0000_0000_0000
  {
    hide Threshold;
    ThresholdIsOverHalfIff(cfg, total);
    assert Wrap64(total * 2) == if total < 0x8000_0000_0000_0000 then total * 2 else total * 2 - (U64_MAX + 1);
  }

  /** Voters of enough stake for a certificate; a threshold of zero admits none. */
  ghost predicate Reaches(cfg: Config, ledger: Ledger, total: u64, voters: set<ValidatorId>) {
    Threshold(cfg, total) != 0 && Weight(Stakes(ledger), voters) >= Threshold(cfg, total)
  }

  /** Any two sets of voters that reach the threshold share one, however the stake is spread. */
  ghost predicate QuorumsMeet(cfg: Config, total: u64) {
    forall ledger, a, b | Total(ledger) == total && Reaches(cfg, ledger, total, a) && Reaches(cfg, ledger, total, b) ::
      a * b != {}
  }

  /** What the threshold is for, and exactly when the arithmetic delivers it. */
  lemma QuorumsMeetIff(cfg: Config, total: u64)
    ensures QuorumsMeet(cfg, total) <==> Wrap64(total * cfg.numerator) >= cfg.denominator * (total / 2)
  {
    hide Weight, Stakes, Total, Threshold;
    if total > 0 {
      ThresholdIsOverHalfIff(cfg, total);
    } else {
      assert Threshold(cfg, total) == 0 by { NoStakeNoQuorum(cfg); }
    }
    if total == 0 || Threshold(cfg, total) == 0 || 2 * Threshold(cfg, total) > total {
      forall ledger, a, b | Total(ledger) == total && Reaches(cfg, ledger, total, a) && Reaches(cfg, ledger, total, b)
        ensures a * b != {}
      {
        HeavyMeet(ledger, a, b);
      }
      if total > 0 && Threshold(cfg, total) == 0 {
        ZeroThreshold(cfg, total);
      }
    } else {
      var ledger, a, b := SplitLedger(Threshold(cfg, total), total);
      assert Reaches(cfg, ledger, total, a) && Reaches(cfg, ledger, total, b);
      if Threshold(cfg, total) > 0 {
        ZeroThreshold(cfg, total);
      }
    }
  }

  lemma NoStakeNoQuorum(cfg: Config)
    ensures Threshold(cfg, 0) == 0
  {
  }

  /** The threshold of some stake is zero only where adding one wraps, and then the product is large. */
  lemma ZeroThreshold(cfg: Config, total: u64)
    requires total > 0
    ensures Threshold(cfg, total) == 0 <==> cfg.denominator == 1 && Wrap64(total * cfg.numerator) == U64_MAX
  {
    hide U256.Quotient, Wrap64;
    var q := U256.Quotient(Wrap64(total * cfg.numerator), cfg.denominator);
    U256.QuotientAtMost(Wrap64(total * cfg.numerator), cfg.denominator);
    QuotientIsMax(Wrap64(total * cfg.numerator), cfg.denominator);
    NextWraps(q);
  }

  lemma HeavyMeet(ledger: Ledger, a: set<ValidatorId>, b: set<ValidatorId>)
    ensures Weight(Stakes(ledger), a) + Weight(Stakes(ledger), b) > Total(ledger) ==> a * b != {}
  {
    hide Weight, Stakes;
    InclusionExclusion(Stakes(ledger), a, b);
    WeightAtMostSum(Stakes(ledger), a + b);
    WeightOfNone(Stakes(ledger));
  }

  /** A ledger of two validators, the first with `part` of the stake. */
  lemma SplitLedger(part: u64, total: u64) returns (ledger: Ledger, a: set<ValidatorId>, b: set<ValidatorId>)
    requires part <= total
    ensures Total(ledger) == total && a * b == {}
    ensures Weight(Stakes(ledger), a) == part && Weight(Stakes(ledger), b) == total - part
  {
    hide Weight;
    ledger := map["first" := Position(part, 0, 0, false), "second" := Position(total - part, 0, 0, false)];
    a, b := {"first"}, {"second"};
    var m := Stakes(ledger);
    assert "first" in ledger && "second" in ledger;
    WeightOfNone(m);
    WeightAdd(m, {}, "first");
    WeightAdd(m, {}, "second");
    assert {} + {"first"} == a && {} + {"second"} == b;
    InclusionExclusion(m, a, b);
    assert a * b == {};
    assert Restrict(m, a + b) == m;
    WeightIsSum(m, a + b);
    TotalIsSum(ledger);
  }

  /** Without wrapping, at least one half as fraction is enough. */
  lemma ThresholdIsOverHalf(cfg: Config, total: nat, w: nat)
    requires 2 * cfg.numerator >= cfg.denominator && total <= U64_MAX && total * cfg.numerator < U64_MAX
    requires Threshold(cfg, total) != 0 && w >= Threshold(cfg, total)
    ensures 2 * w > total
  {
    hide U256.Quotient, Threshold;
    if total > 0 {
      Doubled(total / 2, cfg.denominator, total, cfg.numerator);
      ThresholdIsOverHalfIff(cfg, total);
    }
  }

  lemma Doubled(w: nat, d: nat, total: nat, n: nat)
    requires 2 * w <= total && 2 * n >= d
    ensures w * d <= total * n
  {
    assert w * d <= w * (2 * n);
    assert w * (2 * n) == (2 * w) * n;
    assert (2 * w) * n <= total * n;
  }

  lemma HasQuorumIsOverHalf(cfg: Config, s: State, block: BlockId)
    requires SoundQuorum(cfg, s.ledger) && HasQuorum(cfg, s, block)
    ensures 2 * Weight(Stakes(s.ledger), CountedVoters(s, block)) > Total(s.ledger)
  {
    hide Weight, Threshold, CountedVoters, Stakes, Total;
    TotalIsSum(s.ledger);
    WeightAtMostSum(Stakes(s.ledger), CountedVoters(s, block));
    ThresholdIsOverHalf(cfg, Total(s.ledger), Weight(Stakes(s.ledger), CountedVoters(s, block)));
  }

  lemma TotalIsSum(ledger: Ledger)
    ensures Total(ledger) == Sum(Stakes(ledger))
  {
  }

  lemma FewerProduct(a: nat, b: nat, n: nat)
    requires a <= b
    ensures a * n <= b * n
  {
  }

  lemma StillSound(cfg: Config, before: Ledger, after: Ledger)
    requires SoundQuorum(cfg, before) && OnlySlashed(before, after)
    ensures SoundQuorum(cfg, after)
  {
    hide Total;
    FewerProduct(Total(after), Total(before), cfg.numerator);
  }

  /** Two disjoint sets cannot each hold over half of the stake, the first at its time and the second later. */
  lemma DisjointQuorums(before: Ledger, after: Ledger, a: set<ValidatorId>, b: set<ValidatorId>)
    requires OnlySlashed(before, after) && a * b == {}
    requires 2 * Weight(Stakes(before), a) > Total(before)
    requires 2 * Weight(Stakes(after), b) > Total(after)
    ensures exists v :: v in a && IsSlashed(after, v)
  {
    hide Weight;
    if forall v | v in a :: !IsSlashed(after, v) {
      forall v ensures v in Restrict(Stakes(before), a) ==> Value(Stakes(after), v) == Stakes(before)[v] {
        BondedIsStake(before, v);
        BondedIsStake(after, v);
      }
      HeavierAfter(Stakes(before), Stakes(after), a);
      WeightOfNone(Stakes(after));
      WeightAtMostSum(Stakes(after), a + b);
      InclusionExclusion(Stakes(after), a, b);
    }
  }

  lemma {:induction false} HeavierAfter(m: map<ValidatorId, nat>, m': map<ValidatorId, nat>, a: set<ValidatorId>)
    requires forall v | v in Restrict(m, a) :: Value(m', v) == m[v]
    ensures Weight(m', a) >= Weight(m, a)
    decreases a
  {
    hide Weight;
    if a == {} {
      WeightOfNone(m);
      WeightOfNone(m');
    } else {
      var x :| x in a;
      var rest := a - {x};
      forall v | v in Restrict(m, rest) ensures Value(m', v) == m[v] {
        assert v in Restrict(m, a);
      }
      HeavierAfter(m, m', rest);
      assert a == rest + {x};
      WeightAdd(m, rest, x);
      WeightAdd(m', rest, x);
      assert x in m ==> x in Restrict(m, a);
    }
  }

  predicate SlashedBetween(before: Ledger, after: Ledger, v: ValidatorId) {
    !IsSlashed(before, v) && IsSlashed(after, v)
  }

  /**
   * Two certificates for different blocks in one round mean that a signer of the first was slashed before the second:
   * without a recovery in between, no two conflicting certificates are formed without someone paying for it.
   */
  lemma ConflictingCertificatesSlash(cfg: Config, ledger: Ledger, events: seq<Event>, more: seq<Event>, e: Event,
                                     f: Event)
    returns (v: ValidatorId)
    requires DistinctIds(cfg) && SoundQuorum(cfg, ledger)
    requires VotesFromProposals(cfg, events + [e] + more + [f]) && NoRecovery(more)
    requires FormedBy(cfg, After(cfg, ledger, events), e).Some?
    requires FormedBy(cfg, After(cfg, ledger, events + [e] + more), f).Some?
    requires e.v.round == f.v.round && e.v.block != f.v.block
    ensures v in FormedBy(cfg, After(cfg, ledger, events), e).value.voters
    ensures SlashedBetween(After(cfg, ledger, events).ledger, After(cfg, ledger, events + [e] + more).ledger, v)
  {
    hide After, HasQuorum, SoundQuorum, OnlySlashed, DistinctIds, OneVoteEach, VotesFromProposals, CountedVoters, Next;
    var s, t := After(cfg, ledger, events), After(cfg, ledger, events + [e] + more);
    var a := FormedBy(cfg, s, e).value.voters;
    var b := FormedBy(cfg, t, f).value.voters;
    assert events + [e] + more == events + ([e] + more);
    assert [] + events == events && [] + (events + [e] + more) == events + [e] + more;
    RunOnlySlashes(cfg, ledger, [], events);
    RunOnlySlashes(cfg, ledger, [], events + [e] + more);
    RunOnlySlashes(cfg, ledger, events, [e] + more);
    StartLedger(cfg, ledger);
    StillSound(cfg, ledger, s.ledger);
    StillSound(cfg, ledger, t.ledger);
    HasQuorumIsOverHalf(cfg, Recorded(s, e.v), e.v.block);
    HasQuorumIsOverHalf(cfg, Recorded(t, f.v), f.v.block);
    CertificateVotersDisjoint(cfg, ledger, events, more, e, f);
    DisjointQuorums(s.ledger, t.ledger, a, b);
    v :| v in a && IsSlashed(t.ledger, v);
    CountedAreNotSlashed(Recorded(s, e.v), e.v.block, v);
  }

  lemma StartLedger(cfg: Config, ledger: Ledger)
    ensures After(cfg, ledger, []).ledger == ledger
  {
  }

  lemma CountedAreNotSlashed(s: State, block: BlockId, v: ValidatorId)
    requires v in CountedVoters(s, block)
    ensures !IsSlashed(s.ledger, v) && v in SigsOf(s, block)
  {
  }

  lemma AfterAppend(cfg: Config, ledger: Ledger, events: seq<Event>, e: Event)
    ensures After(cfg, ledger, events + [e]) == Next(cfg, After(cfg, ledger, events), e)
  {
    assert (events + [e])[..|events|] == events;
  }

  /** After a vote that forms a certificate, its voters' votes in that round are recorded for its block. */
  lemma VotersAreRecorded(cfg: Config, ledger: Ledger, events: seq<Event>, e: Event, v: ValidatorId)
    requires DistinctIds(cfg) && VotesFromProposals(cfg, events + [e])
    requires FormedBy(cfg, After(cfg, ledger, events), e).Some?
    requires v in FormedBy(cfg, After(cfg, ledger, events), e).value.voters
    ensures v in RoundVotes(After(cfg, ledger, events + [e]), e.v.round)
    ensures RoundVotes(After(cfg, ledger, events + [e]), e.v.round)[v] == e.v.block
  {
    hide After, HasQuorum, TryFormQc, DistinctIds, CountedVoters;
    var s := After(cfg, ledger, events);
    CountedAreNotSlashed(Recorded(s, e.v), e.v.block, v);
    AfterAppend(cfg, ledger, events, e);
    FormTouches(cfg, Recorded(s, e.v), e.v.block, e.v.round);
    RunKeepsOneVoteEach(cfg, ledger, events + [e]);
    assert (events + [e])[|events|] == e;
    var p :| FromProposal(cfg, p, e.v);
    assert v in SigsOf(After(cfg, ledger, events + [e]), cfg.proposalId(p));
  }

  lemma PrefixFromProposals(cfg: Config, a: seq<Event>, b: seq<Event>)
    requires VotesFromProposals(cfg, a + b)
    ensures VotesFromProposals(cfg, a)
  {
    forall i | 0 <= i < |a| && a[i].CastVote? ensures exists p :: FromProposal(cfg, p, a[i].v) {
      assert (a + b)[i] == a[i];
    }
  }

  lemma CertificateVotersDisjoint(cfg: Config, ledger: Ledger, events: seq<Event>, more: seq<Event>, e: Event, f: Event)
    requires DistinctIds(cfg)
    requires VotesFromProposals(cfg, events + [e] + more + [f]) && NoRecovery(more)
    requires FormedBy(cfg, After(cfg, ledger, events), e).Some?
    requires FormedBy(cfg, After(cfg, ledger, events + [e] + more), f).Some?
    requires e.v.round == f.v.round && e.v.block != f.v.block
    ensures FormedBy(cfg, After(cfg, ledger, events), e).value.voters
      * FormedBy(cfg, After(cfg, ledger, events + [e] + more), f).value.voters == {}
  {
    hide After, FormedBy, DistinctIds, VotesFromProposals, RoundVotes, FromProposal, Next;
    var a := FormedBy(cfg, After(cfg, ledger, events), e).value.voters;
    var b := FormedBy(cfg, After(cfg, ledger, events + [e] + more), f).value.voters;
    PrefixFromProposals(cfg, events + [e] + more, [f]);
    PrefixFromProposals(cfg, events + [e], more);
    forall v ensures !(v in a && v in b) {
      if v in a && v in b {
        FormingIsVoting(cfg, After(cfg, ledger, events), e);
        VotersAreRecorded(cfg, ledger, events, e, v);
        VotersAreRecorded(cfg, ledger, events + [e] + more, f, v);
        assert events + [e] + more + [f] == events + [e] + (more + [f]);
        FormingIsVoting(cfg, After(cfg, ledger, events + [e] + more), f);
        RunKeepsVotes(cfg, ledger, events + [e], more + [f], e.v.round, v);
      }
    }
  }

  lemma FormingIsVoting(cfg: Config, s: State, e: Event)
    requires FormedBy(cfg, s, e).Some?
    ensures e.CastVote? && !e.Recovery?
  {
  }

  // -------- who is slashed --------

  /** A validator is slashed only for a vote of its own that contradicts its recorded vote in the same round. */
  lemma OnlyEquivocatorsAreSlashed(cfg: Config, s: State, e: Event, v: ValidatorId)
    requires SlashedBetween(s.ledger, Next(cfg, s, e).ledger, v)
    ensures e.CastVote? && e.v.voter == v && cfg.sign(v, e.v.round, e.v.block) == Some(e.v.signature)
    ensures v in RoundVotes(s, e.v.round) && RoundVotes(s, e.v.round)[v] != e.v.block
  {
    hide TryFormQc, Total;
    if e.CastVote? && Admitted(cfg, e.halted, s, e.v) {
      if Equivocates(s, e.v) {
        SlashOnlyLowers(s.ledger, e.v.voter);
      } else {
        FormTouches(cfg, Recorded(s, e.v), e.v.block, e.v.round);
      }
    }
  }

  // -------- commits --------

  /** Ids are hashes: no two proposals share one, and none has the genesis id. */
  ghost predicate IdsAreHashes(cfg: Config) {
    DistinctIds(cfg) && forall p :: cfg.proposalId(p) != GENESIS
  }

  predicate OnParent(s: State, p: Proposal) {
    if p.height == 0 then p.parent == GENESIS
    else p.parent in s.blocks && s.blocks[p.parent].prop.height + 1 == p.height
  }

  /** Every known block but the first is filed under its own id and stands one height above a known parent. */
  predicate Chained(cfg: Config, s: State) {
    && GENESIS in s.blocks && s.blocks[GENESIS].prop.height == 0
    && forall id | id in s.blocks && id != GENESIS ::
      cfg.proposalId(s.blocks[id].prop) == id && OnParent(s, s.blocks[id].prop)
  }

  /** A committed block is certified. */
  predicate CommitCertified(s: State) {
    s.committed.Some? ==> s.committed.value.qc.Some?
  }

  lemma NextKeepsChain(cfg: Config, s: State, e: Event)
    requires IdsAreHashes(cfg) && Chained(cfg, s) && CommitCertified(s)
    ensures Chained(cfg, Next(cfg, s, e)) && CommitCertified(Next(cfg, s, e))
  {
    hide HasQuorum, CountedVoters, Slash, Chained, TryCommit, Install;
    match e
    case Propose(halted, p) => ProposalKeepsChain(cfg, halted, s, p);
    case CastVote(halted, v) =>
      if Admitted(cfg, halted, s, v) && !Equivocates(s, v) {
        var r := Recorded(s, v);
        SameBlocks(cfg, s, r);
        var qc := Certificate(cfg, r, v.block, v.round);
        if qc.Some? {
          InstallKeepsChain(cfg, r, qc.value);
          CommitKeepsCertified(cfg, Install(r, qc.value));
        }
      } else {
        SameBlocks(cfg, s, Next(cfg, s, e));
      }
    case Recovery(round) => SameBlocks(cfg, s, Next(cfg, s, e));
  }

  lemma SameBlocks(cfg: Config, s: State, s': State)
    requires Chained(cfg, s) && s'.blocks == s.blocks
    ensures Chained(cfg, s')
  {
    hide OnParent;
    forall id | id in s'.blocks && id != GENESIS ensures OnParent(s', s'.blocks[id].prop) {
      OnParentStays(s, s', s.blocks[id].prop);
    }
  }

  /** Blocks may gain entries and certificates, but no proposal changes. */
  predicate KeepsProposals(s: State, s': State) {
    forall id | id in s.blocks :: id in s'.blocks && s'.blocks[id].prop == s.blocks[id].prop
  }

  lemma OnParentStays(s: State, s': State, p: Proposal)
    requires KeepsProposals(s, s') && OnParent(s, p)
    ensures OnParent(s', p)
  {
  }

  lemma ProposalKeepsChain(cfg: Config, halted: bool, s: State, p: Proposal)
    requires IdsAreHashes(cfg) && Chained(cfg, s)
    ensures Chained(cfg, OnProposal(cfg, halted, s, p))
  {
    var s' := OnProposal(cfg, halted, s, p);
    if s' != s {
      AddedBlockKeepsChain(cfg, s, p, s');
    }
  }

  lemma AddedBlockKeepsChain(cfg: Config, s: State, p: Proposal, s': State)
    requires IdsAreHashes(cfg) && Chained(cfg, s) && Extends(s, p)
    requires s'.blocks == s.blocks[cfg.proposalId(p) := Block(p, cfg.proposalId(p), None)]
    ensures Chained(cfg, s')
  {
    hide OnParent;
    var fresh' := cfg.proposalId(p);
    assert fresh' != GENESIS;
    assert fresh' in s.blocks ==> s.blocks[fresh'].prop == p;
    assert KeepsProposals(s, s');
    ExtendsIsOnParent(s, p);
    OnParentStays(s, s', p);
    forall id | id in s'.blocks && id != GENESIS && id != fresh' ensures OnParent(s', s'.blocks[id].prop) {
      OnParentStays(s, s', s.blocks[id].prop);
    }
  }

  lemma ExtendsIsOnParent(s: State, p: Proposal)
    requires Extends(s, p)
    ensures OnParent(s, p)
  {
  }

  lemma InstallKeepsChain(cfg: Config, s: State, qc: QuorumCert)
    requires Chained(cfg, s) && qc.block in s.blocks
    ensures Chained(cfg, Install(s, qc)) && Install(s, qc).committed == s.committed
  {
    hide OnParent;
    var s' := Install(s, qc);
    forall id | id in s'.blocks && id != GENESIS
      ensures cfg.proposalId(s'.blocks[id].prop) == id && OnParent(s', s'.blocks[id].prop)
    {
      OnParentStays(s, s', s.blocks[id].prop);
    }
  }

  lemma CommitKeepsCertified(cfg: Config, s: State)
    requires Chained(cfg, s) && CommitCertified(s)
    ensures Chained(cfg, TryCommit(cfg, s)) && CommitCertified(TryCommit(cfg, s))
  {
    CommitTouches(cfg, s);
    SameBlocks(cfg, s, TryCommit(cfg, s));
  }

  /** In every run known blocks form a tree over the genesis block, rising by one, and commits are certified. */
  lemma {:induction false} RunKeepsChain(cfg: Config, ledger: Ledger, events: seq<Event>)
    requires IdsAreHashes(cfg)
    ensures Chained(cfg, After(cfg, ledger, events)) && CommitCertified(After(cfg, ledger, events))
  {
    if events != [] {
      hide Next, Chained;
      RunKeepsChain(cfg, ledger, events[..|events| - 1]);
      NextKeepsChain(cfg, After(cfg, ledger, events[..|events| - 1]), events[|events| - 1]);
    } else {
      StartIsChained(cfg, ledger);
    }
  }

  lemma StartIsChained(cfg: Config, ledger: Ledger)
    ensures Chained(cfg, Start(ledger))
  {
  }

  /** The highest certificate's round never falls. */
  lemma HighQcNeverFalls(cfg: Config, s: State, e: Event)
    requires s.highQc.Some?
    ensures Next(cfg, s, e).highQc.Some? && Next(cfg, s, e).highQc.value.round >= s.highQc.value.round
    ensures FormedBy(cfg, s, e).Some? ==> Next(cfg, s, e).highQc.value.round >= e.v.round
  {
    hide HasQuorum, CountedVoters, Slash, TryCommit;
    if e.CastVote? && Admitted(cfg, e.halted, s, e.v) && !Equivocates(s, e.v) {
      var qc := Certificate(cfg, Recorded(s, e.v), e.v.block, e.v.round);
      if qc.Some? {
        CommitTouches(cfg, Install(Recorded(s, e.v), qc.value));
      }
    }
  }
}
