/** Signed checkpoints: acceptance by two thirds of the bonded stake, and what two acceptances share. */
module Checkpoint {
  import opened Common
  import opened Sums
  import opened Staking

  type Hash = nat

  datatype Header = Header(height: u64, blockHash: Hash, stateRoot: Hash, protocolVersion: nat)

  datatype Sig = Sig(validator: ValidatorId, signature: Hash)

  datatype VerifyStatus =
    | Accepted | DuplicateSigner | UnknownValidator | MissingPubkey | InvalidSignature | QuorumNotMet

  /** Public keys and the signature check, given by their meaning for one header. */
  datatype Keys = Keys(known: ValidatorId -> bool, signs: (ValidatorId, Header, Hash) -> bool)

  function Signers(sigs: seq<Sig>): set<ValidatorId> {
    set i | 0 <= i < |sigs| :: sigs[i].validator
  }

  predicate DistinctSigners(sigs: seq<Sig>) {
    forall i, j | 0 <= i < j < |sigs| :: sigs[i].validator != sigs[j].validator
  }

  predicate GoodSignature(header: Header, s: Sig, keys: Keys, ledger: Ledger) {
    && s.validator != "" && !IsSlashed(ledger, s.validator) && BondedOf(ledger, s.validator) > 0
    && keys.known(s.validator) && keys.signs(s.validator, header, s.signature)
  }

  /** Accepted: distinct, known, staked signers, every signature good, and two thirds of the stake behind it. */
  ghost predicate Valid(header: Header, sigs: seq<Sig>, keys: Keys, ledger: Ledger) {
    && DistinctSigners(sigs)
    && (forall i | 0 <= i < |sigs| :: GoodSignature(header, sigs[i], keys, ledger))
    && Total(ledger) > 0
    && Weight(Stakes(ledger), Signers(sigs)) * 3 >= Total(ledger) * 2
  }

  /** What the code decides: the same on 64 bits, where the signed stake must fit and the total wraps. */
  ghost predicate Accepts(header: Header, sigs: seq<Sig>, keys: Keys, ledger: Ledger) {
    && DistinctSigners(sigs)
    && (forall i | 0 <= i < |sigs| :: GoodSignature(header, sigs[i], keys, ledger))
    && Weight(Stakes(ledger), Signers(sigs)) <= U64_MAX
    && Wrap64(Total(ledger)) > 0
    && Weight(Stakes(ledger), Signers(sigs)) * 3 >= Wrap64(Total(ledger)) * 2
  }

  /** While the stake fits 64 bits that is validity. */
  lemma AcceptsIsValid(header: Header, sigs: seq<Sig>, keys: Keys, ledger: Ledger)
    requires Total(ledger) <= U64_MAX
    ensures Accepts(header, sigs, keys, ledger) <==> Valid(header, sigs, keys, ledger)
  {
    WeightAtMostSum(Stakes(ledger), Signers(sigs));
  }

  /** When all stake signs well the list is valid, and it is accepted exactly while the stake fits 64 bits. */
  lemma EverybodySignsIff(header: Header, sigs: seq<Sig>, keys: Keys, ledger: Ledger)
    requires DistinctSigners(sigs) && forall i | 0 <= i < |sigs| :: GoodSignature(header, sigs[i], keys, ledger)
    requires Weight(Stakes(ledger), Signers(sigs)) == Total(ledger) > 0
    ensures Valid(header, sigs, keys, ledger)
    ensures Accepts(header, sigs, keys, ledger) <==> Total(ledger) <= U64_MAX
  {
    hide Weight, Total, Stakes;
  }

  /** Every validator with stake has a known key and some good signature of this header. */
  ghost predicate EverybodyCanSign(header: Header, keys: Keys, ledger: Ledger) {
    forall v | BondedOf(ledger, v) > 0 :: exists signature :: GoodSignature(header, Sig(v, signature), keys, ledger)
  }

  /** Acceptance means validity, for every list of signatures, exactly when the bonded stake fits 64 bits. */
  lemma AcceptanceIsValidityIff(header: Header, keys: Keys, ledger: Ledger)
    requires EverybodyCanSign(header, keys, ledger)
    ensures (forall sigs :: Accepts(header, sigs, keys, ledger) <==> Valid(header, sigs, keys, ledger))
        <==> Total(ledger) <= U64_MAX
  {
    hide Total, Weight, Stakes, GoodSignature, BondedOf, Accepts, Valid;
    if Total(ledger) <= U64_MAX {
      forall sigs ensures Accepts(header, sigs, keys, ledger) <==> Valid(header, sigs, keys, ledger) {
        AcceptsIsValid(header, sigs, keys, ledger);
      }
    } else {
      var who := set v | v in ledger && BondedOf(ledger, v) > 0;
      StakedIsAll(ledger, who);
      var sigs := AllSign(header, keys, ledger, who);
      EverybodySignsIff(header, sigs, keys, ledger);
    }
  }

  lemma {:induction false} AllSign(header: Header, keys: Keys, ledger: Ledger, who: set<ValidatorId>)
    returns (sigs: seq<Sig>)
    requires EverybodyCanSign(header, keys, ledger) && forall v | v in who :: BondedOf(ledger, v) > 0
    ensures DistinctSigners(sigs) && Signers(sigs) == who
    ensures forall i | 0 <= i < |sigs| :: GoodSignature(header, sigs[i], keys, ledger)
    decreases who
  {
    hide GoodSignature, BondedOf;
    if who == {} {
      return [];
    }
    var v :| v in who;
    var rest := AllSign(header, keys, ledger, who - {v});
    var signature :| GoodSignature(header, Sig(v, signature), keys, ledger);
    sigs := rest + [Sig(v, signature)];
    SignersAppend(rest, Sig(v, signature));
    assert who - {v} + {v} == who;
    forall i, j | 0 <= i < j < |sigs| ensures sigs[i].validator != sigs[j].validator {
      assert sigs[i].validator in Signers(rest);
    }
  }

  lemma StakedIsAll(ledger: Ledger, who: set<ValidatorId>)
    requires forall v :: v in who <==> v in ledger && BondedOf(ledger, v) > 0
    ensures Weight(Stakes(ledger), who) == Total(ledger)
  {
    hide Weight;
    var m := Stakes(ledger);
    var others := m.Keys - who;
    InclusionExclusion(m, who, others);
    NoStakeNoWeight(m, others);
    assert who * others == {} && Restrict(m, who + others) == m;
    WeightOfNone(m);
    WeightIsSum(m, who + others);
  }

  lemma {:induction false} NoStakeNoWeight(m: map<ValidatorId, nat>, s: set<ValidatorId>)
    requires forall v | v in s :: Value(m, v) == 0
    ensures Weight(m, s) == 0
    decreases s
  {
    hide Weight;
    if s == {} {
      WeightOfNone(m);
    } else {
      var v :| v in s;
      NoStakeNoWeight(m, s - {v});
      WeightAdd(m, s - {v}, v);
      assert s - {v} + {v} == s;
    }
  }

  /** Beyond, one unit of stake can be enough. */
  lemma WrappedTotalIsNoQuorum(header: Header, s: Sig, keys: Keys, ledger: Ledger)
    requires Total(ledger) == U64_MAX + 2 && GoodSignature(header, s, keys, ledger)
      && BondedOf(ledger, s.validator) == 1
    ensures Accepts(header, [s], keys, ledger) && !Valid(header, [s], keys, ledger)
  {
    hide Weight, Total, Stakes, BondedOf, GoodSignature;
    SignersAppend([], s);
    assert [] + [s] == [s] && Signers([]) == {};
    WeightOfNone(Stakes(ledger));
    SignedStakeGrows(ledger, {}, s.validator);
  }

  lemma SignersAppend(sigs: seq<Sig>, s: Sig)
    ensures Signers(sigs + [s]) == Signers(sigs) + {s.validator}
  {
    var all := sigs + [s];
    forall v ensures v in Signers(all) <==> v in Signers(sigs) + {s.validator} {
      if v in Signers(sigs) {
        var i :| 0 <= i < |sigs| && sigs[i].validator == v;
        assert all[i].validator == v;
      }
      if v == s.validator {
        assert all[|sigs|].validator == v;
      }
    }
  }

  /** One loop over the signatures and one comparison decide exactly that. */
  method VerifySignedCheckpoint(header: Header, sigs: seq<Sig>, keys: Keys, ledger: Ledger)
    returns (status: VerifyStatus)
    ensures status.Accepted? <==> Accepts(header, sigs, keys, ledger)
  {
    hide Weight, Total, BondedOf, Stakes;
    var seen: set<ValidatorId> := {};
    var signedStake: u64 := 0;
    WeightOfNone(Stakes(ledger));
    assert Signers(sigs[..0]) == {};
    for i := 0 to |sigs|
      invariant seen == Signers(sigs[..i]) && DistinctSigners(sigs[..i])
      invariant forall k | 0 <= k < i :: GoodSignature(header, sigs[k], keys, ledger)
      invariant signedStake == Weight(Stakes(ledger), seen)
    {
      var s := sigs[i];
      assert sigs[..i + 1] == sigs[..i] + [s];
      SignersAppend(sigs[..i], s);
      if s.validator == "" {
        return UnknownValidator;
      }
      if s.validator in seen {
        return DuplicateSigner;
      }
      ghost var before := seen;
      seen := seen + {s.validator};
      if IsSlashed(ledger, s.validator) {
        return UnknownValidator;
      }
      var stake := BondedOf(ledger, s.validator);
      if stake == 0 {
        return UnknownValidator;
      }
      if !keys.known(s.validator) {
        return MissingPubkey;
      }
      if !keys.signs(s.validator, header, s.signature) {
        return InvalidSignature;
      }
      SignedStakeGrows(ledger, before, s.validator);
      if Wrap64(signedStake + stake) < signedStake {
        MoreSigners(sigs, i + 1, ledger);
        return QuorumNotMet;
      }
      signedStake := Wrap64(signedStake + stake);
    }
    assert sigs[..|sigs|] == sigs;
    var total: nat := TotalBonded(ledger);
    if total == 0 {
      return QuorumNotMet;
    }
    if signedStake * 3 < total * 2 {
      return QuorumNotMet;
    }
    return Accepted;
  }

  lemma SignedStakeGrows(ledger: Ledger, seen: set<ValidatorId>, v: ValidatorId)
    requires v !in seen
    ensures Weight(Stakes(ledger), seen + {v}) == Weight(Stakes(ledger), seen) + BondedOf(ledger, v)
  {
    WeightAdd(Stakes(ledger), seen, v);
    BondedIsStake(ledger, v);
  }

  lemma MoreSigners(sigs: seq<Sig>, i: nat, ledger: Ledger)
    requires i <= |sigs|
    ensures Weight(Stakes(ledger), Signers(sigs[..i])) <= Weight(Stakes(ledger), Signers(sigs))
  {
    WeightMonotone(Stakes(ledger), Signers(sigs[..i]), Signers(sigs));
  }

  /** Two checkpoints accepted against one ledger share signers with at least a third of the bonded stake. */
  lemma AcceptedCheckpointsOverlap(
    a: Header, sigsA: seq<Sig>, b: Header, sigsB: seq<Sig>, keys: Keys, ledger: Ledger)
    requires Total(ledger) <= U64_MAX && Accepts(a, sigsA, keys, ledger) && Accepts(b, sigsB, keys, ledger)
    ensures Weight(Stakes(ledger), Signers(sigsA) * Signers(sigsB)) * 3 >= Total(ledger)
    ensures exists v :: v in Signers(sigsA) && v in Signers(sigsB)
  {
    hide Weight;
    var stakes := Stakes(ledger);
    var x, y := Signers(sigsA), Signers(sigsB);
    AcceptsIsValid(a, sigsA, keys, ledger);
    AcceptsIsValid(b, sigsB, keys, ledger);
    InclusionExclusion(stakes, x, y);
    WeightAtMostSum(stakes, x + y);
    if x * y == {} {
      WeightOfNone(stakes);
    }
    var v :| v in x * y;
  }

  /** A validator who signs only one header at a height rules out two different ones accepted there. */
  lemma HonestThirdPreventsForks(
    a: Header, sigsA: seq<Sig>, b: Header, sigsB: seq<Sig>, keys: Keys, ledger: Ledger, honest: set<ValidatorId>)
    requires Total(ledger) <= U64_MAX && Accepts(a, sigsA, keys, ledger) && Accepts(b, sigsB, keys, ledger)
    requires a.height == b.height
    requires forall v, s, s' | v in honest && keys.signs(v, a, s) && keys.signs(v, b, s') :: a == b
    requires (Total(ledger) - Weight(Stakes(ledger), honest)) * 3 < Total(ledger)
    ensures a == b
  {
    hide Weight;
    var stakes := Stakes(ledger);
    var both := Signers(sigsA) * Signers(sigsB);
    AcceptedCheckpointsOverlap(a, sigsA, b, sigsB, keys, ledger);
    InclusionExclusion(stakes, both, honest);
    WeightAtMostSum(stakes, both + honest);
    if both * honest == {} {
      WeightOfNone(stakes);
    }
    var v :| v in both * honest;
    var i :| 0 <= i < |sigsA| && sigsA[i].validator == v;
    var j :| 0 <= j < |sigsB| && sigsB[j].validator == v;
    assert GoodSignature(a, sigsA[i], keys, ledger) && GoodSignature(b, sigsB[j], keys, ledger);
  }
}
