/** The staking ledger: who has bonded how much, and who has been slashed. */
module Staking {
  import opened Common
  import opened Sums

  type ValidatorId = string

  datatype Position = Position(bonded: u64, unbonding: u64, readyHeight: u64, slashed: bool)

  type Ledger = map<ValidatorId, Position>

  /** The bonded stake of the validators that are not slashed. */
  function Stakes(ledger: Ledger): map<ValidatorId, nat> {
    map id | id in ledger && !ledger[id].slashed :: ledger[id].bonded
  }

  function BondedOf(ledger: Ledger, id: ValidatorId): u64 {
    if id in ledger && !ledger[id].slashed then ledger[id].bonded else 0
  }

  predicate IsSlashed(ledger: Ledger, id: ValidatorId) {
    id in ledger && ledger[id].slashed
  }

  lemma BondedIsStake(ledger: Ledger, id: ValidatorId)
    ensures BondedOf(ledger, id) == Value(Stakes(ledger), id)
  {
  }

  /** All bonded stake, as a mathematical sum. */
  ghost function Total(ledger: Ledger): nat {
    Sum(Stakes(ledger))
  }

  /** The sum as the ledger computes it, on 64 bits and in whatever order. */
  method TotalBonded(ledger: Ledger) returns (total: u64)
    ensures total == Wrap64(Total(ledger))
  {
    hide Weight, Stakes, Wrap64;
    var todo := ledger.Keys;
    total := 0;
    NoStakeYet(ledger);
    assert ledger.Keys - todo == {};
    while todo != {}
      invariant todo <= ledger.Keys
      invariant total == Wrap64(Weight(Stakes(ledger), ledger.Keys - todo))
      decreases |todo|
    {
      var id :| id in todo;
      OneMoreStake(ledger, ledger.Keys - todo, id);
      assert ledger.Keys - (todo - {id}) == ledger.Keys - todo + {id};
      todo := todo - {id};
      if !ledger[id].slashed {
        total := Wrap64(total + ledger[id].bonded);
      }
    }
    assert ledger.Keys - todo == ledger.Keys;
    EveryStake(ledger);
  }

  lemma NoStakeYet(ledger: Ledger)
    ensures Wrap64(Weight(Stakes(ledger), {})) == 0
  {
    WeightOfNone(Stakes(ledger));
  }

  lemma OneMoreStake(ledger: Ledger, done: set<ValidatorId>, id: ValidatorId)
    requires id in ledger && id !in done
    ensures var before := Wrap64(Weight(Stakes(ledger), done));
      Wrap64(Weight(Stakes(ledger), done + {id})) ==
        if ledger[id].slashed then before else Wrap64(before + ledger[id].bonded)
  {
    hide Weight;
    WeightAdd(Stakes(ledger), done, id);
  }

  lemma EveryStake(ledger: Ledger)
    ensures Weight(Stakes(ledger), ledger.Keys) == Total(ledger)
  {
    assert Restrict(Stakes(ledger), ledger.Keys) == Stakes(ledger);
  }

  /** Slashing takes everything, unless bonded and unbonding stake do not fit 64 bits together. */
  function Slash(ledger: Ledger, id: ValidatorId): (r: (Ledger, Option<nat>))
  {
    if id !in ledger || ledger[id].slashed || ledger[id].bonded + ledger[id].unbonding > U64_MAX then (ledger, None)
    else (ledger[id := Position(0, 0, 0, true)], Some(ledger[id].bonded + ledger[id].unbonding))
  }

  /** Slashing changes nobody else, and the bonded total never rises. */
  lemma SlashOnlyLowers(ledger: Ledger, id: ValidatorId)
    ensures var ledger' := Slash(ledger, id).0;
      && Total(ledger') <= Total(ledger)
      && (forall v | v != id :: BondedOf(ledger', v) == BondedOf(ledger, v)
           && IsSlashed(ledger', v) == IsSlashed(ledger, v))
      && (ledger' != ledger ==> IsSlashed(ledger', id) && !IsSlashed(ledger, id))
      && (forall v | IsSlashed(ledger, v) :: IsSlashed(ledger', v))
  {
    var ledger' := Slash(ledger, id).0;
    if ledger' != ledger {
      assert Stakes(ledger') == Stakes(ledger) - {id};
      SumWithout(Stakes(ledger), id);
    }
  }
}
