/** The orders of the pool in terms of its transactions: what is offered first and what is evicted first. */
module MempoolPriority {
  import opened Common
  import opened MempoolModel

  // -------- what a transaction offers --------

  /** The fee per gas is the most that its own maximum and base fee plus priority fee allow. */
  lemma OfferMeans(tx: Tx, baseFee: u64, f: u64)
    requires tx.version >= 2
    ensures f <= EffectiveFeePerGas(tx, baseFee) <==>
      f <= (if tx.maxFeePerGas == 0 then tx.fee else tx.maxFeePerGas) && f <= baseFee + tx.priorityFeePerGas
  {
  }

  /** The compute bid is price times limit within 64 bits; a missing price is the priority fee, a missing limit 1. */
  lemma BidMeans(tx: Tx, f: u64)
    requires tx.version >= 2
    ensures f <= EffectiveComputeBid(tx) <==>
      if tx.computeLimit == 0 && tx.computePricePerUnit == 0 then f == 0
      else if tx.computeLimit == 0 then f <= tx.computePricePerUnit
      else if tx.computePricePerUnit == 0 then f <= tx.priorityFeePerGas * tx.computeLimit
      else f <= tx.computePricePerUnit * tx.computeLimit
  {
    var price := if tx.computePricePerUnit != 0 then tx.computePricePerUnit else tx.priorityFeePerGas;
    var limit := if tx.computeLimit != 0 then tx.computeLimit else 1;
    assert limit == 1 ==> price * limit == price;
  }

  // -------- the orders --------

  function Rate(codec: Codec, tx: Tx): u64 {
    FeeRate(tx.fee, codec.size(tx))
  }

  /** `x` is offered to blocks before `y`. */
  predicate Earlier(opts: Options, codec: Codec, x: Tx, y: Tx) {
    if x.version >= 2 && y.version >= 2 then
      var (bidX, bidY) := (EffectiveComputeBid(x), EffectiveComputeBid(y));
      var (feeX, feeY) := (EffectiveFeePerGas(x, opts.baseFeePerGas), EffectiveFeePerGas(y, opts.baseFeePerGas));
      bidX > bidY || (bidX == bidY && (feeX > feeY || (feeX == feeY && IdLess(codec.id(x), codec.id(y)))))
    else if x.version < 2 && y.version < 2 then
      var (rateX, rateY) := (Rate(codec, x), Rate(codec, y));
      rateX > rateY || (rateX == rateY && (x.fee > y.fee || (x.fee == y.fee && IdLess(codec.id(x), codec.id(y)))))
    else y.version < 2
  }

  /** `x` is evicted before `y`. */
  predicate Sooner(opts: Options, codec: Codec, x: Tx, y: Tx) {
    if x.version >= 2 && y.version >= 2 then
      var (feeX, feeY) := (EffectiveFeePerGas(x, opts.baseFeePerGas), EffectiveFeePerGas(y, opts.baseFeePerGas));
      feeX < feeY || (feeX == feeY && IdLess(codec.id(x), codec.id(y)))
    else if x.version < 2 && y.version < 2 then Earlier(opts, codec, y, x)
    else x.version < 2
  }

  lemma KeysFollowTransactions(opts: Options, codec: Codec, x: Tx, y: Tx)
    ensures KeyLess(MakeEntry(opts, codec, x).key, MakeEntry(opts, codec, y).key) <==> Earlier(opts, codec, x, y)
    ensures Worse(MakeEntry(opts, codec, x).key, MakeEntry(opts, codec, y).key) <==> Sooner(opts, codec, x, y)
  {
    hide FeeRate, EffectiveComputeBid, EffectiveFeePerGas;
  }

  // -------- pools --------

  /** Every entry carries what its transaction offers. */
  ghost predicate Made(opts: Options, codec: Codec, pool: Pool) {
    forall id | id in pool :: pool[id] == MakeEntry(opts, codec, pool[id].tx)
  }

  /** Every transaction of the list is offered before all that follow. */
  ghost predicate InPriority(opts: Options, codec: Codec, out: seq<Tx>) {
    forall i, j | 0 <= i < j < |out| :: Earlier(opts, codec, out[i], out[j])
  }

  /** Versions go first and never return; rates, or bids, never rise. */
  lemma PriorityMeans(opts: Options, codec: Codec, out: seq<Tx>, i: nat, j: nat)
    requires InPriority(opts, codec, out) && i < j < |out|
    ensures out[j].version >= 2 ==> out[i].version >= 2
    ensures out[i].version < 2 ==> Rate(codec, out[i]) >= Rate(codec, out[j])
    ensures out[i].version < 2 && Rate(codec, out[i]) == Rate(codec, out[j]) ==> out[i].fee >= out[j].fee
    ensures out[j].version >= 2 ==> EffectiveComputeBid(out[i]) >= EffectiveComputeBid(out[j])
    ensures out[j].version >= 2 && EffectiveComputeBid(out[i]) == EffectiveComputeBid(out[j]) ==>
      EffectiveFeePerGas(out[i], opts.baseFeePerGas) >= EffectiveFeePerGas(out[j], opts.baseFeePerGas)
  {
    hide FeeRate, EffectiveComputeBid, EffectiveFeePerGas;
    assert Earlier(opts, codec, out[i], out[j]);
  }

  // -------- evictions --------

  /** Of what was there, what went is worse than the newcomer, and than every version-one entry that stayed. */
  ghost predicate WorstFirst(before: Pool, after: Pool, newcomer: Key) {
    forall id | id in before && id !in after ::
      && Worse(before[id].key, newcomer)
      && forall j | j in before && j in after && !before[j].key.isV2 :: Worse(before[id].key, before[j].key)
  }

  /**
   Whatever the bids and the shards: what an addition evicts is old-style as long as an old-style transaction stays,
   and then of no higher rate, and at the same rate of no higher fee; and it is worse than the newcomer.
   */
  lemma EvictionMeans(opts: Options, codec: Codec, before: Pool, after: Pool, newcomer: Tx, gone: Id, stays: Id)
    requires Made(opts, codec, before) && WorstFirst(before, after, MakeEntry(opts, codec, newcomer).key)
    requires gone in before && gone !in after && stays in before && stays in after
    ensures var x, y := before[gone].tx, before[stays].tx;
      && Sooner(opts, codec, x, newcomer)
      && (y.version < 2 ==> x.version < 2 && Rate(codec, x) <= Rate(codec, y))
      && (y.version < 2 && Rate(codec, x) == Rate(codec, y) ==> x.fee <= y.fee)
  {
    hide FeeRate, EffectiveComputeBid, EffectiveFeePerGas, MakeEntry;
    var x, y := before[gone].tx, before[stays].tx;
    KeysFollowTransactions(opts, codec, x, newcomer);
    KeysFollowTransactions(opts, codec, x, y);
    VersionOf(opts, codec, y);
  }

  lemma VersionOf(opts: Options, codec: Codec, tx: Tx)
    ensures MakeEntry(opts, codec, tx).key.isV2 <==> tx.version >= 2
    ensures MakeEntry(opts, codec, tx).tx == tx && MakeEntry(opts, codec, tx).key.id == codec.id(tx)
  {
  }

  // -------- admission --------

  /** The entries that would be evicted after the newcomer, or not before it. */
  ghost function Ahead(opts: Options, codec: Codec, pool: Pool, tx: Tx): Pool {
    map id | id in pool && !Sooner(opts, codec, pool[id].tx, tx) :: pool[id]
  }

  /** When a transaction is admitted: it keeps to the limits, is new, and fits beside what it cannot displace. */
  lemma AddSucceedsIff(opts: Options, codec: Codec, pool: Pool, tx: Tx)
    requires PoolValid(pool) && Made(opts, codec, pool)
    ensures var ahead := Ahead(opts, codec, pool, tx);
      AddTx(opts, codec, pool, tx).ok <==>
        && tx.version <= opts.maxTxVersion && |tx.payload| <= opts.maxPayloadBytes
        && (tx.version >= 2 ==> opts.baseFeePerGas <= if tx.maxFeePerGas == 0 then tx.fee else tx.maxFeePerGas)
        && opts.minFeeRatePerByte <= Rate(codec, tx) && codec.id(tx) !in pool
        && |ahead| + 1 <= opts.maxTxs && Bytes(ahead) + codec.size(tx) <= opts.maxTotalBytes
  {
    hide FeeRate, EffectiveComputeBid, EffectiveFeePerGas, Worse, Sooner, Evict, Bytes;
    var e := MakeEntry(opts, codec, tx);
    AheadIsAtLeastAsGood(opts, codec, pool, tx);
    if e.key.id !in pool {
      AdmittedIffItFitsBesideBetter(opts, pool, e.key, e.bytes);
    }
  }

  lemma AheadIsAtLeastAsGood(opts: Options, codec: Codec, pool: Pool, tx: Tx)
    requires Made(opts, codec, pool)
    ensures Ahead(opts, codec, pool, tx) == AtLeastAsGood(pool, MakeEntry(opts, codec, tx).key)
  {
    hide MakeEntry, Worse, Sooner;
    forall id | id in pool {
      KeysFollowTransactions(opts, codec, pool[id].tx, tx);
    }
  }
}
