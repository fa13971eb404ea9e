/** The transaction pool: admission, priority and eviction orders, and the pool as one map without shards. */
module MempoolModel {
  import opened Common
  import U256

  /** A transaction id: its first byte chooses the shard, and ids are ordered byte by byte. */
  datatype Id = Id(first: byte, rest: nat)

  predicate IdLess(a: Id, b: Id) {
    a.first < b.first || (a.first == b.first && a.rest < b.rest)
  }

  datatype Tx = Tx(
    version: nat,
    fee: u64,
    maxFeePerGas: u64,
    priorityFeePerGas: u64,
    computeLimit: u64,
    computePricePerUnit: u64,
    payload: seq<byte>,
    signed: seq<byte>)

  datatype Options = Options(
    maxTxs: nat,
    maxTotalBytes: nat,
    shards: nat,
    minFeeRatePerByte: u64,
    baseFeePerGas: u64,
    maxPayloadBytes: nat,
    maxTxVersion: nat)

  /** What the pool gets from elsewhere: the serialised length and the id of a transaction. */
  datatype Codec = Codec(size: Tx -> nat, id: Tx -> Id)

  // -------- fees --------

  /** Rounded up, but the sum is on 64 bits. */
  function FeeRate(fee: u64, bytes: nat): u64 {
    if bytes == 0 then 0
    else
      var sum := Wrap64(fee + bytes - 1);
      U256.QuotientAtMost(sum, bytes);
      U256.Quotient(sum, bytes)
  }

  /** The rate is the quotient rounded up, except that a fee too close to 2^64 for its size counts as rate 0. */
  lemma FeeRateRoundsUp(fee: u64, bytes: nat)
    requires 0 < bytes <= U64_MAX
    ensures var rate := FeeRate(fee, bytes);
      if fee + bytes - 1 <= U64_MAX then fee <= rate * bytes < fee + bytes else rate == 0
  {
    hide U256.Quotient;
    var sum := Wrap64(fee + bytes - 1);
    var q := U256.Quotient(sum, bytes);
    if fee + bytes - 1 > U64_MAX {
      assert sum < bytes;
      U256.SmallDividend(sum, bytes);
    }
  }

  function MaxFeePerGas(tx: Tx): u64 {
    if tx.maxFeePerGas != 0 then tx.maxFeePerGas else tx.fee
  }

  function Saturated(x: nat): u64 {
    if x > U64_MAX then U64_MAX else x
  }

  function EffectiveFeePerGas(tx: Tx, baseFee: u64): u64 {
    if tx.version < 2 then 0
    else
      var sum := Saturated(baseFee + tx.priorityFeePerGas);
      if MaxFeePerGas(tx) < sum then MaxFeePerGas(tx) else sum
  }

  function EffectiveComputeBid(tx: Tx): u64 {
    if tx.version < 2 || (tx.computeLimit == 0 && tx.computePricePerUnit == 0) then 0
    else
      var price := if tx.computePricePerUnit != 0 then tx.computePricePerUnit else tx.priorityFeePerGas;
      var limit := if tx.computeLimit != 0 then tx.computeLimit else 1;
      Saturated(price * limit)
  }

  // -------- keys --------

  datatype Key = Key(isV2: bool, feePerGas: u64, bid: u64, feeRate: u64, fee: u64, id: Id)

  datatype Entry = Entry(tx: Tx, bytes: nat, key: Key)

  function MakeEntry(opts: Options, codec: Codec, tx: Tx): Entry {
    var bytes := codec.size(tx);
    var key := Key(
      tx.version >= 2,
      EffectiveFeePerGas(tx, opts.baseFeePerGas),
      EffectiveComputeBid(tx),
      FeeRate(tx.fee, bytes),
      tx.fee,
      codec.id(tx));
    Entry(tx, bytes, key)
  }

  predicate Admissible(opts: Options, codec: Codec, tx: Tx) {
    && tx.version <= opts.maxTxVersion
    && |tx.payload| <= opts.maxPayloadBytes
    && (tx.version >= 2 ==> MaxFeePerGas(tx) >= opts.baseFeePerGas)
    && FeeRate(tx.fee, codec.size(tx)) >= opts.minFeeRatePerByte
  }

  /** The order in which transactions are offered to blocks: smaller is earlier. */
  predicate KeyLess(a: Key, b: Key) {
    if a.isV2 != b.isV2 then a.isV2
    else if a.isV2 then
      if a.bid != b.bid then a.bid > b.bid
      else if a.feePerGas != b.feePerGas then a.feePerGas > b.feePerGas
      else IdLess(a.id, b.id)
    else
      if a.feeRate != b.feeRate then a.feeRate > b.feeRate
      else if a.fee != b.fee then a.fee > b.fee
      else IdLess(a.id, b.id)
  }

  /** The order of eviction: `a` goes before `b`. */
  predicate Worse(a: Key, b: Key) {
    if a.isV2 != b.isV2 then !a.isV2
    else if a.isV2 then
      if a.feePerGas != b.feePerGas then a.feePerGas < b.feePerGas else IdLess(a.id, b.id)
    else KeyLess(b, a)
  }

  /** Whether a newcomer may displace the worst entry. */
  predicate BetterThanWorst(newcomer: Key, worst: Key) {
    if worst.isV2 != newcomer.isV2 then newcomer.isV2
    else if newcomer.isV2 then
      if newcomer.feePerGas != worst.feePerGas then newcomer.feePerGas > worst.feePerGas
      else IdLess(worst.id, newcomer.id)
    else KeyLess(newcomer, worst)
  }

  /** Both orders are strict and total on keys with different ids; admission is eviction seen from the other side. */
  lemma OrdersAreTotal(a: Key, b: Key, c: Key)
    ensures !KeyLess(a, a) && !Worse(a, a)
    ensures KeyLess(a, b) && KeyLess(b, c) ==> KeyLess(a, c)
    ensures Worse(a, b) && Worse(b, c) ==> Worse(a, c)
    ensures a.id != b.id ==> (KeyLess(a, b) <==> !KeyLess(b, a)) && (Worse(a, b) <==> !Worse(b, a))
    ensures BetterThanWorst(a, b) <==> Worse(b, a)
  {
  }

  predicate Sorted(order: seq<Key>) {
    forall i, j | 0 <= i < j < |order| :: KeyLess(order[i], order[j])
  }

  // -------- the victim of an ordered shard --------

  /** Walks back over v2 keys of one fee to the first of them. */
  function WalkBack(order: seq<Key>, i: nat): Key
    requires i < |order|
  {
    if i > 0 && order[i - 1].isV2 && order[i - 1].feePerGas == order[i].feePerGas then WalkBack(order, i - 1)
    else order[i]
  }

  function PickWorst(order: seq<Key>): Key
    requires order != []
  {
    var last := order[|order| - 1];
    if last.isV2 then WalkBack(order, |order| - 1) else last
  }

  lemma {:induction false} WalkBackIsMember(order: seq<Key>, i: nat)
    requires i < |order|
    ensures WalkBack(order, i) in order
  {
    if i > 0 && order[i - 1].isV2 && order[i - 1].feePerGas == order[i].feePerGas {
      WalkBackIsMember(order, i - 1);
    }
  }

  predicate SameBids(keys: set<Key>) {
    forall a, b | a in keys && b in keys && a.isV2 && b.isV2 :: a.bid == b.bid
  }

  function KeySet(order: seq<Key>): set<Key> {
    set k | k in order
  }

  lemma {:induction false} WalkBackIsWorst(order: seq<Key>, i: nat)
    requires Sorted(order) && SameBids(KeySet(order)) && i < |order|
    requires forall j | 0 <= j < |order| :: order[j].isV2
    requires forall j | i < j < |order| :: Worse(order[i], order[j])
    ensures forall j | 0 <= j < |order| :: order[j] == WalkBack(order, i) || Worse(WalkBack(order, i), order[j])
  {
    assert order[i] in KeySet(order);
    forall j | 0 <= j < i
      ensures KeyLess(order[j], order[i]) && order[j].bid == order[i].bid && order[j] in KeySet(order)
    {
    }
    if i > 0 && order[i - 1].isV2 && order[i - 1].feePerGas == order[i].feePerGas {
      forall j | i - 1 < j < |order| ensures Worse(order[i - 1], order[j]) {
        OrdersAreTotal(order[i - 1], order[i], order[j]);
      }
      WalkBackIsWorst(order, i - 1);
    } else if i > 0 {
      forall j | 0 <= j < i ensures Worse(order[i], order[j]) {
        assert j < i - 1 ==> KeyLess(order[j], order[i - 1]);
        assert order[i - 1].bid == order[i].bid;
      }
    }
  }

  /** Where all v2 bids agree, the walk ends on the worst key of the shard. */
  lemma PickWorstIsWorst(order: seq<Key>)
    requires Sorted(order) && order != []
    ensures PickWorst(order) in order
    ensures SameBids(KeySet(order)) ==> forall k | k in order :: k == PickWorst(order) || Worse(PickWorst(order), k)
  {
    var n := |order| - 1;
    WalkBackIsMember(order, n);
    if order[n].isV2 && SameBids(KeySet(order)) {
      forall j | 0 <= j < |order| ensures order[j].isV2 {
        assert j < n ==> KeyLess(order[j], order[n]);
      }
      WalkBackIsWorst(order, n);
    } else if !order[n].isV2 {
      forall j | 0 <= j < n ensures Worse(order[n], order[j]) {
        assert KeyLess(order[j], order[n]);
      }
    }
  }

  /** A v2 key of another bid than the picked one that should have gone first. */
  predicate PassedOver(k: Key, picked: Key) {
    && k.isV2 && picked.isV2
    && if k.bid > picked.bid then
         k.feePerGas < picked.feePerGas || (k.feePerGas == picked.feePerGas && IdLess(k.id, picked.id))
       else k.bid < picked.bid && IdLess(k.id, picked.id)
  }

  predicate IdsDiffer(order: seq<Key>) {
    forall i, j | 0 <= i < j < |order| :: order[i].id != order[j].id
  }

  /** Where the walk back ends: a stretch of v2 keys of one fee, preceded by none of that fee. */
  lemma {:induction false} WalkBackStretch(order: seq<Key>, i: nat) returns (j: nat)
    requires i < |order| && order[i].isV2
    ensures j <= i && WalkBack(order, i) == order[j]
    ensures forall m | j <= m <= i :: order[m].isV2 && order[m].feePerGas == order[i].feePerGas
    ensures j > 0 ==> !(order[j - 1].isV2 && order[j - 1].feePerGas == order[j].feePerGas)
  {
    j := i;
    if i > 0 && order[i - 1].isV2 && order[i - 1].feePerGas == order[i].feePerGas {
      j := WalkBackStretch(order, i - 1);
    }
  }

  /** For any bids: the picked key is the worst of its shard exactly when no key of another bid was passed over. */
  lemma PickIsWorstIff(order: seq<Key>)
    requires Sorted(order) && order != [] && IdsDiffer(order)
    ensures PickWorst(order) in order
    ensures (forall k | k in order :: k == PickWorst(order) || Worse(PickWorst(order), k))
       <==> (forall k | k in order :: !PassedOver(k, PickWorst(order)))
  {
    hide KeyLess, Worse;
    PickWorstIsWorst(order);
    var p := PickWorst(order);
    forall k | k in order && k != p ensures Worse(p, k) <==> !PassedOver(k, p) {
      var m :| 0 <= m < |order| && order[m] == k;
      PickAgainst(order, m);
    }
    assert !PassedOver(p, p) by { IdLessIsStrict(p.id); }
  }

  lemma IdLessIsStrict(a: Id)
    ensures !IdLess(a, a)
  {
  }

  lemma PickAgainst(order: seq<Key>, m: nat)
    requires Sorted(order) && IdsDiffer(order) && m < |order| && order[m] != PickWorst(order)
    ensures Worse(PickWorst(order), order[m]) <==> !PassedOver(order[m], PickWorst(order))
  {
    var n, k := |order| - 1, order[m];
    assert m < n ==> KeyLess(k, order[n]);
    if order[n].isV2 {
      var j := WalkBackStretch(order, n);
      if m < j {
        assert KeyLess(k, order[j]);
        assert m < j - 1 ==> KeyLess(k, order[j - 1]);
        assert KeyLess(order[j - 1], order[j]);
      } else {
        assert KeyLess(order[j], k);
      }
    }
  }

  /** Where the trailing run of v2 keys of the last key's fee begins. */
  function StretchStart(order: seq<Key>, i: nat): (j: nat)
    requires i < |order|
    ensures j <= i && forall m | j <= m < i :: order[m].isV2 && order[m].feePerGas == order[i].feePerGas
    ensures j > 0 ==> !(order[j - 1].isV2 && order[j - 1].feePerGas == order[i].feePerGas)
  {
    if i > 0 && order[i - 1].isV2 && order[i - 1].feePerGas == order[i].feePerGas then StretchStart(order, i - 1) else i
  }

  /** The key at `m` goes after the first key `j` of the run: by its id inside the run, by its fee before it. */
  predicate GoesAfter(order: seq<Key>, j: nat, m: nat)
    requires j < |order| && m < |order|
  {
    if m > j then IdLess(order[j].id, order[m].id)
    else
      || order[m].feePerGas > order[j].feePerGas
      || (order[m].feePerGas == order[j].feePerGas && IdLess(order[j].id, order[m].id))
  }

  /** Read off the shard: every key goes after the first of its trailing run, unless it ends with an old version. */
  predicate EndsOnWorst(order: seq<Key>)
    requires order != []
  {
    var n := |order| - 1;
    order[n].isV2 ==>
      var j := StretchStart(order, n);
      forall m | 0 <= m <= n && m != j :: GoesAfter(order, j, m)
  }

  lemma {:induction false} WalkBackIsStretchStart(order: seq<Key>, i: nat)
    requires i < |order|
    ensures WalkBack(order, i) == order[StretchStart(order, i)]
  {
    if i > 0 && order[i - 1].isV2 && order[i - 1].feePerGas == order[i].feePerGas {
      WalkBackIsStretchStart(order, i - 1);
    }
  }

  lemma StretchAgainst(order: seq<Key>, m: nat)
    requires Sorted(order) && order != [] && order[|order| - 1].isV2
    requires m < |order| && m != StretchStart(order, |order| - 1)
    ensures var j := StretchStart(order, |order| - 1);
      Worse(order[j], order[m]) <==> GoesAfter(order, j, m)
  {
    var n := |order| - 1;
    assert m < n ==> KeyLess(order[m], order[n]);
  }

  /** For any bids: the picked key is the worst of its shard exactly when the shard ends on it. */
  lemma ShardEndsOnWorstIff(order: seq<Key>)
    requires Sorted(order) && order != [] && IdsDiffer(order)
    ensures (forall k | k in order :: k == PickWorst(order) || Worse(PickWorst(order), k)) <==> EndsOnWorst(order)
  {
    hide Worse, KeyLess, IdLess, GoesAfter;
    var n := |order| - 1;
    PickWorstIsWorst(order);
    if order[n].isV2 {
      var j := StretchStart(order, n);
      WalkBackIsStretchStart(order, n);
      forall m | 0 <= m <= n && m != j
        ensures order[m] in order && order[m] != order[j] && (Worse(order[j], order[m]) <==> GoesAfter(order, j, m))
      {
        StretchAgainst(order, m);
      }
    } else {
      OldVersionIsWorst(order);
    }
  }

  lemma OldVersionIsWorst(order: seq<Key>)
    requires Sorted(order) && order != [] && !order[|order| - 1].isV2
    ensures forall k | k in order :: k == PickWorst(order) || Worse(PickWorst(order), k)
  {
    forall m | 0 <= m < |order| - 1 ensures Worse(order[|order| - 1], order[m]) {
      assert KeyLess(order[m], order[|order| - 1]);
    }
  }

  /** Two v2 keys in one shard: which of them makes the pick differ from the worst. */
  lemma PickOfTwoIff(a: Key, b: Key)
    requires a.isV2 && b.isV2 && a.id != b.id && KeyLess(a, b)
    ensures Sorted([a, b])
    ensures PickWorst([a, b]) == (if Worse(a, b) then a else b) <==>
      !(a.bid > b.bid && (a.feePerGas < b.feePerGas || (a.feePerGas == b.feePerGas && IdLess(b.id, a.id))))
  {
    var order := [a, b];
    assert PickWorst(order) == WalkBack(order, 1);
    assert WalkBack(order, 1) == (if a.feePerGas == b.feePerGas then WalkBack(order, 0) else b);
    assert WalkBack(order, 0) == a;
    IdLessIsTotal(a.id, b.id);
  }

  lemma IdLessIsTotal(a: Id, b: Id)
    ensures a != b ==> (IdLess(a, b) <==> !IdLess(b, a))
  {
  }

  /** With different bids the victim depends on the shards: together the second key goes, apart the first. */
  lemma DifferentBidsDependOnShards(a: Key, b: Key)
    requires a.isV2 && b.isV2 && a.bid > b.bid && a.feePerGas < b.feePerGas
    ensures Sorted([a, b]) && PickWorst([a, b]) == b
    ensures Worse(PickWorst([a]), PickWorst([b])) && PickWorst([a]) == a
  {
  }

  // -------- the pool without shards --------

  type Pool = map<Id, Entry>

  predicate PoolValid(pool: Pool) {
    forall id | id in pool :: pool[id].key.id == id
  }

  predicate IsWorst(pool: Pool, id: Id) {
    id in pool && forall j | j in pool && j != id :: Worse(pool[id].key, pool[j].key)
  }

  lemma {:induction false} WorstExists(pool: Pool)
    requires PoolValid(pool) && pool != map[]
    ensures exists id :: IsWorst(pool, id)
    decreases |pool|
  {
    var x :| x in pool;
    var rest := pool - {x};
    Smaller(pool, x);
    if rest == map[] {
      forall j | j in pool ensures j == x {
        assert j in rest || j == x;
      }
      assert IsWorst(pool, x);
    } else {
      WorstExists(rest);
      var y :| IsWorst(rest, y);
      var id := if Worse(pool[x].key, pool[y].key) then x else y;
      forall j | j in pool && j != id ensures Worse(pool[id].key, pool[j].key) {
        OrdersAreTotal(pool[x].key, pool[y].key, pool[j].key);
        OrdersAreTotal(pool[y].key, pool[x].key, pool[j].key);
        assert j == x || j in rest;
      }
      assert IsWorst(pool, id);
    }
  }

  lemma WorstIsUnique(pool: Pool, a: Id, b: Id)
    requires IsWorst(pool, a) && IsWorst(pool, b)
    ensures a == b
  {
    if a != b {
      OrdersAreTotal(pool[a].key, pool[b].key, pool[a].key);
    }
  }

  ghost function Worst(pool: Pool): (id: Id)
    requires PoolValid(pool) && pool != map[]
    ensures IsWorst(pool, id)
  {
    WorstExists(pool);
    var id :| IsWorst(pool, id);
    id
  }

  /** Total size of the entries. */
  ghost function Bytes(pool: Pool): nat
    decreases |pool|
  {
    if pool == map[] then 0
    else
      var id :| id in pool;
      Smaller(pool, id);
      pool[id].bytes + Bytes(pool - {id})
  }

  lemma Smaller(pool: Pool, id: Id)
    requires id in pool
    ensures |pool - {id}| == |pool| - 1
  {
    assert pool.Keys == (pool - {id}).Keys + {id};
    assert |pool.Keys| == |pool| && |(pool - {id}).Keys| == |pool - {id}|;
  }

  lemma {:induction false} BytesWithout(pool: Pool, id: Id)
    requires id in pool
    ensures Bytes(pool) == pool[id].bytes + Bytes(pool - {id})
    decreases |pool|
  {
    var x :| x in pool && Bytes(pool) == pool[x].bytes + Bytes(pool - {x});
    if x != id {
      Smaller(pool, x);
      BytesWithout(pool - {x}, id);
      Smaller(pool, id);
      BytesWithout(pool - {id}, x);
      assert pool - {x} - {id} == pool - {id} - {x};
    }
  }

  predicate Fits(opts: Options, txs: nat, bytes: nat, more: nat) {
    txs + 1 <= opts.maxTxs && bytes + more <= opts.maxTotalBytes
  }

  datatype Evicted = Evicted(pool: Pool, ok: bool)

  /** Evicts the worst entries until a newcomer fits; what is evicted stays evicted even when it then does not fit. */
  ghost function Evict(opts: Options, pool: Pool, newcomer: Key, bytes: nat): Evicted
    requires PoolValid(pool)
    decreases |pool|
  {
    if Fits(opts, |pool|, Bytes(pool), bytes) then Evicted(pool, true)
    else if pool == map[] then Evicted(pool, false)
    else
      var w := Worst(pool);
      if !BetterThanWorst(newcomer, pool[w].key) then Evicted(pool, false)
      else
        Smaller(pool, w);
        Evict(opts, pool - {w}, newcomer, bytes)
  }

  ghost function AddTx(opts: Options, codec: Codec, pool: Pool, tx: Tx): Evicted
    requires PoolValid(pool)
  {
    var e := MakeEntry(opts, codec, tx);
    if !Admissible(opts, codec, tx) || e.key.id in pool then Evicted(pool, false)
    else
      var r := Evict(opts, pool, e.key, e.bytes);
      if r.ok then Evicted(r.pool[e.key.id := e], true) else r
  }

  predicate Subpool(a: Pool, b: Pool) {
    forall id | id in a :: id in b && a[id] == b[id]
  }

  /** Everything missing from `kept` is worse than `newcomer` and worse than everything in `kept`. */
  predicate OnlyWorseGone(pool: Pool, kept: Pool, newcomer: Key) {
    forall id | id in pool && id !in kept ::
      Worse(pool[id].key, newcomer) && forall j | j in kept :: Worse(pool[id].key, kept[j].key)
  }

  /** Eviction only removes entries worse than the newcomer, worst first. */
  lemma {:induction false} EvictKeepsBetter(opts: Options, pool: Pool, newcomer: Key, bytes: nat)
    requires PoolValid(pool)
    ensures var r := Evict(opts, pool, newcomer, bytes);
      && Subpool(r.pool, pool) && OnlyWorseGone(pool, r.pool, newcomer)
      && (r.ok ==> Fits(opts, |r.pool|, Bytes(r.pool), bytes))
    decreases |pool|
  {
    hide Worse, BetterThanWorst;
    if !Fits(opts, |pool|, Bytes(pool), bytes) && pool != map[] {
      var w := Worst(pool);
      if BetterThanWorst(newcomer, pool[w].key) {
        Smaller(pool, w);
        OrdersAreTotal(newcomer, pool[w].key, newcomer);
        EvictKeepsBetter(opts, pool - {w}, newcomer, bytes);
      }
    }
  }

  /** The entries that a newcomer cannot displace. */
  function AtLeastAsGood(pool: Pool, newcomer: Key): Pool {
    map id | id in pool && !Worse(pool[id].key, newcomer) :: pool[id]
  }

  /** A refused newcomer has still evicted every entry worse than itself. */
  lemma {:induction false} RefusalEvicts(opts: Options, pool: Pool, newcomer: Key, bytes: nat)
    requires PoolValid(pool) && newcomer.id !in pool
    ensures var r := Evict(opts, pool, newcomer, bytes); !r.ok ==> r.pool == AtLeastAsGood(pool, newcomer)
    decreases |pool|
  {
    if !Fits(opts, |pool|, Bytes(pool), bytes) && pool != map[] {
      var w := Worst(pool);
      OrdersAreTotal(newcomer, pool[w].key, newcomer);
      if BetterThanWorst(newcomer, pool[w].key) {
        Smaller(pool, w);
        RefusalEvicts(opts, pool - {w}, newcomer, bytes);
        assert AtLeastAsGood(pool - {w}, newcomer) == AtLeastAsGood(pool, newcomer);
      } else {
        forall j | j in pool ensures !Worse(pool[j].key, newcomer) {
          OrdersAreTotal(pool[w].key, pool[j].key, newcomer);
        }
        assert AtLeastAsGood(pool, newcomer) == pool;
      }
    }
  }

  lemma {:induction false} SubpoolIsSmaller(a: Pool, b: Pool)
    requires Subpool(a, b)
    ensures |a| <= |b| && Bytes(a) <= Bytes(b)
    decreases |a|
  {
    if a != map[] {
      var id :| id in a;
      Smaller(a, id);
      Smaller(b, id);
      BytesWithout(a, id);
      BytesWithout(b, id);
      SubpoolIsSmaller(a - {id}, b - {id});
    }
  }

  /** A newcomer is admitted exactly when it fits beside the entries that it cannot displace. */
  lemma AdmittedIffItFitsBesideBetter(opts: Options, pool: Pool, newcomer: Key, bytes: nat)
    requires PoolValid(pool) && newcomer.id !in pool
    ensures var better := AtLeastAsGood(pool, newcomer);
      Evict(opts, pool, newcomer, bytes).ok <==> Fits(opts, |better|, Bytes(better), bytes)
  {
    hide Evict;
    var r := Evict(opts, pool, newcomer, bytes);
    EvictKeepsBetter(opts, pool, newcomer, bytes);
    if r.ok {
      SubpoolIsSmaller(AtLeastAsGood(pool, newcomer), r.pool);
    } else {
      RefusalEvicts(opts, pool, newcomer, bytes);
      RefusalDoesNotFit(opts, pool, newcomer, bytes);
    }
  }

  lemma {:induction false} RefusalDoesNotFit(opts: Options, pool: Pool, newcomer: Key, bytes: nat)
    requires PoolValid(pool)
    ensures var r := Evict(opts, pool, newcomer, bytes); !r.ok ==> !Fits(opts, |r.pool|, Bytes(r.pool), bytes)
    decreases |pool|
  {
    if !Fits(opts, |pool|, Bytes(pool), bytes) && pool != map[] {
      var w := Worst(pool);
      if BetterThanWorst(newcomer, pool[w].key) {
        Smaller(pool, w);
        RefusalDoesNotFit(opts, pool - {w}, newcomer, bytes);
      }
    }
  }

  // -------- the list offered to blocks --------

  function KeysOf(pool: Pool): set<Key> {
    set id | id in pool :: pool[id].key
  }

  /** `out` is the first `limit` of `keys` in priority order, or all of them if there are fewer. */
  predicate FirstInOrder(out: seq<Key>, keys: set<Key>, limit: nat) {
    && Sorted(out) && |out| <= limit
    && (forall i | 0 <= i < |out| :: out[i] in keys)
    && (|out| < limit ==> forall k | k in keys :: k in out)
    && (forall k, i | k in keys && k !in out && 0 <= i < |out| :: KeyLess(out[i], k))
  }

  predicate DistinctIds(keys: set<Key>) {
    forall a, b | a in keys && b in keys && a.id == b.id :: a == b
  }

  /** That list is determined by the keys alone. */
  lemma FirstInOrderIsUnique(a: seq<Key>, b: seq<Key>, keys: set<Key>, limit: nat)
    requires FirstInOrder(a, keys, limit) && FirstInOrder(b, keys, limit) && DistinctIds(keys)
    ensures a == b
  {
    NotShorter(a, b, keys, limit);
    NotShorter(b, a, keys, limit);
    SamePrefix(a, b, keys, limit, |a|);
  }

  lemma NotShorter(a: seq<Key>, b: seq<Key>, keys: set<Key>, limit: nat)
    requires FirstInOrder(a, keys, limit) && FirstInOrder(b, keys, limit) && DistinctIds(keys)
    ensures |a| >= |b|
  {
    hide KeyLess;
    if |a| < |b| {
      var n := |a|;
      SamePrefix(a, b, keys, limit, n);
      assert b[n] in a;
      var i :| 0 <= i < n && a[i] == b[n];
      assert a[..n][i] == b[..n][i];
      SortedPositions(b, i, n);
    }
  }

  lemma {:induction false} SamePrefix(a: seq<Key>, b: seq<Key>, keys: set<Key>, limit: nat, n: nat)
    requires FirstInOrder(a, keys, limit) && FirstInOrder(b, keys, limit) && DistinctIds(keys)
    requires n <= |a| && n <= |b|
    ensures a[..n] == b[..n]
  {
    if n > 0 {
      SamePrefix(a, b, keys, limit, n - 1);
      NotAfter(a, b, keys, limit, n - 1);
      NotAfter(b, a, keys, limit, n - 1);
      OrdersAreTotal(a[n - 1], b[n - 1], a[n - 1]);
      assert a[..n] == a[..n - 1] + [a[n - 1]] && b[..n] == b[..n - 1] + [b[n - 1]];
    }
  }

  lemma SortedPositions(s: seq<Key>, i: nat, n: nat)
    requires Sorted(s) && i < |s| && n < |s|
    ensures i < n ==> s[i] != s[n]
    ensures KeyLess(s[i], s[n]) ==> i < n
  {
    OrdersAreTotal(s[i], s[n], s[i]);
  }

  /** After a common prefix, `b` cannot have a later key than `a` has. */
  lemma NotAfter(a: seq<Key>, b: seq<Key>, keys: set<Key>, limit: nat, n: nat)
    requires FirstInOrder(a, keys, limit) && FirstInOrder(b, keys, limit)
    requires n < |a| && n < |b| && a[..n] == b[..n]
    ensures !KeyLess(a[n], b[n])
  {
    hide KeyLess;
    OrdersAreTotal(b[n], a[n], b[n]);
    if KeyLess(a[n], b[n]) && a[n] in b {
      var i :| 0 <= i < |b| && b[i] == a[n];
      SortedPositions(b, i, n);
      assert a[..n][i] == b[..n][i];
      SortedPositions(a, i, n);
    }
  }
}
