/** The sharded transaction pool as it is updated in place, and why its shards do not show. */
module MempoolProcedure {
  import opened Common
  import opened MempoolModel
  import opened MempoolPriority

  // -------- one shard --------

  datatype Shard = Shard(order: seq<Key>, byId: Pool, keyById: map<Id, Key>, totalBytes: nat, totalTxs: nat)

  const EMPTY_SHARD := Shard([], map[], map[], 0, 0)

  ghost predicate ShardValid(s: Shard) {
    && Sorted(s.order) && KeySet(s.order) == KeysOf(s.byId)
    && PoolValid(s.byId)
    && s.keyById.Keys == s.byId.Keys
    && (forall id | id in s.byId :: s.keyById[id] == s.byId[id].key)
    && s.totalTxs == |s.byId| && s.totalBytes == Bytes(s.byId)
  }

  function InsertKey(order: seq<Key>, k: Key): seq<Key> {
    if order == [] then [k]
    else if KeyLess(k, order[0]) then [k] + order
    else [order[0]] + InsertKey(order[1..], k)
  }

  lemma {:induction false} InsertKeepsOrder(order: seq<Key>, k: Key)
    requires Sorted(order) && forall j | j in order :: j.id != k.id
    ensures Sorted(InsertKey(order, k)) && KeySet(InsertKey(order, k)) == KeySet(order) + {k}
  {
    hide KeyLess;
    if order != [] {
      var head, rest := order[0], order[1..];
      assert order == [head] + rest;
      OrdersAreTotal(k, head, k);
      if KeyLess(k, head) {
        forall j | 0 <= j < |rest| ensures KeyLess(k, rest[j]) {
          assert rest[j] == order[j + 1];
          OrdersAreTotal(k, head, rest[j]);
        }
      } else {
        InsertKeepsOrder(rest, k);
        var r := InsertKey(rest, k);
        forall j | 0 <= j < |r| ensures KeyLess(head, r[j]) {
          assert r[j] in KeySet(r);
          if r[j] != k {
            var i :| 0 <= i < |rest| && rest[i] == r[j];
            assert rest[i] == order[i + 1];
          }
        }
        assert KeySet([head] + r) == {head} + KeySet(r);
        assert KeySet(order) == {head} + KeySet(rest);
      }
    }
  }

  function EraseKey(order: seq<Key>, k: Key): seq<Key> {
    if order == [] then []
    else if order[0] == k then order[1..]
    else [order[0]] + EraseKey(order[1..], k)
  }

  lemma {:induction false} EraseKeepsOrder(order: seq<Key>, k: Key)
    requires Sorted(order)
    ensures Sorted(EraseKey(order, k)) && KeySet(EraseKey(order, k)) == KeySet(order) - {k}
  {
    hide KeyLess;
    if order != [] {
      var head, rest := order[0], order[1..];
      assert order == [head] + rest;
      assert KeySet(order) == {head} + KeySet(rest);
      forall j | 0 <= j < |rest| ensures KeyLess(head, rest[j]) && rest[j] != head {
        assert rest[j] == order[j + 1];
        OrdersAreTotal(head, head, head);
      }
      if head != k {
        EraseKeepsOrder(rest, k);
        var r := EraseKey(rest, k);
        forall j | 0 <= j < |r| ensures KeyLess(head, r[j]) {
          assert r[j] in KeySet(r);
          var i :| 0 <= i < |rest| && rest[i] == r[j];
        }
        assert KeySet([head] + r) == {head} + KeySet(r);
      }
    }
  }

  function Inserted(s: Shard, e: Entry): Shard {
    Shard(
      InsertKey(s.order, e.key),
      s.byId[e.key.id := e],
      s.keyById[e.key.id := e.key],
      s.totalBytes + e.bytes,
      s.totalTxs + 1)
  }

  lemma BytesWith(pool: Pool, id: Id, e: Entry)
    requires id !in pool
    ensures Bytes(pool[id := e]) == Bytes(pool) + e.bytes && |pool[id := e]| == |pool| + 1
  {
    assert pool[id := e] - {id} == pool;
    BytesWithout(pool[id := e], id);
    Smaller(pool[id := e], id);
  }

  lemma KeysWith(pool: Pool, id: Id, e: Entry)
    requires id !in pool
    ensures KeysOf(pool[id := e]) == KeysOf(pool) + {e.key}
  {
    var pool' := pool[id := e];
    forall k ensures k in KeysOf(pool') <==> k in KeysOf(pool) + {e.key} {
      if k in KeysOf(pool) {
        var j :| j in pool && pool[j].key == k;
        assert pool'[j].key == k;
      }
      assert pool'[id] == e;
    }
  }

  lemma KeysWithout(pool: Pool, id: Id)
    requires PoolValid(pool) && id in pool
    ensures KeysOf(pool - {id}) == KeysOf(pool) - {pool[id].key}
  {
    var pool' := pool - {id};
    forall k ensures k in KeysOf(pool') <==> k in KeysOf(pool) - {pool[id].key} {
      if k in KeysOf(pool) && k != pool[id].key {
        var j :| j in pool && pool[j].key == k;
        assert pool'[j].key == k;
      }
    }
  }

  lemma InsertedIsValid(s: Shard, e: Entry)
    requires ShardValid(s) && e.key.id !in s.byId
    ensures ShardValid(Inserted(s, e))
  {
    hide Bytes, KeyLess;
    forall j | j in s.order ensures j.id != e.key.id {
      assert j in KeySet(s.order);
    }
    InsertKeepsOrder(s.order, e.key);
    BytesWith(s.byId, e.key.id, e);
    KeysWith(s.byId, e.key.id, e);
  }

  function Erased(s: Shard, id: Id): Shard
    requires id in s.byId && s.totalBytes >= s.byId[id].bytes && s.totalTxs > 0
  {
    Shard(
      EraseKey(s.order, s.byId[id].key),
      s.byId - {id},
      s.keyById - {id},
      s.totalBytes - s.byId[id].bytes,
      s.totalTxs - 1)
  }

  lemma ErasedIsValid(s: Shard, id: Id)
    requires ShardValid(s) && id in s.byId
    ensures s.totalBytes >= s.byId[id].bytes && s.totalTxs > 0
    ensures ShardValid(Erased(s, id))
  {
    hide Bytes, KeyLess;
    BytesWithout(s.byId, id);
    Smaller(s.byId, id);
    EraseKeepsOrder(s.order, s.byId[id].key);
    KeysWithout(s.byId, id);
  }

  // -------- all shards --------

  function ShardIndex(id: Id, n: nat): (i: nat)
    requires n > 0
    ensures i < n
  {
    id.first % n
  }

  /** Every entry is in the shard that its id chooses. */
  predicate Placed(shards: seq<Shard>) {
    |shards| > 0 &&
    forall i, id | 0 <= i < |shards| && id in shards[i].byId :: ShardIndex(id, |shards|) == i
  }

  function AllIds(shards: seq<Shard>): set<Id> {
    set i, id | 0 <= i < |shards| && id in shards[i].byId :: id
  }

  function Union(shards: seq<Shard>): Pool
    requires Placed(shards)
  {
    map id | id in AllIds(shards) :: shards[ShardIndex(id, |shards|)].byId[id]
  }

  ghost predicate ShardsValid(shards: seq<Shard>) {
    Placed(shards) && forall i | 0 <= i < |shards| :: ShardValid(shards[i])
  }

  lemma UnionLookup(shards: seq<Shard>, id: Id)
    requires Placed(shards)
    ensures |shards| > 0
    ensures id in Union(shards) <==> id in shards[ShardIndex(id, |shards|)].byId
    ensures id in Union(shards) ==> Union(shards)[id] == shards[ShardIndex(id, |shards|)].byId[id]
  {
  }

  lemma UnionInserted(shards: seq<Shard>, i: nat, e: Entry)
    requires ShardsValid(shards) && i == ShardIndex(e.key.id, |shards|) && e.key.id !in Union(shards)
    ensures ShardsValid(shards[i := Inserted(shards[i], e)])
    ensures Union(shards[i := Inserted(shards[i], e)]) == Union(shards)[e.key.id := e]
  {
    hide ShardValid, Union;
    UnionLookup(shards, e.key.id);
    InsertedIsValid(shards[i], e);
    var shards' := shards[i := Inserted(shards[i], e)];
    assert Placed(shards');
    var was, now := Union(shards)[e.key.id := e], Union(shards');
    forall id ensures (id in now <==> id in was) && (id in now ==> now[id] == was[id]) {
      UnionLookup(shards, id);
      UnionLookup(shards', id);
    }
  }

  lemma UnionErased(shards: seq<Shard>, i: nat, id: Id)
    requires ShardsValid(shards) && i < |shards| && id in shards[i].byId
    ensures id in Union(shards) && Union(shards)[id] == shards[i].byId[id]
    ensures shards[i].totalBytes >= shards[i].byId[id].bytes && shards[i].totalTxs > 0
    ensures ShardsValid(shards[i := Erased(shards[i], id)])
    ensures Union(shards[i := Erased(shards[i], id)]) == Union(shards) - {id}
  {
    hide ShardValid, Union;
    UnionLookup(shards, id);
    ErasedIsValid(shards[i], id);
    var shards' := shards[i := Erased(shards[i], id)];
    assert Placed(shards');
    var was, now := Union(shards) - {id}, Union(shards');
    forall j ensures (j in now <==> j in was) && (j in now ==> now[j] == was[j]) {
      UnionLookup(shards, j);
      UnionLookup(shards', j);
    }
  }

  /** The key whose shard would evict it, and that no other shard's candidate precedes. */
  ghost predicate IsCandidate(shards: seq<Shard>, n: nat, w: nat, k: Key)
    requires n <= |shards|
  {
    && w < n && shards[w].order != [] && k == PickWorst(shards[w].order)
    && forall j | 0 <= j < n && shards[j].order != [] && j != w :: Worse(k, PickWorst(shards[j].order))
  }

  lemma KeyIsStored(s: Shard, k: Key)
    requires ShardValid(s) && k in s.order
    ensures k.id in s.byId && s.byId[k.id].key == k
  {
    assert k in KeySet(s.order);
  }

  lemma IdIsListed(s: Shard, id: Id)
    requires ShardValid(s) && id in s.byId
    ensures s.byId[id].key in s.order
  {
    assert s.byId[id].key in KeysOf(s.byId);
  }

  lemma CandidatesDiffer(shards: seq<Shard>, i: nat, j: nat)
    requires ShardsValid(shards) && i < |shards| && j < |shards| && i != j
    requires shards[i].order != [] && shards[j].order != []
    ensures PickWorst(shards[i].order).id != PickWorst(shards[j].order).id
  {
    hide PickWorst, Worse, KeyLess, SameBids, ShardValid;
    assert ShardValid(shards[i]) && ShardValid(shards[j]);
    PickIsStored(shards[i]);
    PickIsStored(shards[j]);
    assert ShardIndex(PickWorst(shards[i].order).id, |shards|) == i;
    assert ShardIndex(PickWorst(shards[j].order).id, |shards|) == j;
  }

  lemma PickIsStored(s: Shard)
    requires ShardValid(s) && s.order != []
    ensures PickWorst(s.order).id in s.byId
  {
    PickWorstIsWorst(s.order);
    KeyIsStored(s, PickWorst(s.order));
  }

  lemma ShardBids(shards: seq<Shard>, i: nat)
    requires ShardsValid(shards) && i < |shards| && SameBids(KeysOf(Union(shards)))
    ensures SameBids(KeySet(shards[i].order))
  {
    forall k | k in KeySet(shards[i].order) ensures k in KeysOf(Union(shards)) {
      KeyIsStored(shards[i], k);
      assert Union(shards)[k.id].key == k;
    }
  }

  /** Where all v2 bids agree, the candidate of the shards is the worst entry of the whole pool. */
  lemma CandidateIsWorst(shards: seq<Shard>, w: nat, k: Key)
    requires ShardsValid(shards) && IsCandidate(shards, |shards|, w, k) && SameBids(KeysOf(Union(shards)))
    ensures IsWorst(Union(shards), k.id) && Union(shards)[k.id].key == k
  {
    hide Worse, KeyLess, PickWorst, ShardValid, Sorted;
    assert ShardValid(shards[w]);
    CandidateIsStored(shards, w, k);
    var pool := Union(shards);
    forall id | id in pool && id != k.id ensures Worse(k, pool[id].key) {
      OthersAreBetter(shards, w, k, id);
    }
  }

  lemma OthersAreBetter(shards: seq<Shard>, w: nat, k: Key, id: Id)
    requires ShardsValid(shards) && IsCandidate(shards, |shards|, w, k) && SameBids(KeysOf(Union(shards)))
    requires id in Union(shards) && id != k.id
    ensures Worse(k, Union(shards)[id].key)
  {
    hide Worse, KeyLess, PickWorst, ShardValid, Sorted, SameBids, KeysOf;
    var i := ShardIndex(id, |shards|);
    var key := shards[i].byId[id].key;
    assert ShardValid(shards[i]);
    StoredUnderItsId(shards[i], id);
    ShardBids(shards, i);
    ShardWorst(shards[i], key);
    var c := PickWorst(shards[i].order);
    OrdersAreTotal(k, c, key);
    assert i == w ==> c == k;
    assert i != w ==> Worse(k, c);
  }

  lemma StoredUnderItsId(s: Shard, id: Id)
    requires ShardValid(s) && id in s.byId
    ensures s.byId[id].key in s.order && s.byId[id].key.id == id
  {
    IdIsListed(s, id);
  }

  lemma CandidateIsStored(shards: seq<Shard>, w: nat, k: Key)
    requires ShardsValid(shards) && IsCandidate(shards, |shards|, w, k)
    ensures k in shards[w].order && k.id in shards[w].byId && shards[w].byId[k.id].key == k
    ensures k.id in Union(shards) && Union(shards)[k.id] == shards[w].byId[k.id]
  {
    PickWorstIsWorst(shards[w].order);
    KeyIsStored(shards[w], k);
  }

  lemma ShardWorst(s: Shard, k: Key)
    requires ShardValid(s) && k in s.order && SameBids(KeySet(s.order))
    ensures s.order != [] && (k == PickWorst(s.order) || Worse(PickWorst(s.order), k))
    ensures k.id in s.byId && PickWorst(s.order).id in s.byId
    ensures k.id == PickWorst(s.order).id ==> k == PickWorst(s.order)
  {
    PickWorstIsWorst(s.order);
    KeyIsStored(s, k);
    KeyIsStored(s, PickWorst(s.order));
  }

  // -------- runs of the pool without shards --------

  datatype Op = AddOp(tx: Tx) | RemoveOp(id: Id)

  datatype Played = Played(pool: Pool, results: seq<bool>)

  lemma AddKeepsValid(opts: Options, codec: Codec, pool: Pool, tx: Tx)
    requires PoolValid(pool)
    ensures PoolValid(AddTx(opts, codec, pool, tx).pool)
  {
    var e := MakeEntry(opts, codec, tx);
    EvictKeepsBetter(opts, pool, e.key, e.bytes);
  }

  ghost function Play(opts: Options, codec: Codec, ops: seq<Op>): (r: Played)
    ensures PoolValid(r.pool)
  {
    if ops == [] then Played(map[], [])
    else
      var before := Play(opts, codec, ops[..|ops| - 1]);
      match ops[|ops| - 1]
      case AddOp(tx) =>
        AddKeepsValid(opts, codec, before.pool, tx);
        var r := AddTx(opts, codec, before.pool, tx);
        Played(r.pool, before.results + [r.ok])
      case RemoveOp(id) =>
        Played(before.pool - {id}, before.results + [id in before.pool])
  }

  predicate AllBid(ops: seq<Op>, bid: u64) {
    forall i | 0 <= i < |ops| && ops[i].AddOp? && ops[i].tx.version >= 2 :: EffectiveComputeBid(ops[i].tx) == bid
  }

  predicate PoolBid(pool: Pool, bid: u64) {
    forall id | id in pool && pool[id].key.isV2 :: pool[id].key.bid == bid
  }

  lemma {:induction false} PlayKeepsBid(opts: Options, codec: Codec, ops: seq<Op>, bid: u64)
    requires AllBid(ops, bid)
    ensures PoolBid(Play(opts, codec, ops).pool, bid)
    ensures SameBids(KeysOf(Play(opts, codec, ops).pool))
  {
    if ops != [] {
      hide Evict, EffectiveComputeBid;
      PlayKeepsBid(opts, codec, ops[..|ops| - 1], bid);
      var before := Play(opts, codec, ops[..|ops| - 1]);
      var op := ops[|ops| - 1];
      if op.AddOp? {
        var e := MakeEntry(opts, codec, op.tx);
        EvictKeepsBetter(opts, before.pool, e.key, e.bytes);
      }
    }
  }

  // -------- the pool --------

  datatype Cursor = Cursor(shard: nat, at: nat)

  // -------- listings --------

  /** `out` holds the transactions of `keys` in turn. */
  predicate InTurn(pool: Pool, keys: seq<Key>, out: seq<Tx>) {
    |out| == |keys| && forall i | 0 <= i < |out| :: keys[i].id in pool && out[i] == pool[keys[i].id].tx
  }

  function IdsOf(keys: seq<Key>): seq<Id> {
    seq(|keys|, i requires 0 <= i < |keys| => keys[i].id)
  }

  /** `out` is the first `limit` transactions of the pool in priority order. */
  ghost predicate Lists(pool: Pool, limit: nat, out: seq<Tx>) {
    exists keys :: FirstInOrder(keys, KeysOf(pool), limit) && InTurn(pool, keys, out)
  }

  ghost predicate ListsIds(pool: Pool, limit: nat, out: seq<Id>) {
    exists keys :: FirstInOrder(keys, KeysOf(pool), limit) && out == IdsOf(keys)
  }

  class Mempool {
    const opts: Options
    const codec: Codec
    var shards: seq<Shard>
    var totalBytes: nat
    var totalTxs: nat

    /** The counters count the entries, and the caps hold. */
    ghost predicate Valid()
      reads this
    {
      && ShardsValid(shards) && PoolValid(Union(shards))
      && |shards| == (if opts.shards == 0 then 1 else opts.shards)
      && totalTxs == |Union(shards)| && totalBytes == Bytes(Union(shards))
      && totalTxs <= opts.maxTxs && totalBytes <= opts.maxTotalBytes
      && Made(opts, codec, Union(shards))
    }

    ghost function Contents(): Pool
      requires Valid()
      reads this
    {
      Union(shards)
    }

    constructor (opts: Options, codec: Codec)
      ensures Valid() && Contents() == map[]
      ensures this.opts == opts && this.codec == codec
    {
      this.opts, this.codec := opts, codec;
      var n := if opts.shards == 0 then 1 else opts.shards;
      shards, totalBytes, totalTxs := Repeat(n, EMPTY_SHARD), 0, 0;
      new;
      assert Union(shards) == map[];
    }

    method Contains(id: Id) returns (yes: bool)
      requires Valid()
      ensures yes <==> id in Contents()
    {
      yes := id in shards[ShardIndex(id, |shards|)].byId;
    }

    /**
     * The worst candidate over all shards. The source also breaks ties by shard index; ids differ, so no tie arises.
     */
    method FindWorst() returns (worst: Option<Key>, at: nat)
      requires ShardsValid(shards)
      ensures match worst
        case None => Union(shards) == map[]
        case Some(k) => IsCandidate(shards, |shards|, at, k)
    {
      hide Worse, KeyLess, PickWorst, ShardValid;
      worst, at := None, 0;
      for si := 0 to |shards|
        invariant worst.None? ==> forall j | 0 <= j < si :: shards[j].order == []
        invariant worst.Some? ==> IsCandidate(shards, si, at, worst.value)
      {
        var order := shards[si].order;
        if order != [] {
          var k := PickWorst(order);
          if worst.Some? {
            CandidatesDiffer(shards, at, si);
            OrdersAreTotal(k, worst.value, k);
          }
          if worst.None? {
            worst, at := Some(k), si;
          } else if Worse(k, worst.value) {
            Displaces(shards, si, at, worst.value, k);
            worst, at := Some(k), si;
          }
        }
      }
      if worst.None? {
        forall id ensures id !in Union(shards) {
          if id in Union(shards) {
            IdIsListed(shards[ShardIndex(id, |shards|)], id);
          }
        }
      }
    }

    method Erase(i: nat, id: Id)
      requires ShardsValid(shards) && i < |shards| && id in shards[i].byId
      requires totalTxs == |Union(shards)| && totalBytes == Bytes(Union(shards))
      modifies this
      ensures ShardsValid(shards) && |shards| == |old(shards)|
      ensures Union(shards) == old(Union(shards)) - {id}
      ensures totalTxs == |Union(shards)| == old(totalTxs) - 1 && totalBytes == Bytes(Union(shards)) <= old(totalBytes)
    {
      hide ShardsValid, Placed, Bytes, Union, Erased;
      UnionIsPool(shards);
      UnionErased(shards, i, id);
      BytesWithout(Union(shards), id);
      Smaller(Union(shards), id);
      var e := shards[i].byId[id];
      totalBytes := totalBytes - e.bytes;
      totalTxs := totalTxs - 1;
      shards := shards[i := Erased(shards[i], id)];
    }

    /** The entry to evict next for a newcomer that does not fit, if it may displace any. */
    method ChooseVictim(newcomer: Key, bytes: nat) returns (victim: Option<Id>, at: nat)
      requires ShardsValid(shards) && totalTxs == |Union(shards)| && totalBytes == Bytes(Union(shards))
      requires PoolValid(Union(shards)) && !Fits(opts, totalTxs, totalBytes, bytes)
      ensures victim.Some? ==> at < |shards| && victim.value in shards[at].byId
      ensures victim.Some? ==> GoesFirst(Union(shards), victim.value, newcomer)
      ensures SameBids(KeysOf(Union(shards))) ==>
        Evict(opts, Union(shards), newcomer, bytes) ==
          if victim.Some? then Evict(opts, Union(shards) - {victim.value}, newcomer, bytes)
          else Evicted(Union(shards), false)
    {
      hide Worse, KeyLess, BetterThanWorst, PickWorst, ShardsValid, Bytes, Fits, IsWorst, Union, Evict, SameBids,
        KeysOf;
      UnionIsPool(shards);
      ghost var pool := Union(shards);
      var worst;
      worst, at := FindWorst();
      if worst.None? {
        EvictStops(opts, pool, newcomer, bytes);
        return None, at;
      }
      CandidateIsStored(shards, at, worst.value);
      CandidateGoesFirst(shards, at, worst.value);
      OrdersAreTotal(newcomer, worst.value, newcomer);
      if SameBids(KeysOf(pool)) {
        CandidateIsWorst(shards, at, worst.value);
        EvictStep(opts, pool, newcomer, bytes, worst.value);
      }
      if !BetterThanWorst(newcomer, worst.value) {
        return None, at;
      }
      return Some(worst.value.id), at;
    }

    /** Evicts until the newcomer fits; where all v2 bids agree, as the pool without shards does. */
    method EvictUntilFit(newcomer: Key, bytes: nat) returns (ok: bool)
      requires Valid()
      modifies this
      ensures Valid()
      ensures ok ==> Fits(opts, totalTxs, totalBytes, bytes)
      ensures Subpool(Contents(), old(Contents())) && WorstFirst(old(Contents()), Contents(), newcomer)
      ensures SameBids(KeysOf(old(Contents()))) ==>
        Evict(opts, old(Contents()), newcomer, bytes) == Evicted(Contents(), ok)
    {
      hide ShardsValid, Bytes, Fits, Union, Evict, SameBids, KeysOf;
      UnionIsPool(shards);
      ghost var start := Contents();
      ghost var pool := start;
      while !Fits(opts, totalTxs, totalBytes, bytes)
        invariant Valid() && pool == Contents() && PoolValid(pool) && Subpool(pool, start)
        invariant WorstFirst(start, pool, newcomer)
        invariant SameBids(KeysOf(start)) ==> Evict(opts, start, newcomer, bytes) == Evict(opts, pool, newcomer, bytes)
        decreases totalTxs
      {
        UnionIsPool(shards);
        SubpoolBids(pool, start);
        var victim, at := ChooseVictim(newcomer, bytes);
        if victim.None? {
          return false;
        }
        Erase(at, victim.value);
        pool := pool - {victim.value};
      }
      EvictStops(opts, pool, newcomer, bytes);
      return true;
    }

    /** Whatever the bids, the caps and counters hold; where all v2 bids agree, the shards do not show. */
    method Add(tx: Tx) returns (ok: bool)
      requires Valid()
      modifies this
      ensures Valid()
      ensures ok ==> Holds(Contents(), MakeEntry(opts, codec, tx))
      ensures ok ==> Subpool(Contents() - {codec.id(tx)}, old(Contents()))
      ensures !ok ==> Subpool(Contents(), old(Contents()))
      ensures WorstFirst(old(Contents()), Contents(), MakeEntry(opts, codec, tx).key)
      ensures SameBids(KeysOf(old(Contents()))) ==>
        AddTx(opts, codec, old(Contents()), tx) == Evicted(Contents(), ok)
    {
      hide ShardsValid, Bytes, MakeEntry, Admissible, Evict, Union, Placed, SameBids, KeysOf, Made, WorstFirst;
      UnionIsPool(shards);
      NothingGone(Contents(), MakeEntry(opts, codec, tx).key);
      if !Admissible(opts, codec, tx) {
        return false;
      }
      var e := MakeEntry(opts, codec, tx);
      var si := ShardIndex(e.key.id, |shards|);
      UnionLookup(shards, e.key.id);
      if e.key.id in shards[si].byId {
        return false;
      }
      ghost var start := Contents();
      var fits := EvictUntilFit(e.key, e.bytes);
      if !fits {
        return false;
      }
      UnionIsPool(shards);
      UnionInserted(shards, si, e);
      BytesWith(Union(shards), e.key.id, e);
      Admitted(opts, codec, start, Union(shards), tx);
      shards := shards[si := Inserted(shards[si], e)];
      totalBytes := totalBytes + e.bytes;
      totalTxs := totalTxs + 1;
      return true;
    }

    method Remove(id: Id) returns (ok: bool)
      requires Valid()
      modifies this
      ensures Valid()
      ensures ok <==> id in old(Contents())
      ensures Contents() == old(Contents()) - {id}
    {
      hide ShardsValid, Bytes, Union, Placed;
      UnionIsPool(shards);
      UnionLookup(shards, id);
      var si := ShardIndex(id, |shards|);
      if id !in shards[si].byId {
        return false;
      }
      Erase(si, id);
      return true;
    }

    /** Pops the first cursor of the priority queue. */
    method PopFirst(pq: set<Cursor>) returns (c: Cursor)
      requires ShardsValid(shards) && pq != {}
      requires forall d | d in pq :: OnShard(shards, d)
      requires forall d, e | d in pq && e in pq && d.shard == e.shard :: d == e
      ensures c in pq
      ensures forall d | d in pq && d != c :: KeyLess(At(shards, c), At(shards, d))
    {
      hide KeyLess, ShardValid;
      c :| c in pq;
      var todo := pq - {c};
      while todo != {}
        invariant c in pq && c !in todo && todo <= pq
        invariant forall d | d in pq - todo && d != c :: KeyLess(At(shards, c), At(shards, d))
        decreases |todo|
      {
        var d :| d in todo;
        todo := todo - {d};
        KeysDiffer(shards, c, d);
        if KeyLess(At(shards, d), At(shards, c)) {
          FirstOfMore(shards, pq - todo - {d}, c, d);
          c := d;
        }
      }
    }

    /** The shards merged: the first `limit` transactions of the whole pool in priority order. */
    method OrderedTxs(limit: nat) returns (out: seq<Tx>)
      requires Valid()
      ensures Lists(Contents(), limit, out) && InPriority(opts, codec, out)
    {
      hide KeyLess, ShardValid, Union, Bytes, KeysOf, FirstInOrder, Merged, Sorted, Made, InPriority;
      out := [];
      ghost var keys: seq<Key> := [];
      var pq: set<Cursor> := set i | 0 <= i < |shards| && shards[i].order != [] :: Cursor(i, 0);
      ghost var next: seq<nat> := Repeat(|shards|, 0);
      MergeStarts(shards);
      while pq != {} && |out| < limit
        invariant |next| == |shards| && Merged(shards, next, keys)
        invariant forall c :: c in pq <==> OnShard(shards, c) && next[c.shard] == c.at
        invariant |keys| <= limit && InTurn(Contents(), keys, out)
        decreases limit - |out|
      {
        var c := PopFirst(pq);
        pq := pq - {c};
        var k := shards[c.shard].order[c.at];
        MergeStep(shards, next, keys, c);
        EntryOf(shards, c);
        out := out + [shards[c.shard].byId[k.id].tx];
        keys := keys + [k];
        next := next[c.shard := c.at + 1];
        if c.at + 1 < |shards[c.shard].order| {
          pq := pq + {Cursor(c.shard, c.at + 1)};
        }
      }
      if pq == {} {
        forall i | 0 <= i < |shards| ensures next[i] >= |shards[i].order| {
          assert Cursor(i, next[i]) !in pq;
        }
      }
      MergeEnds(shards, next, keys, limit);
      KeysInPriority(opts, codec, Contents(), limit, keys, out);
    }

    /** The same merge, keeping only the ids. */
    method OrderedTxids(limit: nat) returns (out: seq<Id>)
      requires Valid()
      ensures ListsIds(Contents(), limit, out)
    {
      hide KeyLess, ShardValid, Union, Bytes, KeysOf, FirstInOrder, Merged, Sorted, Made, InPriority;
      out := [];
      ghost var keys: seq<Key> := [];
      var pq: set<Cursor> := set i | 0 <= i < |shards| && shards[i].order != [] :: Cursor(i, 0);
      ghost var next: seq<nat> := Repeat(|shards|, 0);
      MergeStarts(shards);
      while pq != {} && |out| < limit
        invariant |next| == |shards| && Merged(shards, next, keys)
        invariant forall c :: c in pq <==> OnShard(shards, c) && next[c.shard] == c.at
        invariant |keys| <= limit && out == IdsOf(keys)
        decreases limit - |out|
      {
        var c := PopFirst(pq);
        pq := pq - {c};
        var k := shards[c.shard].order[c.at];
        MergeStep(shards, next, keys, c);
        out := out + [k.id];
        keys := keys + [k];
        next := next[c.shard := c.at + 1];
        if c.at + 1 < |shards[c.shard].order| {
          pq := pq + {Cursor(c.shard, c.at + 1)};
        }
      }
      if pq == {} {
        forall i | 0 <= i < |shards| ensures next[i] >= |shards[i].order| {
          assert Cursor(i, next[i]) !in pq;
        }
      }
      MergeEnds(shards, next, keys, limit);
    }

    /** Any run of additions and removals gives the results and the contents of the pool without shards. */
    method PlayAll(ops: seq<Op>, ghost bid: u64) returns (results: seq<bool>)
      requires Valid() && Contents() == map[] && AllBid(ops, bid)
      modifies this
      ensures Valid()
      ensures PoolValid(Contents()) && Played(Contents(), results) == Play(opts, codec, ops)
    {
      hide AddTx, EffectiveComputeBid;
      results := [];
      for i := 0 to |ops|
        invariant Valid()
        invariant Played(Contents(), results) == Play(opts, codec, ops[..i])
      {
        assert ops[..i + 1][..i] == ops[..i];
        PlayKeepsBid(opts, codec, ops[..i], bid);
        var ok: bool;
        match ops[i] {
          case AddOp(tx) => ok := Add(tx);
          case RemoveOp(id) => ok := Remove(id);
        }
        results := results + [ok];
      }
      assert ops[..|ops|] == ops;
    }
  }

  // -------- merging --------

  predicate OnShard(shards: seq<Shard>, c: Cursor) {
    c.shard < |shards| && c.at < |shards[c.shard].order|
  }

  function At(shards: seq<Shard>, c: Cursor): Key
    requires OnShard(shards, c)
  {
    shards[c.shard].order[c.at]
  }

  /** `keys` is what the shards have given up to the positions `next`, in order and before everything left. */
  ghost predicate Merged(shards: seq<Shard>, next: seq<nat>, keys: seq<Key>) {
    && |next| == |shards|
    && Sorted(keys)
    && (forall i | 0 <= i < |shards| :: next[i] <= |shards[i].order|)
    && (forall k :: k in keys <==> exists c :: Taken(shards, next, c, k))
    && (forall i, c | 0 <= i < |keys| && OnShard(shards, c) && next[c.shard] <= c.at :: KeyLess(keys[i], At(shards, c)))
  }

  predicate Taken(shards: seq<Shard>, next: seq<nat>, c: Cursor, k: Key)
    requires |next| == |shards|
  {
    OnShard(shards, c) && c.at < next[c.shard] && At(shards, c) == k
  }

  lemma EntryOf(shards: seq<Shard>, c: Cursor)
    requires ShardsValid(shards) && OnShard(shards, c)
    ensures At(shards, c).id in shards[c.shard].byId
    ensures At(shards, c).id in Union(shards)
    ensures Union(shards)[At(shards, c).id] == shards[c.shard].byId[At(shards, c).id]
    ensures Union(shards)[At(shards, c).id].key == At(shards, c)
  {
    KeyIsStored(shards[c.shard], At(shards, c));
    UnionLookup(shards, At(shards, c).id);
  }

  lemma KeysDiffer(shards: seq<Shard>, c: Cursor, d: Cursor)
    requires ShardsValid(shards) && OnShard(shards, c) && OnShard(shards, d) && c.shard != d.shard
    ensures KeyLess(At(shards, c), At(shards, d)) <==> !KeyLess(At(shards, d), At(shards, c))
  {
    hide ShardValid, Union;
    EntryOf(shards, c);
    EntryOf(shards, d);
    assert ShardIndex(At(shards, c).id, |shards|) == c.shard && ShardIndex(At(shards, d).id, |shards|) == d.shard;
    OrdersAreTotal(At(shards, c), At(shards, d), At(shards, c));
  }

  lemma FirstOfMore(shards: seq<Shard>, seen: set<Cursor>, c: Cursor, d: Cursor)
    requires OnShard(shards, c) && OnShard(shards, d) && KeyLess(At(shards, d), At(shards, c))
    requires forall e | e in seen :: OnShard(shards, e)
    requires forall e | e in seen && e != c :: KeyLess(At(shards, c), At(shards, e))
    ensures forall e | e in seen :: KeyLess(At(shards, d), At(shards, e))
  {
    hide KeyLess;
    forall e | e in seen ensures KeyLess(At(shards, d), At(shards, e)) {
      OrdersAreTotal(At(shards, d), At(shards, c), At(shards, e));
    }
  }

  lemma MergeStarts(shards: seq<Shard>)
    ensures Merged(shards, Repeat(|shards|, 0), [])
  {
  }

  lemma MergeStep(shards: seq<Shard>, next: seq<nat>, keys: seq<Key>, c: Cursor)
    requires ShardsValid(shards) && Merged(shards, next, keys) && OnShard(shards, c) && next[c.shard] == c.at
    requires forall d | OnShard(shards, d) && next[d.shard] == d.at && d != c :: KeyLess(At(shards, c), At(shards, d))
    ensures Merged(shards, next[c.shard := c.at + 1], keys + [At(shards, c)])
  {
    hide KeyLess, ShardValid, Union;
    var k := At(shards, c);
    var next', keys' := next[c.shard := c.at + 1], keys + [k];
    forall j ensures j in keys' <==> exists d :: Taken(shards, next', d, j) {
      if j in keys {
        var d :| Taken(shards, next, d, j);
        assert Taken(shards, next', d, j);
      }
      assert Taken(shards, next', c, k);
      if d :| Taken(shards, next', d, j) && d != c {
        assert Taken(shards, next, d, j);
      }
    }
    forall i, d | 0 <= i < |keys'| && OnShard(shards, d) && next'[d.shard] <= d.at
      ensures KeyLess(keys'[i], At(shards, d))
    {
      if i == |keys| {
        LaterInShard(shards, next, c, d);
      }
    }
  }

  lemma LaterInShard(shards: seq<Shard>, next: seq<nat>, c: Cursor, d: Cursor)
    requires ShardsValid(shards) && |next| == |shards|
    requires OnShard(shards, c) && OnShard(shards, d) && next[c.shard] == c.at
    requires if d.shard == c.shard then c.at < d.at else next[d.shard] <= d.at
    requires forall e | OnShard(shards, e) && next[e.shard] == e.at && e != c :: KeyLess(At(shards, c), At(shards, e))
    ensures KeyLess(At(shards, c), At(shards, d))
  {
    hide KeyLess, Union;
    assert ShardValid(shards[d.shard]);
    if d.shard != c.shard {
      var front := Cursor(d.shard, next[d.shard]);
      assert KeyLess(At(shards, c), At(shards, front));
      if front != d {
        OrdersAreTotal(At(shards, c), At(shards, front), At(shards, d));
      }
    }
  }

  lemma MergeEnds(shards: seq<Shard>, next: seq<nat>, keys: seq<Key>, limit: nat)
    requires ShardsValid(shards) && Merged(shards, next, keys) && |keys| <= limit
    requires |keys| < limit ==> forall i | 0 <= i < |shards| :: next[i] >= |shards[i].order|
    ensures FirstInOrder(keys, KeysOf(Union(shards)), limit)
  {
    hide KeyLess, ShardValid, Union;
    var pool := Union(shards);
    forall i | 0 <= i < |keys| ensures keys[i] in KeysOf(pool) {
      assert keys[i] in keys;
      var c :| Taken(shards, next, c, keys[i]);
      EntryOf(shards, c);
    }
    forall k | k in KeysOf(pool) ensures
      (|keys| < limit ==> k in keys) && (k !in keys ==> forall i | 0 <= i < |keys| :: KeyLess(keys[i], k))
    {
      var id :| id in pool && pool[id].key == k;
      UnionLookup(shards, id);
      var s := ShardIndex(id, |shards|);
      IdIsListed(shards[s], id);
      var at :| 0 <= at < |shards[s].order| && shards[s].order[at] == k;
      var c := Cursor(s, at);
      assert OnShard(shards, c) && At(shards, c) == k;
      if at < next[s] {
        assert Taken(shards, next, c, k);
      }
    }
  }

  /** Two pools with the same contents list the same transactions, however many shards each has. */
  lemma ListingIgnoresShards(pool: Pool, limit: nat, a: seq<Tx>, b: seq<Tx>)
    requires PoolValid(pool) && Lists(pool, limit, a) && Lists(pool, limit, b)
    ensures a == b
  {
    hide FirstInOrder;
    var x :| FirstInOrder(x, KeysOf(pool), limit) && InTurn(pool, x, a);
    var y :| FirstInOrder(y, KeysOf(pool), limit) && InTurn(pool, y, b);
    FirstInOrderIsUnique(x, y, KeysOf(pool), limit);
  }

  /** The two listings agree: they name the same transactions in the same places. */
  lemma ListingsAgree(pool: Pool, limit: nat, txs: seq<Tx>, ids: seq<Id>)
    requires PoolValid(pool) && Lists(pool, limit, txs) && ListsIds(pool, limit, ids)
    ensures |txs| == |ids| && forall i | 0 <= i < |ids| :: ids[i] in pool && pool[ids[i]].tx == txs[i]
  {
    hide FirstInOrder;
    var x :| FirstInOrder(x, KeysOf(pool), limit) && InTurn(pool, x, txs);
    var y :| FirstInOrder(y, KeysOf(pool), limit) && ids == IdsOf(y);
    FirstInOrderIsUnique(x, y, KeysOf(pool), limit);
  }

  /** What goes is worse than the newcomer, and than every version-one entry. */
  ghost predicate GoesFirst(pool: Pool, id: Id, newcomer: Key) {
    && id in pool && Worse(pool[id].key, newcomer)
    && forall j | j in pool && j != id && !pool[j].key.isV2 :: Worse(pool[id].key, pool[j].key)
  }

  /** Whatever the bids, the candidate over all shards is worse than every other version-one entry. */
  lemma CandidateGoesFirst(shards: seq<Shard>, w: nat, k: Key)
    requires ShardsValid(shards) && IsCandidate(shards, |shards|, w, k)
    ensures forall j | j in Union(shards) && j != k.id && !Union(shards)[j].key.isV2 ::
      Worse(k, Union(shards)[j].key)
  {
    hide Worse, KeyLess, PickWorst, ShardValid, Sorted;
    var pool := Union(shards);
    forall j | j in pool && j != k.id && !pool[j].key.isV2
      ensures Worse(k, pool[j].key)
    {
      UnionLookup(shards, j);
      var s := ShardIndex(j, |shards|);
      StoredUnderItsId(shards[s], j);
      ShardHasOld(shards[s], pool[j].key);
      var p := PickWorst(shards[s].order);
      OrdersAreTotal(k, p, pool[j].key);
    }
  }

  /** A shard with a version-one entry ends on one, and picks it. */
  lemma ShardHasOld(s: Shard, x: Key)
    requires ShardValid(s) && x in s.order && !x.isV2
    ensures s.order != [] && (PickWorst(s.order) == x || Worse(PickWorst(s.order), x))
  {
    var m :| 0 <= m < |s.order| && s.order[m] == x;
    assert m < |s.order| - 1 ==> KeyLess(x, s.order[|s.order| - 1]);
  }

  /** The newcomer joins what is left. */
  lemma Admitted(opts: Options, codec: Codec, before: Pool, kept: Pool, tx: Tx)
    requires Made(opts, codec, kept) && Subpool(kept, before)
    requires WorstFirst(before, kept, MakeEntry(opts, codec, tx).key) && MakeEntry(opts, codec, tx).key.id !in before
    ensures var e := MakeEntry(opts, codec, tx);
      var after := kept[e.key.id := e];
      && e.key.id == codec.id(tx) && Made(opts, codec, after) && Subpool(after - {codec.id(tx)}, before)
      && WorstFirst(before, after, e.key)
  {
    hide FeeRate, EffectiveComputeBid, EffectiveFeePerGas, Worse;
  }

  lemma NothingGone(pool: Pool, newcomer: Key)
    ensures WorstFirst(pool, pool, newcomer)
  {
  }

  lemma KeysInPriority(opts: Options, codec: Codec, pool: Pool, limit: nat, keys: seq<Key>, out: seq<Tx>)
    requires Made(opts, codec, pool) && PoolValid(pool)
    requires FirstInOrder(keys, KeysOf(pool), limit) && InTurn(pool, keys, out)
    ensures InPriority(opts, codec, out)
  {
    hide KeyLess, MakeEntry, Earlier;
    forall i, j | 0 <= i < j < |out|
      ensures Earlier(opts, codec, out[i], out[j])
    {
      KeyOfListed(pool, keys[i]);
      KeyOfListed(pool, keys[j]);
      KeysFollowTransactions(opts, codec, out[i], out[j]);
    }
  }

  lemma KeyOfListed(pool: Pool, k: Key)
    requires PoolValid(pool) && k in KeysOf(pool)
    ensures k.id in pool && pool[k.id].key == k
  {
  }

  predicate Holds(pool: Pool, e: Entry) {
    e.key.id in pool && pool[e.key.id] == e
  }

  lemma UnionIsPool(shards: seq<Shard>)
    requires ShardsValid(shards)
    ensures Placed(shards) && |shards| > 0 && PoolValid(Union(shards))
  {
  }

  lemma SubpoolBids(a: Pool, b: Pool)
    requires Subpool(a, b)
    ensures SameBids(KeysOf(b)) ==> SameBids(KeysOf(a))
  {
    forall k | k in KeysOf(a) ensures k in KeysOf(b) {
      var id :| id in a && a[id].key == k;
      assert b[id].key == k;
    }
  }

  /** A new candidate worse than the old one is worse than all that the old one was worse than. */
  lemma Displaces(shards: seq<Shard>, n: nat, w: nat, old': Key, k: Key)
    requires n < |shards| && IsCandidate(shards, n, w, old')
    requires shards[n].order != [] && k == PickWorst(shards[n].order) && Worse(k, old')
    ensures IsCandidate(shards, n + 1, n, k)
  {
    hide Worse, KeyLess, PickWorst;
    forall j | 0 <= j < n && shards[j].order != [] ensures Worse(k, PickWorst(shards[j].order)) {
      OrdersAreTotal(k, old', PickWorst(shards[j].order));
    }
  }

  lemma EvictStep(opts: Options, pool: Pool, newcomer: Key, bytes: nat, k: Key)
    requires PoolValid(pool) && k.id in pool && pool[k.id].key == k && IsWorst(pool, k.id)
    requires !Fits(opts, |pool|, Bytes(pool), bytes)
    ensures Evict(opts, pool, newcomer, bytes) ==
      if BetterThanWorst(newcomer, k) then Evict(opts, pool - {k.id}, newcomer, bytes) else Evicted(pool, false)
  {
    hide Worse, BetterThanWorst, Fits;
    WorstIsUnique(pool, k.id, Worst(pool));
  }

  lemma EvictStops(opts: Options, pool: Pool, newcomer: Key, bytes: nat)
    requires PoolValid(pool)
    ensures Fits(opts, |pool|, Bytes(pool), bytes) ==> Evict(opts, pool, newcomer, bytes) == Evicted(pool, true)
    ensures !Fits(opts, |pool|, Bytes(pool), bytes) && pool == map[] ==>
      Evict(opts, pool, newcomer, bytes) == Evicted(pool, false)
  {
  }
}
