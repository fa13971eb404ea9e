/** With several compute bids the victim of an eviction depends on the shards: exactly when, and in which pool. */
module MempoolShards {
  import opened Common
  import opened MempoolModel
  import opened MempoolProcedure

  /** The shard in which the worst entry of the whole pool is kept. */
  ghost function WorstShard(shards: seq<Shard>): (h: nat)
    requires ShardsValid(shards) && PoolValid(Union(shards)) && Union(shards) != map[]
    ensures h < |shards|
  {
    ShardIndex(Worst(Union(shards)), |shards|)
  }

  /** The candidate of the shards is the worst entry of the pool exactly when the worst entry's shard ends on it. */
  lemma VictimIsWorstIff(shards: seq<Shard>, w: nat, k: Key)
    requires ShardsValid(shards) && PoolValid(Union(shards)) && IsCandidate(shards, |shards|, w, k)
    ensures Union(shards) != map[] && shards[WorstShard(shards)].order != []
    ensures var order := shards[WorstShard(shards)].order;
      k.id == Worst(Union(shards)) <==> EndsOnWorst(order)
  {
    hide Worse, KeyLess, PickWorst, ShardValid, Sorted, EndsOnWorst;
    CandidateIsStored(shards, w, k);
    var pool, h := Union(shards), WorstShard(shards);
    var x := pool[Worst(pool)].key;
    UnionLookup(shards, Worst(pool));
    StoredUnderItsId(shards[h], Worst(pool));
    var order := shards[h].order;
    ShardOrder(shards[h]);
    ShardEndsOnWorstIff(order);
    PickWorstIsWorst(order);
    var p := PickWorst(order);
    WorstInItsShard(shards, h, x);
    OrdersAreTotal(x, p, x);
    OrdersAreTotal(x, k, x);
    assert p != x ==> p.id != x.id && Worse(x, p);
    assert h == w ==> p == k;
    assert h != w ==> Worse(k, p);
    assert k.id != x.id ==> Worse(x, k);
    if k.id == x.id {
      assert h == w;
    }
  }

  lemma ShardOrder(s: Shard)
    requires ShardValid(s)
    ensures Sorted(s.order) && IdsDiffer(s.order)
  {
    forall i, j | 0 <= i < j < |s.order| ensures s.order[i].id != s.order[j].id {
      KeyIsStored(s, s.order[i]);
      KeyIsStored(s, s.order[j]);
      OrdersAreTotal(s.order[i], s.order[j], s.order[i]);
    }
  }

  lemma WorstInItsShard(shards: seq<Shard>, h: nat, x: Key)
    requires ShardsValid(shards) && PoolValid(Union(shards)) && h < |shards|
    requires x.id in Union(shards) && Union(shards)[x.id].key == x && IsWorst(Union(shards), x.id)
    ensures forall k | k in shards[h].order :: k == x || (k.id != x.id && Worse(x, k))
  {
    hide Worse, KeyLess, Sorted;
    forall k | k in shards[h].order ensures k == x || (k.id != x.id && Worse(x, k)) {
      KeyIsStored(shards[h], k);
      assert ShardIndex(k.id, |shards|) == h;
      UnionLookup(shards, k.id);
    }
  }

  // -------- two entries --------

  /** One shard with both entries, and `n` shards that keep them apart. */
  lemma TwoShardings(a: Entry, b: Entry, n: nat) returns (one: seq<Shard>, many: seq<Shard>)
    requires a.key.id != b.key.id && n > 0
    ensures |one| == 1 && |many| == n && ShardsValid(one) && ShardsValid(many)
    ensures Union(one) == map[a.key.id := a, b.key.id := b] == Union(many)
  {
    hide ShardValid, Inserted;
    one := TwoEntries(a, b, 1);
    many := TwoEntries(a, b, n);
  }

  lemma TwoEntries(a: Entry, b: Entry, n: nat) returns (shards: seq<Shard>)
    requires a.key.id != b.key.id && n > 0
    ensures |shards| == n && ShardsValid(shards) && Union(shards) == map[a.key.id := a, b.key.id := b]
  {
    hide Inserted, ShardValid;
    var none := Repeat(n, EMPTY_SHARD);
    NoEntries(n);
    var i, j := ShardIndex(a.key.id, n), ShardIndex(b.key.id, n);
    UnionInserted(none, i, a);
    var first := none[i := Inserted(none[i], a)];
    UnionInserted(first, j, b);
    shards := first[j := Inserted(first[j], b)];
  }

  lemma NoEntries(n: nat)
    requires n > 0
    ensures ShardsValid(Repeat(n, EMPTY_SHARD)) && Union(Repeat(n, EMPTY_SHARD)) == map[]
  {
  }

  /** The order of two entries in one shard, whichever went in first. */
  lemma OneShardOrder(shards: seq<Shard>, a: Entry, b: Entry)
    requires ShardsValid(shards) && |shards| == 1 && a.key.id != b.key.id
    requires Union(shards) == map[a.key.id := a, b.key.id := b] && KeyLess(a.key, b.key)
    ensures shards[0].order == [a.key, b.key]
  {
    hide KeyLess;
    var order := shards[0].order;
    ShardOrder(shards[0]);
    forall id ensures id in shards[0].byId <==> id == a.key.id || id == b.key.id {
      UnionLookup(shards, id);
      assert ShardIndex(id, 1) == 0;
    }
    UnionLookup(shards, a.key.id);
    UnionLookup(shards, b.key.id);
    IdIsListed(shards[0], a.key.id);
    IdIsListed(shards[0], b.key.id);
    forall m | 0 <= m < |order| ensures order[m] == a.key || order[m] == b.key {
      KeyIsStored(shards[0], order[m]);
    }
    OrdersAreTotal(a.key, b.key, a.key);
    OnlyTwo(order, a.key, b.key);
  }

  lemma OnlyTwo(order: seq<Key>, a: Key, b: Key)
    requires Sorted(order) && IdsDiffer(order) && a in order && b in order && a.id != b.id && !KeyLess(b, a)
    requires forall m | 0 <= m < |order| :: order[m] == a || order[m] == b
    ensures order == [a, b]
  {
    hide KeyLess;
    if |order| > 2 {
      ThreeDiffer(order);
    }
    assert |order| == 2 && KeyLess(order[0], order[1]);
  }

  lemma ThreeDiffer(order: seq<Key>)
    requires IdsDiffer(order) && |order| > 2
    ensures order[0].id != order[1].id && order[0].id != order[2].id && order[1].id != order[2].id
  {
  }

  /** What is left when the shards evict their candidate. */
  ghost predicate Evicts(shards: seq<Shard>, left: Pool)
    requires ShardsValid(shards)
  {
    exists w, k :: IsCandidate(shards, |shards|, w, k) && left == Union(shards) - {k.id}
  }

  /**
   A pool of two v2 transactions that two shardings see differently: one shard for both, or `n` that keep them apart.
   What an eviction leaves is the same exactly when the pick of the one shard is the worse of the two.
   */
  lemma EvictionDependsOnShardsIff(a: Entry, b: Entry, one: seq<Shard>, many: seq<Shard>, x: Pool, y: Pool)
    requires a.key.isV2 && b.key.isV2 && a.key.id != b.key.id && KeyLess(a.key, b.key)
    requires ShardsValid(one) && |one| == 1 && Union(one) == map[a.key.id := a, b.key.id := b]
    requires ShardsValid(many) && Union(many) == Union(one)
    requires ShardIndex(a.key.id, |many|) != ShardIndex(b.key.id, |many|)
    requires Evicts(one, x) && Evicts(many, y)
    ensures var k, l := a.key, b.key;
      x == y <==> !(k.bid > l.bid && (k.feePerGas < l.feePerGas || (k.feePerGas == l.feePerGas && IdLess(l.id, k.id))))
  {
    hide KeyLess, Worse, PickWorst, ShardValid, Sorted;
    var k, l := a.key, b.key;
    PickOfTwoIff(k, l);
    OneShardOrder(one, a, b);
    var w1, c1 :| IsCandidate(one, 1, w1, c1) && x == Union(one) - {c1.id};
    assert c1 == PickWorst([k, l]);
    var w2, c2 :| IsCandidate(many, |many|, w2, c2) && y == Union(many) - {c2.id};
    CandidateApart(many, a, b, w2, c2);
    PickWorstIsWorst([k, l]);
    assert c1 == k || c1 == l;
    assert k.id in Union(one) && l.id in Union(one);
  }

  /** Kept apart, the worse of the two is the candidate. */
  lemma CandidateApart(shards: seq<Shard>, a: Entry, b: Entry, w: nat, c: Key)
    requires ShardsValid(shards) && Union(shards) == map[a.key.id := a, b.key.id := b] && a.key.id != b.key.id
    requires ShardIndex(a.key.id, |shards|) != ShardIndex(b.key.id, |shards|) && IsCandidate(shards, |shards|, w, c)
    ensures c == if Worse(a.key, b.key) then a.key else b.key
  {
    hide KeyLess, Worse, PickWorst, ShardValid, Sorted;
    LoneEntry(shards, a, b, a.key);
    LoneEntry(shards, a, b, b.key);
    CandidateIsStored(shards, w, c);
    OrdersAreTotal(a.key, b.key, a.key);
  }

  /** Kept apart, each is the only key of its shard. */
  lemma LoneEntry(shards: seq<Shard>, a: Entry, b: Entry, k: Key)
    requires ShardsValid(shards) && Union(shards) == map[a.key.id := a, b.key.id := b] && a.key.id != b.key.id
    requires ShardIndex(a.key.id, |shards|) != ShardIndex(b.key.id, |shards|) && (k == a.key || k == b.key)
    ensures var i := ShardIndex(k.id, |shards|); shards[i].order == [k] && PickWorst(shards[i].order) == k
  {
    hide KeyLess;
    var i := ShardIndex(k.id, |shards|);
    var order := shards[i].order;
    UnionLookup(shards, k.id);
    IdIsListed(shards[i], k.id);
    ShardOrder(shards[i]);
    forall m | 0 <= m < |order| ensures order[m] == k {
      KeyIsStored(shards[i], order[m]);
      UnionLookup(shards, order[m].id);
      assert ShardIndex(order[m].id, |shards|) == i;
    }
    assert |order| > 1 ==> order[0].id != order[1].id;
  }

  /** The one shard, and the many, do have a candidate. */
  lemma CandidateOfTwo(shards: seq<Shard>, a: Entry, b: Entry) returns (left: Pool)
    requires ShardsValid(shards) && Union(shards) == map[a.key.id := a, b.key.id := b] && a.key.id != b.key.id
    requires ShardIndex(a.key.id, |shards|) != ShardIndex(b.key.id, |shards|)
    ensures Evicts(shards, left)
  {
    hide KeyLess, Worse, PickWorst, ShardValid, Sorted;
    var i, j := ShardIndex(a.key.id, |shards|), ShardIndex(b.key.id, |shards|);
    LoneEntry(shards, a, b, a.key);
    LoneEntry(shards, a, b, b.key);
    OrdersAreTotal(a.key, b.key, a.key);
    var w, k := if Worse(a.key, b.key) then i else j, if Worse(a.key, b.key) then a.key else b.key;
    forall m | 0 <= m < |shards| && m != i && m != j ensures shards[m].order == [] {
      if shards[m].order != [] {
        KeyIsStored(shards[m], shards[m].order[0]);
        UnionLookup(shards, shards[m].order[0].id);
      }
    }
    assert IsCandidate(shards, |shards|, w, k);
    left := Union(shards) - {k.id};
  }

  /** Such pools exist: the same two transactions, and an eviction that leaves a different one. */
  lemma ShardCountShows(a: Entry, b: Entry, n: nat) returns (one: seq<Shard>, many: seq<Shard>, x: Pool, y: Pool)
    requires n > 0 && ShardIndex(a.key.id, n) != ShardIndex(b.key.id, n)
    requires a.key.isV2 && b.key.isV2 && a.key.bid > b.key.bid
    requires a.key.feePerGas < b.key.feePerGas || (a.key.feePerGas == b.key.feePerGas && IdLess(b.key.id, a.key.id))
    ensures |one| == 1 && |many| == n && ShardsValid(one) && ShardsValid(many) && Union(one) == Union(many)
    ensures Evicts(one, x) && Evicts(many, y) && x != y
  {
    hide ShardValid, PickWorst, Sorted;
    one, many := TwoShardings(a, b, n);
    OneShardOrder(one, a, b);
    assert IsCandidate(one, 1, 0, PickWorst(one[0].order));
    x := Union(one) - {PickWorst(one[0].order).id};
    y := CandidateOfTwo(many, a, b);
    EvictionDependsOnShardsIff(a, b, one, many, x, y);
  }
}
