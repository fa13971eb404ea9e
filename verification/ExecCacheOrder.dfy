/** The execution cache as a plain list, oldest put first: what it remembers, without generations or stale records. */
module ExecCacheOrder {
  import opened Common
  import opened Sums
  import opened ExecCache

  datatype Item<+V> = Item(key: Key, value: Option<V>, bytes: nat)

  // -------- the list --------

  function Without<V>(items: seq<Item<V>>, k: Key): seq<Item<V>> {
    if items == [] then []
    else (if items[0].key == k then [] else [items[0]]) + Without(items[1..], k)
  }

  function Size<V>(items: seq<Item<V>>): nat {
    if items == [] then 0 else items[0].bytes + Size(items[1..])
  }

  /** Drops the oldest while there are too many or they are too big; a limit of zero counts as one. */
  function Trim<V>(opt: Options, items: seq<Item<V>>): seq<Item<V>> {
    var maxEntries := if opt.maxEntries == 0 then 1 else opt.maxEntries;
    var maxBytes := if opt.maxBytes == 0 then 1 else opt.maxBytes;
    if items != [] && (|items| > maxEntries || Size(items) > maxBytes) then Trim(opt, items[1..]) else items
  }

  function Next<V>(opt: Options, items: seq<Item<V>>, op: Op<V>): seq<Item<V>> {
    match op
    case ClearOp => []
    case InvalidateOp(k) => if opt.enabled then Without(items, k) else items
    case PutOp(k, v, n) => if opt.enabled then Trim(opt, Without(items, k) + [Item(k, v, |k| + n)]) else items
  }

  function After<V>(opt: Options, ops: seq<Op<V>>): seq<Item<V>> {
    if ops == [] then [] else Next(opt, After(opt, ops[..|ops| - 1]), ops[|ops| - 1])
  }

  function Find<V>(items: seq<Item<V>>, k: Key): Option<Option<V>> {
    if items == [] then None else if items[0].key == k then Some(items[0].value) else Find(items[1..], k)
  }

  // -------- the cache's items --------

  function Popped<V>(s: State<V>): State<V>
    requires s.fifo != []
  {
    var rest := s.(fifo := s.fifo[1..]);
    if Live(s, s.fifo[0]) then Removed(rest, s.fifo[0].key) else rest
  }

  function Head<V>(s: State<V>): (head: seq<Item<V>>)
    requires s.fifo != []
    ensures |head| <= 1
  {
    var k := s.fifo[0].key;
    if Live(s, s.fifo[0]) then [Item(k, s.entries[k].value, s.entries[k].bytes)] else []
  }

  /** The live entries in the order of their records. */
  function Items<V>(s: State<V>): seq<Item<V>>
    decreases |s.fifo|
  {
    if s.fifo == [] then [] else Head(s) + Items(Popped(s))
  }

  lemma WithoutSplits<V>(a: seq<Item<V>>, b: seq<Item<V>>, k: Key)
    requires |a| <= 1
    ensures Without(a + b, k) == Without(a, k) + Without(b, k)
  {
    if a == [] {
      assert a + b == b;
    } else {
      assert (a + b)[1..] == b && a[1..] == [];
    }
  }

  lemma {:induction false} ItemsCount<V>(s: State<V>)
    requires Inv(s)
    ensures |Items(s)| == |s.entries| && Size(Items(s)) == s.bytes
    decreases |s.fifo|
  {
    hide Inv;
    if s.fifo == [] {
      NoEntries(s);
    } else {
      PoppedKeeps(s);
      ItemsCount(Popped(s));
      if Live(s, s.fifo[0]) {
        var k := s.fifo[0].key;
        RemovedKeeps(s, k);
        assert s.entries.Keys == (s.entries - {k}).Keys + {k};
        assert |s.entries.Keys| == |s.entries| && |(s.entries - {k}).Keys| == |s.entries - {k}|;
        assert Items(s)[1..] == Items(Popped(s));
      } else {
        assert Items(s) == Items(Popped(s));
      }
    }
  }

  lemma NoEntries<V>(s: State<V>)
    requires Inv(s) && s.fifo == []
    ensures s.entries == map[] && s.bytes == 0
  {
    EntriesNeedRecords(s);
    assert Sizes(s.entries) == map[];
  }

  lemma {:induction false} ItemsFind<V>(s: State<V>, k: Key)
    requires Inv(s)
    ensures Find(Items(s), k) == if k in s.entries then Some(s.entries[k].value) else None
    decreases |s.fifo|
  {
    hide Inv;
    if s.fifo == [] {
      NoEntries(s);
    } else {
      PoppedKeeps(s);
      ItemsFind(Popped(s), k);
      if Live(s, s.fifo[0]) {
        assert Items(s)[1..] == Items(Popped(s));
      } else {
        assert Items(s) == Items(Popped(s));
      }
    }
  }

  // -------- operations --------

  lemma {:induction false} EvictTrims<V>(opt: Options, s: State<V>)
    requires Inv(s)
    ensures Items(Evict(opt, s)) == Trim(opt, Items(s))
    decreases |s.fifo|
  {
    hide Inv;
    ItemsCount(s);
    if s.fifo != [] && Over(opt, s) {
      PoppedKeeps(s);
      EvictTrims(opt, Popped(s));
      if Live(s, s.fifo[0]) {
        assert Items(s)[1..] == Items(Popped(s));
      } else {
        assert Items(s) == Items(Popped(s));
      }
    }
  }

  /** Taking an entry out takes its item out; its record stays behind. */
  lemma {:induction false} RemovedItems<V>(s: State<V>, k: Key)
    requires Inv(s) && k in s.entries
    ensures Items(Removed(s, k)) == Without(Items(s), k)
    decreases |s.fifo|
  {
    hide Inv, Removed, Popped, Head, Live, Items, Without;
    EntriesNeedRecords(s);
    PoppedInv(s);
    ItemsStep(s);
    WithoutSplits(Head(s), Items(Popped(s)), k);
    HeadRemoved(s, k);
    ItemsStep(Removed(s, k));
    if Live(s, s.fifo[0]) && s.fifo[0].key == k {
      NothingOf(Popped(s), k);
    } else {
      RemovedItems(Popped(s), k);
      RemovedThenPopped(s, k);
    }
  }

  lemma HeadRemoved<V>(s: State<V>, k: Key)
    requires Inv(s) && k in s.entries && s.fifo != []
    ensures Removed(s, k).fifo == s.fifo && Head(Removed(s, k)) == Without(Head(s), k)
    ensures if Live(s, s.fifo[0]) && s.fifo[0].key == k then
        k !in Popped(s).entries && Popped(Removed(s, k)) == Popped(s)
      else k in Popped(s).entries
  {
    hide Inv, Less;
    if Live(s, s.fifo[0]) {
      assert Head(s)[1..] == [];
    }
  }

  lemma RemovedThenPopped<V>(s: State<V>, k: Key)
    requires Inv(s) && k in s.entries && s.fifo != [] && !(Live(s, s.fifo[0]) && s.fifo[0].key == k)
    ensures Popped(Removed(s, k)) == Removed(Popped(s), k)
    ensures Live(Removed(s, k), s.fifo[0]) == Live(s, s.fifo[0])
  {
    var h := s.fifo[0].key;
    BytesCoverEach(s, k);
    if Live(s, s.fifo[0]) {
      TwoFit(s, h, k);
      hide Inv;
      assert s.entries - {k} - {h} == s.entries - {h} - {k};
    }
  }

  lemma {:induction false} NothingOf<V>(s: State<V>, k: Key)
    requires Inv(s) && k !in s.entries
    ensures Without(Items(s), k) == Items(s)
    decreases |s.fifo|
  {
    hide Inv;
    if s.fifo != [] {
      PoppedKeeps(s);
      NothingOf(Popped(s), k);
      if Live(s, s.fifo[0]) {
        assert Items(s)[1..] == Items(Popped(s));
      } else {
        assert Items(s) == Items(Popped(s));
      }
    }
  }

  lemma PoppedInv<V>(s: State<V>)
    requires Inv(s) && s.fifo != []
    ensures Inv(Popped(s)) && |Popped(s).fifo| < |s.fifo|
  {
    PoppedKeeps(s);
    hide Inv;
  }

  lemma FirstStored<V>(s: State<V>, k: Key, v: Option<V>, n: nat)
    requires Inv(s) && s.fifo == []
    ensures Without(Items(s), k) == [] && Items(Stored(s, k, v, n)) == [Item(k, v, |k| + n)]
  {
    hide Inv, Items;
    NoEntries(s);
    var stored := Stored(s, k, v, n);
    assert stored.fifo == [FifoKey(k, s.nextGen)] && stored.fifo[1..] == [];
    assert Head(stored) == [Item(k, v, |k| + n)];
    NoItems(s);
    NoItems(Popped(stored));
    ItemsStep(stored);
  }

  lemma HeadStored<V>(s: State<V>, k: Key, v: Option<V>, n: nat)
    requires s.fifo != [] && Stored(s, k, v, n).fifo != [] && Stored(s, k, v, n).fifo[0] == s.fifo[0]
    requires Live(Stored(s, k, v, n), s.fifo[0]) <==> Live(s, s.fifo[0]) && s.fifo[0].key != k
    ensures Head(Stored(s, k, v, n)) == Without(Head(s), k)
  {
    assert Stored(s, k, v, n).fifo[0] == s.fifo[0];
    if Live(s, s.fifo[0]) {
      assert Head(s)[1..] == [];
    }
  }

  /** A put moves its key to the end. */
  lemma {:induction false} StoredItems<V>(s: State<V>, k: Key, v: Option<V>, n: nat)
    requires Inv(s)
    ensures Items(Stored(s, k, v, n)) == Without(Items(s), k) + [Item(k, v, |k| + n)]
    decreases |s.fifo|
  {
    hide Inv, Stored, Popped, Head, Live, Items, Without;
    if s.fifo == [] {
      FirstStored(s, k, v, n);
    } else {
      PoppedInv(s);
      StoredItems(Popped(s), k, v, n);
      StoredThenPopped(s, k, v, n);
      HeadStored(s, k, v, n);
      ItemsStep(s);
      ItemsStep(Stored(s, k, v, n));
      WithoutSplits(Head(s), Items(Popped(s)), k);
    }
  }

  lemma ItemsStep<V>(s: State<V>)
    requires s.fifo != []
    ensures Items(s) == Head(s) + Items(Popped(s))
  {
  }

  /** The bytes of the other entries. */
  function Others<V>(s: State<V>, k: Key): nat {
    if k in s.entries then Less(s.bytes, s.entries[k].bytes) else s.bytes
  }

  lemma OthersOf<V>(s: State<V>, h: Key, k: Key, n: nat)
    requires Inv(s) && h in s.entries
    ensures h == k ==> Others(s, k) == Others(Removed(s, k), k)
    ensures h != k ==> Less(Others(s, k) + n, s.entries[h].bytes) == Others(Removed(s, h), k) + n
  {
    BytesCoverEach(s, h);
    if k in s.entries && h != k {
      TwoFit(s, h, k);
    }
  }

  lemma StoredFifo<V>(s: State<V>, k: Key, v: Option<V>, n: nat)
    requires Inv(s) && s.fifo != []
    ensures Stored(s, k, v, n).fifo != [] && Stored(s, k, v, n).fifo[0] == s.fifo[0]
    ensures Stored(s, k, v, n).fifo[1..] == s.fifo[1..] + [FifoKey(k, s.nextGen)]
    ensures Live(Stored(s, k, v, n), s.fifo[0]) <==> Live(s, s.fifo[0]) && s.fifo[0].key != k
  {
    assert s.fifo[0] in s.fifo && s.fifo[0].gen < s.nextGen;
  }

  lemma StoredEntries<V>(s: State<V>, h: Key, k: Key, v: Option<V>, n: nat)
    requires h in s.entries
    ensures var all, rest := Stored(s, k, v, n).entries, Stored(Removed(s, h), k, v, n).entries;
      rest == if h == k then all else all - {h}
  {
  }

  lemma StoredThenPopped<V>(s: State<V>, k: Key, v: Option<V>, n: nat)
    requires Inv(s) && s.fifo != []
    ensures Popped(Stored(s, k, v, n)) == Stored(Popped(s), k, v, n)
    ensures Stored(s, k, v, n).fifo != [] && Stored(s, k, v, n).fifo[0] == s.fifo[0]
    ensures Live(Stored(s, k, v, n), s.fifo[0]) <==> Live(s, s.fifo[0]) && s.fifo[0].key != k
  {
    hide Inv, Less, Live;
    StoredFifo(s, k, v, n);
    if Live(s, s.fifo[0]) {
      LiveIsThere(s);
      OthersOf(s, s.fifo[0].key, k, |k| + n);
      StoredEntries(s, s.fifo[0].key, k, v, n);
    }
  }

  lemma LiveIsThere<V>(s: State<V>)
    requires s.fifo != [] && Live(s, s.fifo[0])
    ensures s.fifo[0].key in s.entries
  {
  }

  lemma TwoFit<V>(s: State<V>, h: Key, k: Key)
    requires Inv(s) && h in s.entries && k in s.entries && h != k
    ensures s.entries[h].bytes + s.entries[k].bytes <= s.bytes
  {
    SizesWithout(s.entries, h);
    SizesWithout(s.entries - {h}, k);
  }

  // -------- runs --------

  lemma NextIsList<V>(opt: Options, s: State<V>, op: Op<V>)
    requires Inv(s)
    ensures Items(Apply(opt, s, op)) == Next(opt, Items(s), op)
  {
    hide Inv, Evict, Stored, Removed, Items, Without, Trim;
    match op
    case PutOp(k, v, n) =>
      StoredItems(s, k, v, n);
      StoredKeeps(s, k, v, n);
      EvictTrims(opt, Stored(s, k, v, n));
    case InvalidateOp(k) =>
      if k in s.entries {
        RemovedItems(s, k);
      } else {
        NothingOf(s, k);
      }
    case ClearOp => NoItems(Clear(s));
  }

  /** After any operations the live entries, by age, are the list's items. */
  lemma {:induction false} RunIsList<V>(opt: Options, ops: seq<Op<V>>)
    ensures Items(Run(opt, ops)) == After(opt, ops)
  {
    hide Apply, Next, Items;
    if ops == [] {
      NoItems<V>(Run(opt, []));
    } else {
      RunIsList(opt, ops[..|ops| - 1]);
      RunKeeps(opt, ops[..|ops| - 1]);
      NextIsList(opt, Run(opt, ops[..|ops| - 1]), ops[|ops| - 1]);
    }
  }

  lemma NoItems<V>(s: State<V>)
    requires s.fifo == []
    ensures Items(s) == []
  {
  }

  /** Every lookup, hit or miss, is the plain list's, as are the number of entries and of bytes. */
  lemma LookupsAreTheList<V>(opt: Options, ops: seq<Op<V>>, k: Key)
    ensures Get(opt, Run(opt, ops), k) == if opt.enabled then Find(After(opt, ops), k) else None
    ensures |Run(opt, ops).entries| == |After(opt, ops)| && Run(opt, ops).bytes == Size(After(opt, ops))
  {
    RunIsList(opt, ops);
    RunKeeps(opt, ops);
    ItemsFind(Run(opt, ops), k);
    ItemsCount(Run(opt, ops));
  }
}
