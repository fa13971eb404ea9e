/** The execution cache: bounded entries, evicted oldest put first, with an order list that may hold stale records. */
module ExecCache {
  import opened Common
  import opened Sums

  type Key = string

  /** A cached value may itself be absent: the cache also remembers that there is nothing to find. */
  datatype Entry<+V> = Entry(value: Option<V>, bytes: nat, gen: nat)

  datatype FifoKey = FifoKey(key: Key, gen: nat)

  datatype Options = Options(enabled: bool, maxEntries: nat, maxBytes: nat)

  datatype State<+V> = State(entries: map<Key, Entry<V>>, fifo: seq<FifoKey>, bytes: nat, nextGen: nat)

  /** The subtraction that the source guards against going below zero. */
  function Less(bytes: nat, b: nat): nat {
    if b <= bytes then bytes - b else 0
  }

  function AtLeastOne(n: nat): nat {
    if n == 0 then 1 else n
  }

  predicate Over<V>(opt: Options, s: State<V>) {
    |s.entries| > AtLeastOne(opt.maxEntries) || s.bytes > AtLeastOne(opt.maxBytes)
  }

  predicate Live<V>(s: State<V>, r: FifoKey) {
    r.key in s.entries && s.entries[r.key].gen == r.gen
  }

  function Removed<V>(s: State<V>, k: Key): State<V>
    requires k in s.entries
  {
    s.(entries := s.entries - {k}, bytes := Less(s.bytes, s.entries[k].bytes))
  }

  function Evict<V>(opt: Options, s: State<V>): State<V>
    decreases |s.fifo|
  {
    if s.fifo == [] || !Over(opt, s) then s
    else
      var popped := s.(fifo := s.fifo[1..]);
      if Live(s, s.fifo[0]) then Evict(opt, Removed(popped, s.fifo[0].key)) else Evict(opt, popped)
  }

  function Stored<V>(s: State<V>, k: Key, v: Option<V>, vbytes: nat): State<V> {
    var base := if k in s.entries then Less(s.bytes, s.entries[k].bytes) else s.bytes;
    State(
      s.entries[k := Entry(v, |k| + vbytes, s.nextGen)],
      s.fifo + [FifoKey(k, s.nextGen)],
      base + |k| + vbytes,
      s.nextGen + 1)
  }

  function Put<V>(opt: Options, s: State<V>, k: Key, v: Option<V>, vbytes: nat): State<V> {
    if opt.enabled then Evict(opt, Stored(s, k, v, vbytes)) else s
  }

  function Invalidate<V>(opt: Options, s: State<V>, k: Key): State<V> {
    if opt.enabled && k in s.entries then Removed(s, k) else s
  }

  function Clear<V>(s: State<V>): State<V> {
    State(map[], [], 0, s.nextGen)
  }

  /** A hit gives the remembered value, which may be absent; a miss gives nothing. */
  function Get<V>(opt: Options, s: State<V>, k: Key): Option<Option<V>> {
    if opt.enabled && k in s.entries then Some(s.entries[k].value) else None
  }

  // -------- the invariant --------

  function Sizes<V>(entries: map<Key, Entry<V>>): map<Key, nat> {
    map k | k in entries :: entries[k].bytes
  }

  predicate Rising(fifo: seq<FifoKey>) {
    forall i, j | 0 <= i < j < |fifo| :: fifo[i].gen < fifo[j].gen
  }

  /** Bytes are counted exactly, and every live entry has its record in an order list that rises. */
  ghost predicate Inv<V>(s: State<V>) {
    && s.bytes == Sum(Sizes(s.entries))
    && Rising(s.fifo)
    && (forall r | r in s.fifo :: r.gen < s.nextGen)
    && (forall k | k in s.entries :: FifoKey(k, s.entries[k].gen) in s.fifo)
  }

  /** The record of a live entry is its only one. */
  lemma OneRecordEach<V>(s: State<V>, i: nat, j: nat)
    requires Inv(s) && i < |s.fifo| && j < |s.fifo|
    requires Live(s, s.fifo[i]) && Live(s, s.fifo[j]) && s.fifo[i].key == s.fifo[j].key
    ensures i == j
  {
    assert s.fifo[i].gen == s.fifo[j].gen;
  }

  lemma SizesWithout<V>(entries: map<Key, Entry<V>>, k: Key)
    requires k in entries
    ensures Sum(Sizes(entries)) == entries[k].bytes + Sum(Sizes(entries - {k}))
  {
    SumWithout(Sizes(entries), k);
    assert Sizes(entries) - {k} == Sizes(entries - {k});
  }

  /** Removing an entry never meets the guard against negative byte counts. */
  lemma RemovedKeeps<V>(s: State<V>, k: Key)
    requires Inv(s) && k in s.entries
    ensures s.entries[k].bytes <= s.bytes
    ensures Inv(Removed(s, k))
  {
    SizesWithout(s.entries, k);
  }

  lemma StoredBytes<V>(s: State<V>, k: Key, v: Option<V>, vbytes: nat)
    requires Inv(s)
    ensures Stored(s, k, v, vbytes).bytes == Sum(Sizes(Stored(s, k, v, vbytes).entries))
  {
    hide Sum, Sizes;
    var s' := Stored(s, k, v, vbytes);
    SizesWithout(s'.entries, k);
    assert s'.entries - {k} == s.entries - {k};
    if k in s.entries {
      SizesWithout(s.entries, k);
    } else {
      assert s.entries - {k} == s.entries;
    }
  }

  lemma StoredRises<V>(s: State<V>, k: Key, v: Option<V>, vbytes: nat)
    requires Inv(s)
    ensures Rising(Stored(s, k, v, vbytes).fifo)
  {
    var fifo := Stored(s, k, v, vbytes).fifo;
    forall i, j | 0 <= i < j < |fifo| ensures fifo[i].gen < fifo[j].gen {
      if j == |s.fifo| {
        assert s.fifo[i] in s.fifo;
      }
    }
  }

  lemma StoredKeeps<V>(s: State<V>, k: Key, v: Option<V>, vbytes: nat)
    requires Inv(s)
    ensures Inv(Stored(s, k, v, vbytes))
  {
    hide Sum, Sizes, Rising;
    StoredBytes(s, k, v, vbytes);
    StoredRises(s, k, v, vbytes);
    var s' := Stored(s, k, v, vbytes);
    forall j | j in s'.entries ensures FifoKey(j, s'.entries[j].gen) in s'.fifo {
      if j == k {
        assert s'.fifo[|s.fifo|] == FifoKey(k, s.nextGen);
      } else {
        assert FifoKey(j, s.entries[j].gen) in s.fifo;
      }
    }
  }

  /** Taking a record off the front of the list keeps the invariant once its entry, if live, is gone. */
  lemma PoppedKeeps<V>(s: State<V>)
    requires Inv(s) && s.fifo != []
    ensures var popped := s.(fifo := s.fifo[1..]);
      if Live(s, s.fifo[0]) then Inv(Removed(popped, s.fifo[0].key)) else Inv(popped)
  {
    hide Sum, Sizes;
    var head, rest := s.fifo[0], s.fifo[1..];
    assert s.fifo == [head] + rest;
    if Live(s, head) {
      SizesWithout(s.entries, head.key);
    }
    forall k | k in s.entries && !(k == head.key && Live(s, head)) ensures FifoKey(k, s.entries[k].gen) in rest {
      assert FifoKey(k, s.entries[k].gen) in s.fifo;
    }
  }

  lemma EntriesNeedRecords<V>(s: State<V>)
    requires Inv(s)
    ensures s.entries != map[] ==> s.fifo != []
  {
    if s.entries != map[] {
      var k :| k in s.entries;
      assert FifoKey(k, s.entries[k].gen) in s.fifo;
    }
  }

  /** With no record left there is no entry, so a cache that stops evicting is within its limits. */
  lemma NoRecordsNoEntries<V>(opt: Options, s: State<V>)
    requires Inv(s) && s.fifo == []
    ensures s.entries == map[] && !Over(opt, s)
  {
    EntriesNeedRecords(s);
    assert Sizes(s.entries) == map[];
  }

  lemma {:induction false} EvictKeeps<V>(opt: Options, s: State<V>)
    requires Inv(s)
    ensures Inv(Evict(opt, s)) && !Over(opt, Evict(opt, s))
    decreases |s.fifo|
  {
    hide Inv, Over, Removed;
    if s.fifo == [] {
      NoRecordsNoEntries(opt, s);
    } else if Over(opt, s) {
      PoppedKeeps(s);
      var popped := s.(fifo := s.fifo[1..]);
      if Live(s, s.fifo[0]) {
        SameFifo(popped, s.fifo[0].key);
        EvictKeeps(opt, Removed(popped, s.fifo[0].key));
      } else {
        EvictKeeps(opt, popped);
      }
    }
  }

  lemma SameFifo<V>(s: State<V>, k: Key)
    requires k in s.entries
    ensures Removed(s, k).fifo == s.fifo && Removed(s, k).entries == s.entries - {k}
  {
  }

  /** After every put the byte count is exact and both limits hold. */
  lemma PutKeeps<V>(opt: Options, s: State<V>, k: Key, v: Option<V>, vbytes: nat)
    requires Inv(s)
    ensures Inv(Put(opt, s, k, v, vbytes))
    ensures opt.enabled ==> !Over(opt, Put(opt, s, k, v, vbytes))
  {
    StoredKeeps(s, k, v, vbytes);
    EvictKeeps(opt, Stored(s, k, v, vbytes));
  }

  // -------- which entries are evicted --------

  /** The entries put at generation `g` or later. */
  function Since<V>(entries: map<Key, Entry<V>>, g: nat): map<Key, Entry<V>> {
    map k | k in entries && entries[k].gen >= g :: entries[k]
  }

  ghost predicate Fits<V>(opt: Options, entries: map<Key, Entry<V>>) {
    |entries| <= AtLeastOne(opt.maxEntries) && Sum(Sizes(entries)) <= AtLeastOne(opt.maxBytes)
  }

  lemma HeadIsOldest<V>(s: State<V>)
    requires Inv(s) && s.fifo != []
    ensures forall k | k in s.entries :: s.entries[k].gen >= s.fifo[0].gen
    ensures Live(s, s.fifo[0]) ==> s.entries - {s.fifo[0].key} == Since(s.entries, s.fifo[0].gen + 1)
  {
    var head := s.fifo[0];
    forall k | k in s.entries ensures
      s.entries[k].gen >= head.gen && (s.entries[k].gen == head.gen ==> k == head.key)
    {
      var r := FifoKey(k, s.entries[k].gen);
      assert r in s.fifo;
      var i :| 0 <= i < |s.fifo| && s.fifo[i] == r;
      assert i > 0 ==> head.gen < r.gen;
    }
  }

  /** Eviction goes by age: what stays is all that was put since some generation. */
  lemma {:induction false} EvictKeepsNewest<V>(opt: Options, s: State<V>)
    requires Inv(s)
    ensures exists g: nat :: Evict(opt, s).entries == Since(s.entries, g)
    decreases |s.fifo|
  {
    hide Inv, Over;
    if s.fifo == [] || !Over(opt, s) {
      assert Since(s.entries, 0) == s.entries;
    } else {
      PoppedKeeps(s);
      HeadIsOldest(s);
      var popped := s.(fifo := s.fifo[1..]);
      if Live(s, s.fifo[0]) {
        var next := Removed(popped, s.fifo[0].key);
        EvictKeepsNewest(opt, next);
        var g: nat :| Evict(opt, next).entries == Since(next.entries, g);
        var h := s.fifo[0].gen + 1;
        assert Since(Since(s.entries, h), g) == Since(s.entries, if g < h then h else g);
      } else {
        EvictKeepsNewest(opt, popped);
      }
    }
  }

  /** Eviction stops as soon as it can: what could have stayed within the limits, from the newest on, stays. */
  lemma {:induction false} EvictKeepsWhatFits<V>(opt: Options, s: State<V>, g: nat)
    requires Inv(s) && Fits(opt, Since(s.entries, g))
    ensures forall k | k in s.entries && s.entries[k].gen >= g :: k in Evict(opt, s).entries
    decreases |s.fifo|
  {
    hide Inv, Fits;
    if s.fifo != [] && Over(opt, s) {
      PoppedKeeps(s);
      HeadIsOldest(s);
      assert g <= s.fifo[0].gen ==> Since(s.entries, g) == s.entries;
      OverDoesNotFit(opt, s);
      var popped := s.(fifo := s.fifo[1..]);
      if Live(s, s.fifo[0]) {
        var next := Removed(popped, s.fifo[0].key);
        assert Since(next.entries, g) == Since(s.entries, g);
        EvictKeepsWhatFits(opt, next, g);
      } else {
        EvictKeepsWhatFits(opt, popped, g);
      }
    }
  }

  lemma OverDoesNotFit<V>(opt: Options, s: State<V>)
    requires Inv(s)
    ensures Over(opt, s) <==> !Fits(opt, s.entries)
  {
  }

  // -------- runs --------

  datatype Op<+V> = PutOp(key: Key, value: Option<V>, vbytes: nat) | InvalidateOp(key: Key) | ClearOp

  function Apply<V>(opt: Options, s: State<V>, op: Op<V>): State<V> {
    match op
    case PutOp(k, v, vbytes) => Put(opt, s, k, v, vbytes)
    case InvalidateOp(k) => Invalidate(opt, s, k)
    case ClearOp => Clear(s)
  }

  function Run<V>(opt: Options, ops: seq<Op<V>>): State<V> {
    if ops == [] then State(map[], [], 0, 1) else Apply(opt, Run(opt, ops[..|ops| - 1]), ops[|ops| - 1])
  }

  /** What the operations last put under a key, unless they have since taken it back. */
  function LastPut<V>(ops: seq<Op<V>>, k: Key): Option<Option<V>> {
    if ops == [] then None
    else
      match ops[|ops| - 1]
      case PutOp(key, value, _) => if key == k then Some(value) else LastPut(ops[..|ops| - 1], k)
      case InvalidateOp(key) => if key == k then None else LastPut(ops[..|ops| - 1], k)
      case ClearOp => None
  }

  lemma {:induction false} EvictOnlyForgets<V>(opt: Options, s: State<V>, k: Key)
    ensures k in Evict(opt, s).entries ==> k in s.entries && Evict(opt, s).entries[k] == s.entries[k]
    decreases |s.fifo|
  {
    if s.fifo != [] && Over(opt, s) {
      var popped := s.(fifo := s.fifo[1..]);
      if Live(s, s.fifo[0]) {
        EvictOnlyForgets(opt, Removed(popped, s.fifo[0].key), k);
      } else {
        EvictOnlyForgets(opt, popped, k);
      }
    }
  }

  lemma {:induction false} RunKeeps<V>(opt: Options, ops: seq<Op<V>>)
    ensures Inv(Run(opt, ops))
  {
    if ops == [] {
      assert Sizes(Run(opt, ops).entries) == map[];
    } else {
      hide Inv, Evict, Stored, Removed;
      RunKeeps(opt, ops[..|ops| - 1]);
      var before := Run(opt, ops[..|ops| - 1]);
      match ops[|ops| - 1]
      case PutOp(k, v, vbytes) => PutKeeps(opt, before, k, v, vbytes);
      case InvalidateOp(k) =>
        if k in before.entries {
          RemovedKeeps(before, k);
        }
      case ClearOp => EmptyKeeps(before);
    }
  }

  lemma EmptyKeeps<V>(s: State<V>)
    ensures Inv(Clear(s))
  {
    assert Sizes(Clear(s).entries) == map[];
  }

  /** A hit is never stale: it is what was last put under the key and not taken back since. */
  lemma {:induction false} HitsAreFresh<V>(opt: Options, ops: seq<Op<V>>, k: Key)
    ensures Get(opt, Run(opt, ops), k).Some? ==> Get(opt, Run(opt, ops), k) == LastPut(ops, k)
  {
    hide Evict, Over;
    if ops != [] {
      var before := Run(opt, ops[..|ops| - 1]);
      HitsAreFresh(opt, ops[..|ops| - 1], k);
      var op := ops[|ops| - 1];
      if op.PutOp? {
        EvictOnlyForgets(opt, Stored(before, op.key, op.value, op.vbytes), k);
      }
    }
  }

  lemma NewestIsAlone<V>(s: State<V>, k: Key, v: Option<V>, vbytes: nat)
    requires Inv(s)
    ensures var s' := Stored(s, k, v, vbytes);
      Since(s'.entries, s.nextGen) == map[k := s'.entries[k]]
  {
    var s' := Stored(s, k, v, vbytes);
    forall j | j in s.entries && j != k ensures s'.entries[j].gen < s.nextGen {
      assert FifoKey(j, s.entries[j].gen) in s.fifo;
    }
  }

  lemma SizeOfOne<V>(k: Key, e: Entry<V>)
    ensures Sum(Sizes(map[k := e])) == e.bytes && |map[k := e]| == 1
  {
    var one := map[k := e];
    SizesWithout(one, k);
    assert one - {k} == map[];
    assert Sizes(one - {k}) == map[];
  }

  /** A value just put is a hit exactly when it fits the cache by itself. */
  lemma PutHitsIffItFits<V>(opt: Options, s: State<V>, k: Key, v: Option<V>, vbytes: nat)
    requires Inv(s) && opt.enabled
    ensures |k| + vbytes <= AtLeastOne(opt.maxBytes) <==> Get(opt, Put(opt, s, k, v, vbytes), k) == Some(v)
  {
    hide Inv, Evict, Sum, Sizes;
    var s' := Stored(s, k, v, vbytes);
    StoredKeeps(s, k, v, vbytes);
    NewestIsAlone(s, k, v, vbytes);
    SizeOfOne(k, s'.entries[k]);
    EvictOnlyForgets(opt, s', k);
    EvictKeeps(opt, s');
    if |k| + vbytes <= AtLeastOne(opt.maxBytes) {
      EvictKeepsWhatFits(opt, s', s.nextGen);
    } else {
      BytesCoverEach(Evict(opt, s'), k);
    }
  }

  lemma BytesCoverEach<V>(s: State<V>, k: Key)
    requires Inv(s)
    ensures k in s.entries ==> s.entries[k].bytes <= s.bytes
  {
    if k in s.entries {
      SizesWithout(s.entries, k);
    }
  }

  // -------- the cache as it is updated in place --------

  class BasicCache<V> {
    const opt: Options
    var entries: map<Key, Entry<V>>
    var fifo: seq<FifoKey>
    var bytes: nat
    var nextGen: nat

    ghost function Abs(): State<V>
      reads this
    {
      State(entries, fifo, bytes, nextGen)
    }

    constructor (opt: Options)
      ensures this.opt == opt && Abs() == Run(opt, [])
    {
      this.opt := opt;
      entries, fifo, bytes, nextGen := map[], [], 0, 1;
    }

    method GetCopy(k: Key) returns (v: Option<Option<V>>)
      ensures v == Get(opt, Abs(), k)
    {
      if !opt.enabled {
        return None;
      }
      if k !in entries {
        return None;
      }
      return Some(entries[k].value);
    }

    method Subtract(b: nat)
      modifies this`bytes
      ensures bytes == Less(old(bytes), b)
    {
      if b <= bytes {
        bytes := bytes - b;
      } else {
        bytes := 0;
      }
    }

    method PutValue(k: Key, v: Option<V>, vbytes: nat)
      modifies this
      ensures Abs() == Put(opt, old(Abs()), k, v, vbytes)
    {
      hide Evict, Less;
      if !opt.enabled {
        return;
      }
      if k in entries {
        Subtract(entries[k].bytes);
      }
      var e := Entry(v, |k| + vbytes, nextGen);
      nextGen := nextGen + 1;
      bytes := bytes + e.bytes;
      entries := entries[k := e];
      fifo := fifo + [FifoKey(k, entries[k].gen)];
      EvictIfNeeded();
    }

    method InvalidateKey(k: Key)
      modifies this
      ensures Abs() == Invalidate(opt, old(Abs()), k)
    {
      if !opt.enabled {
        return;
      }
      if k !in entries {
        return;
      }
      Subtract(entries[k].bytes);
      entries := entries - {k};
    }

    method ClearAll()
      modifies this
      ensures Abs() == Clear(old(Abs()))
    {
      entries, fifo, bytes := map[], [], 0;
    }

    method EvictIfNeeded()
      modifies this
      ensures Abs() == Evict(opt, old(Abs()))
    {
      var maxEntries := if opt.maxEntries == 0 then 1 else opt.maxEntries;
      var maxBytes := if opt.maxBytes == 0 then 1 else opt.maxBytes;
      while fifo != [] && (|entries| > maxEntries || bytes > maxBytes)
        invariant Evict(opt, Abs()) == Evict(opt, old(Abs()))
        decreases |fifo|
      {
        var fk := fifo[0];
        fifo := fifo[1..];
        if fk.key !in entries {
          continue;
        }
        if entries[fk.key].gen != fk.gen {
          continue;
        }
        Subtract(entries[fk.key].bytes);
        entries := entries - {fk.key};
      }
    }
  }
}
