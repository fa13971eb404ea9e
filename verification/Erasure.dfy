/** Gossip messages in shards: equal pieces, one XOR parity, and a receiver that puts them together again. */
module Erasure {
  import opened Common
  import opened WordBits
  import U256

  type Hash = nat

  datatype Message = Message(topic: nat, payload: seq<byte>)

  /** One shard as a frame carries it. Index `dataShards` is the parity. */
  datatype Shard = Shard(
    msgId: Hash,
    topic: nat,
    originalLen: nat,
    shardSize: nat,
    dataShards: nat,
    index: nat,
    bytes: seq<byte>)

  /** The digest of topic and payload: a message's id in shards, and its key among the messages already seen. */
  type Digest = Message -> Hash

  // -------- XOR --------

  function XorByte(a: byte, b: byte): byte {
    ByteBits();
    Bitwise(BitXor, a, b, 8)
  }

  lemma ByteBits()
    ensures U256.Pow2(8) == 256
  {
  }

  function XorBytes(a: seq<byte>, b: seq<byte>): (r: seq<byte>)
    requires |a| == |b|
    ensures |r| == |a|
    ensures forall i | 0 <= i < |a| :: r[i] == XorByte(a[i], b[i])
  {
    seq(|a|, i requires 0 <= i < |a| => XorByte(a[i], b[i]))
  }

  // -------- sending --------

  /** Piece `i` of the payload, padded with zeros. */
  function PieceOf(payload: seq<byte>, size: nat, i: nat): (r: seq<byte>)
    ensures |r| == size
    ensures forall j | 0 <= j < size :: r[j] == if i * size + j < |payload| then payload[i * size + j] else 0
  {
    seq(size, j requires 0 <= j < size => if i * size + j < |payload| then payload[i * size + j] else 0)
  }

  function PieceCount(length: nat, size: nat): nat
    requires size > 0
  {
    U256.Quotient(length + size - 1, size)
  }

  function Pieces(payload: seq<byte>, size: nat, n: nat): (r: seq<seq<byte>>)
    ensures |r| == n
    ensures forall i | 0 <= i < n :: r[i] == PieceOf(payload, size, i)
  {
    seq(n, i requires 0 <= i < n => PieceOf(payload, size, i))
  }

  predicate AllOfSize(pieces: seq<seq<byte>>, size: nat) {
    forall i | 0 <= i < |pieces| :: |pieces[i]| == size
  }

  function Parity(pieces: seq<seq<byte>>, size: nat): (r: seq<byte>)
    requires AllOfSize(pieces, size)
    ensures |r| == size
  {
    if pieces == [] then Repeat(size, 0)
    else XorBytes(Parity(pieces[..|pieces| - 1], size), pieces[|pieces| - 1])
  }

  /** Shard `i` of a message: a piece, or the parity when `i` is the number of pieces. */
  function ShardOf(digest: Digest, m: Message, size: nat, i: nat): Shard
    requires size > 0
  {
    var n := PieceCount(|m.payload|, size);
    var pieces := Pieces(m.payload, size, n);
    Shard(digest(m), m.topic, |m.payload|, size, n, i, if i < n then pieces[i] else Parity(pieces, size))
  }

  /** What goes out as shard `i`: its count has 16 bits and its length 32. */
  function SentShard(digest: Digest, m: Message, size: nat, i: nat): Shard
    requires size > 0
  {
    var n := PieceCount(|m.payload|, size) % 0x1_0000;
    var pieces := Pieces(m.payload, size, n);
    Shard(digest(m), m.topic, |m.payload| % 0x1_0000_0000, size, n, i,
      if i < n then pieces[i] else Parity(pieces, size))
  }

  // -------- receiving --------

  datatype Inflight = Inflight(
    topic: nat,
    originalLen: nat,
    shardSize: nat,
    dataShards: nat,
    data: seq<seq<byte>>,
    have: seq<bool>,
    parity: seq<byte>,
    haveParity: bool)

  datatype Receiver = Receiver(dedup: set<Hash>, dedupFifo: seq<Hash>, inflight: map<Hash, Inflight>, fifo: seq<Hash>)

  const FRESH := Receiver({}, [], map[], [])

  datatype Reply = Reply(next: Receiver, accepted: bool, delivered: seq<Message>)

  predicate WellFormed(sh: Shard) {
    sh.dataShards != 0 && sh.shardSize != 0 && |sh.bytes| == sh.shardSize && sh.index <= sh.dataShards
  }

  function Remember(r: Receiver, maxEntries: nat, k: Hash): Receiver {
    var dedup, fifo := r.dedup + {k}, r.dedupFifo + [k];
    if |dedup| > maxEntries then r.(dedup := dedup - {fifo[0]}, dedupFifo := fifo[1..])
    else r.(dedup := dedup, dedupFifo := fifo)
  }

  function NewInflight(sh: Shard): Inflight {
    Inflight(
      sh.topic, sh.originalLen, sh.shardSize, sh.dataShards,
      Repeat(sh.dataShards, []), Repeat(sh.dataShards, false), [], false)
  }

  /** Opens an entry for a message not seen in flight, evicting the oldest key if there are too many. */
  function Open(r: Receiver, maxEntries: nat, sh: Shard): Receiver {
    if sh.msgId in r.inflight then r
    else
      var inflight, fifo := r.inflight[sh.msgId := NewInflight(sh)], r.fifo + [sh.msgId];
      if |inflight| > maxEntries then r.(inflight := inflight - {fifo[0]}, fifo := fifo[1..])
      else r.(inflight := inflight, fifo := fifo)
  }

  predicate SameMessage(st: Inflight, sh: Shard) {
    && st.topic == sh.topic && st.originalLen == sh.originalLen
    && st.shardSize == sh.shardSize && st.dataShards == sh.dataShards
  }

  predicate Shaped(st: Inflight) {
    && |st.data| == |st.have| == st.dataShards > 0
    && (forall i | 0 <= i < |st.have| && st.have[i] :: |st.data[i]| == st.shardSize)
    && (st.haveParity ==> |st.parity| == st.shardSize)
  }

  /** The first copy of each shard is kept. */
  function Absorb(st: Inflight, sh: Shard): Inflight
    requires Shaped(st) && SameMessage(st, sh) && sh.index <= sh.dataShards
  {
    if sh.index == sh.dataShards then
      if st.haveParity then st else st.(parity := sh.bytes, haveParity := true)
    else
      if st.have[sh.index] then st
      else st.(data := st.data[sh.index := sh.bytes], have := st.have[sh.index := true])
  }

  function HaveSet(have: seq<bool>): set<nat> {
    set i: nat | i < |have| && have[i]
  }

  predicate Complete(st: Inflight) {
    var count := |HaveSet(st.have)|;
    count == |st.data| || (count + 1 == |st.data| && st.haveParity)
  }

  /** The last index that is missing; the number of pieces if none is. */
  function LastMissing(have: seq<bool>, n: nat): nat
    requires n <= |have|
  {
    if n == 0 then |have| else if !have[n - 1] then n - 1 else LastMissing(have, n - 1)
  }

  /** Starts from the parity and takes out every piece but one. */
  function TakeOut(parity: seq<byte>, data: seq<seq<byte>>, missing: nat, n: nat): (r: seq<byte>)
    requires n <= |data| && forall i | 0 <= i < n && i != missing :: |data[i]| == |parity|
    ensures |r| == |parity|
  {
    if n == 0 then parity
    else
      var r := TakeOut(parity, data, missing, n - 1);
      if n - 1 == missing then r else XorBytes(r, data[n - 1])
  }

  predicate AllPresentBut(st: Inflight, missing: nat) {
    forall i | 0 <= i < |st.have| && i != missing :: st.have[i]
  }

  function Recovered(st: Inflight): Inflight
    requires Shaped(st) && Complete(st)
    requires AllPresentBut(st, LastMissing(st.have, |st.have|))
  {
    var missing := LastMissing(st.have, |st.have|);
    if missing >= |st.have| || !st.haveParity then st
    else
      var piece := TakeOut(st.parity, st.data, missing, |st.data|);
      st.(data := st.data[missing := piece], have := st.have[missing := true])
  }

  /** Appends pieces until the length is reached, and cuts or pads to it. */
  function Gather(data: seq<seq<byte>>, length: nat, sofar: seq<byte>): seq<byte>
    decreases |data|
  {
    if data == [] then sofar
    else
      var more := sofar + data[0];
      if |more| >= length then more else Gather(data[1..], length, more)
  }

  function Resized(bytes: seq<byte>, length: nat): (r: seq<byte>)
    ensures |r| == length
  {
    if |bytes| >= length then bytes[..length] else bytes + Repeat(length - |bytes|, 0)
  }

  /**
   One arriving shard. The source erases the finished entry and only then reads the topic it delivers from it; `stale`
   is what that read yields.
   */
  function OnShard(digest: Digest, maxEntries: nat, r: Receiver, sh: Shard, stale: nat): Reply
    requires forall k | k in r.inflight :: Shaped(r.inflight[k])
  {
    if !WellFormed(sh) then Reply(r, false, [])
    else
      var r1 := Open(r, maxEntries, sh);
      if sh.msgId !in r1.inflight || !SameMessage(r1.inflight[sh.msgId], sh) then Reply(r1, false, [])
      else
        var st := Absorb(r1.inflight[sh.msgId], sh);
        var r2 := r1.(inflight := r1.inflight[sh.msgId := st]);
        if !Complete(st) then Reply(r2, true, [])
        else
          OnlyOneMissing(st);
          var full := Recovered(st);
          var m := Message(st.topic, Resized(Gather(full.data, st.originalLen, []), st.originalLen));
          if digest(m) != sh.msgId then Reply(r2.(inflight := r2.inflight[sh.msgId := full]), false, [])
          else
            var done := r2.(inflight := r2.inflight - {sh.msgId});
            if digest(m) in r.dedup then Reply(done, true, [])
            else Reply(Remember(done, maxEntries, digest(m)), true, [Message(stale, m.payload)])
  }

  function Range(n: nat): set<nat> {
    if n == 0 then {} else Range(n - 1) + {n - 1}
  }

  lemma {:induction false} RangeSize(n: nat)
    ensures |Range(n)| == n
    ensures forall i: nat :: i in Range(n) <==> i < n
  {
    if n > 0 {
      RangeSize(n - 1);
    }
  }

  lemma HaveSetBound(have: seq<bool>)
    ensures |HaveSet(have)| <= |have|
  {
    RangeSize(|have|);
    SubsetSize(HaveSet(have), Range(|have|));
  }

  lemma SubsetSize<T>(a: set<T>, b: set<T>)
    requires a <= b
    ensures |a| <= |b|
    ensures |a| == |b| ==> a == b
  {
    assert b == a + (b - a);
  }

  lemma {:induction false} LastMissingIsMissing(have: seq<bool>, n: nat)
    requires n <= |have|
    ensures var m := LastMissing(have, n);
      if m < n then !have[m] else m == |have| && forall i | 0 <= i < n :: have[i]
  {
    if n > 0 && have[n - 1] {
      LastMissingIsMissing(have, n - 1);
    }
  }

  /** A complete entry lacks at most the piece that the scan finds. */
  lemma OnlyOneMissing(st: Inflight)
    requires Shaped(st) && Complete(st)
    ensures AllPresentBut(st, LastMissing(st.have, |st.have|))
    ensures LastMissing(st.have, |st.have|) < |st.have| ==> st.haveParity
  {
    var n := |st.have|;
    var missing := LastMissing(st.have, n);
    LastMissingIsMissing(st.have, n);
    if missing < n {
      var present := HaveSet(st.have) + {missing};
      RangeSize(n);
      SubsetSize(present, Range(n));
      forall i | 0 <= i < n && i != missing ensures st.have[i] {
        assert i in present;
      }
    }
  }
}
