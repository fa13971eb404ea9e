/** Cutting a message into shards and collecting them again, buffer by buffer. */
module ErasureProcedure {
  import opened Common
  import opened Erasure
  import opened ErasureTheorems
  import U256

  const HEADER: nat := 46
  const MAX_SHARD: nat := 1024

  /** XORs `b` into `a`, byte by byte. */
  method XorInto(a: seq<byte>, b: seq<byte>) returns (r: seq<byte>)
    requires |a| == |b|
    ensures r == XorBytes(a, b)
  {
    hide XorByte;
    r := a;
    for i := 0 to |a|
      invariant |r| == |a|
      invariant forall j | 0 <= j < i :: r[j] == XorByte(a[j], b[j])
      invariant forall j | i <= j < |a| :: r[j] == a[j]
    {
      r := r[i := XorByte(a[i], b[i])];
    }
    assert r == XorBytes(a, b);
  }

  /** One piece: a zeroed buffer with the payload's bytes copied in. */
  method CutPiece(payload: seq<byte>, size: nat, i: nat) returns (piece: seq<byte>)
    ensures piece == PieceOf(payload, size, i)
  {
    var off := i * size;
    var n := if off >= |payload| then 0 else if size < |payload| - off then size else |payload| - off;
    piece := Repeat(size, 0);
    for j := 0 to n
      invariant |piece| == size
      invariant forall k | 0 <= k < j :: piece[k] == payload[off + k]
      invariant forall k | j <= k < size :: piece[k] == 0
    {
      piece := piece[j := payload[off + j]];
    }
    assert piece == PieceOf(payload, size, i);
  }

  method XorAll(pieces: seq<seq<byte>>, size: nat) returns (parity: seq<byte>)
    requires AllOfSize(pieces, size)
    ensures parity == Parity(pieces, size)
  {
    hide XorByte;
    parity := Repeat(size, 0);
    for i := 0 to |pieces|
      invariant parity == Parity(pieces[..i], size)
    {
      assert pieces[..i + 1][..i] == pieces[..i];
      parity := XorInto(parity, pieces[i]);
    }
    assert pieces[..|pieces|] == pieces;
  }

  /** The shards that publishing a message over the payload limit sends, the parity last. */
  method MakeShards(digest: Digest, m: Message, maxPayload: nat) returns (shards: Option<seq<Shard>>)
    requires |m.payload| > maxPayload
    ensures shards.None? <==> maxPayload <= HEADER || PieceCount(|m.payload|, ShardSize(maxPayload)) % 0x1_0000 == 0
    ensures shards.Some? ==> |shards.value| == PieceCount(|m.payload|, ShardSize(maxPayload)) % 0x1_0000 + 1
    ensures shards.Some? ==>
      forall i | 0 <= i < |shards.value| :: shards.value[i] == SentShard(digest, m, ShardSize(maxPayload), i)
  {
    hide U256.Quotient, Parity, PieceOf;
    if maxPayload <= HEADER {
      return None;
    }
    var size := ShardSize(maxPayload);
    var count := PieceCount(|m.payload|, size) % 0x1_0000;
    if count == 0 {
      return None;
    }
    var pieces: seq<seq<byte>> := [];
    for i := 0 to count
      invariant |pieces| == i
      invariant forall k | 0 <= k < i :: pieces[k] == PieceOf(m.payload, size, k)
    {
      var piece := CutPiece(m.payload, size, i);
      pieces := pieces + [piece];
    }
    assert pieces == Pieces(m.payload, size, count);
    var parity := XorAll(pieces, size);
    var length := |m.payload| % 0x1_0000_0000;
    var out: seq<Shard> := [];
    for i := 0 to count
      invariant |out| == i
      invariant forall k | 0 <= k < i :: out[k] == Shard(digest(m), m.topic, length, size, count, k, pieces[k])
    {
      out := out + [Shard(digest(m), m.topic, length, size, count, i, pieces[i])];
    }
    return Some(out + [Shard(digest(m), m.topic, length, size, count, count, parity)]);
  }

  function ShardSize(maxPayload: nat): nat {
    if maxPayload <= HEADER then 1 else if maxPayload - HEADER < MAX_SHARD then maxPayload - HEADER else MAX_SHARD
  }

  predicate Fits16And32(m: Message, size: nat)
    requires size > 0
  {
    PieceCount(|m.payload|, size) < 0x1_0000 && |m.payload| < 0x1_0000_0000
  }

  /** A message that fits the fields goes out as all of its shards. */
  lemma FittingIsSentWhole(digest: Digest, m: Message, size: nat, i: nat)
    requires size > 0 && m.payload != [] && Fits16And32(m, size)
    ensures PieceCount(|m.payload|, size) % 0x1_0000 == PieceCount(|m.payload|, size) > 0
    ensures SentShard(digest, m, size, i) == ShardOf(digest, m, size, i)
  {
    hide U256.Quotient, Parity, PieceOf;
    SomePiece(|m.payload|, size);
  }

  lemma SomePiece(length: nat, size: nat)
    requires size > 0
    ensures length > 0 ==> PieceCount(length, size) > 0
  {
    hide U256.Quotient;
    var q := PieceCount(length, size);
    if q == 0 {
      assert q * size == 0;
    }
  }

  class GossipReceiver {
    const digest: Digest
    const maxEntries: nat
    var dedup: set<Hash>
    var dedupFifo: seq<Hash>
    var inflight: map<Hash, Inflight>
    var fifo: seq<Hash>

    ghost function Abs(): Receiver
      reads this
    {
      Receiver(dedup, dedupFifo, inflight, fifo)
    }

    ghost predicate Valid()
      reads this
    {
      forall k | k in inflight :: Shaped(inflight[k])
    }

    constructor (digest: Digest, maxEntries: nat)
      ensures this.digest == digest && this.maxEntries == maxEntries && Abs() == FRESH && Valid()
    {
      this.digest, this.maxEntries := digest, maxEntries;
      dedup, dedupFifo, inflight, fifo := {}, [], map[], [];
    }

    method DedupRemember(k: Hash)
      modifies this`dedup, this`dedupFifo
      ensures Abs() == Remember(old(Abs()), maxEntries, k)
    {
      dedup := dedup + {k};
      dedupFifo := dedupFifo + [k];
      if |dedup| > maxEntries {
        var oldest := dedupFifo[0];
        dedupFifo := dedupFifo[1..];
        dedup := dedup - {oldest};
      }
    }

    method OpenEntry(sh: Shard)
      modifies this`inflight, this`fifo
      ensures Abs() == Open(old(Abs()), maxEntries, sh)
    {
      hide NewInflight;
      if sh.msgId in inflight {
        return;
      }
      inflight := inflight[sh.msgId := NewInflight(sh)];
      fifo := fifo + [sh.msgId];
      if |inflight| > maxEntries {
        var oldest := fifo[0];
        fifo := fifo[1..];
        inflight := inflight - {oldest};
      }
    }

    method CountHave(have: seq<bool>) returns (count: nat, missing: nat)
      ensures count == |HaveSet(have)| && missing == LastMissing(have, |have|)
    {
      count, missing := 0, |have|;
      assert HaveSet(have[..0]) == {};
      for i := 0 to |have|
        invariant count == |HaveSet(have[..i])|
        invariant missing == LastMissing(have, i)
      {
        if have[i] {
          assert HaveSet(have[..i + 1]) == HaveSet(have[..i]) + {i};
          count := count + 1;
        } else {
          assert HaveSet(have[..i + 1]) == HaveSet(have[..i]);
          missing := i;
        }
      }
      assert have[..|have|] == have;
    }

    method Recover(st: Inflight, missing: nat) returns (piece: seq<byte>)
      requires missing < |st.data|
      requires forall i | 0 <= i < |st.data| && i != missing :: |st.data[i]| == |st.parity|
      ensures piece == TakeOut(st.parity, st.data, missing, |st.data|)
    {
      hide XorByte;
      piece := st.parity;
      for i := 0 to |st.data|
        invariant piece == TakeOut(st.parity, st.data, missing, i)
      {
        if i != missing {
          piece := XorInto(piece, st.data[i]);
        }
      }
    }

    method GatherPayload(data: seq<seq<byte>>, length: nat) returns (payload: seq<byte>)
      ensures payload == Resized(Gather(data, length, []), length)
    {
      payload := [];
      var i := 0;
      ghost var whole := Gather(data, length, []);
      assert data[0..] == data;
      while i < |data|
        invariant 0 <= i <= |data|
        invariant Gather(data[i..], length, payload) == whole
        decreases |data| - i
      {
        payload := payload + data[i];
        assert data[i..][1..] == data[i + 1..];
        if |payload| >= length {
          break;
        }
        i := i + 1;
      }
      assert payload == whole;
      payload := if |payload| >= length then payload[..length] else payload + Repeat(length - |payload|, 0);
    }

    /** `stale` is what reading the topic from the erased entry yields; the source reads it there. */
    method OnInbound(sh: Shard, stale: nat) returns (accepted: bool, delivered: seq<Message>)
      requires Valid()
      modifies this
      ensures Reply(Abs(), accepted, delivered) == OnShard(digest, maxEntries, old(Abs()), sh, stale)
    {
      hide TakeOut, Gather, Resized, HaveSet, NewInflight, LastMissing, Open, Remember;
      if sh.dataShards == 0 || sh.shardSize == 0 || |sh.bytes| != sh.shardSize || sh.index > sh.dataShards {
        return false, [];
      }
      OpenKeepsShape(Abs(), maxEntries, sh);
      OpenEntry(sh);
      if sh.msgId !in inflight {
        return false, [];
      }
      var st := inflight[sh.msgId];
      if st.topic != sh.topic || st.originalLen != sh.originalLen || st.shardSize != sh.shardSize ||
         st.dataShards != sh.dataShards {
        return false, [];
      }
      if sh.index == sh.dataShards {
        if !st.haveParity {
          st := st.(parity := sh.bytes, haveParity := true);
        }
      } else if !st.have[sh.index] {
        st := st.(data := st.data[sh.index := sh.bytes], have := st.have[sh.index := true]);
      }
      inflight := inflight[sh.msgId := st];
      var count, missing := CountHave(st.have);
      if count < |st.data| && !(count + 1 == |st.data| && st.haveParity) {
        CountBound(st.have);
        return true, [];
      }
      CountBound(st.have);
      OnlyOneMissing(st);
      FullMeansNoneMissing(st);
      if count < |st.data| {
        var piece := Recover(st, missing);
        st := st.(data := st.data[missing := piece], have := st.have[missing := true]);
      }
      var payload := GatherPayload(st.data, st.originalLen);
      var m := Message(st.topic, payload);
      if digest(m) != sh.msgId {
        inflight := inflight[sh.msgId := st];
        return false, [];
      }
      inflight := inflight - {sh.msgId};
      if digest(m) in dedup {
        return true, [];
      }
      DedupRemember(digest(m));
      return true, [Message(stale, payload)];
    }
  }

  /** A receiver fed shard by shard delivers what the run over all of them delivers. */
  method ReceiveAll(digest: Digest, maxEntries: nat, arrivals: seq<Arrival>) returns (delivered: seq<Message>)
    ensures delivered == Receive(digest, maxEntries, arrivals).delivered
  {
    hide OnShard;
    var receiver := new GossipReceiver(digest, maxEntries);
    delivered := [];
    for i := 0 to |arrivals|
      invariant receiver.Abs() == Receive(digest, maxEntries, arrivals[..i]).receiver
      invariant delivered == Receive(digest, maxEntries, arrivals[..i]).delivered
      invariant receiver.Valid() && receiver.digest == digest && receiver.maxEntries == maxEntries
    {
      assert arrivals[..i + 1][..i] == arrivals[..i];
      OnShardKeepsShape(digest, maxEntries, receiver.Abs(), arrivals[i].shard, arrivals[i].stale);
      var accepted, more := receiver.OnInbound(arrivals[i].shard, arrivals[i].stale);
      delivered := delivered + more;
    }
    assert arrivals[..|arrivals|] == arrivals;
  }

  lemma CountBound(have: seq<bool>)
    ensures |HaveSet(have)| <= |have|
  {
    HaveSetBound(have);
  }

  lemma FullMeansNoneMissing(st: Inflight)
    requires Shaped(st)
    ensures |HaveSet(st.have)| == |st.have| <==> LastMissing(st.have, |st.have|) >= |st.have|
    ensures LastMissing(st.have, |st.have|) <= |st.have|
  {
    var n := |st.have|;
    LastMissingIsMissing(st.have, n);
    RangeSize(n);
    SubsetSize(HaveSet(st.have), Range(n));
    if LastMissing(st.have, n) >= n {
      assert HaveSet(st.have) == Range(n);
    } else {
      var missing := LastMissing(st.have, n);
      assert missing in Range(n);
      assert missing !in HaveSet(st.have);
    }
  }
}
