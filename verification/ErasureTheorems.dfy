/** Any n of the n + 1 shards of a message deliver it, once. */
module ErasureTheorems {
  import opened Common
  import opened WordBits
  import opened Erasure
  import U256

  // -------- XOR of bytes --------

  lemma {:induction false} BitsCommute(x: nat, y: nat, n: nat)
    ensures Bitwise(BitXor, x, y, n) == Bitwise(BitXor, y, x, n)
  {
    if n > 0 {
      BitsCommute(x / 2, y / 2, n - 1);
    }
  }

  lemma {:induction false} BitsAssociate(x: nat, y: nat, z: nat, n: nat)
    ensures Bitwise(BitXor, Bitwise(BitXor, x, y, n), z, n) == Bitwise(BitXor, x, Bitwise(BitXor, y, z, n), n)
  {
    if n > 0 {
      BitsAssociate(x / 2, y / 2, z / 2, n - 1);
      Halves(BitResult(BitXor, x % 2, y % 2), Bitwise(BitXor, x / 2, y / 2, n - 1));
      Halves(BitResult(BitXor, y % 2, z % 2), Bitwise(BitXor, y / 2, z / 2, n - 1));
    }
  }

  lemma Halves(b: nat, h: nat)
    requires b < 2
    ensures (b + 2 * h) % 2 == b && (b + 2 * h) / 2 == h
  {
  }

  lemma {:induction false} BitsSelf(x: nat, n: nat)
    ensures Bitwise(BitXor, x, x, n) == 0
  {
    if n > 0 {
      BitsSelf(x / 2, n - 1);
    }
  }

  lemma {:induction false} BitsZero(x: nat, n: nat)
    requires x < U256.Pow2(n)
    ensures Bitwise(BitXor, 0, x, n) == x
  {
    if n > 0 {
      BitsZero(x / 2, n - 1);
    }
  }

  lemma ByteLaws(a: byte, b: byte, c: byte)
    ensures XorByte(a, b) == XorByte(b, a)
    ensures XorByte(XorByte(a, b), c) == XorByte(a, XorByte(b, c))
    ensures XorByte(a, a) == 0 && XorByte(0, a) == a
  {
    hide Bitwise, U256.Pow2;
    ByteBits();
    BitsCommute(a, b, 8);
    BitsAssociate(a, b, c, 8);
    BitsSelf(a, 8);
    BitsZero(a, 8);
  }

  lemma BytesCommute(a: seq<byte>, b: seq<byte>)
    requires |a| == |b|
    ensures XorBytes(a, b) == XorBytes(b, a)
  {
    hide XorByte;
    forall i | 0 <= i < |a| ensures XorByte(a[i], b[i]) == XorByte(b[i], a[i]) {
      ByteLaws(a[i], b[i], a[i]);
    }
  }

  lemma BytesAssociate(a: seq<byte>, b: seq<byte>, c: seq<byte>)
    requires |a| == |b| == |c|
    ensures XorBytes(XorBytes(a, b), c) == XorBytes(a, XorBytes(b, c))
  {
    hide XorByte;
    forall i | 0 <= i < |a| ensures XorByte(XorByte(a[i], b[i]), c[i]) == XorByte(a[i], XorByte(b[i], c[i])) {
      ByteLaws(a[i], b[i], c[i]);
    }
  }

  lemma BytesSelf(a: seq<byte>)
    ensures XorBytes(a, a) == Repeat(|a|, 0)
  {
    hide XorByte;
    forall i | 0 <= i < |a| ensures XorByte(a[i], a[i]) == 0 {
      ByteLaws(a[i], a[i], a[i]);
    }
  }

  lemma BytesZero(a: seq<byte>)
    ensures XorBytes(Repeat(|a|, 0), a) == a && XorBytes(a, Repeat(|a|, 0)) == a
  {
    hide XorByte;
    forall i | 0 <= i < |a| ensures XorByte(0, a[i]) == a[i] && XorByte(a[i], 0) == a[i] {
      ByteLaws(a[i], 0, a[i]);
    }
  }

  // -------- recovering a piece --------

  /** The parity with the first `n` pieces but one taken out is the parity of the rest and, once passed, that one. */
  lemma {:induction false} TakeOutLeaves(parity: seq<byte>, data: seq<seq<byte>>, size: nat, missing: nat,
                                         lost: seq<byte>, n: nat)
    requires |parity| == size == |lost| && n <= |data| && missing < |data|
    requires AllOfSize(data[missing := lost], size)
    requires forall i | 0 <= i < |data| && i != missing :: |data[i]| == size
    ensures var front := data[missing := lost][..n];
      AllOfSize(front, size) &&
      XorBytes(TakeOut(parity, data, missing, n), Parity(front, size)) == if n <= missing then parity
        else XorBytes(parity, lost)
  {
    hide XorBytes;
    var all := data[missing := lost];
    if n == 0 {
      BytesZero(parity);
    } else {
      var before, piece := Parity(all[..n - 1], size), all[n - 1];
      TakeOutLeaves(parity, data, size, missing, lost, n - 1);
      assert all[..n][..n - 1] == all[..n - 1];
      var r := TakeOut(parity, data, missing, n - 1);
      if n - 1 == missing {
        BytesAssociate(r, before, lost);
      } else {
        Regroup(r, piece, before);
      }
    }
  }

  /** (r ^ p) ^ (q ^ p) is r ^ q. */
  lemma Regroup(r: seq<byte>, p: seq<byte>, q: seq<byte>)
    requires |r| == |p| == |q|
    ensures XorBytes(XorBytes(r, p), XorBytes(q, p)) == XorBytes(r, q)
  {
    hide XorBytes;
    BytesAssociate(r, p, XorBytes(q, p));
    BytesCommute(q, p);
    BytesAssociate(p, p, q);
    BytesSelf(p);
    BytesZero(q);
  }

  /** Taking every other piece out of the parity leaves the missing one. */
  lemma ParityRecovers(data: seq<seq<byte>>, pieces: seq<seq<byte>>, size: nat, missing: nat)
    requires AllOfSize(pieces, size) && |data| == |pieces| && missing < |pieces|
    requires forall i | 0 <= i < |data| && i != missing :: data[i] == pieces[i]
    ensures TakeOut(Parity(pieces, size), data, missing, |data|) == pieces[missing]
  {
    hide XorBytes, Parity, TakeOut;
    var parity, lost := Parity(pieces, size), pieces[missing];
    assert data[missing := lost] == pieces;
    TakeOutLeaves(parity, data, size, missing, lost, |data|);
    var r := TakeOut(parity, data, missing, |data|);
    assert pieces[..|data|] == pieces;
    Cancel(r, parity, lost);
  }

  /** r ^ p = p ^ q leaves r = q. */
  lemma Cancel(r: seq<byte>, p: seq<byte>, q: seq<byte>)
    requires |r| == |p| == |q| && XorBytes(r, p) == XorBytes(p, q)
    ensures r == q
  {
    hide XorBytes;
    BytesCommute(p, q);
    BytesAssociate(r, p, p);
    BytesAssociate(q, p, p);
    BytesSelf(p);
    BytesZero(r);
    BytesZero(q);
  }

  // -------- putting the pieces together --------

  function Joined(pieces: seq<seq<byte>>): seq<byte> {
    if pieces == [] then [] else pieces[0] + Joined(pieces[1..])
  }

  lemma {:induction false} GatherIsPrefix(data: seq<seq<byte>>, length: nat, sofar: seq<byte>)
    requires |sofar + Joined(data)| >= length
    ensures |Gather(data, length, sofar)| >= length
    ensures Gather(data, length, sofar)[..length] == (sofar + Joined(data))[..length]
    decreases |data|
  {
    if data == [] {
      assert sofar + Joined(data) == sofar;
    } else {
      var more := sofar + data[0];
      assert sofar + Joined(data) == more + Joined(data[1..]);
      if |more| < length {
        GatherIsPrefix(data[1..], length, more);
      }
    }
  }

  lemma {:induction false} JoinedAt(pieces: seq<seq<byte>>, size: nat, i: nat, j: nat)
    requires AllOfSize(pieces, size) && i < |pieces| && j < size
    ensures |Joined(pieces)| == |pieces| * size && i * size + j < |Joined(pieces)|
    ensures Joined(pieces)[i * size + j] == pieces[i][j]
    decreases |pieces|
  {
    JoinedLength(pieces, size);
    U256.Scale(|pieces| - 1 - i, i, size);
    U256.ScaleMonotone(0, |pieces| - 1 - i, size);
    U256.Scale(|pieces| - 1, 1, size);
    if i > 0 {
      U256.Scale(i - 1, 1, size);
      JoinedAt(pieces[1..], size, i - 1, j);
      assert pieces[1..][i - 1] == pieces[i];
    }
  }

  lemma {:induction false} JoinedLength(pieces: seq<seq<byte>>, size: nat)
    requires AllOfSize(pieces, size)
    ensures |Joined(pieces)| == |pieces| * size
    decreases |pieces|
  {
    if pieces != [] {
      JoinedLength(pieces[1..], size);
      U256.Scale(|pieces| - 1, 1, size);
    }
  }

  lemma EnoughPieces(length: nat, size: nat)
    requires size > 0
    ensures PieceCount(length, size) * size >= length
    ensures length > 0 ==> PieceCount(length, size) > 0
  {
    hide U256.Quotient;
    var q := PieceCount(length, size);
    if q == 0 {
      assert q * size == 0;
    }
  }

  /** The pieces of a payload, gathered and cut to its length, are the payload. */
  lemma PiecesJoinToPayload(payload: seq<byte>, size: nat)
    requires size > 0
    ensures Resized(Gather(Pieces(payload, size, PieceCount(|payload|, size)), |payload|, []), |payload|) == payload
  {
    hide U256.Quotient, Gather;
    var n := PieceCount(|payload|, size);
    var pieces := Pieces(payload, size, n);
    EnoughPieces(|payload|, size);
    JoinedLength(pieces, size);
    assert [] + Joined(pieces) == Joined(pieces);
    GatherIsPrefix(pieces, |payload|, []);
    forall k | 0 <= k < |payload| ensures Joined(pieces)[k] == payload[k] {
      PayloadByte(payload, size, n, k);
    }
  }

  lemma PayloadByte(payload: seq<byte>, size: nat, n: nat, k: nat)
    requires size > 0 && n * size >= |payload| && k < |payload|
    ensures k < |Joined(Pieces(payload, size, n))| && Joined(Pieces(payload, size, n))[k] == payload[k]
  {
    hide U256.Quotient, U256.Remainder, Joined;
    var i, j := U256.Quotient(k, size), U256.Remainder(k, size);
    if i >= n {
      U256.ScaleMonotone(n, i, size);
    }
    JoinedAt(Pieces(payload, size, n), size, i, j);
  }

  // -------- one message, any shards in any order --------

  /** The indices of the shards of a message that have arrived. */
  function Arrived(indices: seq<nat>): set<nat> {
    set k | k in indices
  }

  /** The entry in flight holds, among the shards of `m`, exactly the pieces and parity in `got`. */
  ghost predicate Holds(m: Message, size: nat, st: Inflight, got: set<nat>)
    requires size > 0
  {
    var n := PieceCount(|m.payload|, size);
    var pieces := Pieces(m.payload, size, n);
    && Shaped(st) && st.topic == m.topic && st.originalLen == |m.payload| && st.shardSize == size && st.dataShards == n
    && (forall i | 0 <= i < n :: st.have[i] <==> i in got)
    && (forall i | 0 <= i < n && st.have[i] :: st.data[i] == pieces[i])
    && (st.haveParity <==> n in got)
    && (st.haveParity ==> st.parity == Parity(pieces, size))
    && (forall i | i in got :: i <= n)
  }

  lemma HoldsCount(m: Message, size: nat, st: Inflight, got: set<nat>)
    requires size > 0 && Holds(m, size, st, got)
    ensures Complete(st) <==> |got| >= PieceCount(|m.payload|, size)
  {
    var n := PieceCount(|m.payload|, size);
    var have := HaveSet(st.have);
    HaveSetBound(st.have);
    if n in got {
      assert got == have + {n};
    } else {
      assert got == have;
    }
  }

  lemma AbsorbHolds(digest: Digest, m: Message, size: nat, st: Inflight, got: set<nat>, i: nat)
    requires size > 0 && Holds(m, size, st, got) && i <= PieceCount(|m.payload|, size)
    ensures Holds(m, size, Absorb(st, ShardOf(digest, m, size, i)), got + {i})
  {
  }

  lemma NewHolds(digest: Digest, m: Message, size: nat, i: nat)
    requires size > 0 && PieceCount(|m.payload|, size) > 0
    ensures Holds(m, size, NewInflight(ShardOf(digest, m, size, i)), {})
  {
  }

  /** A complete entry that holds true shards gives back the message. */
  lemma CompleteRestores(m: Message, size: nat, st: Inflight, got: set<nat>)
    requires size > 0 && Holds(m, size, st, got) && Complete(st)
    requires AllPresentBut(st, LastMissing(st.have, |st.have|))
    ensures Recovered(st).data == Pieces(m.payload, size, PieceCount(|m.payload|, size))
    ensures Message(st.topic, Resized(Gather(Recovered(st).data, st.originalLen, []), st.originalLen)) == m
  {
    hide Parity, TakeOut, Gather, Complete;
    var n := PieceCount(|m.payload|, size);
    var pieces := Pieces(m.payload, size, n);
    var missing := LastMissing(st.have, n);
    OnlyOneMissing(st);
    LastMissingIsMissing(st.have, n);
    if missing < n {
      ParityRecovers(st.data, pieces, size, missing);
    }
    assert Recovered(st).data == pieces;
    PiecesJoinToPayload(m.payload, size);
  }

  /**
   * How the receiver stands after some shards of one message: before delivery it holds all that arrived, short of
   * enough; after delivery it remembers the message, and may be collecting its shards again.
   */
  ghost predicate Stands(digest: Digest, m: Message, size: nat, r: Receiver, got: set<nat>, done: bool)
    requires size > 0
  {
    var n := PieceCount(|m.payload|, size);
    && r.inflight.Keys <= {digest(m)}
    && |r.fifo| >= |r.inflight|
    && (digest(m) in r.inflight ==> exists held :: |held| < n && Holds(m, size, r.inflight[digest(m)], held))
    && r.dedup == (if done then {digest(m)} else {})
    && (!done ==> |got| < n && (digest(m) in r.inflight <==> got != {}))
    && (!done && got != {} ==> Holds(m, size, r.inflight[digest(m)], got))
  }

  lemma FreshStands(digest: Digest, m: Message, size: nat)
    requires size > 0 && m.payload != []
    ensures Stands(digest, m, size, FRESH, {}, false)
  {
    EnoughPieces(|m.payload|, size);
  }

  lemma ShardIsWellFormed(digest: Digest, m: Message, size: nat, i: nat)
    requires size > 0 && m.payload != [] && i <= PieceCount(|m.payload|, size)
    ensures WellFormed(ShardOf(digest, m, size, i))
  {
    EnoughPieces(|m.payload|, size);
  }

  /** The entry that a shard of `m` finds or opens. */
  lemma OpenFinds(digest: Digest, m: Message, size: nat, r: Receiver, got: set<nat>, done: bool, i: nat,
                  maxEntries: nat)
    returns (held: set<nat>)
    requires size > 0 && m.payload != [] && i <= PieceCount(|m.payload|, size) && maxEntries > 0
    requires Stands(digest, m, size, r, got, done)
    ensures var r1 := Open(r, maxEntries, ShardOf(digest, m, size, i));
      && r1.inflight.Keys == {digest(m)} && |r1.fifo| >= 1 && r1.dedup == r.dedup && r1.dedupFifo == r.dedupFifo
      && Holds(m, size, r1.inflight[digest(m)], held)
    ensures |held| < PieceCount(|m.payload|, size) && (!done ==> held == got)
  {
    hide Holds, NewInflight;
    EnoughPieces(|m.payload|, size);
    var sh := ShardOf(digest, m, size, i);
    if digest(m) in r.inflight {
      if done {
        held :| |held| < PieceCount(|m.payload|, size) && Holds(m, size, r.inflight[digest(m)], held);
      } else {
        held := got;
      }
      assert r.inflight.Keys == {digest(m)};
      assert |r.inflight| == |r.inflight.Keys|;
    } else {
      held := {};
      NewHolds(digest, m, size, i);
      assert r.inflight.Keys == {};
      var inflight := r.inflight[sh.msgId := NewInflight(sh)];
      assert inflight.Keys == {digest(m)};
      assert |inflight| == |inflight.Keys| == 1;
    }
  }

  /** What a shard of `m` makes of an entry that holds shards of `m`. */
  function Settled(digest: Digest, maxEntries: nat, m: Message, r1: Receiver, st: Inflight, stale: nat): Reply {
    if !Complete(st) then Reply(r1.(inflight := r1.inflight[digest(m) := st]), true, [])
    else
      var done := r1.(inflight := r1.inflight[digest(m) := st] - {digest(m)});
      if digest(m) in r1.dedup then Reply(done, true, [])
      else Reply(Remember(done, maxEntries, digest(m)), true, [Message(stale, m.payload)])
  }

  lemma ReplyIsSettled(digest: Digest, maxEntries: nat, m: Message, size: nat, r: Receiver, held: set<nat>, i: nat,
                       stale: nat)
    requires size > 0 && m.payload != [] && i <= PieceCount(|m.payload|, size)
    requires forall k | k in r.inflight :: Shaped(r.inflight[k])
    requires var r1 := Open(r, maxEntries, ShardOf(digest, m, size, i));
      && digest(m) in r1.inflight && r1.dedup == r.dedup && Holds(m, size, r1.inflight[digest(m)], held)
    ensures var sh := ShardOf(digest, m, size, i);
      var r1 := Open(r, maxEntries, sh);
      && Shaped(r1.inflight[digest(m)]) && SameMessage(r1.inflight[digest(m)], sh) && sh.index <= sh.dataShards
      && OnShard(digest, maxEntries, r, sh, stale) ==
         Settled(digest, maxEntries, m, r1, Absorb(r1.inflight[digest(m)], sh), stale)
      && Holds(m, size, Absorb(r1.inflight[digest(m)], sh), held + {i})
  {
    hide Holds, Complete, Recovered, Gather, Resized, Absorb, Open, ShardOf, PieceCount;
    var sh := ShardOf(digest, m, size, i);
    ShardFields(digest, m, size, i);
    ShardIsWellFormed(digest, m, size, i);
    var r1 := Open(r, maxEntries, sh);
    HoldsShape(m, size, r1.inflight[digest(m)], held);
    AbsorbHolds(digest, m, size, r1.inflight[digest(m)], held, i);
    var st := Absorb(r1.inflight[digest(m)], sh);
    if Complete(st) {
      HoldsShape(m, size, st, held + {i});
      OnlyOneMissing(st);
      CompleteRestores(m, size, st, held + {i});
    }
  }

  /** One more shard: the payload is delivered when it is the n-th different one, under whatever topic is read. */
  lemma OneShard(digest: Digest, maxEntries: nat, m: Message, size: nat, r: Receiver, got: set<nat>, done: bool, i: nat,
                 stale: nat)
    requires size > 0 && m.payload != [] && i <= PieceCount(|m.payload|, size) && maxEntries > 0
    requires Stands(digest, m, size, r, got, done)
    requires forall k | k in r.inflight :: Shaped(r.inflight[k])
    ensures var reply := OnShard(digest, maxEntries, r, ShardOf(digest, m, size, i), stale);
      var now := done || |got + {i}| >= PieceCount(|m.payload|, size);
      && reply.accepted && reply.delivered == (if now && !done then [Message(stale, m.payload)] else [])
      && Stands(digest, m, size, reply.next, got + {i}, now)
  {
    hide Holds, Complete, Absorb, Open, ShardOf, PieceCount, OnShard, Shaped, Remember, Stands;
    var sh := ShardOf(digest, m, size, i);
    StandsDedup(digest, m, size, r, got, done);
    var held := OpenFinds(digest, m, size, r, got, done, i, maxEntries);
    var r1 := Open(r, maxEntries, sh);
    ReplyIsSettled(digest, maxEntries, m, size, r, held, i, stale);
    var st := Absorb(r1.inflight[digest(m)], sh);
    HoldsCount(m, size, st, held + {i});
    var now := r1.(inflight := r1.inflight[digest(m) := st]);
    if !Complete(st) {
      StandsCollecting(digest, m, size, now, held + {i}, got + {i}, done);
    } else {
      var over := now.(inflight := now.inflight - {digest(m)});
      if !done {
        RememberOne(over, maxEntries, digest(m));
        StandsDone(digest, m, size, Remember(over, maxEntries, digest(m)), got + {i});
      } else {
        StandsDone(digest, m, size, over, got + {i});
      }
    }
  }

  lemma StandsDedup(digest: Digest, m: Message, size: nat, r: Receiver, got: set<nat>, done: bool)
    requires size > 0 && Stands(digest, m, size, r, got, done)
    ensures r.dedup == if done then {digest(m)} else {}
  {
  }

  lemma StandsCollecting(digest: Digest, m: Message, size: nat, r: Receiver, held: set<nat>, got: set<nat>, done: bool)
    requires size > 0 && r.inflight.Keys == {digest(m)} && |r.fifo| >= 1
    requires Holds(m, size, r.inflight[digest(m)], held) && |held| < PieceCount(|m.payload|, size)
    requires r.dedup == if done then {digest(m)} else {}
    requires !done ==> held == got && got != {}
    ensures Stands(digest, m, size, r, got, done)
  {
    assert |r.inflight| == |r.inflight.Keys| == 1;
  }

  lemma StandsDone(digest: Digest, m: Message, size: nat, r: Receiver, got: set<nat>)
    requires size > 0 && r.inflight.Keys <= {} && r.dedup == {digest(m)}
    ensures Stands(digest, m, size, r, got, true)
  {
    assert |r.inflight| == |r.inflight.Keys| == 0;
  }

  lemma RememberOne(r: Receiver, maxEntries: nat, k: Hash)
    requires r.dedup == {} && maxEntries > 0
    ensures var r' := Remember(r, maxEntries, k); r'.dedup == {k} && r'.inflight == r.inflight && r'.fifo == r.fifo
  {
    assert r.dedup + {k} == {k};
  }

  lemma ShardFields(digest: Digest, m: Message, size: nat, i: nat)
    requires size > 0
    ensures var sh := ShardOf(digest, m, size, i);
      && sh.msgId == digest(m) && sh.index == i && sh.dataShards == PieceCount(|m.payload|, size)
      && sh.topic == m.topic && sh.originalLen == |m.payload| && sh.shardSize == size
  {
  }

  lemma HoldsShape(m: Message, size: nat, st: Inflight, got: set<nat>)
    requires size > 0 && Holds(m, size, st, got)
    ensures Shaped(st) && st.topic == m.topic && st.originalLen == |m.payload| && st.shardSize == size
    ensures st.dataShards == PieceCount(|m.payload|, size)
  {
  }

  // -------- runs --------

  /** A shard that arrives, and what the topic of its entry reads as once erased. */
  datatype Arrival = Arrival(shard: Shard, stale: nat)

  datatype Run = Run(receiver: Receiver, delivered: seq<Message>)

  function Receive(digest: Digest, maxEntries: nat, arrivals: seq<Arrival>): (run: Run)
    ensures forall k | k in run.receiver.inflight :: Shaped(run.receiver.inflight[k])
  {
    if arrivals == [] then Run(FRESH, [])
    else
      var before, a := Receive(digest, maxEntries, arrivals[..|arrivals| - 1]), arrivals[|arrivals| - 1];
      OnShardKeepsShape(digest, maxEntries, before.receiver, a.shard, a.stale);
      var reply := OnShard(digest, maxEntries, before.receiver, a.shard, a.stale);
      Run(reply.next, before.delivered + reply.delivered)
  }

  lemma ReceiveOneMore(digest: Digest, maxEntries: nat, arrivals: seq<Arrival>, a: Arrival)
    ensures var before := Receive(digest, maxEntries, arrivals);
      var reply := OnShard(digest, maxEntries, before.receiver, a.shard, a.stale);
      Receive(digest, maxEntries, arrivals + [a]) == Run(reply.next, before.delivered + reply.delivered)
  {
    hide OnShard;
    assert (arrivals + [a])[..|arrivals + [a]| - 1] == arrivals;
  }

  lemma ReceiveNone(digest: Digest, maxEntries: nat)
    ensures Receive(digest, maxEntries, []) == Run(FRESH, [])
  {
  }

  lemma OpenKeepsShape(r: Receiver, maxEntries: nat, sh: Shard)
    requires forall k | k in r.inflight :: Shaped(r.inflight[k])
    requires WellFormed(sh)
    ensures var r1 := Open(r, maxEntries, sh); forall k | k in r1.inflight :: Shaped(r1.inflight[k])
  {
  }

  lemma OnShardKeepsShape(digest: Digest, maxEntries: nat, r: Receiver, sh: Shard, stale: nat)
    requires forall k | k in r.inflight :: Shaped(r.inflight[k])
    ensures var next := OnShard(digest, maxEntries, r, sh, stale).next;
      forall k | k in next.inflight :: Shaped(next.inflight[k])
  {
    hide Shaped, Open, Absorb, Recovered, Complete, Gather, Resized, AllPresentBut;
    if WellFormed(sh) {
      OpenKeepsShape(r, maxEntries, sh);
      var r1 := Open(r, maxEntries, sh);
      if sh.msgId in r1.inflight && SameMessage(r1.inflight[sh.msgId], sh) {
        AbsorbKeepsShape(r1.inflight[sh.msgId], sh);
        var st := Absorb(r1.inflight[sh.msgId], sh);
        if Complete(st) {
          OnlyOneMissing(st);
          RecoveredKeepsShape(st);
        }
      }
    }
  }

  lemma AbsorbKeepsShape(st: Inflight, sh: Shard)
    requires Shaped(st) && WellFormed(sh) && SameMessage(st, sh)
    ensures Shaped(Absorb(st, sh))
  {
  }

  lemma RecoveredKeepsShape(st: Inflight)
    requires Shaped(st) && Complete(st) && AllPresentBut(st, LastMissing(st.have, |st.have|))
    ensures Shaped(Recovered(st))
  {
    hide TakeOut, Complete;
  }

  function ArrivalsOf(digest: Digest, m: Message, size: nat, indices: seq<nat>, stale: seq<nat>): seq<Arrival>
    requires size > 0 && |stale| == |indices|
  {
    seq(|indices|, k requires 0 <= k < |indices| => Arrival(ShardOf(digest, m, size, indices[k]), stale[k]))
  }

  /** The arrival with which there are `n` different indices. */
  function CompletedAt(indices: seq<nat>, n: nat): (k: nat)
    requires 0 < n <= |Arrived(indices)|
    ensures k < |indices|
  {
    var front := indices[..|indices| - 1];
    if |Arrived(front)| >= n then CompletedAt(front, n) else |indices| - 1
  }

  /**
   A fresh receiver given shards of one message, in any order and with any repetition, delivers exactly one message if
   at least n different shards arrive, and none otherwise. Its payload is the original; its topic is what the erased
   entry reads as at that arrival.
   */
  lemma {:induction false} AnyEnoughShardsDeliver(digest: Digest, maxEntries: nat, m: Message, size: nat,
                                                  indices: seq<nat>, stale: seq<nat>)
    requires size > 0 && m.payload != [] && maxEntries > 0 && |stale| == |indices|
    requires forall k | 0 <= k < |indices| :: indices[k] <= PieceCount(|m.payload|, size)
    ensures PieceCount(|m.payload|, size) > 0
    ensures var run := Receive(digest, maxEntries, ArrivalsOf(digest, m, size, indices, stale));
      var n := PieceCount(|m.payload|, size);
      var enough := |Arrived(indices)| >= n;
      && run.delivered == (if enough then [Message(stale[CompletedAt(indices, n)], m.payload)] else [])
      && Stands(digest, m, size, run.receiver, Arrived(indices), enough)
  {
    hide OnShard, ShardOf, PieceCount, Stands, Receive, Arrived, ArrivalsOf, CompletedAt;
    EnoughPieces(|m.payload|, size);
    if indices == [] {
      NothingArrived(digest, maxEntries, m, size);
    } else {
      var last := |indices| - 1;
      AnyEnoughShardsDeliver(digest, maxEntries, m, size, indices[..last], stale[..last]);
      assert indices == indices[..last] + [indices[last]] && stale == stale[..last] + [stale[last]];
      OneMoreArrives(digest, maxEntries, m, size, indices[..last], stale[..last], indices[last], stale[last]);
    }
  }

  lemma NothingArrived(digest: Digest, maxEntries: nat, m: Message, size: nat)
    requires size > 0 && m.payload != []
    ensures Arrived([]) == {}
    ensures Receive(digest, maxEntries, ArrivalsOf(digest, m, size, [], [])) == Run(FRESH, [])
    ensures Stands(digest, m, size, FRESH, {}, false)
  {
    hide Stands;
    FreshStands(digest, m, size);
  }

  lemma OneMoreArrives(digest: Digest, maxEntries: nat, m: Message, size: nat, front: seq<nat>, stale: seq<nat>,
                       i: nat, x: nat)
    requires size > 0 && m.payload != [] && maxEntries > 0 && |stale| == |front|
    requires i <= PieceCount(|m.payload|, size) && PieceCount(|m.payload|, size) > 0
    requires var run := Receive(digest, maxEntries, ArrivalsOf(digest, m, size, front, stale));
      var n := PieceCount(|m.payload|, size);
      var enough := |Arrived(front)| >= n;
      && run.delivered == (if enough then [Message(stale[CompletedAt(front, n)], m.payload)] else [])
      && Stands(digest, m, size, run.receiver, Arrived(front), enough)
    ensures var run := Receive(digest, maxEntries, ArrivalsOf(digest, m, size, front + [i], stale + [x]));
      var n := PieceCount(|m.payload|, size);
      var enough := |Arrived(front + [i])| >= n;
      && run.delivered == (if enough then [Message((stale + [x])[CompletedAt(front + [i], n)], m.payload)] else [])
      && Stands(digest, m, size, run.receiver, Arrived(front + [i]), enough)
  {
    hide OnShard, ShardOf, PieceCount, Stands, Receive, Arrived, ArrivalsOf, CompletedAt, Shaped;
    var n := PieceCount(|m.payload|, size);
    var early := ArrivalsOf(digest, m, size, front, stale);
    ArrivedOneMore(front, i, n);
    ArrivalsOneMore(digest, m, size, front, stale, i, x);
    ReceiveOneMore(digest, maxEntries, early, Arrival(ShardOf(digest, m, size, i), x));
    OneShard(digest, maxEntries, m, size, Receive(digest, maxEntries, early).receiver, Arrived(front),
      |Arrived(front)| >= n, i, x);
  }

  lemma ArrivedOneMore(front: seq<nat>, i: nat, n: nat)
    requires n > 0
    ensures Arrived(front + [i]) == Arrived(front) + {i} && |Arrived(front)| <= |Arrived(front + [i])|
    ensures |Arrived(front + [i])| >= n ==>
      CompletedAt(front + [i], n) == if |Arrived(front)| >= n then CompletedAt(front, n) else |front|
  {
    assert (front + [i])[..|front|] == front;
    SubsetSize(Arrived(front), Arrived(front + [i]));
  }

  lemma ArrivalsOneMore(digest: Digest, m: Message, size: nat, front: seq<nat>, stale: seq<nat>, i: nat, x: nat)
    requires size > 0 && |stale| == |front|
    ensures ArrivalsOf(digest, m, size, front + [i], stale + [x]) ==
      ArrivalsOf(digest, m, size, front, stale) + [Arrival(ShardOf(digest, m, size, i), x)]
  {
    hide ShardOf;
  }

  /** The original is delivered exactly when the topic survives the erasure. */
  lemma OriginalIsDeliveredIff(digest: Digest, maxEntries: nat, m: Message, size: nat, indices: seq<nat>,
                               stale: seq<nat>)
    requires size > 0 && m.payload != [] && maxEntries > 0 && |stale| == |indices|
    requires forall k | 0 <= k < |indices| :: indices[k] <= PieceCount(|m.payload|, size)
    requires 0 < PieceCount(|m.payload|, size) <= |Arrived(indices)|
    ensures Receive(digest, maxEntries, ArrivalsOf(digest, m, size, indices, stale)).delivered == [m] <==>
      stale[CompletedAt(indices, PieceCount(|m.payload|, size))] == m.topic
  {
    hide Receive, PieceCount, Stands, CompletedAt;
    AnyEnoughShardsDeliver(digest, maxEntries, m, size, indices, stale);
  }

  /** Whatever shards arrive, a delivered payload has, with its shards' topic, the digest under which they came. */
  lemma DeliveredHasItsDigest(digest: Digest, maxEntries: nat, r: Receiver, sh: Shard, stale: nat)
    requires forall k | k in r.inflight :: Shaped(r.inflight[k])
    ensures var reply := OnShard(digest, maxEntries, r, sh, stale);
      && |reply.delivered| <= 1
      && forall m | m in reply.delivered ::
           var sent := Message(sh.topic, m.payload);
           m.topic == stale && digest(sent) == sh.msgId && digest(sent) !in r.dedup
  {
  }

  // -------- an entry that evicts itself --------

  /** The new entry is the one that the table, too full, throws out. */
  predicate EvictsItself(r: Receiver, maxEntries: nat, sh: Shard) {
    sh.msgId !in r.inflight && |r.inflight| + 1 > maxEntries && (r.fifo + [sh.msgId])[0] == sh.msgId
  }

  /** The lookup after opening fails, and the source goes on with no entry, exactly then. */
  lemma EntryIsGoneIff(r: Receiver, maxEntries: nat, sh: Shard)
    ensures sh.msgId !in Open(r, maxEntries, sh).inflight <==> EvictsItself(r, maxEntries, sh)
  {
    hide NewInflight;
    if sh.msgId !in r.inflight {
      var table := r.inflight[sh.msgId := NewInflight(sh)];
      assert table.Keys == r.inflight.Keys + {sh.msgId};
      assert |table| == |table.Keys| && |r.inflight| == |r.inflight.Keys|;
    }
  }

  /**
   A run that gets there with room for one entry: a message of one piece is delivered and leaves its key in the order
   list, a second message is begun, and the first one's shard comes again.
   */
  lemma EntryCanBeGone(digest: Digest, a: Message, b: Message, size: nat, x: nat, y: nat)
    requires size > 0 && digest(a) != digest(b)
    requires PieceCount(|a.payload|, size) == 1 && PieceCount(|b.payload|, size) == 2
    requires a.payload != [] && b.payload != []
    ensures var first := [Arrival(ShardOf(digest, a, size, 0), x), Arrival(ShardOf(digest, b, size, 0), y)];
      EvictsItself(Receive(digest, 1, first).receiver, 1, ShardOf(digest, a, size, 0))
  {
    hide PieceCount, ShardOf, OnShard, Stands, Receive;
    var s, t := ShardOf(digest, a, size, 0), ShardOf(digest, b, size, 0);
    var one := [Arrival(s, x)];
    assert [] + one == one && one + [Arrival(t, y)] == [Arrival(s, x), Arrival(t, y)];
    ReceiveNone(digest, 1);
    ReceiveOneMore(digest, 1, [], Arrival(s, x));
    ReceiveOneMore(digest, 1, one, Arrival(t, y));
    ShardFields(digest, a, size, 0);
    ShardFields(digest, b, size, 0);
    var r := Receive(digest, 1, one).receiver;
    assert r == OnShard(digest, 1, FRESH, s, x).next;
    FirstLeavesItsKey(digest, a, size, x);
    SecondIsBegun(digest, b, size, y, r, digest(a));
  }

  lemma FirstLeavesItsKey(digest: Digest, a: Message, size: nat, x: nat)
    requires size > 0 && PieceCount(|a.payload|, size) == 1 && a.payload != []
    ensures var r := OnShard(digest, 1, FRESH, ShardOf(digest, a, size, 0), x).next;
      r.inflight == map[] && r.fifo == [digest(a)]
  {
    hide PieceCount, ShardOf, Complete, Absorb, Recovered, Gather, NewInflight, Holds;
    var sh := ShardOf(digest, a, size, 0);
    ShardFields(digest, a, size, 0);
    NewHolds(digest, a, size, 0);
    OpenedFresh(FRESH, sh);
    ReplyIsSettled(digest, 1, a, size, FRESH, {}, 0, x);
    var st := Absorb(NewInflight(sh), sh);
    assert {} + {0} == {0};
    HoldsCount(a, size, st, {0});
  }

  lemma OpenedFresh(r: Receiver, sh: Shard)
    requires r.inflight == map[]
    ensures Open(r, 1, sh) == r.(inflight := map[sh.msgId := NewInflight(sh)], fifo := r.fifo + [sh.msgId])
  {
    hide NewInflight;
    var table := r.inflight[sh.msgId := NewInflight(sh)];
    assert table == map[sh.msgId := NewInflight(sh)];
    assert |table| == |table.Keys| == 1;
  }

  lemma SecondIsBegun(digest: Digest, b: Message, size: nat, y: nat, r: Receiver, key: Hash)
    requires size > 0 && PieceCount(|b.payload|, size) == 2 && b.payload != []
    requires r.inflight == map[] && r.fifo == [key] && key != digest(b)
    ensures var next := OnShard(digest, 1, r, ShardOf(digest, b, size, 0), y).next;
      next.inflight.Keys == {digest(b)} && |next.inflight| == 1 && next.fifo[0] == key && next.fifo != []
  {
    hide PieceCount, ShardOf, Complete, Absorb, Recovered, Gather, NewInflight, Holds;
    var sh := ShardOf(digest, b, size, 0);
    ShardFields(digest, b, size, 0);
    NewHolds(digest, b, size, 0);
    OpenedFresh(r, sh);
    ReplyIsSettled(digest, 1, b, size, r, {}, 0, y);
    var st := Absorb(NewInflight(sh), sh);
    assert {} + {0} == {0};
    HoldsCount(b, size, st, {0});
    var next := map[digest(b) := st];
    assert |next| == |next.Keys| == 1;
  }

  // -------- one frame --------

  /** A shard that is new is kept where it belongs; what was there before stays as it was, whatever a copy says. */
  lemma FirstCopyIsKept(st: Inflight, sh: Shard)
    requires Shaped(st) && SameMessage(st, sh) && sh.index <= sh.dataShards
    ensures var next := Absorb(st, sh);
      && |next.data| == |st.data| && |next.have| == |st.have|
      && (forall i | 0 <= i < |st.have| && st.have[i] :: next.have[i] && next.data[i] == st.data[i])
      && (forall i | 0 <= i < |st.have| && !st.have[i] :: next.have[i] <==> i == sh.index)
      && (st.haveParity ==> next.haveParity && next.parity == st.parity)
      && (!st.haveParity ==> (next.haveParity <==> sh.index == sh.dataShards))
      && (sh.index < sh.dataShards && !st.have[sh.index] ==> next.data[sh.index] == sh.bytes)
      && (sh.index == sh.dataShards && !st.haveParity ==> next.parity == sh.bytes)
  {
  }

  /** The entry that a well-formed shard meets: its message's, or a new one. */
  function EntryFor(r: Receiver, sh: Shard): Inflight {
    if sh.msgId in r.inflight then r.inflight[sh.msgId] else NewInflight(sh)
  }

  lemma OpenedIs(r: Receiver, maxEntries: nat, sh: Shard)
    ensures sh.msgId in Open(r, maxEntries, sh).inflight ==>
      Open(r, maxEntries, sh).inflight[sh.msgId] == EntryFor(r, sh)
  {
    hide NewInflight;
  }

  /** The payload that a complete entry holds. */
  function WholePayload(st: Inflight): seq<byte>
    requires Shaped(st) && Complete(st)
  {
    OnlyOneMissing(st);
    Resized(Gather(Recovered(st).data, st.originalLen, []), st.originalLen)
  }

  /** Frames are refused for their form, for an entry evicted at once, for another header, or for a wrong digest. */
  lemma AcceptedIff(digest: Digest, maxEntries: nat, r: Receiver, sh: Shard, stale: nat)
    requires forall k | k in r.inflight :: Shaped(r.inflight[k])
    ensures OnShard(digest, maxEntries, r, sh, stale).accepted <==>
      && 0 < sh.dataShards && 0 < sh.shardSize == |sh.bytes| && sh.index <= sh.dataShards
      && !EvictsItself(r, maxEntries, sh)
      && var st := EntryFor(r, sh);
         && st.topic == sh.topic && st.originalLen == sh.originalLen
         && st.shardSize == sh.shardSize && st.dataShards == sh.dataShards
         && (Complete(Absorb(st, sh)) ==> digest(Message(sh.topic, WholePayload(Absorb(st, sh)))) == sh.msgId)
  {
    hide Complete, Recovered, Gather, NewInflight, Open, EvictsItself;
    EntryIsGoneIff(r, maxEntries, sh);
    OpenedIs(r, maxEntries, sh);
  }

  /** A piece holds its part of the payload, and zeros beyond. */
  lemma PiecesAreCut(digest: Digest, m: Message, size: nat, i: nat, j: nat)
    requires size > 0 && i < PieceCount(|m.payload|, size) && j < size
    ensures |ShardOf(digest, m, size, i).bytes| == size
    ensures ShardOf(digest, m, size, i).bytes[j] == if i * size + j < |m.payload| then m.payload[i * size + j] else 0
  {
    hide PieceCount;
  }

  // -------- the messages remembered --------

  /** The ids of delivered messages, in the order of delivery. */
  function DeliveredIds(digest: Digest, maxEntries: nat, arrivals: seq<Arrival>): seq<Hash> {
    if arrivals == [] then []
    else
      var front, a := arrivals[..|arrivals| - 1], arrivals[|arrivals| - 1];
      var reply := OnShard(digest, maxEntries, Receive(digest, maxEntries, front).receiver, a.shard, a.stale);
      DeliveredIds(digest, maxEntries, front) + if reply.delivered == [] then [] else [a.shard.msgId]
  }

  function Latest(ids: seq<Hash>, n: nat): seq<Hash> {
    if |ids| <= n then ids else ids[|ids| - n..]
  }

  ghost predicate Remembers(r: Receiver, ids: seq<Hash>, maxEntries: nat) {
    && r.dedupFifo == Latest(ids, maxEntries)
    && (forall k :: k in r.dedup <==> k in r.dedupFifo)
    && (forall i, j | 0 <= i < j < |r.dedupFifo| :: r.dedupFifo[i] != r.dedupFifo[j])
  }

  lemma SizeOfDistinct(ids: seq<Hash>, s: set<Hash>)
    requires forall i, j | 0 <= i < j < |ids| :: ids[i] != ids[j]
    requires forall k :: k in s <==> k in ids
    ensures |s| == |ids|
    decreases |ids|
  {
    if ids != [] {
      var last := ids[|ids| - 1];
      SizeOfDistinct(ids[..|ids| - 1], s - {last});
    } else {
      assert s == {};
    }
  }

  lemma LatestOneMore(ids: seq<Hash>, n: nat, k: Hash)
    ensures Latest(ids + [k], n) ==
      if |Latest(ids, n)| + 1 > n then (Latest(ids, n) + [k])[1..] else Latest(ids, n) + [k]
  {
  }

  lemma DropsFirst(fifo: seq<Hash>, known: set<Hash>)
    requires fifo != [] && forall i, j | 0 <= i < j < |fifo| :: fifo[i] != fifo[j]
    requires forall k :: k in known <==> k in fifo
    ensures forall k :: k in known - {fifo[0]} <==> k in fifo[1..]
    ensures forall i, j | 0 <= i < j < |fifo[1..]| :: fifo[1..][i] != fifo[1..][j]
  {
    assert fifo == [fifo[0]] + fifo[1..];
    forall k | k in fifo[1..] ensures k != fifo[0] {
      var i :| 1 <= i < |fifo| && fifo[i] == k;
    }
  }

  lemma RememberOneMore(r: Receiver, ids: seq<Hash>, maxEntries: nat, k: Hash)
    requires Remembers(r, ids, maxEntries) && k !in r.dedup
    ensures Remembers(Remember(r, maxEntries, k), ids + [k], maxEntries)
  {
    hide Latest;
    SizeOfDistinct(r.dedupFifo, r.dedup);
    var fifo := r.dedupFifo + [k];
    assert forall x :: x in r.dedup + {k} <==> x in fifo;
    SizeOfDistinct(fifo, r.dedup + {k});
    LatestOneMore(ids, maxEntries, k);
    if |fifo| > maxEntries {
      DropsFirst(fifo, r.dedup + {k});
    }
  }

  predicate SameMemory(a: Receiver, b: Receiver) {
    a.dedup == b.dedup && a.dedupFifo == b.dedupFifo
  }

  lemma OpenForgetsNothing(r: Receiver, maxEntries: nat, sh: Shard)
    ensures SameMemory(Open(r, maxEntries, sh), r)
  {
    hide NewInflight;
  }

  lemma RemembersAlike(a: Receiver, b: Receiver, maxEntries: nat, k: Hash)
    requires SameMemory(a, b)
    ensures SameMemory(Remember(a, maxEntries, k), Remember(b, maxEntries, k))
  {
  }

  /** What a frame delivers was not remembered, and is remembered then; nothing else is. */
  lemma ShardRemembers(digest: Digest, maxEntries: nat, r: Receiver, sh: Shard, stale: nat)
    requires forall k | k in r.inflight :: Shaped(r.inflight[k])
    ensures var reply := OnShard(digest, maxEntries, r, sh, stale);
      if reply.delivered == [] then SameMemory(reply.next, r)
      else sh.msgId !in r.dedup && SameMemory(reply.next, Remember(r, maxEntries, sh.msgId))
  {
    hide Absorb, Complete, Recovered, Gather, Resized, Open, SameMessage, Shaped, Remember, AllPresentBut;
    OpenForgetsNothing(r, maxEntries, sh);
    forall a: Receiver | SameMemory(a, r) {
      RemembersAlike(a, r, maxEntries, sh.msgId);
    }
  }

  lemma DeliveredOneMore(digest: Digest, maxEntries: nat, arrivals: seq<Arrival>, a: Arrival)
    ensures var reply := OnShard(digest, maxEntries, Receive(digest, maxEntries, arrivals).receiver, a.shard, a.stale);
      DeliveredIds(digest, maxEntries, arrivals + [a]) ==
        DeliveredIds(digest, maxEntries, arrivals) + if reply.delivered == [] then [] else [a.shard.msgId]
  {
    hide OnShard, Receive;
    assert (arrivals + [a])[..|arrivals + [a]| - 1] == arrivals;
  }

  lemma StillRemembers(a: Receiver, b: Receiver, ids: seq<Hash>, maxEntries: nat)
    requires SameMemory(a, b) && Remembers(a, ids, maxEntries)
    ensures Remembers(b, ids, maxEntries)
  {
  }

  /** Over every run the receiver remembers exactly the messages delivered last, as many as it has room for. */
  lemma {:induction false} LatestAreRemembered(digest: Digest, maxEntries: nat, arrivals: seq<Arrival>)
    ensures Remembers(Receive(digest, maxEntries, arrivals).receiver, DeliveredIds(digest, maxEntries, arrivals),
                      maxEntries)
  {
    if arrivals == [] {
      NothingRemembered(digest, maxEntries);
    } else {
      hide OnShard, Remember, Receive, DeliveredIds, Remembers, SameMemory;
      var front, a := arrivals[..|arrivals| - 1], arrivals[|arrivals| - 1];
      assert arrivals == front + [a];
      LatestAreRemembered(digest, maxEntries, front);
      var r, ids := Receive(digest, maxEntries, front).receiver, DeliveredIds(digest, maxEntries, front);
      ReceiveOneMore(digest, maxEntries, front, a);
      DeliveredOneMore(digest, maxEntries, front, a);
      ShardRemembers(digest, maxEntries, r, a.shard, a.stale);
      var reply := OnShard(digest, maxEntries, r, a.shard, a.stale);
      if reply.delivered != [] {
        RememberOneMore(r, ids, maxEntries, a.shard.msgId);
        Either(reply.next, Remember(r, maxEntries, a.shard.msgId));
        StillRemembers(Remember(r, maxEntries, a.shard.msgId), reply.next, ids + [a.shard.msgId], maxEntries);
      } else {
        Either(reply.next, r);
        StillRemembers(r, reply.next, ids, maxEntries);
        assert ids + [] == ids;
      }
    }
  }

  lemma Either(a: Receiver, b: Receiver)
    ensures SameMemory(a, b) == SameMemory(b, a)
  {
  }

  lemma NothingRemembered(digest: Digest, maxEntries: nat)
    ensures Remembers(Receive(digest, maxEntries, []).receiver, DeliveredIds(digest, maxEntries, []), maxEntries)
  {
  }
}
