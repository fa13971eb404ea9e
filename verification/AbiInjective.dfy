/** The encoding tells values apart: by induction on types, for everything the encoder encodes. */
module AbiInjective {
  import opened Common
  import opened AbiTypes
  import opened AbiWords
  import opened AbiCodec
  import opened AbiSpec
  import opened AbiTheorems

  /** A value that has the shape of the type, with lengths that fit a size word. */
  predicate Shaped(t: AbiType, v: AbiValue)
    decreases v, 0
  {
    match (t, v)
    case (UintType(_), UintValue(_)) => true
    case (IntType(_), IntValue(_)) => true
    case (BoolType, BoolValue(_)) => true
    case (AddressType, AddressValue(_)) => true
    case (BytesNType(n), BytesNValue(b)) => |b| == n
    case (BytesType, BytesValue(b)) => |b| <= U64_MAX
    case (StringType, StringValue(s)) => |s| <= U64_MAX
    case (ArrayType(elem, fixedLen), ArrayValue(vs)) =>
      |vs| <= U64_MAX && (fixedLen.Some? ==> |vs| == fixedLen.value) && AllShaped(Repeat(|vs|, elem), vs)
    case (TupleType(ts), TupleValue(vs)) => AllShaped(ts, vs)
    case _ => false
  }

  predicate AllShaped(ts: seq<AbiType>, vs: seq<AbiValue>)
    decreases vs, 1
  {
    |ts| == |vs| && (vs == [] || (Shaped(ts[0], vs[0]) && AllShaped(ts[1..], vs[1..])))
  }

  // -------- lengths --------

  lemma {:induction false} HeadsLength(ts: seq<AbiType>, vs: seq<AbiValue>, at: nat)
    ensures |Heads(ts, vs, at)| == HeadLen(ts, vs)
    decreases |vs|
  {
    hide Enc, SizeWord;
    if ts != [] && vs != [] {
      HeadsLength(ts[1..], vs[1..], if IsDynamic(ts[0]) then at + |Enc(ts[0], vs[0])| else at);
    }
  }

  lemma {:induction false} NoTails(ts: seq<AbiType>, vs: seq<AbiValue>)
    requires !DynamicAny(ts)
    ensures Tails(ts, vs) == []
    decreases |vs|
  {
    hide Enc, IsDynamic;
    if ts != [] && vs != [] {
      assert forall i | 0 <= i < |ts[1..]| :: ts[1..][i] == ts[i + 1];
      NoTails(ts[1..], vs[1..]);
    }
  }

  /** The encodings of a static type are all of one length. */
  lemma {:induction false} StaticLength(t: AbiType, v: AbiValue, w: AbiValue)
    requires !IsDynamic(t) && Shaped(t, v) && Shaped(t, w)
    ensures |Enc(t, v)| == |Enc(t, w)|
    decreases v, 0
  {
    match (t, v)
    case (ArrayType(elem, _), ArrayValue(vs)) => StaticTupleLength(Repeat(|vs|, elem), vs, w.items);
    case (TupleType(ts), TupleValue(vs)) => StaticTupleLength(ts, vs, w.items);
    case _ =>
  }

  lemma {:induction false} StaticTupleLength(ts: seq<AbiType>, vs: seq<AbiValue>, ws: seq<AbiValue>)
    requires !DynamicAny(ts) && AllShaped(ts, vs) && AllShaped(ts, ws)
    ensures |EncTuple(ts, vs)| == |EncTuple(ts, ws)|
    decreases vs, 3
  {
    hide Heads, Tails, HeadLen, Shaped;
    NoTails(ts, vs);
    NoTails(ts, ws);
    HeadsLength(ts, vs, HeadLen(ts, vs));
    HeadsLength(ts, ws, HeadLen(ts, ws));
    SameHeadLen(ts, vs, ws);
  }

  lemma {:induction false} SameHeadLen(ts: seq<AbiType>, vs: seq<AbiValue>, ws: seq<AbiValue>)
    requires AllShaped(ts, vs) && AllShaped(ts, ws)
    ensures HeadLen(ts, vs) == HeadLen(ts, ws)
    decreases vs, 1
  {
    hide Enc, Shaped;
    if vs != [] {
      if !IsDynamic(ts[0]) {
        StaticLength(ts[0], vs[0], ws[0]);
      }
      SameHeadLen(ts[1..], vs[1..], ws[1..]);
    }
  }

  // -------- encodings tell values apart --------

  lemma SamePrefix(a: seq<byte>, b: seq<byte>, x: seq<byte>, y: seq<byte>)
    requires |a| == |b| && a + x == b + y
    ensures a == b && x == y
  {
    assert a == (a + x)[..|a|] && b == (b + y)[..|b|];
    assert x == (a + x)[|a|..] && y == (b + y)[|b|..];
  }

  lemma SameSizeWord(m: u64, n: u64, x: seq<byte>, y: seq<byte>)
    requires SizeWord(m) + x == SizeWord(n) + y
    ensures m == n && x == y
  {
    hide SizeWord;
    SamePrefix(SizeWord(m), SizeWord(n), x, y);
    SizeWordRoundTrip(m);
    SizeWordRoundTrip(n);
  }

  lemma SameBlob(b: seq<byte>, d: seq<byte>, x: seq<byte>, y: seq<byte>)
    requires |b| <= U64_MAX && |d| <= U64_MAX && EncodeBlob(b) + x == EncodeBlob(d) + y
    ensures b == d && x == y
  {
    hide SizeWord;
    var p, q := Zeros(Ceil32(|b|) - |b|), Zeros(Ceil32(|d|) - |d|);
    assert EncodeBlob(b) + x == SizeWord(|b|) + (b + p + x) && EncodeBlob(d) + y == SizeWord(|d|) + (d + q + y);
    SameSizeWord(|b|, |d|, b + p + x, d + q + y);
    assert b + p + x == b + (p + x) && d + q + y == d + (q + y);
    SamePrefix(b, d, p + x, q + y);
    SamePrefix(p, q, x, y);
  }

  /** One type, two values, anything after them: the bytes decide the value and where its encoding ends. */
  lemma {:induction false} EncTellsApart(t: AbiType, v: AbiValue, w: AbiValue, x: seq<byte>, y: seq<byte>)
    requires Shaped(t, v) && Shaped(t, w) && Enc(t, v) + x == Enc(t, w) + y
    ensures v == w && x == y
    decreases v, 0
  {
    hide SizeWord, EncTuple, AllShaped, IsDynamic;
    match t
    case ArrayType(elem, fixedLen) => ArrayTellsApart(elem, fixedLen, v.items, w.items, x, y);
    case TupleType(ts) => TupleTellsApart(ts, v.items, w.items, x, y);
    case BytesType => SameBlob(v.bytes, w.bytes, x, y);
    case StringType => SameBlob(v.s, w.s, x, y);
    case _ => LeafTellsApart(t, v, w, x, y);
  }

  lemma {:induction false} ArrayTellsApart(elem: AbiType, fixedLen: Option<u64>, vs: seq<AbiValue>, ws: seq<AbiValue>,
                                           x: seq<byte>, y: seq<byte>)
    requires AllShaped(Repeat(|vs|, elem), vs) && AllShaped(Repeat(|ws|, elem), ws)
    requires |vs| <= U64_MAX && |ws| <= U64_MAX && (fixedLen.Some? ==> |vs| == fixedLen.value == |ws|)
    requires Enc(ArrayType(elem, fixedLen), ArrayValue(vs)) + x == Enc(ArrayType(elem, fixedLen), ArrayValue(ws)) + y
    ensures vs == ws && x == y
    decreases vs, 4
  {
    hide SizeWord, EncTuple, AllShaped;
    var e, f := EncTuple(Repeat(|vs|, elem), vs), EncTuple(Repeat(|ws|, elem), ws);
    var a, b := Enc(ArrayType(elem, fixedLen), ArrayValue(vs)), Enc(ArrayType(elem, fixedLen), ArrayValue(ws));
    if fixedLen.None? {
      assert a + x == SizeWord(|vs|) + (e + x) && b + y == SizeWord(|ws|) + (f + y);
      SameSizeWord(|vs|, |ws|, e + x, f + y);
    } else {
      assert a == [] + e == e && b == [] + f == f;
    }
    TupleTellsApart(Repeat(|vs|, elem), vs, ws, x, y);
  }

  lemma LeafTellsApart(t: AbiType, v: AbiValue, w: AbiValue, x: seq<byte>, y: seq<byte>)
    requires Shaped(t, v) && Shaped(t, w) && Enc(t, v) + x == Enc(t, w) + y
    requires t.UintType? || t.IntType? || t.BoolType? || t.AddressType? || t.BytesNType?
    ensures v == w && x == y
  {
    SamePrefix(Enc(t, v), Enc(t, w), x, y);
    match (t, v)
    case (BytesNType(n), BytesNValue(b)) =>
      assert b == Enc(t, v)[..n] && w.bytes == Enc(t, w)[..n];
    case (AddressType, AddressValue(a)) =>
      assert a == Enc(t, v)[12..] && w.a == Enc(t, w)[12..];
    case (BoolType, BoolValue(b)) =>
      assert Enc(t, v)[31] == (if b then 1 else 0) && Enc(t, w)[31] == if w.b then 1 else 0;
    case _ =>
  }

  lemma {:induction false} TupleTellsApart(ts: seq<AbiType>, vs: seq<AbiValue>, ws: seq<AbiValue>, x: seq<byte>,
                                           y: seq<byte>)
    requires AllShaped(ts, vs) && AllShaped(ts, ws) && EncTuple(ts, vs) + x == EncTuple(ts, ws) + y
    ensures vs == ws && x == y
    decreases vs, 3
  {
    hide Heads, Tails, HeadLen, Shaped;
    SameHeadLen(ts, vs, ws);
    var n := HeadLen(ts, vs);
    HeadsLength(ts, vs, n);
    HeadsLength(ts, ws, n);
    var a, b := Heads(ts, vs, n), Heads(ts, ws, n);
    assert EncTuple(ts, vs) + x == a + (Tails(ts, vs) + x) && EncTuple(ts, ws) + y == b + (Tails(ts, ws) + y);
    SamePrefix(a, b, Tails(ts, vs) + x, Tails(ts, ws) + y);
    PartsTellApart(ts, vs, ws, n, n, x, y);
  }

  lemma {:induction false} PartsTellApart(ts: seq<AbiType>, vs: seq<AbiValue>, ws: seq<AbiValue>, i: nat, j: nat,
                                          x: seq<byte>, y: seq<byte>)
    requires AllShaped(ts, vs) && AllShaped(ts, ws)
    requires Heads(ts, vs, i) == Heads(ts, ws, j) && Tails(ts, vs) + x == Tails(ts, ws) + y
    ensures vs == ws && x == y
    decreases vs, 1
  {
    hide Enc, Shaped, SizeWord;
    if vs == [] {
      assert Tails(ts, vs) == [] && Tails(ts, ws) == [];
      assert x == [] + x && y == [] + y;
    } else {
      var e, f := Enc(ts[0], vs[0]), Enc(ts[0], ws[0]);
      var i', j' := if IsDynamic(ts[0]) then i + |e| else i, if IsDynamic(ts[0]) then j + |f| else j;
      var hv, hw := Heads(ts[1..], vs[1..], i'), Heads(ts[1..], ws[1..], j');
      var tv, tw := Tails(ts[1..], vs[1..]), Tails(ts[1..], ws[1..]);
      if IsDynamic(ts[0]) {
        SamePrefix(SizeWord(i), SizeWord(j), hv, hw);
        assert Tails(ts, vs) + x == e + (tv + x) && Tails(ts, ws) + y == f + (tw + y);
        EncTellsApart(ts[0], vs[0], ws[0], tv + x, tw + y);
      } else {
        EncTellsApart(ts[0], vs[0], ws[0], hv, hw);
        assert [] + tv == tv && [] + tw == tw;
      }
      PartsTellApart(ts[1..], vs[1..], ws[1..], i', j', x, y);
      assert vs == [vs[0]] + vs[1..] && ws == [ws[0]] + ws[1..];
    }
  }

  // -------- what the encoder encodes --------

  lemma {:induction false} StaticIsShaped(t: AbiType, v: AbiValue, opt: Options, depth: nat)
    requires EncodeStatic(t, v, opt, depth).Ok?
    ensures Shaped(t, v)
    decreases opt.maxDepth - depth, 0
  {
    match (t, v)
    case (ArrayType(elem, Some(n)), ArrayValue(vs)) => StaticsAreShaped(Repeat(n, elem), vs, opt, depth + 1);
    case (TupleType(ts), TupleValue(vs)) => StaticsAreShaped(ts, vs, opt, depth + 1);
    case _ =>
  }

  lemma {:induction false} StaticsAreShaped(ts: seq<AbiType>, vs: seq<AbiValue>, opt: Options, depth: nat)
    requires |ts| == |vs| && EncodeStatics(ts, vs, opt, depth).Ok?
    ensures AllShaped(ts, vs)
    decreases opt.maxDepth - depth, 1, |ts|
  {
    hide Shaped, EncodeStatic;
    if ts != [] {
      StaticIsShaped(ts[0], vs[0], opt, depth);
      StaticsAreShaped(ts[1..], vs[1..], opt, depth);
    }
  }

  lemma {:induction false} DynamicIsShaped(t: AbiType, v: AbiValue, base: nat, opt: Options, depth: nat)
    requires EncodeDynamic(t, v, base, opt, depth).Ok?
      && |EncodeDynamic(t, v, base, opt, depth).value| <= opt.maxTotalBytes
    ensures Shaped(t, v)
    decreases opt.maxDepth - depth, 0
  {
    hide SizeWord;
    match (t, v)
    case (ArrayType(elem, fixedLen), ArrayValue(vs)) =>
      PartsAreShaped(Repeat(|vs|, elem), vs, HeadTotal(Repeat(|vs|, elem)), [], [], opt, depth + 1);
    case (TupleType(ts), TupleValue(vs)) =>
      PartsAreShaped(ts, vs, HeadTotal(ts), [], [], opt, depth + 1);
    case _ =>
  }

  lemma {:induction false} PartsAreShaped(ts: seq<AbiType>, vs: seq<AbiValue>, headTotal: nat, head: seq<byte>,
                                          tail: seq<byte>, opt: Options, depth: nat)
    requires |ts| == |vs| && depth <= opt.maxDepth && EncodeParts(ts, vs, headTotal, head, tail, opt, depth).Ok?
    ensures AllShaped(ts, vs)
    decreases opt.maxDepth - depth, 2, |ts|
  {
    hide Shaped, SizeWord, EncodeStatic, EncodeDynamic, IsDynamic;
    if ts != [] {
      var (h, l) := EncodePart(ts[0], vs[0], headTotal, |tail|, opt, depth).value;
      if IsDynamic(ts[0]) {
        DynamicIsShaped(ts[0], vs[0], |tail|, opt, depth + 1);
      } else {
        StaticIsShaped(ts[0], vs[0], opt, depth + 1);
      }
      PartsAreShaped(ts[1..], vs[1..], headTotal, head + h, tail + l, opt, depth);
    }
  }

  /**
   Whatever is encoded, under whatever limits: two encodings under the same types that agree after appending something
   are of the same values, and what was appended is the same.
   */
  lemma EncoderTellsApart(ts: seq<AbiType>, vs: seq<AbiValue>, ws: seq<AbiValue>, x: seq<byte>, y: seq<byte>,
                          opt: Options, other: Options)
    requires EncodeParams(ts, vs, opt).Ok? && EncodeParams(ts, ws, other).Ok?
    requires EncodeParams(ts, vs, opt).value + x == EncodeParams(ts, ws, other).value + y
    ensures vs == ws && x == y
  {
    hide EncodeParts, EncTuple, HeadTotal;
    TupleMeetsSpec(ts, vs, 0, opt, 0);
    TupleMeetsSpec(ts, ws, 0, other, 0);
    PartsAreShaped(ts, vs, HeadTotal(ts), [], [], opt, 0);
    PartsAreShaped(ts, ws, HeadTotal(ts), [], [], other, 0);
    TupleTellsApart(ts, vs, ws, x, y);
  }
}
