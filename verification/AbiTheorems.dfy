/** The codec's promises at its interface: round trip, its exact condition, and injectivity. */
module AbiTheorems {
  import opened Common
  import opened AbiTypes
  import opened AbiWords
  import opened AbiCodec
  import opened AbiRoundTrip

  function EncodeParams(ts: seq<AbiType>, vs: seq<AbiValue>, opt: Options): Encoded {
    EncodeTupleLike(ts, vs, 0, opt, 0)
  }

  function DecodeParams(ts: seq<AbiType>, bytes: Span, opt: Options): Decoded<(seq<AbiValue>, nat)> {
    DecodeTupleLike(ts, bytes, opt, 0)
  }

  /**
   Decoding an encoding followed by any suffix gives the values back and consumes exactly the encoding, if and only if
   the bytes are within the decoder's limit and `Fits` holds; otherwise decoding reports an error.
   */
  lemma DecodeInvertsEncode(ts: seq<AbiType>, vs: seq<AbiValue>, suffix: seq<byte>, opt: Options)
    requires EncodeParams(ts, vs, opt).Ok?
    requires |EncodeParams(ts, vs, opt).value| + |suffix| <= U64_MAX
    ensures var e := EncodeParams(ts, vs, opt).value;
            var r := DecodeParams(ts, e + suffix, opt);
            if |e| + |suffix| <= opt.maxTotalBytes && Fits(ts, vs, |suffix|) then r == Ok((vs, |e|)) else r.Err?
  {
    hide Fits, EncodeParts, DecodeHeads, DecodeTails;
    if |EncodeParams(ts, vs, opt).value| + |suffix| <= opt.maxTotalBytes {
      TupleRoundTrip(ts, vs, 0, suffix, opt, 0);
    }
  }

  /** A zero-size component at the very end is encoded, but the decoder wants 32 bytes to read it from. */
  lemma EmptyTupleIsNotReadBack(opt: Options)
    requires opt.maxDepth >= 1
    ensures EncodeParams([TupleType([])], [TupleValue([])], opt) == Ok([])
    ensures DecodeParams([TupleType([])], [], opt) == Err(TooShort)
    ensures 32 <= opt.maxTotalBytes ==>
              DecodeParams([TupleType([])], Zeros(32), opt) == Ok(([TupleValue([])], 0))
  {
    var ts, vs := [TupleType([])], [TupleValue([])];
    assert EncodeStatic(ts[0], vs[0], opt, 1) == Ok([]);
    assert HeadTotal(ts) == HeadSize(ts[0]) + HeadTotal(ts[1..]) == 0;
    assert ts[1..] == [] && vs[1..] == [];
    assert EncodeParts(ts, vs, 0, [], [], opt, 0) == Ok(([], []));
    assert DecodeHead(ts[0], [], opt, 0) == Err(TooShort);
    if 32 <= opt.maxTotalBytes {
      assert [] + Zeros(32) == Zeros(32);
      DecodeInvertsEncode(ts, vs, Zeros(32), opt);
    }
  }

  // -------- types for which decoding always succeeds --------

  /** No zero-width bytesN, no zero-length fixed array and no empty tuple anywhere in the type. */
  predicate Solid(t: AbiType) {
    match t
    case BytesNType(n) => n > 0
    case ArrayType(elem, fixedLen) => fixedLen != Some(0) && Solid(elem)
    case TupleType(ts) => ts != [] && forall i | 0 <= i < |ts| :: Solid(ts[i])
    case _ => true
  }

  predicate TextsValid(v: AbiValue) {
    match v
    case StringValue(s) => ValidUtf8(s)
    case ArrayValue(vs) => forall i | 0 <= i < |vs| :: TextsValid(vs[i])
    case TupleValue(vs) => forall i | 0 <= i < |vs| :: TextsValid(vs[i])
    case _ => true
  }

  lemma {:induction false} SolidStaticFits(t: AbiType, after: nat)
    requires Solid(t)
    ensures StaticSize(t) >= 32 && FitsStatic(t, after)
  {
    match t
    case ArrayType(elem, Some(n)) =>
      SolidStaticFits(elem, after);
      ProductAtLeastFactor(n, StaticSize(elem));
    case TupleType(ts) =>
      SolidStaticsFit(ts, after);
    case _ =>
  }

  lemma {:induction false} SolidStaticsFit(ts: seq<AbiType>, after: nat)
    requires forall i | 0 <= i < |ts| :: Solid(ts[i])
    ensures FitsStatics(ts, after) && (ts != [] ==> SizeSum(ts) >= 32)
  {
    if ts != [] {
      SolidStaticFits(ts[0], SizeSum(ts[1..]) + after);
      SolidStaticsFit(ts[1..], after);
    }
  }

  lemma {:induction false} SolidHeadsFit(ts: seq<AbiType>, after: nat)
    requires forall i | 0 <= i < |ts| :: Solid(ts[i])
    ensures FitsHeads(ts, after) && (ts != [] ==> HeadTotal(ts) >= 32)
  {
    if ts != [] {
      SolidStaticFits(ts[0], HeadTotal(ts[1..]) + after);
      SolidHeadsFit(ts[1..], after);
    }
  }

  lemma {:induction false} SolidDynamicFits(t: AbiType, v: AbiValue, base: nat, after: nat, opt: Options, depth: nat)
    requires EncodeDynamic(t, v, base, opt, depth).Ok? && Solid(t) && TextsValid(v)
    ensures FitsDynamic(t, v, after)
    decreases opt.maxDepth - depth, 0
  {
    match (t, v)
    case (ArrayType(elem, fixedLen), ArrayValue(vs)) =>
      SolidTupleFits(Repeat(|vs|, elem), vs, if fixedLen.None? then base + 32 else base, after, opt, depth + 1);
    case (TupleType(ts), TupleValue(vs)) =>
      SolidTupleFits(ts, vs, base, after, opt, depth + 1);
    case _ =>
  }

  lemma {:induction false} SolidTupleFits(ts: seq<AbiType>, vs: seq<AbiValue>, base: nat, after: nat, opt: Options,
                                         depth: nat)
    requires EncodeTupleLike(ts, vs, base, opt, depth).Ok?
    requires forall i | 0 <= i < |ts| :: Solid(ts[i])
    requires forall i | 0 <= i < |vs| :: TextsValid(vs[i])
    ensures FitsHeads(ts, TailLen(ts, vs) + after) && FitsTails(ts, vs, after) && (ts != [] ==> HeadTotal(ts) >= 32)
    decreases opt.maxDepth - depth, 3
  {
    SolidHeadsFit(ts, TailLen(ts, vs) + after);
    SolidTailsFit(ts, vs, HeadTotal(ts), [], [], after, opt, depth);
  }

  lemma {:induction false} SolidTailsFit(ts: seq<AbiType>, vs: seq<AbiValue>, headTotal: nat, head: seq<byte>,
                                        tail: seq<byte>, after: nat, opt: Options, depth: nat)
    requires |ts| == |vs| && depth <= opt.maxDepth
    requires EncodeParts(ts, vs, headTotal, head, tail, opt, depth).Ok?
    requires forall i | 0 <= i < |ts| :: Solid(ts[i])
    requires forall i | 0 <= i < |vs| :: TextsValid(vs[i])
    ensures FitsTails(ts, vs, after)
    decreases opt.maxDepth - depth, 2, |ts|
  {
    hide StaticSize, HeadSize, DynamicLen, Solid, TextsValid, FitsDynamic, IsDynamic;
    if ts != [] {
      var (h, l) := EncodePart(ts[0], vs[0], headTotal, |tail|, opt, depth).value;
      SolidTailsFit(ts[1..], vs[1..], headTotal, head + h, tail + l, after, opt, depth);
      if IsDynamic(ts[0]) {
        SolidDynamicFits(ts[0], vs[0], |tail|, TailLen(ts[1..], vs[1..]) + after, opt, depth + 1);
      }
    }
  }

  /** For solid types and well-formed strings the round trip needs nothing but room within the limit. */
  lemma SolidRoundTrip(ts: seq<AbiType>, vs: seq<AbiValue>, suffix: seq<byte>, opt: Options)
    requires EncodeParams(ts, vs, opt).Ok?
    requires |EncodeParams(ts, vs, opt).value| + |suffix| <= opt.maxTotalBytes
    requires forall t <- ts :: Solid(t)
    requires forall v <- vs :: TextsValid(v)
    ensures var e := EncodeParams(ts, vs, opt).value;
            DecodeParams(ts, e + suffix, opt) == Ok((vs, |e|))
  {
    SolidTupleFits(ts, vs, 0, |suffix|, opt, 0);
    DecodeInvertsEncode(ts, vs, suffix, opt);
  }

  /**
   Encodings of solid types are self-delimiting: whatever follows them, two encodings that read alike carry the same
   values. With empty suffixes this is injectivity.
   */
  lemma EncodingIsSelfDelimiting(ts: seq<AbiType>, vs: seq<AbiValue>, ws: seq<AbiValue>, x: seq<byte>, y: seq<byte>,
                                 opt: Options)
    requires EncodeParams(ts, vs, opt).Ok? && EncodeParams(ts, ws, opt).Ok?
    requires EncodeParams(ts, vs, opt).value + x == EncodeParams(ts, ws, opt).value + y
    requires |EncodeParams(ts, vs, opt).value + x| <= opt.maxTotalBytes
    requires forall t <- ts :: Solid(t)
    requires forall v <- vs + ws :: TextsValid(v)
    ensures vs == ws && x == y
  {
    hide Solid, TextsValid;
    assert forall v <- vs :: v in vs + ws;
    assert forall v <- ws :: v in vs + ws;
    SolidRoundTrip(ts, vs, x, opt);
    SolidRoundTrip(ts, ws, y, opt);
    var e, f := EncodeParams(ts, vs, opt).value, EncodeParams(ts, ws, opt).value;
    assert |e| == |f|;
    assert x == (e + x)[|e|..] && y == (f + y)[|f|..];
  }
}
