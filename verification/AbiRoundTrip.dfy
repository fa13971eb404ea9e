/**
 Decoding what the encoder produced. `Fits` says exactly when it gives the same values back: it looks at the types,
 the values and the number of bytes that follow the encoding, never at the bytes themselves.
 */
module AbiRoundTrip {
  import opened Common
  import opened AbiTypes
  import opened AbiWords
  import opened AbiCodec

  // -------- lengths --------

  /** Length of the tail section that a value of a dynamic type occupies. */
  function DynamicLen(t: AbiType, v: AbiValue): nat
    decreases v, 0
  {
    match (t, v)
    case (BytesType, BytesValue(b)) => 32 + Ceil32(|b|)
    case (StringType, StringValue(s)) => 32 + Ceil32(|s|)
    case (ArrayType(elem, fixedLen), ArrayValue(vs)) =>
      (if fixedLen.None? then 32 else 0) + HeadTotal(Repeat(|vs|, elem)) + TailLen(Repeat(|vs|, elem), vs)
    case (TupleType(ts), TupleValue(vs)) => HeadTotal(ts) + TailLen(ts, vs)
    case _ => 0
  }

  function TailLen(ts: seq<AbiType>, vs: seq<AbiValue>): nat
    decreases vs, 1
  {
    if ts == [] || vs == [] then 0
    else (if IsDynamic(ts[0]) then DynamicLen(ts[0], vs[0]) else 0) + TailLen(ts[1..], vs[1..])
  }

  // -------- when decoding succeeds --------

  /** `after` bytes follow the static value: the decoder insists on 32 readable bytes even for a zero-size type. */
  predicate FitsStatic(t: AbiType, after: nat) {
    match t
    case BytesNType(n) => n > 0
    case ArrayType(elem, Some(n)) => if n == 0 then after >= 32 else FitsStatic(elem, after)
    case TupleType(ts) => SizeSum(ts) + after >= 32 && FitsStatics(ts, after)
    case _ => true
  }

  predicate FitsStatics(ts: seq<AbiType>, after: nat) {
    ts == [] || (FitsStatic(ts[0], SizeSum(ts[1..]) + after) && FitsStatics(ts[1..], after))
  }

  predicate FitsDynamic(t: AbiType, v: AbiValue, after: nat)
    decreases v, 0
  {
    && DynamicLen(t, v) + after >= 32
    && match (t, v)
       case (StringType, StringValue(s)) => ValidUtf8(s)
       case (ArrayType(elem, _), ArrayValue(vs)) =>
         FitsHeads(Repeat(|vs|, elem), TailLen(Repeat(|vs|, elem), vs) + after) &&
         FitsTails(Repeat(|vs|, elem), vs, after)
       case (TupleType(ts), TupleValue(vs)) => FitsHeads(ts, TailLen(ts, vs) + after) && FitsTails(ts, vs, after)
       case _ => true
  }

  predicate FitsHeads(ts: seq<AbiType>, after: nat) {
    ts == [] ||
    ((IsDynamic(ts[0]) || FitsStatic(ts[0], HeadTotal(ts[1..]) + after)) && FitsHeads(ts[1..], after))
  }

  predicate FitsTails(ts: seq<AbiType>, vs: seq<AbiValue>, after: nat)
    decreases vs, 1
  {
    ts == [] || vs == [] ||
    ((IsDynamic(ts[0]) ==> FitsDynamic(ts[0], vs[0], TailLen(ts[1..], vs[1..]) + after)) &&
     FitsTails(ts[1..], vs[1..], after))
  }

  predicate Fits(ts: seq<AbiType>, vs: seq<AbiValue>, after: nat) {
    FitsHeads(ts, TailLen(ts, vs) + after) && FitsTails(ts, vs, after)
  }

  // -------- static values --------

  lemma {:induction false} SizeSumOfRepeat(n: nat, t: AbiType)
    ensures SizeSum(Repeat(n, t)) == n * StaticSize(t)
  {
    if n > 0 {
      RepeatTail(n, t);
      SizeSumOfRepeat(n - 1, t);
      assert n * StaticSize(t) == StaticSize(t) + (n - 1) * StaticSize(t);
    }
  }

  lemma {:induction false} StaticEncodingSize(t: AbiType, v: AbiValue, opt: Options, depth: nat)
    requires EncodeStatic(t, v, opt, depth).Ok? && |EncodeStatic(t, v, opt, depth).value| <= U64_MAX
    ensures !IsDynamic(t) && StaticSize(t) == |EncodeStatic(t, v, opt, depth).value|
    decreases opt.maxDepth - depth, 0
  {
    match (t, v)
    case (ArrayType(elem, Some(n)), ArrayValue(vs)) =>
      StaticsEncodingSize(Repeat(n, elem), vs, opt, depth + 1);
      SizeSumOfRepeat(n, elem);
    case (TupleType(ts), TupleValue(vs)) =>
      StaticsEncodingSize(ts, vs, opt, depth + 1);
    case _ =>
  }

  lemma {:induction false} StaticsEncodingSize(ts: seq<AbiType>, vs: seq<AbiValue>, opt: Options, depth: nat)
    requires |ts| == |vs|
    requires EncodeStatics(ts, vs, opt, depth).Ok? && |EncodeStatics(ts, vs, opt, depth).value| <= U64_MAX
    ensures SizeSum(ts) == |EncodeStatics(ts, vs, opt, depth).value|
    ensures !DynamicAny(ts)
    decreases opt.maxDepth - depth, 1, |ts|
  {
    if ts != [] {
      StaticEncodingSize(ts[0], vs[0], opt, depth);
      StaticsEncodingSize(ts[1..], vs[1..], opt, depth);
      assert forall i | 0 < i < |ts| :: ts[i] == ts[1..][i - 1];
    }
  }

  lemma {:induction false} FitsStaticMonotone(t: AbiType, after: nat, more: nat)
    requires FitsStatic(t, after) && after <= more
    ensures FitsStatic(t, more)
  {
    match t
    case ArrayType(elem, Some(n)) =>
      if n > 0 {
        FitsStaticMonotone(elem, after, more);
      }
    case TupleType(ts) => FitsStaticsMonotone(ts, after, more);
    case _ =>
  }

  lemma {:induction false} FitsStaticsMonotone(ts: seq<AbiType>, after: nat, more: nat)
    requires FitsStatics(ts, after) && after <= more
    ensures FitsStatics(ts, more)
  {
    if ts != [] {
      FitsStaticMonotone(ts[0], SizeSum(ts[1..]) + after, SizeSum(ts[1..]) + more);
      FitsStaticsMonotone(ts[1..], after, more);
    }
  }

  lemma {:induction false} FitsStaticHas32(t: AbiType, after: nat)
    requires FitsStatic(t, after)
    ensures StaticSize(t) + after >= 32
  {
    match t
    case ArrayType(elem, Some(n)) =>
      if n > 0 {
        FitsStaticHas32(elem, after);
        ProductAtLeastFactor(n, StaticSize(elem));
      }
    case _ =>
  }

  lemma ProductAtLeastFactor(n: nat, a: nat)
    requires n > 0
    ensures a <= n * a
  {
  }

  /** In an array of equal elements the last one decides. */
  lemma {:induction false} FitsStaticsOfRepeat(n: nat, t: AbiType, after: nat)
    requires n > 0
    ensures FitsStatics(Repeat(n, t), after) <==> FitsStatic(t, after)
  {
    RepeatTail(n, t);
    if n > 1 {
      FitsStaticsOfRepeat(n - 1, t, after);
      if FitsStatic(t, after) {
        FitsStaticMonotone(t, after, SizeSum(Repeat(n - 1, t)) + after);
      }
    }
  }

  lemma {:induction false} StaticRoundTrip(t: AbiType, v: AbiValue, rest: seq<byte>, opt: Options, depth: nat)
    requires EncodeStatic(t, v, opt, depth).Ok?
    requires |EncodeStatic(t, v, opt, depth).value| + |rest| <= U64_MAX
    ensures var r := DecodeStatic(t, EncodeStatic(t, v, opt, depth).value + rest, opt, depth);
            if FitsStatic(t, |rest|) then r == Ok(v) else r.Err?
    decreases opt.maxDepth - depth, 0
  {
    var e := EncodeStatic(t, v, opt, depth).value;
    StaticEncodingSize(t, v, opt, depth);
    if FitsStatic(t, |rest|) {
      FitsStaticHas32(t, |rest|);
    }
    match (t, v)
    case (ArrayType(elem, Some(n)), ArrayValue(vs)) =>
      StaticsRoundTrip(Repeat(n, elem), vs, rest, 0, opt, depth + 1);
      SizeSumOfRepeat(n, elem);
      if n > 0 {
        FitsStaticsOfRepeat(n, elem, |rest|);
      }
    case (TupleType(ts), TupleValue(vs)) =>
      StaticsRoundTrip(ts, vs, rest, 0, opt, depth + 1);
    case _ =>
      LeafRoundTrip(t, v, rest, opt, depth);
  }

  lemma LeafRoundTrip(t: AbiType, v: AbiValue, rest: seq<byte>, opt: Options, depth: nat)
    requires !t.ArrayType? && !t.TupleType?
    requires EncodeStatic(t, v, opt, depth).Ok? && |rest| + 32 <= U64_MAX
    ensures var r := DecodeStatic(t, EncodeStatic(t, v, opt, depth).value + rest, opt, depth);
            if FitsStatic(t, 0) then r == Ok(v) else r.Err?
  {
    var e := EncodeStatic(t, v, opt, depth).value;
    assert (e + rest)[..32] == e;
    match v
    case BoolValue(b) =>
      var x := if b then 1 else 0;
      SmallSizeWord(x);
      SizeWordRoundTrip(x);
    case AddressValue(a) =>
      assert e[..12] == Zeros(12) && e[12..] == a;
    case BytesNValue(b) =>
      assert e[..t.n] == b && e[t.n..] == Zeros(32 - t.n);
    case _ =>
  }

  lemma SmallSizeWord(x: byte)
    ensures SizeWord(x) == Zeros(31) + [x]
  {
    assert BigEndian(0, 3) == Zeros(3);
    assert BigEndian(0, 5) == BigEndian(0, 3) + [0, 0];
    assert BigEndian(0, 7) == BigEndian(0, 5) + [0, 0];
  }

  lemma {:induction false} StaticsRoundTrip(ts: seq<AbiType>, vs: seq<AbiValue>, rest: seq<byte>, off: nat,
                                           opt: Options, depth: nat)
    requires |ts| == |vs| && EncodeStatics(ts, vs, opt, depth).Ok?
    requires off + |EncodeStatics(ts, vs, opt, depth).value| + |rest| <= U64_MAX
    ensures !DynamicAny(ts)
    ensures var r := DecodeStatics(ts, EncodeStatics(ts, vs, opt, depth).value + rest, off, opt, depth);
            if FitsStatics(ts, |rest|) then r == Ok(vs) else r.Err?
    decreases opt.maxDepth - depth, 1, |ts|
  {
    hide StaticSize, FitsStatic, EncodeStatic, DecodeStatic, IsDynamic, DecodeStatics;
    StaticsEncodingSize(ts, vs, opt, depth);
    if ts == [] {
      assert DecodeStatics(ts, rest, off, opt, depth) == Ok([]) && [] + rest == rest by {
        DecodeNothing(rest, off, opt, depth);
      }
    } else {
      var e0, e1 := EncodeStatic(ts[0], vs[0], opt, depth).value, EncodeStatics(ts[1..], vs[1..], opt, depth).value;
      StaticEncodingSize(ts[0], vs[0], opt, depth);
      StaticsEncodingSize(ts[1..], vs[1..], opt, depth);
      StaticRoundTrip(ts[0], vs[0], e1 + rest, opt, depth);
      StaticsRoundTrip(ts[1..], vs[1..], rest, off + |e0|, opt, depth);
      assert EncodeStatics(ts, vs, opt, depth).value + rest == e0 + (e1 + rest);
      DecodeStaticsStep(ts, e0, e1 + rest, off, opt, depth);
      assert vs == [vs[0]] + vs[1..];
    }
  }

  lemma DecodeNothing(rest: Span, off: nat, opt: Options, depth: nat)
    requires off + |rest| <= U64_MAX
    ensures DecodeStatics([], rest, off, opt, depth) == Ok([])
  {
  }

  lemma DecodeStaticsStep(ts: seq<AbiType>, first: seq<byte>, rest: seq<byte>, off: nat, opt: Options, depth: nat)
    requires ts != [] && !DynamicAny(ts) && !DynamicAny(ts[1..])
    requires off + |first| + |rest| <= U64_MAX && |first| == StaticSize(ts[0])
    ensures DecodeStatics(ts, first + rest, off, opt, depth) ==
            var v := DecodeStatic(ts[0], first + rest, opt, depth);
            if v.Err? then Err(v.error)
            else
              var vs := DecodeStatics(ts[1..], rest, off + |first|, opt, depth);
              if vs.Err? then Err(vs.error) else Ok([v.value] + vs.value)
  {
    var bytes: Span := first + rest;
    assert bytes[|first|..] == rest;
  }

  // -------- tuples: the shape of head and tail --------

  /** What the encoder has written for the components of `ts` once its loop has run to the end. */
  lemma {:induction false} PartsShape(ts: seq<AbiType>, vs: seq<AbiValue>, headTotal: nat, head: seq<byte>,
                                     tail: seq<byte>, opt: Options, depth: nat)
    requires |ts| == |vs| && depth <= opt.maxDepth
    requires EncodeParts(ts, vs, headTotal, head, tail, opt, depth).Ok?
    requires |head| <= opt.maxTotalBytes && |tail| <= opt.maxTotalBytes
    ensures var (h, t) := EncodeParts(ts, vs, headTotal, head, tail, opt, depth).value;
            head <= h && tail <= t && |h| == |head| + HeadTotal(ts) && |t| == |tail| + TailLen(ts, vs) &&
            |h| <= opt.maxTotalBytes && |t| <= opt.maxTotalBytes
    decreases opt.maxDepth - depth, 2, |ts|
  {
    if ts != [] {
      var (h, l) := EncodePart(ts[0], vs[0], headTotal, |tail|, opt, depth).value;
      PartShape(ts[0], vs[0], headTotal, |tail|, opt, depth);
      PartsShape(ts[1..], vs[1..], headTotal, head + h, tail + l, opt, depth);
    }
  }

  lemma {:induction false} PartShape(t: AbiType, v: AbiValue, headTotal: nat, tailOff: nat, opt: Options, depth: nat)
    requires depth <= opt.maxDepth && EncodePart(t, v, headTotal, tailOff, opt, depth).Ok?
    requires |EncodePart(t, v, headTotal, tailOff, opt, depth).value.0| <= opt.maxTotalBytes
    ensures var (h, l) := EncodePart(t, v, headTotal, tailOff, opt, depth).value;
            |h| == HeadSize(t) && |l| == if IsDynamic(t) then DynamicLen(t, v) else 0
    decreases opt.maxDepth - depth, 1
  {
    if IsDynamic(t) {
      DynamicEncodingSize(t, v, tailOff, opt, depth + 1);
    } else {
      StaticEncodingSize(t, v, opt, depth + 1);
    }
  }

  lemma {:induction false} DynamicEncodingSize(t: AbiType, v: AbiValue, base: nat, opt: Options, depth: nat)
    requires EncodeDynamic(t, v, base, opt, depth).Ok?
    ensures |EncodeDynamic(t, v, base, opt, depth).value| == DynamicLen(t, v)
    decreases opt.maxDepth - depth, 0
  {
    match (t, v)
    case (ArrayType(elem, fixedLen), ArrayValue(vs)) =>
      TupleEncodingSize(Repeat(|vs|, elem), vs, if fixedLen.None? then base + 32 else base, opt, depth + 1);
    case (TupleType(ts), TupleValue(vs)) =>
      TupleEncodingSize(ts, vs, base, opt, depth + 1);
    case _ =>
  }

  lemma {:induction false} TupleEncodingSize(ts: seq<AbiType>, vs: seq<AbiValue>, base: nat, opt: Options, depth: nat)
    requires EncodeTupleLike(ts, vs, base, opt, depth).Ok?
    ensures |EncodeTupleLike(ts, vs, base, opt, depth).value| == HeadTotal(ts) + TailLen(ts, vs) <= opt.maxTotalBytes
    decreases opt.maxDepth - depth, 3
  {
    PartsShape(ts, vs, HeadTotal(ts), [], [], opt, depth);
  }

  lemma {:induction false} DynamicLenIsWordMultiple(t: AbiType, v: AbiValue)
    ensures DynamicLen(t, v) % 32 == 0
    decreases v, 0
  {
    match (t, v)
    case (BytesType, BytesValue(b)) =>
      WordSum(32, Ceil32(|b|));
    case (StringType, StringValue(s)) =>
      WordSum(32, Ceil32(|s|));
    case (ArrayType(elem, fixedLen), ArrayValue(vs)) =>
      var lengthWord, heads := if fixedLen.None? then 32 else 0, HeadTotal(Repeat(|vs|, elem));
      HeadTotalIsWordMultiple(Repeat(|vs|, elem));
      TailLenIsWordMultiple(Repeat(|vs|, elem), vs);
      WordSum(lengthWord, heads);
      WordSum(lengthWord + heads, TailLen(Repeat(|vs|, elem), vs));
    case (TupleType(ts), TupleValue(vs)) =>
      HeadTotalIsWordMultiple(ts);
      TailLenIsWordMultiple(ts, vs);
      WordSum(HeadTotal(ts), TailLen(ts, vs));
    case _ =>
  }

  lemma WordSum(a: nat, b: nat)
    requires a % 32 == 0 && b % 32 == 0
    ensures (a + b) % 32 == 0
  {
  }

  lemma {:induction false} TailLenIsWordMultiple(ts: seq<AbiType>, vs: seq<AbiValue>)
    ensures TailLen(ts, vs) % 32 == 0
    decreases vs, 1
  {
    if ts != [] && vs != [] {
      DynamicLenIsWordMultiple(ts[0], vs[0]);
      TailLenIsWordMultiple(ts[1..], vs[1..]);
      WordSum(if IsDynamic(ts[0]) then DynamicLen(ts[0], vs[0]) else 0, TailLen(ts[1..], vs[1..]));
    }
  }

  // -------- tuples: reading the head --------

  /** The slots an honest head holds, for components whose tails start `tailOff` bytes into the tail section. */
  function Slots(ts: seq<AbiType>, vs: seq<AbiValue>, headTotal: nat, tailOff: nat): (r: seq<Slot>)
    requires |ts| == |vs|
    ensures |r| == |ts|
  {
    if ts == [] then []
    else if IsDynamic(ts[0]) then
      [Offset(headTotal + tailOff)] + Slots(ts[1..], vs[1..], headTotal, tailOff + DynamicLen(ts[0], vs[0]))
    else [Inline(vs[0])] + Slots(ts[1..], vs[1..], headTotal, tailOff)
  }

  lemma {:induction false} HeadsRoundTrip(ts: seq<AbiType>, vs: seq<AbiValue>, headTotal: nat, head: seq<byte>,
                                         tail: seq<byte>, after: seq<byte>, opt: Options, depth: nat)
    requires |ts| == |vs| && depth <= opt.maxDepth
    requires EncodeParts(ts, vs, headTotal, head, tail, opt, depth).Ok?
    requires |head| <= opt.maxTotalBytes && |tail| <= opt.maxTotalBytes
    requires headTotal + |tail| + TailLen(ts, vs) <= U64_MAX
    requires HeadTotal(ts) + |after| <= U64_MAX
    ensures var (h, _) := EncodeParts(ts, vs, headTotal, head, tail, opt, depth).value;
            |head| <= |h| && |h[|head|..]| == HeadTotal(ts) &&
            var r := DecodeHeads(ts, h[|head|..] + after, opt, depth);
            if FitsHeads(ts, |after|) then r == Ok(Slots(ts, vs, headTotal, |tail|)) else r.Err?
    decreases |ts|
  {
    hide StaticSize, HeadSize, FitsStatic, IsDynamic, EncodePart, DynamicLen, DecodeHead;
    PartsShape(ts, vs, headTotal, head, tail, opt, depth);
    if ts != [] {
      var (h, _) := EncodeParts(ts, vs, headTotal, head, tail, opt, depth).value;
      var (part, l) := EncodePart(ts[0], vs[0], headTotal, |tail|, opt, depth).value;
      PartShape(ts[0], vs[0], headTotal, |tail|, opt, depth);
      PartsShape(ts[1..], vs[1..], headTotal, head + part, tail + l, opt, depth);
      HeadsRoundTrip(ts[1..], vs[1..], headTotal, head + part, tail + l, after, opt, depth);
      var rest := h[|head + part|..] + after;
      assert h[|head|..] + after == part + rest;
      HeadRoundTrip(ts[0], vs[0], headTotal, |tail|, part, rest, opt, depth);
      DecodeHeadsStep(ts, part, rest, opt, depth);
    }
  }

  lemma HeadRoundTrip(t: AbiType, v: AbiValue, headTotal: nat, tailOff: nat, part: seq<byte>, rest: seq<byte>,
                      opt: Options, depth: nat)
    requires depth <= opt.maxDepth && EncodePart(t, v, headTotal, tailOff, opt, depth).Ok?
    requires EncodePart(t, v, headTotal, tailOff, opt, depth).value.0 == part
    requires headTotal + tailOff <= U64_MAX && |part| == HeadSize(t) && |part| + |rest| <= U64_MAX
    ensures var r := DecodeHead(t, part + rest, opt, depth);
            if IsDynamic(t) then r == Ok(Offset(headTotal + tailOff))
            else if FitsStatic(t, |rest|) then r == Ok(Inline(v)) else r.Err?
  {
    if IsDynamic(t) {
      OffsetRoundTrip(t, headTotal + tailOff, rest, opt, depth);
    } else {
      InlineRoundTrip(t, v, part, rest, opt, depth);
    }
  }

  lemma InlineRoundTrip(t: AbiType, v: AbiValue, part: seq<byte>, rest: seq<byte>, opt: Options, depth: nat)
    requires depth <= opt.maxDepth && !IsDynamic(t)
    requires EncodeStatic(t, v, opt, depth + 1) == Ok(part)
    requires |part| == StaticSize(t) && |part| + |rest| <= U64_MAX
    ensures var r := DecodeHead(t, part + rest, opt, depth);
            if FitsStatic(t, |rest|) then r == Ok(Inline(v)) else r.Err?
  {
    hide StaticSize, FitsStatic, EncodeStatic, DecodeStatic, IsDynamic;
    StaticRoundTrip(t, v, rest, opt, depth + 1);
  }

  lemma OffsetRoundTrip(t: AbiType, off: u64, rest: seq<byte>, opt: Options, depth: nat)
    requires IsDynamic(t) && depth <= opt.maxDepth && 32 + |rest| <= U64_MAX
    ensures DecodeHead(t, SizeWord(off) + rest, opt, depth) == Ok(Offset(off))
  {
    var w := SizeWord(off);
    SizeWordRoundTrip(off);
    assert (w + rest)[..32] == w;
  }

  lemma DecodeHeadsStep(ts: seq<AbiType>, first: seq<byte>, rest: seq<byte>, opt: Options, depth: nat)
    requires ts != [] && depth <= opt.maxDepth
    requires |first| == HeadSize(ts[0]) && HeadTotal(ts[1..]) <= |rest| && |first| + |rest| <= U64_MAX
    ensures DecodeHeads(ts, first + rest, opt, depth) ==
            var slot := DecodeHead(ts[0], first + rest, opt, depth);
            if slot.Err? then Err(slot.error)
            else
              var slots := DecodeHeads(ts[1..], rest, opt, depth);
              if slots.Err? then Err(slots.error) else Ok([slot.value] + slots.value)
  {
    var bytes: Span := first + rest;
    assert bytes[|first|..] == rest;
  }

  // -------- tuples: following the offsets --------

  /** The ranges an honest encoding's tails occupy, the first of them starting at `start`. */
  function Ranges(ts: seq<AbiType>, vs: seq<AbiValue>, start: nat): seq<Range>
    requires |ts| == |vs|
  {
    if ts == [] then []
    else if IsDynamic(ts[0]) then
      var end := start + DynamicLen(ts[0], vs[0]);
      [Range(start, end)] + Ranges(ts[1..], vs[1..], end)
    else Ranges(ts[1..], vs[1..], start)
  }

  /** `bytes` ends with the tails of `ts`, `after` further bytes following them. */
  lemma {:induction false} TailsRoundTrip(ts: seq<AbiType>, vs: seq<AbiValue>, headTotal: nat, head: seq<byte>,
                                         tail: seq<byte>, bytes: Span, after: seq<byte>, opt: Options, depth: nat)
    requires |ts| == |vs| && depth <= opt.maxDepth
    requires EncodeParts(ts, vs, headTotal, head, tail, opt, depth).Ok?
    requires |head| <= opt.maxTotalBytes && |tail| <= opt.maxTotalBytes
    requires headTotal % 32 == 0 && |tail| % 32 == 0 && |bytes| <= opt.maxTotalBytes
    requires headTotal + |tail| <= |bytes|
    requires var (_, l) := EncodeParts(ts, vs, headTotal, head, tail, opt, depth).value;
             |tail| <= |l| && bytes[headTotal + |tail|..] == l[|tail|..] + after
    ensures var r := DecodeTails(ts, Slots(ts, vs, headTotal, |tail|), bytes, headTotal, opt, depth);
            if FitsTails(ts, vs, |after|) then r == Ok((vs, Ranges(ts, vs, headTotal + |tail|))) else r.Err?
    decreases opt.maxDepth - depth, 2, |ts|
  {
    hide StaticSize, HeadSize, EncodeStatic, EncodeDynamic, DynamicLen, SizeWord, FitsDynamic, DecodeTail, IsDynamic,
         EncodeParts, HeadTotal, TailLen;
    if ts != [] {
      var rest := NextTail(ts, vs, headTotal, head, tail, bytes, after, opt, depth);
      var (h0, l0) := EncodePart(ts[0], vs[0], headTotal, |tail|, opt, depth).value;
      if IsDynamic(ts[0]) {
        TailRoundTrip(ts[0], vs[0], headTotal, |tail|, bytes, rest, opt, depth);
      }
      TailsRoundTrip(ts[1..], vs[1..], headTotal, head + h0, tail + l0, bytes, after, opt, depth);
      DecodeTailsStep(ts, vs, headTotal, |tail|, bytes, |after|, opt, depth);
    }
  }

  /** The encoder's next step, seen from the decoder: the first component's tail, then the bytes that follow it. */
  lemma {:induction false} NextTail(ts: seq<AbiType>, vs: seq<AbiValue>, headTotal: nat, head: seq<byte>,
                                   tail: seq<byte>, bytes: Span, after: seq<byte>, opt: Options, depth: nat)
    returns (rest: seq<byte>)
    requires |ts| == |vs| && ts != [] && depth <= opt.maxDepth
    requires EncodeParts(ts, vs, headTotal, head, tail, opt, depth).Ok?
    requires |head| <= opt.maxTotalBytes && |tail| <= opt.maxTotalBytes && |tail| % 32 == 0
    requires headTotal + |tail| <= |bytes|
    requires var (_, l) := EncodeParts(ts, vs, headTotal, head, tail, opt, depth).value;
             |tail| <= |l| && bytes[headTotal + |tail|..] == l[|tail|..] + after
    ensures var part := EncodePart(ts[0], vs[0], headTotal, |tail|, opt, depth);
            part.Ok? &&
            var (h0, l0) := part.value;
            var tail' := tail + l0;
            && EncodeParts(ts[1..], vs[1..], headTotal, head + h0, tail', opt, depth) ==
               EncodeParts(ts, vs, headTotal, head, tail, opt, depth)
            && |head + h0| <= opt.maxTotalBytes && |tail'| <= opt.maxTotalBytes
            && |l0| == (if IsDynamic(ts[0]) then DynamicLen(ts[0], vs[0]) else 0) && |tail'| % 32 == 0
            && headTotal + |tail'| <= |bytes|
            && |rest| == TailLen(ts[1..], vs[1..]) + |after|
            && bytes[headTotal + |tail|..] == l0 + rest && bytes[headTotal + |tail'|..] == rest
            && var l := EncodeParts(ts, vs, headTotal, head, tail, opt, depth).value.1;
               |tail'| <= |l| && rest == l[|tail'|..] + after
  {
    hide StaticSize, HeadSize, EncodeStatic, EncodeDynamic, DynamicLen, SizeWord, EncodePart, IsDynamic;
    var (_, l) := EncodeParts(ts, vs, headTotal, head, tail, opt, depth).value;
    var (h0, l0) := EncodePart(ts[0], vs[0], headTotal, |tail|, opt, depth).value;
    var tail' := tail + l0;
    PartShape(ts[0], vs[0], headTotal, |tail|, opt, depth);
    PartsShape(ts[1..], vs[1..], headTotal, head + h0, tail', opt, depth);
    if IsDynamic(ts[0]) {
      DynamicLenIsWordMultiple(ts[0], vs[0]);
    }
    rest := l[|tail'|..] + after;
    assert l[|tail|..] + after == l0 + rest;
    assert bytes[headTotal + |tail'|..] == bytes[headTotal + |tail|..][|l0|..];
  }

  lemma DecodeTailsStep(ts: seq<AbiType>, vs: seq<AbiValue>, headTotal: nat, tailOff: nat, bytes: Span, after: nat,
                        opt: Options, depth: nat)
    requires |ts| == |vs| && ts != [] && depth <= opt.maxDepth && headTotal <= |bytes|
    requires IsDynamic(ts[0]) ==>
               var off := headTotal + tailOff;
               var r := DecodeTail(ts[0], off, bytes, headTotal, opt, depth);
               if FitsDynamic(ts[0], vs[0], TailLen(ts[1..], vs[1..]) + after)
               then r == Ok((vs[0], Range(off, off + DynamicLen(ts[0], vs[0])))) else r.Err?
    requires var off := tailOff + if IsDynamic(ts[0]) then DynamicLen(ts[0], vs[0]) else 0;
             var r := DecodeTails(ts[1..], Slots(ts[1..], vs[1..], headTotal, off), bytes, headTotal, opt, depth);
             if FitsTails(ts[1..], vs[1..], after) then r == Ok((vs[1..], Ranges(ts[1..], vs[1..], headTotal + off)))
             else r.Err?
    ensures var r := DecodeTails(ts, Slots(ts, vs, headTotal, tailOff), bytes, headTotal, opt, depth);
            if FitsTails(ts, vs, after) then r == Ok((vs, Ranges(ts, vs, headTotal + tailOff))) else r.Err?
  {
    hide StaticSize, HeadSize, DynamicLen, FitsDynamic, DecodeTail, IsDynamic;
    var slots := Slots(ts, vs, headTotal, tailOff);
    var off := tailOff + if IsDynamic(ts[0]) then DynamicLen(ts[0], vs[0]) else 0;
    assert slots[1..] == Slots(ts[1..], vs[1..], headTotal, off);
    assert vs == [vs[0]] + vs[1..];
  }

  lemma {:induction false} TailRoundTrip(t: AbiType, v: AbiValue, headTotal: nat, tailOff: nat, bytes: Span,
                                        rest: seq<byte>, opt: Options, depth: nat)
    requires IsDynamic(t) && depth <= opt.maxDepth && EncodeDynamic(t, v, tailOff, opt, depth + 1).Ok?
    requires headTotal % 32 == 0 && tailOff % 32 == 0 && headTotal + tailOff <= |bytes| <= opt.maxTotalBytes
    requires bytes[headTotal + tailOff..] == EncodeDynamic(t, v, tailOff, opt, depth + 1).value + rest
    ensures var off := headTotal + tailOff;
            var r := DecodeTail(t, off, bytes, headTotal, opt, depth);
            if FitsDynamic(t, v, |rest|) then r == Ok((v, Range(off, off + DynamicLen(t, v)))) else r.Err?
    decreases opt.maxDepth - depth, 1
  {
    hide DynamicLen, EncodeDynamic, DecodeDynamic, IsDynamic, HeadSize, StaticSize;
    DynamicEncodingSize(t, v, tailOff, opt, depth + 1);
    DynamicRoundTrip(t, v, tailOff, rest, opt, depth + 1);
  }

  lemma {:induction false} DynamicRoundTrip(t: AbiType, v: AbiValue, base: nat, rest: seq<byte>, opt: Options,
                                           depth: nat)
    requires EncodeDynamic(t, v, base, opt, depth).Ok?
    requires |EncodeDynamic(t, v, base, opt, depth).value| + |rest| <= opt.maxTotalBytes
    ensures var e := EncodeDynamic(t, v, base, opt, depth).value;
            var r := DecodeDynamic(t, e + rest, opt, depth);
            if FitsDynamic(t, v, |rest|) then r == Ok((v, |e|)) else r.Err?
    decreases opt.maxDepth - depth, 0
  {
    hide StaticSize, HeadSize, TailLen, FitsHeads, FitsTails, SizeWord, ParseSizeWord, EncodeTupleLike, DecodeTupleLike,
         EncodeBlob, DecodeBlob, ValidUtf8;
    var e := EncodeDynamic(t, v, base, opt, depth).value;
    DynamicEncodingSize(t, v, base, opt, depth);
    match (t, v)
    case (BytesType, BytesValue(b)) =>
      BlobRoundTrip(b, rest, opt);
    case (StringType, StringValue(s)) =>
      BlobRoundTrip(s, rest, opt);
    case (ArrayType(elem, None), ArrayValue(vs)) =>
      var ts := Repeat(|vs|, elem);
      TupleRoundTrip(ts, vs, base + 32, rest, opt, depth + 1);
      var w, body := SizeWord(|vs|), EncodeTupleLike(ts, vs, base + 32, opt, depth + 1).value;
      SizeWordRoundTrip(|vs|);
      assert e + rest == w + (body + rest);
      assert (e + rest)[..32] == w && (e + rest)[32..] == body + rest;
    case (ArrayType(elem, Some(n)), ArrayValue(vs)) =>
      TupleRoundTrip(Repeat(n, elem), vs, base, rest, opt, depth + 1);
    case (TupleType(ts), TupleValue(vs)) =>
      TupleRoundTrip(ts, vs, base, rest, opt, depth + 1);
  }

  lemma BlobRoundTrip(b: seq<byte>, rest: seq<byte>, opt: Options)
    requires 32 + Ceil32(|b|) + |rest| <= opt.maxTotalBytes
    ensures DecodeBlob(EncodeBlob(b) + rest, opt) == Ok((b, 32 + Ceil32(|b|)))
  {
    var w, pad := SizeWord(|b|), Zeros(Ceil32(|b|) - |b|);
    var bytes := EncodeBlob(b) + rest;
    SizeWordRoundTrip(|b|);
    assert bytes[..32] == w && bytes[32..32 + |b|] == b && bytes[32 + |b|..32 + Ceil32(|b|)] == pad;
  }

  /** The ranges cover `start` to `end`, each starting where its predecessor ends. */
  predicate Packed(rs: seq<Range>, start: nat, end: nat) {
    if rs == [] then start == end else rs[0].start == start <= rs[0].end && Packed(rs[1..], rs[0].end, end)
  }

  lemma {:induction false} RangesArePacked(ts: seq<AbiType>, vs: seq<AbiValue>, start: nat)
    requires |ts| == |vs|
    ensures Packed(Ranges(ts, vs, start), start, start + TailLen(ts, vs))
  {
    if ts != [] {
      hide StaticSize, HeadSize, DynamicLen, IsDynamic;
      RangesArePacked(ts[1..], vs[1..], if IsDynamic(ts[0]) then start + DynamicLen(ts[0], vs[0]) else start);
    }
  }

  /** Sorting leaves packed ranges alone, and their last one ends the encoding. */
  lemma {:induction false} PackedRangesEnd(rs: seq<Range>, start: nat, end: nat, limit: nat)
    requires Packed(rs, start, end) && end <= limit
    ensures start <= end
    ensures forall range <- rs :: start <= range.start <= range.end <= end
    ensures SortByStart(rs) == rs
    ensures PackedEnd(rs, start, limit) == Some(end)
    ensures MaxEnd(rs, start, limit) == end
  {
    if rs != [] {
      PackedRangesEnd(rs[1..], rs[0].end, end, limit);
      assert rs == [rs[0]] + rs[1..];
      assert rs[1..] == [] || rs[1] in rs[1..];
    }
  }

  lemma {:induction false} TupleRoundTrip(ts: seq<AbiType>, vs: seq<AbiValue>, base: nat, rest: seq<byte>,
                                         opt: Options, depth: nat)
    requires EncodeTupleLike(ts, vs, base, opt, depth).Ok?
    requires |EncodeTupleLike(ts, vs, base, opt, depth).value| + |rest| <= opt.maxTotalBytes
    ensures var e := EncodeTupleLike(ts, vs, base, opt, depth).value;
            var r := DecodeTupleLike(ts, e + rest, opt, depth);
            if Fits(ts, vs, |rest|) then r == Ok((vs, |e|)) else r.Err?
    decreases opt.maxDepth - depth, 3
  {
    hide HeadTotal, TailLen, FitsHeads, FitsTails, EncodeParts, DecodeHeads, DecodeTails, Slots, Ranges, SortByStart,
         PackedEnd, MaxEnd;
    var ht := HeadTotal(ts);
    var (head, tail) := EncodeParts(ts, vs, ht, [], [], opt, depth).value;
    PartsShape(ts, vs, ht, [], [], opt, depth);
    HeadTotalIsWordMultiple(ts);
    var bytes: Span := head + tail + rest;
    assert head[0..] == head && tail[0..] == tail;
    assert bytes == head + (tail + rest) && bytes[ht..] == tail + rest;
    HeadsRoundTrip(ts, vs, ht, [], [], tail + rest, opt, depth);
    TailsRoundTrip(ts, vs, ht, [], [], bytes, rest, opt, depth);
    RangesArePacked(ts, vs, ht);
    PackedRangesEnd(Ranges(ts, vs, ht), ht, ht + TailLen(ts, vs), |bytes|);
  }
}
