/** The head/tail codec as pure functions: what the encoding and decoding procedures compute. */
module AbiCodec {
  import opened Common
  import opened AbiTypes
  import opened AbiWords

  /** Size limits stay below the largest object a C++ implementation allows. */
  type Limit = x: nat | x < 0x8000_0000_0000_0000

  datatype EncodeStatus = EncodeTypeMismatch | EncodeNotCanonical | EncodeSizeLimit | EncodeDepthLimit

  datatype DecodeStatus =
    | TooShort | SizeLimit | DepthLimit | InvalidWord | InvalidOffset | InvalidLength | NotCanonical | TypeMismatch
    | InvalidUtf8

  /** The limits both directions share; `canonicalOffsets` is read by the decoder only. */
  datatype Options = Options(maxTotalBytes: Limit, maxDepth: nat, maxArrayElems: u64, canonicalOffsets: bool)

  type Encoded = Result<seq<byte>, EncodeStatus>
  type Decoded<T> = Result<T, DecodeStatus>

  datatype Range = Range(start: nat, end: nat)

  // -------- encoding --------

  function EncodeTupleLike(ts: seq<AbiType>, vs: seq<AbiValue>, base: nat, opt: Options, depth: nat): Encoded
    decreases opt.maxDepth - depth, 3
  {
    if depth > opt.maxDepth then Err(EncodeDepthLimit)
    else if |ts| != |vs| then Err(EncodeTypeMismatch)
    else if HeadTotal(ts) > U64_MAX then Err(EncodeSizeLimit)
    else
      var (head, tail) :- EncodeParts(ts, vs, HeadTotal(ts), [], [], opt, depth);
      if base + |head| + |tail| > opt.maxTotalBytes then Err(EncodeSizeLimit) else Ok(head + tail)
  }

  /** The component loop: `head` and `tail` are what the components before `ts[0]` produced. */
  function EncodeParts(ts: seq<AbiType>, vs: seq<AbiValue>, headTotal: nat, head: seq<byte>, tail: seq<byte>,
                       opt: Options, depth: nat): Result<(seq<byte>, seq<byte>), EncodeStatus>
    requires |ts| == |vs| && depth <= opt.maxDepth
    decreases opt.maxDepth - depth, 2, |ts|
  {
    if ts == [] then Ok((head, tail))
    else
      var (h, l) :- EncodePart(ts[0], vs[0], headTotal, |tail|, opt, depth);
      var head', tail' := head + h, tail + l;
      if |head'| > opt.maxTotalBytes || |tail'| > opt.maxTotalBytes then Err(EncodeSizeLimit)
      else EncodeParts(ts[1..], vs[1..], headTotal, head', tail', opt, depth)
  }

  /** What one component adds to the head and to the tail. */
  function EncodePart(t: AbiType, v: AbiValue, headTotal: nat, tailOff: nat, opt: Options, depth: nat)
    : Result<(seq<byte>, seq<byte>), EncodeStatus>
    requires depth <= opt.maxDepth
    decreases opt.maxDepth - depth, 1
  {
    if IsDynamic(t) then
      var b :- EncodeDynamic(t, v, tailOff, opt, depth + 1);
      Ok((SizeWord(headTotal + tailOff), b))
    else
      var b :- EncodeStatic(t, v, opt, depth + 1);
      Ok((b, []))
  }

  function EncodeStatic(t: AbiType, v: AbiValue, opt: Options, depth: nat): Encoded
    decreases opt.maxDepth - depth, 0
  {
    if depth > opt.maxDepth then Err(EncodeDepthLimit)
    else
      match (t, v)
      case (UintType(bits), UintValue(w)) => if ValidUintBits(w, bits) then Ok(w) else Err(EncodeNotCanonical)
      case (IntType(bits), IntValue(w)) => if ValidIntBits(w, bits) then Ok(w) else Err(EncodeNotCanonical)
      case (BoolType, BoolValue(b)) => Ok(Zeros(31) + [if b then 1 else 0])
      case (AddressType, AddressValue(a)) => Ok(Zeros(12) + a)
      case (BytesNType(n), BytesNValue(b)) => if |b| != n then Err(EncodeTypeMismatch) else Ok(b + Zeros(32 - n))
      case (ArrayType(elem, Some(n)), ArrayValue(vs)) =>
        if |vs| != n || IsDynamic(elem) then Err(EncodeTypeMismatch)
        else EncodeStatics(Repeat(n, elem), vs, opt, depth + 1)
      case (TupleType(ts), TupleValue(vs)) =>
        if DynamicAny(ts) || |vs| != |ts| then Err(EncodeTypeMismatch) else EncodeStatics(ts, vs, opt, depth + 1)
      case _ => Err(EncodeTypeMismatch)
  }

  function EncodeStatics(ts: seq<AbiType>, vs: seq<AbiValue>, opt: Options, depth: nat): Encoded
    requires |ts| == |vs|
    decreases opt.maxDepth - depth, 1, |ts|
  {
    if ts == [] then Ok([])
    else
      var b :- EncodeStatic(ts[0], vs[0], opt, depth);
      var rest :- EncodeStatics(ts[1..], vs[1..], opt, depth);
      Ok(b + rest)
  }

  function EncodeBlob(b: seq<byte>): seq<byte> {
    SizeWord(|b|) + b + Zeros(Ceil32(|b|) - |b|)
  }

  function EncodeDynamic(t: AbiType, v: AbiValue, base: nat, opt: Options, depth: nat): Encoded
    decreases opt.maxDepth - depth, 0
  {
    if depth > opt.maxDepth then Err(EncodeDepthLimit)
    else
      match (t, v)
      case (BytesType, BytesValue(b)) => Ok(EncodeBlob(b))
      case (StringType, StringValue(s)) => Ok(EncodeBlob(s))
      case (ArrayType(elem, fixedLen), ArrayValue(vs)) =>
        var n := |vs|;
        if n > opt.maxArrayElems then Err(EncodeSizeLimit)
        else if fixedLen.None? then
          var body :- EncodeTupleLike(Repeat(n, elem), vs, base + 32, opt, depth + 1);
          Ok(SizeWord(n) + body)
        else if n != fixedLen.value then Err(EncodeTypeMismatch)
        else EncodeTupleLike(Repeat(n, elem), vs, base, opt, depth + 1)
      case (TupleType(ts), TupleValue(vs)) =>
        if |vs| != |ts| then Err(EncodeTypeMismatch) else EncodeTupleLike(ts, vs, base, opt, depth + 1)
      case _ => Err(EncodeTypeMismatch)
  }

  // -------- decoding --------

  /** A byte span: its length is a `size_t`. */
  type Span = b: seq<byte> | |b| <= U64_MAX

  function DecodeStatic(t: AbiType, bytes: Span, opt: Options, depth: nat): (r: Decoded<AbiValue>)
    ensures r.Ok? && !IsDynamic(t) ==> StaticSize(t) <= |bytes|
    decreases opt.maxDepth - depth, 0
  {
    if depth > opt.maxDepth then Err(DepthLimit)
    else if |bytes| < 32 then Err(TooShort)
    else
      var w: Word := bytes[..32];
      match t
      case UintType(bits) => if ValidUintBits(w, bits) then Ok(UintValue(w)) else Err(NotCanonical)
      case IntType(bits) => if ValidIntBits(w, bits) then Ok(IntValue(w)) else Err(NotCanonical)
      case BoolType =>
        (match ParseSizeWord(w)
         case None => Err(InvalidWord)
         case Some(x) => if x != 0 && x != 1 then Err(NotCanonical) else Ok(BoolValue(x == 1)))
      case AddressType => if AllEqual(w[..12], 0) then Ok(AddressValue(w[12..])) else Err(NotCanonical)
      case BytesNType(n) =>
        if n == 0 then Err(TypeMismatch)
        else if AllEqual(w[n..], 0) then Ok(BytesNValue(w[..n])) else Err(NotCanonical)
      case ArrayType(elem, Some(n)) =>
        if IsDynamic(elem) then Err(TypeMismatch)
        else if n * StaticSize(elem) > U64_MAX then Err(SizeLimit)
        else if |bytes| < n * StaticSize(elem) then Err(TooShort)
        else
          var vs :- DecodeStatics(Repeat(n, elem), bytes, 0, opt, depth + 1);
          Ok(ArrayValue(vs))
      case TupleType(ts) =>
        if DynamicAny(ts) then Err(TypeMismatch)
        else
          var vs :- DecodeStatics(ts, bytes, 0, opt, depth + 1);
          Ok(TupleValue(vs))
      case _ => Err(TypeMismatch)
  }

  /** The component loop: `bytes` is what remains of the span after the first `off` bytes. */
  function DecodeStatics(ts: seq<AbiType>, bytes: Span, off: nat, opt: Options, depth: nat): (r: Decoded<seq<AbiValue>>)
    requires !DynamicAny(ts) && off + |bytes| <= U64_MAX
    ensures r.Ok? ==> SizeSum(ts) <= |bytes| && |r.value| == |ts|
    decreases opt.maxDepth - depth, 1, |ts|
  {
    if ts == [] then Ok([])
    else
      var size := StaticSize(ts[0]);
      if off + |bytes| < Wrap64(off + size) then Err(TooShort)
      else
        var v :- DecodeStatic(ts[0], bytes, opt, depth);
        var vs :- DecodeStatics(ts[1..], bytes[size..], off + size, opt, depth);
        Ok([v] + vs)
  }

  function DecodeBlob(bytes: Span, opt: Options): (r: Decoded<(seq<byte>, nat)>)
    requires |bytes| >= 32
    ensures r.Ok? ==> r.value.1 <= |bytes|
  {
    match ParseSizeWord(bytes[..32])
    case None => Err(InvalidLength)
    case Some(n) =>
      var need := 32 + Ceil32(n);
      if n > opt.maxTotalBytes then Err(SizeLimit)
      else if |bytes| < need then Err(TooShort)
      else if !AllEqual(bytes[32 + n..need], 0) then Err(NotCanonical)
      else Ok((bytes[32..32 + n], need))
  }

  /** A value of a dynamic type, with the number of bytes it consumed. */
  function DecodeDynamic(t: AbiType, bytes: Span, opt: Options, depth: nat): (r: Decoded<(AbiValue, nat)>)
    ensures r.Ok? ==> r.value.1 <= |bytes|
    decreases opt.maxDepth - depth, 0
  {
    if depth > opt.maxDepth then Err(DepthLimit)
    else if |bytes| > opt.maxTotalBytes then Err(SizeLimit)
    else if |bytes| < 32 then Err(TooShort)
    else
      match t
      case BytesType =>
        var (b, need) :- DecodeBlob(bytes, opt);
        Ok((BytesValue(b), need))
      case StringType =>
        var (s, need) :- DecodeBlob(bytes, opt);
        if ValidUtf8(s) then Ok((StringValue(s), need)) else Err(InvalidUtf8)
      case ArrayType(elem, None) =>
        (match ParseSizeWord(bytes[..32])
         case None => Err(InvalidLength)
         case Some(n) =>
           if n > opt.maxArrayElems then Err(SizeLimit)
           else
             var (vs, sub) :- DecodeTupleLike(Repeat(n, elem), bytes[32..], opt, depth + 1);
             Ok((ArrayValue(vs), 32 + sub)))
      case ArrayType(elem, Some(n)) =>
        if n > opt.maxArrayElems then Err(SizeLimit)
        else
          var (vs, sub) :- DecodeTupleLike(Repeat(n, elem), bytes, opt, depth + 1);
          Ok((ArrayValue(vs), sub))
      case TupleType(ts) =>
        var (vs, sub) :- DecodeTupleLike(ts, bytes, opt, depth + 1);
        Ok((TupleValue(vs), sub))
      case _ => Err(TypeMismatch)
  }

  function DecodeTupleLike(ts: seq<AbiType>, bytes: Span, opt: Options, depth: nat)
    : (r: Decoded<(seq<AbiValue>, nat)>)
    ensures r.Ok? ==> r.value.1 <= |bytes| && |r.value.0| == |ts|
    decreases opt.maxDepth - depth, 3
  {
    if depth > opt.maxDepth then Err(DepthLimit)
    else if |bytes| > opt.maxTotalBytes then Err(SizeLimit)
    else if HeadTotal(ts) > U64_MAX then Err(SizeLimit)
    else if |bytes| < HeadTotal(ts) then Err(TooShort)
    else
      var slots :- DecodeHeads(ts, bytes, opt, depth);
      var (vs, ranges) :- DecodeTails(ts, slots, bytes, HeadTotal(ts), opt, depth);
      if opt.canonicalOffsets && ranges != [] then
        match PackedEnd(SortByStart(ranges), HeadTotal(ts), |bytes|)
        case None => Err(NotCanonical)
        case Some(end) => Ok((vs, end))
      else Ok((vs, MaxEnd(ranges, HeadTotal(ts), |bytes|)))
  }

  /** What the head holds for one component. */
  datatype Slot = Inline(value: AbiValue) | Offset(off: nat)

  function DecodeHeads(ts: seq<AbiType>, bytes: Span, opt: Options, depth: nat): (r: Decoded<seq<Slot>>)
    requires HeadTotal(ts) <= |bytes| && depth <= opt.maxDepth
    ensures r.Ok? ==> |r.value| == |ts| && forall i | 0 <= i < |ts| :: r.value[i].Offset? <==> IsDynamic(ts[i])
    decreases opt.maxDepth - depth, 1, |ts|
  {
    if ts == [] then Ok([])
    else
      var slot :- DecodeHead(ts[0], bytes, opt, depth);
      var slots :- DecodeHeads(ts[1..], bytes[HeadSize(ts[0])..], opt, depth);
      Ok([slot] + slots)
  }

  function DecodeHead(t: AbiType, bytes: Span, opt: Options, depth: nat): (r: Decoded<Slot>)
    requires HeadSize(t) <= |bytes| && depth <= opt.maxDepth
    ensures r.Ok? ==> (r.value.Offset? <==> IsDynamic(t))
    decreases opt.maxDepth - depth, 0
  {
    if IsDynamic(t) then
      match ParseSizeWord(bytes[..32])
      case None => Err(InvalidOffset)
      case Some(off) => Ok(Offset(off))
    else
      var v :- DecodeStatic(t, bytes, opt, depth + 1);
      Ok(Inline(v))
  }

  function DecodeTails(ts: seq<AbiType>, slots: seq<Slot>, bytes: Span, headTotal: nat, opt: Options, depth: nat)
    : (r: Decoded<(seq<AbiValue>, seq<Range>)>)
    requires |slots| == |ts| && depth <= opt.maxDepth && headTotal <= |bytes|
    ensures r.Ok? ==>
      |r.value.0| == |ts| && forall range <- r.value.1 :: headTotal <= range.start <= range.end <= |bytes|
    decreases opt.maxDepth - depth, 1, |ts|
  {
    if ts == [] then Ok(([], []))
    else
      match slots[0]
      case Inline(v) =>
        var (vs, ranges) :- DecodeTails(ts[1..], slots[1..], bytes, headTotal, opt, depth);
        Ok(([v] + vs, ranges))
      case Offset(off) =>
        var (v, range) :- DecodeTail(ts[0], off, bytes, headTotal, opt, depth);
        var (vs, ranges) :- DecodeTails(ts[1..], slots[1..], bytes, headTotal, opt, depth);
        Ok(([v] + vs, [range] + ranges))
  }

  function DecodeTail(t: AbiType, off: nat, bytes: Span, headTotal: nat, opt: Options, depth: nat)
    : (r: Decoded<(AbiValue, Range)>)
    requires depth <= opt.maxDepth && headTotal <= |bytes|
    ensures r.Ok? ==> headTotal <= r.value.1.start <= r.value.1.end <= |bytes|
    decreases opt.maxDepth - depth, 0
  {
    if off % 32 != 0 then Err(InvalidOffset)
    else if off < headTotal || off >= |bytes| then Err(InvalidOffset)
    else
      var (v, consumed) :- DecodeDynamic(t, bytes[off..], opt, depth + 1);
      Ok((v, Range(off, off + consumed)))
  }

  // -------- ranges --------

  function SortByStart(rs: seq<Range>): (sorted: seq<Range>)
    ensures multiset(sorted) == multiset(rs)
    ensures forall r <- sorted :: r in rs
  {
    if rs == [] then []
    else
      assert rs == [rs[0]] + rs[1..];
      InsertByStart(rs[0], SortByStart(rs[1..]))
  }

  function InsertByStart(r: Range, rs: seq<Range>): (sorted: seq<Range>)
    ensures multiset(sorted) == multiset{r} + multiset(rs)
    ensures forall x <- sorted :: x == r || x in rs
  {
    if rs == [] then [r]
    else if r.start <= rs[0].start then [r] + rs
    else
      assert rs == [rs[0]] + rs[1..];
      [rs[0]] + InsertByStart(r, rs[1..])
  }

  /** The end of the last range, provided that no range starts before `prevEnd` or before its predecessor's end. */
  function PackedEnd(rs: seq<Range>, prevEnd: nat, ghost limit: nat): (r: Option<nat>)
    requires prevEnd <= limit && forall range <- rs :: range.end <= limit
    ensures r.Some? ==> r.value <= limit
  {
    if rs == [] then Some(prevEnd)
    else if rs[0].start < prevEnd then None
    else PackedEnd(rs[1..], rs[0].end, limit)
  }

  function MaxEnd(rs: seq<Range>, end: nat, ghost limit: nat): (r: nat)
    requires end <= limit && forall range <- rs :: range.end <= limit
    ensures r <= limit
  {
    if rs == [] then end else MaxEnd(rs[1..], if rs[0].end > end then rs[0].end else end, limit)
  }
}
