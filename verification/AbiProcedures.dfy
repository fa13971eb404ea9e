/**
 The codec's procedures. The encoders append to a byte vector that the caller owns, and the decoders walk a span with
 cursors; each is proved to compute the corresponding function of `AbiCodec`.
 */
module AbiProcedures {
  import opened Common
  import opened AbiTypes
  import opened AbiWords
  import opened AbiCodec

  /** An output vector passed by reference. */
  class ByteVector {
    var data: seq<byte>

    constructor ()
      ensures data == []
    {
      data := [];
    }

    method Append(b: seq<byte>)
      modifies this
      ensures data == old(data) + b
    {
      data := data + b;
    }
  }

  // -------- what an encoder that fails has already appended --------

  /** Nothing, or everything: head and tail are built apart, and the output is measured only after both are in it. */
  function LeftByTuple(ts: seq<AbiType>, vs: seq<AbiValue>, opt: Options, depth: nat): seq<byte> {
    if depth > opt.maxDepth || |ts| != |vs| || HeadTotal(ts) > U64_MAX then []
    else
      match EncodeParts(ts, vs, HeadTotal(ts), [], [], opt, depth)
      case Ok((head, tail)) => head + tail
      case Err(_) => []
  }

  /** The elements before the one that fails, and what that one left. */
  function LeftByStatics(ts: seq<AbiType>, vs: seq<AbiValue>, opt: Options, depth: nat): seq<byte>
    requires |ts| == |vs|
    decreases opt.maxDepth - depth, 1, |ts|
  {
    if ts == [] then []
    else
      match EncodeStatic(ts[0], vs[0], opt, depth)
      case Ok(b) => b + LeftByStatics(ts[1..], vs[1..], opt, depth)
      case Err(_) => LeftByStatic(ts[0], vs[0], opt, depth)
  }

  function LeftByStatic(t: AbiType, v: AbiValue, opt: Options, depth: nat): seq<byte>
    decreases opt.maxDepth - depth, 0
  {
    if depth > opt.maxDepth then []
    else
      match (t, v)
      case (ArrayType(elem, Some(n)), ArrayValue(vs)) =>
        if |vs| != n || IsDynamic(elem) then [] else LeftByStatics(Repeat(n, elem), vs, opt, depth + 1)
      case (TupleType(ts), TupleValue(vs)) =>
        if DynamicAny(ts) || |vs| != |ts| then [] else LeftByStatics(ts, vs, opt, depth + 1)
      case _ => []
  }

  /** An array that sizes itself leaves its length word too. */
  function LeftByDynamic(t: AbiType, v: AbiValue, opt: Options, depth: nat): seq<byte> {
    if depth > opt.maxDepth then []
    else
      match (t, v)
      case (ArrayType(elem, fixedLen), ArrayValue(vs)) =>
        var body := LeftByTuple(Repeat(|vs|, elem), vs, opt, depth + 1);
        if |vs| > opt.maxArrayElems then []
        else if fixedLen.None? then SizeWord(|vs|) + body
        else if |vs| != fixedLen.value then []
        else body
      case (TupleType(ts), TupleValue(vs)) => if |vs| != |ts| then [] else LeftByTuple(ts, vs, opt, depth + 1)
      case _ => []
  }

  /** `st` is what the encoder reports, and the output has grown by the encoding, or on failure by `left`. */
  ghost predicate Wrote(before: seq<byte>, after: seq<byte>, st: Option<EncodeStatus>, spec: Encoded,
                        left: seq<byte>) {
    match spec
    case Ok(e) => st.None? && after == before + e
    case Err(error) => st == Some(error) && after == before + left
  }

  // -------- encoding --------

  method HeadSizes(ts: seq<AbiType>) returns (total: Option<u64>)
    ensures total == if HeadTotal(ts) > U64_MAX then None else Some(HeadTotal(ts))
  {
    var sum: nat := 0;
    assert ts[0..] == ts;
    for i := 0 to |ts|
      invariant sum <= U64_MAX && sum + HeadTotal(ts[i..]) == HeadTotal(ts)
    {
      assert ts[i..][1..] == ts[i + 1..];
      sum := sum + HeadSize(ts[i]);
      if sum > U64_MAX {
        return None;
      }
    }
    return Some(sum);
  }

  method WriteTuple(ts: seq<AbiType>, vs: seq<AbiValue>, out: ByteVector, opt: Options, depth: nat)
    returns (st: Option<EncodeStatus>)
    modifies out
    ensures Wrote(old(out.data), out.data, st, EncodeTupleLike(ts, vs, |old(out.data)|, opt, depth),
                  LeftByTuple(ts, vs, opt, depth))
    decreases opt.maxDepth - depth, 3
  {
    if depth > opt.maxDepth {
      return Some(EncodeDepthLimit);
    }
    if |ts| != |vs| {
      return Some(EncodeTypeMismatch);
    }
    var headTotal := HeadSizes(ts);
    if headTotal.None? {
      return Some(EncodeSizeLimit);
    }
    hide EncodePart, StaticSize, HeadSize;
    var head := new ByteVector();
    var tail := new ByteVector();
    ghost var spec := EncodeParts(ts, vs, headTotal.value, [], [], opt, depth);
    assert ts[0..] == ts && vs[0..] == vs;
    for i := 0 to |ts|
      invariant fresh(head) && fresh(tail) && head != tail && out.data == old(out.data)
      invariant EncodeParts(ts[i..], vs[i..], headTotal.value, head.data, tail.data, opt, depth) == spec
    {
      assert ts[i..][1..] == ts[i + 1..] && vs[i..][1..] == vs[i + 1..];
      st := WritePart(ts[i], vs[i], headTotal.value, head, tail, opt, depth);
      if st.Some? {
        return;
      }
      if |head.data| > opt.maxTotalBytes || |tail.data| > opt.maxTotalBytes {
        return Some(EncodeSizeLimit);
      }
    }
    out.Append(head.data);
    out.Append(tail.data);
    if |out.data| > opt.maxTotalBytes {
      return Some(EncodeSizeLimit);
    }
    return None;
  }

  /** One component: its own bytes or an offset to the head, and its tail if it has one. */
  method WritePart(t: AbiType, v: AbiValue, headTotal: nat, head: ByteVector, tail: ByteVector, opt: Options,
                   depth: nat)
    returns (st: Option<EncodeStatus>)
    requires head != tail && depth <= opt.maxDepth
    modifies head, tail
    ensures match EncodePart(t, v, headTotal, |old(tail.data)|, opt, depth)
      case Ok((h, l)) => st.None? && head.data == old(head.data) + h && tail.data == old(tail.data) + l
      case Err(error) => st == Some(error)
    decreases opt.maxDepth - depth, 2
  {
    hide EncodeStatic, EncodeDynamic, SizeWord;
    if IsDynamic(t) {
      var off := headTotal + |tail.data|;
      head.Append(SizeWord(off));
      st := WriteDynamic(t, v, tail, opt, depth + 1);
    } else {
      st := WriteStatic(t, v, head, opt, depth + 1);
      assert tail.data + [] == tail.data;
    }
  }

  method WriteStatic(t: AbiType, v: AbiValue, out: ByteVector, opt: Options, depth: nat)
    returns (st: Option<EncodeStatus>)
    modifies out
    ensures Wrote(old(out.data), out.data, st, EncodeStatic(t, v, opt, depth), LeftByStatic(t, v, opt, depth))
    decreases opt.maxDepth - depth, 0
  {
    hide LeftByStatics, EncodeStatics;
    if depth > opt.maxDepth {
      return Some(EncodeDepthLimit);
    }
    match (t, v) {
      case (UintType(bits), UintValue(w)) =>
        if !ValidUintBits(w, bits) {
          return Some(EncodeNotCanonical);
        }
        out.Append(w);
      case (IntType(bits), IntValue(w)) =>
        if !ValidIntBits(w, bits) {
          return Some(EncodeNotCanonical);
        }
        out.Append(w);
      case (BoolType, BoolValue(b)) =>
        out.Append(Zeros(31) + [if b then 1 else 0]);
      case (AddressType, AddressValue(a)) =>
        out.Append(Zeros(12) + a);
      case (BytesNType(n), BytesNValue(b)) =>
        if |b| != n {
          return Some(EncodeTypeMismatch);
        }
        out.Append(b + Zeros(32 - n));
      case (ArrayType(elem, Some(n)), ArrayValue(vs)) =>
        if |vs| != n || IsDynamic(elem) {
          return Some(EncodeTypeMismatch);
        }
        st := WriteStatics(Repeat(n, elem), vs, out, opt, depth + 1);
        return;
      case (TupleType(ts), TupleValue(vs)) =>
        if DynamicAny(ts) || |vs| != |ts| {
          return Some(EncodeTypeMismatch);
        }
        st := WriteStatics(ts, vs, out, opt, depth + 1);
        return;
      case _ =>
        return Some(EncodeTypeMismatch);
    }
    return None;
  }

  method WriteStatics(ts: seq<AbiType>, vs: seq<AbiValue>, out: ByteVector, opt: Options, depth: nat)
    returns (st: Option<EncodeStatus>)
    requires |ts| == |vs|
    modifies out
    ensures Wrote(old(out.data), out.data, st, EncodeStatics(ts, vs, opt, depth), LeftByStatics(ts, vs, opt, depth))
    decreases opt.maxDepth - depth, 1
  {
    ghost var spec, done, left := EncodeStatics(ts, vs, opt, depth), [], LeftByStatics(ts, vs, opt, depth);
    assert ts[0..] == ts && vs[0..] == vs;
    assert spec.Ok? ==> done + spec.value == spec.value;
    for i := 0 to |ts|
      invariant out.data == old(out.data) + done
      invariant var rest := EncodeStatics(ts[i..], vs[i..], opt, depth);
                spec == if rest.Ok? then Ok(done + rest.value) else rest
      invariant spec.Err? ==> left == done + LeftByStatics(ts[i..], vs[i..], opt, depth)
    {
      assert ts[i..][1..] == ts[i + 1..] && vs[i..][1..] == vs[i + 1..];
      st := WriteStatic(ts[i], vs[i], out, opt, depth);
      if st.Some? {
        return;
      }
      ghost var b, rest := EncodeStatic(ts[i], vs[i], opt, depth).value,
        EncodeStatics(ts[i + 1..], vs[i + 1..], opt, depth);
      assert rest.Ok? ==> done + (b + rest.value) == done + b + rest.value;
      done := done + b;
    }
    return None;
  }

  method WriteBlob(b: seq<byte>, out: ByteVector)
    modifies out
    ensures out.data == old(out.data) + EncodeBlob(b)
  {
    out.Append(SizeWord(|b|));
    out.Append(b);
    out.Append(Zeros(Ceil32(|b|) - |b|));
  }

  method WriteDynamic(t: AbiType, v: AbiValue, out: ByteVector, opt: Options, depth: nat)
    returns (st: Option<EncodeStatus>)
    modifies out
    ensures Wrote(old(out.data), out.data, st, EncodeDynamic(t, v, |old(out.data)|, opt, depth),
                  LeftByDynamic(t, v, opt, depth))
    decreases opt.maxDepth - depth, 0
  {
    hide LeftByTuple, EncodeTupleLike, EncodeBlob, SizeWord;
    if depth > opt.maxDepth {
      return Some(EncodeDepthLimit);
    }
    match (t, v) {
      case (BytesType, BytesValue(b)) =>
        WriteBlob(b, out);
        return None;
      case (StringType, StringValue(s)) =>
        WriteBlob(s, out);
        return None;
      case (ArrayType(elem, fixedLen), ArrayValue(vs)) =>
        if |vs| > opt.maxArrayElems {
          return Some(EncodeSizeLimit);
        }
        if fixedLen.None? {
          out.Append(SizeWord(|vs|));
        } else if |vs| != fixedLen.value {
          return Some(EncodeTypeMismatch);
        }
        st := WriteTuple(Repeat(|vs|, elem), vs, out, opt, depth + 1);
      case (TupleType(ts), TupleValue(vs)) =>
        if |vs| != |ts| {
          return Some(EncodeTypeMismatch);
        }
        st := WriteTuple(ts, vs, out, opt, depth + 1);
      case _ =>
        return Some(EncodeTypeMismatch);
    }
  }

  // -------- decoding --------

  /** A loop that has produced `done` still has `rest` to produce. */
  ghost predicate Pending<T>(spec: Decoded<seq<T>>, done: seq<T>, rest: Decoded<seq<T>>) {
    spec == if rest.Ok? then Ok(done + rest.value) else rest
  }

  lemma PendingStart<T>(spec: Decoded<seq<T>>)
    ensures Pending(spec, [], spec)
  {
    assert spec.Ok? ==> [] + spec.value == spec.value;
  }

  lemma PendingStep<T>(spec: Decoded<seq<T>>, done: seq<T>, x: T, rest: Decoded<seq<T>>)
    requires Pending(spec, done, if rest.Ok? then Ok([x] + rest.value) else rest)
    ensures Pending(spec, done + [x], rest)
  {
    assert rest.Ok? ==> done + ([x] + rest.value) == done + [x] + rest.value;
  }

  method ReadStatics(ts: seq<AbiType>, bytes: Span, opt: Options, depth: nat) returns (r: Decoded<seq<AbiValue>>)
    requires !DynamicAny(ts)
    ensures r == DecodeStatics(ts, bytes, 0, opt, depth)
    decreases opt.maxDepth - depth, 1
  {
    hide DecodeStatic, StaticSize, IsDynamic;
    var vs: seq<AbiValue>, off: nat := [], 0;
    assert ts[0..] == ts && bytes[0..] == bytes;
    ghost var spec := DecodeStatics(ts, bytes, 0, opt, depth);
    PendingStart(spec);
    for i := 0 to |ts|
      invariant off <= |bytes| && !DynamicAny(ts[i..])
      invariant Pending(spec, vs, DecodeStatics(ts[i..], bytes[off..], off, opt, depth))
    {
      assert ts[i..][1..] == ts[i + 1..];
      var size := StaticSize(ts[i]);
      if |bytes| < Wrap64(off + size) {
        return Err(TooShort);
      }
      var v := ReadStatic(ts[i], bytes[off..], opt, depth);
      if v.Err? {
        return Err(v.error);
      }
      assert bytes[off..][size..] == bytes[off + size..];
      PendingStep(spec, vs, v.value, DecodeStatics(ts[i + 1..], bytes[off + size..], off + size, opt, depth));
      vs := vs + [v.value];
      off := off + size;
    }
    assert vs + [] == vs;
    return Ok(vs);
  }

  method ReadStatic(t: AbiType, bytes: Span, opt: Options, depth: nat) returns (r: Decoded<AbiValue>)
    ensures r == DecodeStatic(t, bytes, opt, depth)
    decreases opt.maxDepth - depth, 0
  {
    if depth > opt.maxDepth {
      return Err(DepthLimit);
    }
    if |bytes| < 32 {
      return Err(TooShort);
    }
    match t {
      case ArrayType(elem, Some(n)) =>
        if IsDynamic(elem) {
          return Err(TypeMismatch);
        }
        if n * StaticSize(elem) > U64_MAX {
          return Err(SizeLimit);
        }
        if |bytes| < n * StaticSize(elem) {
          return Err(TooShort);
        }
        var vs := ReadStatics(Repeat(n, elem), bytes, opt, depth + 1);
        return if vs.Ok? then Ok(ArrayValue(vs.value)) else Err(vs.error);
      case TupleType(ts) =>
        if DynamicAny(ts) {
          return Err(TypeMismatch);
        }
        var vs := ReadStatics(ts, bytes, opt, depth + 1);
        return if vs.Ok? then Ok(TupleValue(vs.value)) else Err(vs.error);
      case _ =>
        return DecodeStatic(t, bytes, opt, depth);
    }
  }

  method ReadDynamic(t: AbiType, bytes: Span, opt: Options, depth: nat) returns (r: Decoded<(AbiValue, nat)>)
    ensures r == DecodeDynamic(t, bytes, opt, depth)
    decreases opt.maxDepth - depth, 0
  {
    if depth > opt.maxDepth {
      return Err(DepthLimit);
    }
    if |bytes| > opt.maxTotalBytes {
      return Err(SizeLimit);
    }
    if |bytes| < 32 {
      return Err(TooShort);
    }
    match t {
      case StringType =>
        var s :- DecodeBlob(bytes, opt);
        var ok := CheckUtf8(s.0);
        return if ok then Ok((StringValue(s.0), s.1)) else Err(InvalidUtf8);
      case ArrayType(elem, fixedLen) =>
        var n, off := 0, 0;
        if fixedLen.None? {
          var word := ParseSizeWord(bytes[..32]);
          if word.None? {
            return Err(InvalidLength);
          }
          n, off := word.value, 32;
        } else {
          n := fixedLen.value;
        }
        if n > opt.maxArrayElems {
          return Err(SizeLimit);
        }
        assert bytes[0..] == bytes;
        var sub :- ReadTuple(Repeat(n, elem), bytes[off..], opt, depth + 1);
        return Ok((ArrayValue(sub.0), off + sub.1));
      case TupleType(ts) =>
        var sub :- ReadTuple(ts, bytes, opt, depth + 1);
        return Ok((TupleValue(sub.0), sub.1));
      case _ =>
        return DecodeDynamic(t, bytes, opt, depth);
    }
  }

  method ReadTuple(ts: seq<AbiType>, bytes: Span, opt: Options, depth: nat) returns (r: Decoded<(seq<AbiValue>, nat)>)
    ensures r == DecodeTupleLike(ts, bytes, opt, depth)
    decreases opt.maxDepth - depth, 3
  {
    if depth > opt.maxDepth {
      return Err(DepthLimit);
    }
    if |bytes| > opt.maxTotalBytes {
      return Err(SizeLimit);
    }
    var headTotal := HeadSizes(ts);
    if headTotal.None? {
      return Err(SizeLimit);
    }
    if |bytes| < headTotal.value {
      return Err(TooShort);
    }
    var slots :- ReadHeads(ts, bytes, opt, depth);
    var tails :- ReadTails(ts, slots, bytes, headTotal.value, opt, depth);
    var (vs, ranges) := tails;
    if opt.canonicalOffsets && ranges != [] {
      var end := CheckPacked(SortByStart(ranges), headTotal.value, |bytes|);
      return if end.None? then Err(NotCanonical) else Ok((vs, end.value));
    }
    var end := FurthestEnd(ranges, headTotal.value, |bytes|);
    return Ok((vs, end));
  }

  method ReadHeads(ts: seq<AbiType>, bytes: Span, opt: Options, depth: nat) returns (r: Decoded<seq<Slot>>)
    requires HeadTotal(ts) <= |bytes| && depth <= opt.maxDepth
    ensures r == DecodeHeads(ts, bytes, opt, depth)
    decreases opt.maxDepth - depth, 1
  {
    hide DecodeStatic, HeadSize, IsDynamic;
    var slots: seq<Slot>, cursor: nat := [], 0;
    assert ts[0..] == ts && bytes[0..] == bytes;
    ghost var spec := DecodeHeads(ts, bytes, opt, depth);
    PendingStart(spec);
    for i := 0 to |ts|
      invariant cursor + HeadTotal(ts[i..]) <= |bytes|
      invariant Pending(spec, slots, DecodeHeads(ts[i..], bytes[cursor..], opt, depth))
    {
      assert ts[i..][1..] == ts[i + 1..];
      var slot := ReadHead(ts[i], bytes[cursor..], opt, depth);
      if slot.Err? {
        return Err(slot.error);
      }
      var next := cursor + HeadSize(ts[i]);
      assert bytes[cursor..][HeadSize(ts[i])..] == bytes[next..];
      PendingStep(spec, slots, slot.value, DecodeHeads(ts[i + 1..], bytes[next..], opt, depth));
      slots, cursor := slots + [slot.value], next;
    }
    assert slots + [] == slots;
    return Ok(slots);
  }

  method ReadHead(t: AbiType, bytes: Span, opt: Options, depth: nat) returns (r: Decoded<Slot>)
    requires HeadSize(t) <= |bytes| && depth <= opt.maxDepth
    ensures r == DecodeHead(t, bytes, opt, depth)
    decreases opt.maxDepth - depth, 0
  {
    if IsDynamic(t) {
      var off := ParseSizeWord(bytes[..32]);
      return if off.None? then Err(InvalidOffset) else Ok(Offset(off.value));
    }
    var v := ReadStatic(t, bytes, opt, depth + 1);
    return if v.Err? then Err(v.error) else Ok(Inline(v.value));
  }

  method ReadTails(ts: seq<AbiType>, slots: seq<Slot>, bytes: Span, headTotal: nat, opt: Options, depth: nat)
    returns (r: Decoded<(seq<AbiValue>, seq<Range>)>)
    requires |slots| == |ts| && depth <= opt.maxDepth && headTotal <= |bytes|
    ensures r == DecodeTails(ts, slots, bytes, headTotal, opt, depth)
    decreases opt.maxDepth - depth, 1
  {
    hide DecodeDynamic;
    var vs: seq<AbiValue>, ranges: seq<Range> := [], [];
    assert ts[0..] == ts && slots[0..] == slots;
    ghost var spec := DecodeTails(ts, slots, bytes, headTotal, opt, depth);
    TailsPendingStart(spec);
    for i := 0 to |ts|
      invariant TailsPending(spec, vs, ranges, DecodeTails(ts[i..], slots[i..], bytes, headTotal, opt, depth))
    {
      assert ts[i..][1..] == ts[i + 1..] && slots[i..][1..] == slots[i + 1..];
      ghost var rest := DecodeTails(ts[i + 1..], slots[i + 1..], bytes, headTotal, opt, depth);
      match slots[i] {
        case Inline(v) =>
          assert rest.Ok? ==> [] + rest.value.1 == rest.value.1;
          TailsPendingStep(spec, vs, ranges, v, [], rest);
          assert ranges + [] == ranges;
          vs := vs + [v];
        case Offset(off) =>
          if off % 32 != 0 || off < headTotal || off >= |bytes| {
            return Err(InvalidOffset);
          }
          var dv := ReadDynamic(ts[i], bytes[off..], opt, depth + 1);
          if dv.Err? {
            return Err(dv.error);
          }
          var range := Range(off, off + dv.value.1);
          TailsPendingStep(spec, vs, ranges, dv.value.0, [range], rest);
          vs, ranges := vs + [dv.value.0], ranges + [range];
      }
    }
    assert vs + [] == vs && ranges + [] == ranges;
    return Ok((vs, ranges));
  }

  ghost predicate TailsPending(spec: Decoded<(seq<AbiValue>, seq<Range>)>, vs: seq<AbiValue>, ranges: seq<Range>,
                               rest: Decoded<(seq<AbiValue>, seq<Range>)>) {
    spec == if rest.Ok? then Ok((vs + rest.value.0, ranges + rest.value.1)) else rest
  }

  lemma TailsPendingStart(spec: Decoded<(seq<AbiValue>, seq<Range>)>)
    ensures TailsPending(spec, [], [], spec)
  {
    if spec.Ok? {
      assert [] + spec.value.0 == spec.value.0 && [] + spec.value.1 == spec.value.1;
    }
  }

  lemma TailsPendingStep(spec: Decoded<(seq<AbiValue>, seq<Range>)>, vs: seq<AbiValue>, ranges: seq<Range>,
                         v: AbiValue, range: seq<Range>, rest: Decoded<(seq<AbiValue>, seq<Range>)>)
    requires TailsPending(spec, vs, ranges, if rest.Ok? then Ok(([v] + rest.value.0, range + rest.value.1)) else rest)
    ensures TailsPending(spec, vs + [v], ranges + range, rest)
  {
    if rest.Ok? {
      assert vs + ([v] + rest.value.0) == vs + [v] + rest.value.0;
      assert ranges + (range + rest.value.1) == ranges + range + rest.value.1;
    }
  }

  method CheckPacked(rs: seq<Range>, headTotal: nat, ghost limit: nat) returns (end: Option<nat>)
    requires headTotal <= limit && forall range <- rs :: range.end <= limit
    ensures end == PackedEnd(rs, headTotal, limit)
  {
    var prevEnd: nat := headTotal;
    assert rs[0..] == rs;
    for i := 0 to |rs|
      invariant prevEnd <= limit
      invariant PackedEnd(rs[i..], prevEnd, limit) == PackedEnd(rs, headTotal, limit)
    {
      assert rs[i..][1..] == rs[i + 1..];
      if rs[i].start < prevEnd {
        return None;
      }
      prevEnd := rs[i].end;
    }
    return Some(prevEnd);
  }

  method FurthestEnd(rs: seq<Range>, headTotal: nat, ghost limit: nat) returns (end: nat)
    requires headTotal <= limit && forall range <- rs :: range.end <= limit
    ensures end == MaxEnd(rs, headTotal, limit)
  {
    end := headTotal;
    assert rs[0..] == rs;
    for i := 0 to |rs|
      invariant end <= limit
      invariant MaxEnd(rs[i..], end, limit) == MaxEnd(rs, headTotal, limit)
    {
      assert rs[i..][1..] == rs[i + 1..];
      end := if rs[i].end > end then rs[i].end else end;
    }
  }
}
