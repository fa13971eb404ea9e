/**
 The encoding as the Contract ABI Specification (Solidity documentation, "Formal Specification of the Encoding")
 defines it: one recursion over values, with no limits, no depth and no separate path for static types.
 */
module AbiSpec {
  import opened Common
  import opened AbiTypes
  import opened AbiWords
  import opened AbiCodec
  import opened AbiRoundTrip

  function Enc(t: AbiType, v: AbiValue): seq<byte>
    decreases v, 0
  {
    match (t, v)
    case (ArrayType(elem, fixedLen), ArrayValue(vs)) =>
      (if fixedLen.None? then SizeWord(|vs|) else []) + EncTuple(Repeat(|vs|, elem), vs)
    case (TupleType(ts), TupleValue(vs)) => EncTuple(ts, vs)
    case (_, UintValue(w)) => w
    case (_, IntValue(w)) => w
    case (_, BoolValue(b)) => Zeros(31) + [if b then 1 else 0]
    case (_, AddressValue(a)) => Zeros(12) + a
    case (_, BytesNValue(b)) => b + Zeros(Ceil32(|b|) - |b|) + Zeros(if b == [] then 32 else 0)
    case (_, BytesValue(b)) => SizeWord(|b|) + b + Zeros(Ceil32(|b|) - |b|)
    case (_, StringValue(s)) => SizeWord(|s|) + s + Zeros(Ceil32(|s|) - |s|)
    case _ => []
  }

  /** Heads of all components, then tails of all components. */
  function EncTuple(ts: seq<AbiType>, vs: seq<AbiValue>): seq<byte>
    decreases vs, 3
  {
    Heads(ts, vs, HeadLen(ts, vs)) + Tails(ts, vs)
  }

  /** A static component is its own head; the head of a dynamic one is the distance to its tail. */
  function Heads(ts: seq<AbiType>, vs: seq<AbiValue>, tailStart: nat): seq<byte>
    decreases vs, 1
  {
    if ts == [] || vs == [] then []
    else
      var e := Enc(ts[0], vs[0]);
      if IsDynamic(ts[0]) then SizeWord(tailStart) + Heads(ts[1..], vs[1..], tailStart + |e|)
      else e + Heads(ts[1..], vs[1..], tailStart)
  }

  function Tails(ts: seq<AbiType>, vs: seq<AbiValue>): seq<byte>
    decreases vs, 1
  {
    if ts == [] || vs == [] then []
    else (if IsDynamic(ts[0]) then Enc(ts[0], vs[0]) else []) + Tails(ts[1..], vs[1..])
  }

  function HeadLen(ts: seq<AbiType>, vs: seq<AbiValue>): nat
    decreases vs, 1
  {
    if ts == [] || vs == [] then 0
    else (if IsDynamic(ts[0]) then 32 else |Enc(ts[0], vs[0])|) + HeadLen(ts[1..], vs[1..])
  }

  lemma {:induction false} StaticMeetsSpec(t: AbiType, v: AbiValue, opt: Options, depth: nat)
    requires EncodeStatic(t, v, opt, depth).Ok?
    ensures EncodeStatic(t, v, opt, depth).value == Enc(t, v)
    decreases opt.maxDepth - depth, 0
  {
    match (t, v)
    case (ArrayType(elem, Some(n)), ArrayValue(vs)) =>
      StaticsMeetSpec(Repeat(n, elem), vs, HeadLen(Repeat(n, elem), vs), opt, depth + 1);
    case (TupleType(ts), TupleValue(vs)) =>
      StaticsMeetSpec(ts, vs, HeadLen(ts, vs), opt, depth + 1);
    case (BytesNType(n), BytesNValue(b)) =>
      assert Zeros(Ceil32(n) - n) + Zeros(if n == 0 then 32 else 0) == Zeros(32 - n);
    case _ =>
  }

  lemma {:induction false} StaticsMeetSpec(ts: seq<AbiType>, vs: seq<AbiValue>, at: nat, opt: Options, depth: nat)
    requires |ts| == |vs| && EncodeStatics(ts, vs, opt, depth).Ok? && !DynamicAny(ts)
    ensures Tails(ts, vs) == [] && EncodeStatics(ts, vs, opt, depth).value == Heads(ts, vs, at)
    decreases opt.maxDepth - depth, 1, |ts|
  {
    if ts != [] {
      StaticMeetsSpec(ts[0], vs[0], opt, depth);
      assert forall i | 0 <= i < |ts[1..]| :: ts[1..][i] == ts[i + 1];
      StaticsMeetSpec(ts[1..], vs[1..], at, opt, depth);
    }
  }

  lemma {:induction false} DynamicMeetsSpec(t: AbiType, v: AbiValue, base: nat, opt: Options, depth: nat)
    requires EncodeDynamic(t, v, base, opt, depth).Ok?
    ensures EncodeDynamic(t, v, base, opt, depth).value == Enc(t, v)
    decreases opt.maxDepth - depth, 0
  {
    match (t, v)
    case (ArrayType(elem, fixedLen), ArrayValue(vs)) =>
      TupleMeetsSpec(Repeat(|vs|, elem), vs, if fixedLen.None? then base + 32 else base, opt, depth + 1);
    case (TupleType(ts), TupleValue(vs)) =>
      TupleMeetsSpec(ts, vs, base, opt, depth + 1);
    case _ =>
  }

  lemma {:induction false} PartMeetsSpec(t: AbiType, v: AbiValue, headTotal: nat, tailOff: nat, opt: Options,
                                        depth: nat)
    requires depth <= opt.maxDepth && EncodePart(t, v, headTotal, tailOff, opt, depth).Ok?
    requires |EncodePart(t, v, headTotal, tailOff, opt, depth).value.0| <= opt.maxTotalBytes
    ensures var (h, l) := EncodePart(t, v, headTotal, tailOff, opt, depth).value;
            if IsDynamic(t) then h == SizeWord(headTotal + tailOff) && l == Enc(t, v)
            else h == Enc(t, v) && l == [] && HeadSize(t) == |Enc(t, v)|
    decreases opt.maxDepth - depth, 1
  {
    hide SizeWord, StaticSize, EncodeStatic, EncodeDynamic, Enc, IsDynamic;
    if IsDynamic(t) {
      DynamicMeetsSpec(t, v, tailOff, opt, depth + 1);
    } else {
      StaticMeetsSpec(t, v, opt, depth + 1);
      StaticEncodingSize(t, v, opt, depth + 1);
    }
  }

  lemma {:induction false} PartsMeetSpec(ts: seq<AbiType>, vs: seq<AbiValue>, headTotal: nat, head: seq<byte>,
                                        tail: seq<byte>, opt: Options, depth: nat)
    requires |ts| == |vs| && depth <= opt.maxDepth
    requires EncodeParts(ts, vs, headTotal, head, tail, opt, depth).Ok?
    ensures var (h, l) := EncodeParts(ts, vs, headTotal, head, tail, opt, depth).value;
            h == head + Heads(ts, vs, headTotal + |tail|) && l == tail + Tails(ts, vs)
    ensures HeadLen(ts, vs) == HeadTotal(ts)
    decreases opt.maxDepth - depth, 2, |ts|
  {
    hide SizeWord, StaticSize, HeadSize, EncodePart, Enc, IsDynamic;
    if ts != [] {
      var (h, l) := EncodePart(ts[0], vs[0], headTotal, |tail|, opt, depth).value;
      PartMeetsSpec(ts[0], vs[0], headTotal, |tail|, opt, depth);
      PartsMeetSpec(ts[1..], vs[1..], headTotal, head + h, tail + l, opt, depth);
      HeadsStep(ts, vs, headTotal + |tail|);
    }
  }

  lemma HeadsStep(ts: seq<AbiType>, vs: seq<AbiValue>, tailStart: nat)
    requires ts != [] && vs != []
    ensures var e := Enc(ts[0], vs[0]);
            && HeadLen(ts, vs) == (if IsDynamic(ts[0]) then 32 else |e|) + HeadLen(ts[1..], vs[1..])
            && HeadTotal(ts) == (if IsDynamic(ts[0]) then 32 else HeadSize(ts[0])) + HeadTotal(ts[1..])
  {
  }

  /** The code's two-path encoder refines the specification's single recursion. */
  lemma {:induction false} TupleMeetsSpec(ts: seq<AbiType>, vs: seq<AbiValue>, base: nat, opt: Options, depth: nat)
    requires EncodeTupleLike(ts, vs, base, opt, depth).Ok?
    ensures EncodeTupleLike(ts, vs, base, opt, depth).value == EncTuple(ts, vs)
    decreases opt.maxDepth - depth, 3
  {
    hide HeadTotal, EncodeParts, Heads, Tails, HeadLen;
    PartsMeetSpec(ts, vs, HeadTotal(ts), [], [], opt, depth);
  }
}
