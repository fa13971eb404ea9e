/** What the decoder accepts: static values that re-encode to the same bytes, and tails laid out apart in the input. */
module AbiLayout {
  import opened Common
  import opened AbiTypes
  import opened AbiWords
  import opened AbiCodec
  import opened AbiRoundTrip

  // -------- words --------

  lemma {:induction false} BigEndianOfBytes(s: seq<byte>)
    ensures BigEndian(FromBigEndian(s), |s|) == s
  {
    if s != [] {
      BigEndianOfBytes(s[..|s| - 1]);
      assert s == s[..|s| - 1] + [s[|s| - 1]];
    }
  }

  /** A size that is read is the size whose word is there. */
  lemma SizeWordIsRead(w: Word)
    requires ParseSizeWord(w).Some?
    ensures w == SizeWord(ParseSizeWord(w).value)
  {
    BigEndianOfBytes(w[24..]);
    assert w[..24] == Zeros(24);
    assert w == w[..24] + w[24..];
  }

  lemma BoolWordIsRead(w: Word)
    requires ParseSizeWord(w).Some? && ParseSizeWord(w).value <= 1
    ensures w == Zeros(31) + [if ParseSizeWord(w).value == 1 then 1 else 0]
  {
    SizeWordIsRead(w);
    SmallWord(ParseSizeWord(w).value);
  }

  lemma SmallWord(n: nat)
    requires n <= 1
    ensures SizeWord(n) == Zeros(31) + [n]
  {
    ZeroBytes(7);
    assert BigEndian(n, 8) == BigEndian(0, 7) + [n];
    assert BigEndian(n, 8) == Zeros(7) + [n];
    assert Zeros(24) + (Zeros(7) + [n]) == Zeros(31) + [n];
  }

  lemma {:induction false} ZeroBytes(k: nat)
    ensures BigEndian(0, k) == Zeros(k)
  {
    if k > 0 {
      ZeroBytes(k - 1);
      assert Zeros(k) == Zeros(k - 1) + [0];
    }
  }

  // -------- static values --------

  /** Encoding what was decoded gives back the bytes: no two inputs decode to one static value. */
  lemma {:induction false} StaticReencodes(t: AbiType, bytes: Span, opt: Options, depth: nat)
    requires !IsDynamic(t) && DecodeStatic(t, bytes, opt, depth).Ok?
    ensures StaticSize(t) <= |bytes|
    ensures EncodeStatic(t, DecodeStatic(t, bytes, opt, depth).value, opt, depth) == Ok(bytes[..StaticSize(t)])
    decreases opt.maxDepth - depth, 0
  {
    var w: Word := bytes[..32];
    match t
    case BoolType => BoolWordIsRead(w);
    case AddressType =>
      assert w == w[..12] + w[12..];
      assert w[..12] == Zeros(12);
    case BytesNType(n) =>
      assert w == w[..n] + w[n..];
      assert w[n..] == Zeros(32 - n);
    case ArrayType(elem, Some(n)) =>
      StaticsReencode(Repeat(n, elem), bytes, 0, opt, depth + 1);
      SizeSumOfRepeat(n, elem);
    case TupleType(ts) =>
      StaticsReencode(ts, bytes, 0, opt, depth + 1);
    case _ =>
  }

  lemma {:induction false} StaticsReencode(ts: seq<AbiType>, bytes: Span, off: nat, opt: Options, depth: nat)
    requires !DynamicAny(ts) && off + |bytes| <= U64_MAX && DecodeStatics(ts, bytes, off, opt, depth).Ok?
    ensures SizeSum(ts) <= |bytes|
    ensures EncodeStatics(ts, DecodeStatics(ts, bytes, off, opt, depth).value, opt, depth) == Ok(bytes[..SizeSum(ts)])
    decreases opt.maxDepth - depth, 1, |ts|
  {
    hide DecodeStatic, EncodeStatic;
    if ts != [] {
      var size := StaticSize(ts[0]);
      assert forall i | 0 <= i < |ts[1..]| :: ts[1..][i] == ts[i + 1];
      StaticReencodes(ts[0], bytes, opt, depth);
      StaticsReencode(ts[1..], bytes[size..], off + size, opt, depth);
      assert bytes[..size] + bytes[size..][..SizeSum(ts[1..])] == bytes[..SizeSum(ts)];
    }
  }

  // -------- ranges --------

  /** Two ranges, the first listed before the second: the one that starts first, or is listed first, ends in time. */
  predicate Disjoint(a: Range, b: Range) {
    if a.start <= b.start then a.end <= b.start else b.end <= a.start
  }

  predicate AllDisjoint(r: Range, rs: seq<Range>) {
    forall x <- rs :: Disjoint(r, x)
  }

  predicate Apart(rs: seq<Range>) {
    rs == [] || (AllDisjoint(rs[0], rs[1..]) && Apart(rs[1..]))
  }

  lemma InsertedMembers(r: Range, rs: seq<Range>)
    ensures forall x :: x in InsertByStart(r, rs) <==> x == r || x in rs
  {
    var out := InsertByStart(r, rs);
    assert forall x :: x in out <==> x in multiset(out);
    assert forall x :: x in rs <==> x in multiset(rs);
  }

  lemma InsertedDisjoint(x: Range, r: Range, rs: seq<Range>)
    ensures AllDisjoint(x, InsertByStart(r, rs)) <==> Disjoint(x, r) && AllDisjoint(x, rs)
  {
    InsertedMembers(r, rs);
  }

  lemma {:induction false} InsertedApart(r: Range, rs: seq<Range>)
    ensures Apart(InsertByStart(r, rs)) <==> AllDisjoint(r, rs) && Apart(rs)
  {
    if rs == [] || r.start <= rs[0].start {
      assert InsertByStart(r, rs) == [r] + rs && ([r] + rs)[1..] == rs;
    } else {
      hide Disjoint;
      InsertedApart(r, rs[1..]);
      InsertedDisjoint(rs[0], r, rs[1..]);
      var rest := InsertByStart(r, rs[1..]);
      assert InsertByStart(r, rs) == [rs[0]] + rest && ([rs[0]] + rest)[1..] == rest;
      EitherWay(r, rs[0]);
      assert rs == [rs[0]] + rs[1..];
    }
  }

  lemma EitherWay(a: Range, b: Range)
    requires a.start != b.start
    ensures Disjoint(a, b) == Disjoint(b, a)
  {
  }

  lemma {:induction false} SortedApart(rs: seq<Range>)
    ensures Apart(SortByStart(rs)) <==> Apart(rs)
  {
    if rs != [] {
      SortedApart(rs[1..]);
      InsertedApart(rs[0], SortByStart(rs[1..]));
      assert forall x :: x in SortByStart(rs[1..]) <==> x in multiset(SortByStart(rs[1..]));
      assert forall x :: x in rs[1..] <==> x in multiset(rs[1..]);
    }
  }

  /** `end` is where the last range ends, or `start` when there is none. */
  predicate EndsAt(rs: seq<Range>, start: nat, end: nat) {
    && start <= end && (forall r <- rs :: r.end <= end)
    && (end == start || exists r <- rs :: r.end == end)
  }

  lemma {:induction false} PackedIsApart(rs: seq<Range>, prevEnd: nat, limit: nat)
    requires prevEnd <= limit && forall r <- rs :: r.start <= r.end <= limit
    requires PackedEnd(rs, prevEnd, limit).Some?
    ensures Apart(rs) && EndsAt(rs, prevEnd, PackedEnd(rs, prevEnd, limit).value)
    ensures forall r <- rs :: prevEnd <= r.start
  {
    if rs != [] {
      PackedIsApart(rs[1..], rs[0].end, limit);
      assert rs == [rs[0]] + rs[1..];
    }
  }

  lemma {:induction false} MaxEndIsEnd(rs: seq<Range>, end: nat, limit: nat)
    requires end <= limit && forall r <- rs :: r.end <= limit
    ensures EndsAt(rs, end, MaxEnd(rs, end, limit))
  {
    if rs != [] {
      MaxEndIsEnd(rs[1..], if rs[0].end > end then rs[0].end else end, limit);
      assert rs == [rs[0]] + rs[1..];
    }
  }

  // -------- layouts --------

  /** `bytes` begins with a value of a dynamic type that takes `used` bytes. */
  ghost predicate Lays(t: AbiType, v: AbiValue, bytes: seq<byte>, used: nat, opt: Options, depth: nat)
    decreases v, 0
  {
    depth <= opt.maxDepth && used <= |bytes| && 32 <= |bytes| <= opt.maxTotalBytes &&
    match (t, v)
    case (BytesType, BytesValue(b)) => bytes[..used] == EncodeBlob(b)
    case (StringType, StringValue(s)) => bytes[..used] == EncodeBlob(s) && ValidUtf8(s)
    case (ArrayType(elem, None), ArrayValue(vs)) =>
      used >= 32 && |vs| <= opt.maxArrayElems && bytes[..32] == SizeWord(|vs|) &&
      LaysTuple(Repeat(|vs|, elem), vs, bytes[32..], used - 32, opt, depth + 1)
    case (ArrayType(elem, Some(n)), ArrayValue(vs)) =>
      |vs| == n <= opt.maxArrayElems && LaysTuple(Repeat(n, elem), vs, bytes, used, opt, depth + 1)
    case (TupleType(ts), TupleValue(vs)) => LaysTuple(ts, vs, bytes, used, opt, depth + 1)
    case _ => false
  }

  /**
   Heads in turn, static components in place and dynamic ones by the distance to their tail; tails anywhere after the
   heads, at multiples of 32, apart from each other where canonical offsets are asked for; `used` is the farthest end.
   */
  ghost predicate LaysTuple(ts: seq<AbiType>, vs: seq<AbiValue>, bytes: seq<byte>, used: nat, opt: Options, depth: nat)
    decreases vs, 3
  {
    depth <= opt.maxDepth && |bytes| <= opt.maxTotalBytes &&
    exists ranges ::
      && HeadsHold(ts, vs, ranges, bytes, opt, depth)
      && TailsHold(ts, vs, ranges, bytes, HeadTotal(ts), opt, depth)
      && (opt.canonicalOffsets ==> Apart(ranges))
      && EndsAt(ranges, HeadTotal(ts), used)
  }

  ghost predicate HeadsHold(ts: seq<AbiType>, vs: seq<AbiValue>, ranges: seq<Range>, bytes: seq<byte>, opt: Options,
                            depth: nat)
    decreases vs, 1
  {
    if ts == [] || vs == [] then ts == [] && vs == [] && ranges == []
    else
      HeadSize(ts[0]) <= |bytes| &&
      if IsDynamic(ts[0]) then
        ranges != [] && bytes[..32] == SizeWord(ranges[0].start) &&
        HeadsHold(ts[1..], vs[1..], ranges[1..], bytes[32..], opt, depth)
      else
        FitsStatic(ts[0], |bytes| - StaticSize(ts[0])) &&
        EncodeStatic(ts[0], vs[0], opt, depth + 1) == Ok(bytes[..StaticSize(ts[0])]) &&
        HeadsHold(ts[1..], vs[1..], ranges, bytes[StaticSize(ts[0])..], opt, depth)
  }

  ghost predicate TailsHold(ts: seq<AbiType>, vs: seq<AbiValue>, ranges: seq<Range>, bytes: seq<byte>, headTotal: nat,
                            opt: Options, depth: nat)
    decreases vs, 1
  {
    if ts == [] || vs == [] then ts == [] && vs == [] && ranges == []
    else if !IsDynamic(ts[0]) then TailsHold(ts[1..], vs[1..], ranges, bytes, headTotal, opt, depth)
    else
      && ranges != []
      && var r := ranges[0];
         && r.start % 32 == 0 && headTotal <= r.start < |bytes| && r.start <= r.end
         && Lays(ts[0], vs[0], bytes[r.start..], r.end - r.start, opt, depth + 1)
         && TailsHold(ts[1..], vs[1..], ranges[1..], bytes, headTotal, opt, depth)
  }

  // -------- the decoder accepts layouts only --------

  lemma BlobIsRead(bytes: Span, opt: Options)
    requires |bytes| >= 32 && DecodeBlob(bytes, opt).Ok?
    ensures var (b, need) := DecodeBlob(bytes, opt).value; need <= |bytes| && bytes[..need] == EncodeBlob(b)
  {
    var (b, need) := DecodeBlob(bytes, opt).value;
    var n := |b|;
    SizeWordIsRead(bytes[..32]);
    assert bytes[32 + n..need] == Zeros(need - 32 - n);
    assert bytes[..need] == bytes[..32] + bytes[32..32 + n] + bytes[32 + n..need];
  }

  lemma {:induction false} DynamicIsLaid(t: AbiType, bytes: Span, opt: Options, depth: nat)
    requires DecodeDynamic(t, bytes, opt, depth).Ok?
    ensures var (v, used) := DecodeDynamic(t, bytes, opt, depth).value; Lays(t, v, bytes, used, opt, depth)
    decreases opt.maxDepth - depth, 0
  {
    match t
    case BytesType => BlobIsRead(bytes, opt);
    case StringType => BlobIsRead(bytes, opt);
    case ArrayType(elem, None) =>
      SizeWordIsRead(bytes[..32]);
      TupleIsLaid(Repeat(ParseSizeWord(bytes[..32]).value, elem), bytes[32..], opt, depth + 1);
    case ArrayType(elem, Some(n)) => TupleIsLaid(Repeat(n, elem), bytes, opt, depth + 1);
    case TupleType(ts) => TupleIsLaid(ts, bytes, opt, depth + 1);
    case _ =>
  }

  function Offsets(slots: seq<Slot>): seq<nat> {
    if slots == [] then [] else (if slots[0].Offset? then [slots[0].off] else []) + Offsets(slots[1..])
  }

  ghost predicate StartsAt(ranges: seq<Range>, offs: seq<nat>) {
    |ranges| == |offs| && forall i | 0 <= i < |offs| :: ranges[i].start == offs[i]
  }

  ghost predicate Fills(slots: seq<Slot>, vs: seq<AbiValue>) {
    |slots| == |vs| && forall i | 0 <= i < |slots| && slots[i].Inline? :: slots[i].value == vs[i]
  }

  lemma {:induction false} TailsAreLaid(ts: seq<AbiType>, slots: seq<Slot>, bytes: Span, headTotal: nat, opt: Options,
                                       depth: nat)
    requires |slots| == |ts| && depth <= opt.maxDepth && headTotal <= |bytes|
    requires forall i | 0 <= i < |ts| :: slots[i].Offset? <==> IsDynamic(ts[i])
    requires DecodeTails(ts, slots, bytes, headTotal, opt, depth).Ok?
    ensures var (vs, ranges) := DecodeTails(ts, slots, bytes, headTotal, opt, depth).value;
      && TailsHold(ts, vs, ranges, bytes, headTotal, opt, depth)
      && StartsAt(ranges, Offsets(slots)) && Fills(slots, vs)
    decreases opt.maxDepth - depth, 1, |ts|
  {
    hide DecodeDynamic, Lays;
    if ts != [] {
      TailsAreLaid(ts[1..], slots[1..], bytes, headTotal, opt, depth);
      if slots[0].Offset? {
        DynamicIsLaid(ts[0], bytes[slots[0].off..], opt, depth + 1);
      }
    }
  }

  lemma LaterSlots(slots: seq<Slot>, vs: seq<AbiValue>, ranges: seq<Range>)
    requires slots != [] && Fills(slots, vs) && StartsAt(ranges, Offsets(slots))
    ensures vs != [] && Fills(slots[1..], vs[1..])
    ensures match slots[0]
      case Inline(v) => v == vs[0] && StartsAt(ranges, Offsets(slots[1..]))
      case Offset(off) => ranges != [] && ranges[0].start == off && StartsAt(ranges[1..], Offsets(slots[1..]))
  {
  }

  lemma HeadIsLaid(t: AbiType, bytes: Span, opt: Options, depth: nat)
    requires HeadSize(t) <= |bytes| && depth <= opt.maxDepth && DecodeHead(t, bytes, opt, depth).Ok?
    ensures match DecodeHead(t, bytes, opt, depth).value
      case Offset(off) => IsDynamic(t) && HeadSize(t) == 32 && bytes[..32] == SizeWord(off)
      case Inline(v) =>
        && !IsDynamic(t) && HeadSize(t) == StaticSize(t)
        && EncodeStatic(t, v, opt, depth + 1) == Ok(bytes[..StaticSize(t)])
        && FitsStatic(t, |bytes| - StaticSize(t))
  {
    hide DecodeStatic, EncodeStatic, SizeWord, ParseSizeWord, StaticSize;
    if IsDynamic(t) {
      SizeWordIsRead(bytes[..32]);
    } else {
      StaticReencodes(t, bytes, opt, depth + 1);
      var v, rest := DecodeStatic(t, bytes, opt, depth + 1).value, bytes[StaticSize(t)..];
      StaticRoundTrip(t, v, rest, opt, depth + 1);
      assert bytes[..StaticSize(t)] + rest == bytes;
    }
  }

  lemma {:induction false} HeadsAreLaid(ts: seq<AbiType>, vs: seq<AbiValue>, ranges: seq<Range>, bytes: Span,
                                       opt: Options, depth: nat)
    requires HeadTotal(ts) <= |bytes| && depth <= opt.maxDepth && DecodeHeads(ts, bytes, opt, depth).Ok?
    requires var slots := DecodeHeads(ts, bytes, opt, depth).value;
      Fills(slots, vs) && StartsAt(ranges, Offsets(slots))
    ensures HeadsHold(ts, vs, ranges, bytes, opt, depth)
    decreases |ts|
  {
    hide DecodeHead, EncodeStatic, SizeWord, StaticSize, HeadSize, IsDynamic, Fills, StartsAt, Offsets;
    if ts != [] {
      var slots := DecodeHeads(ts, bytes, opt, depth).value;
      var rest := bytes[HeadSize(ts[0])..];
      HeadIsLaid(ts[0], bytes, opt, depth);
      assert slots == [slots[0]] + slots[1..] && slots[1..] == DecodeHeads(ts[1..], rest, opt, depth).value;
      LaterSlots(slots, vs, ranges);
      HeadsAreLaid(ts[1..], vs[1..], if slots[0].Offset? then ranges[1..] else ranges, rest, opt, depth);
    } else {
      NoSlots(vs, ranges);
    }
  }

  lemma NoSlots(vs: seq<AbiValue>, ranges: seq<Range>)
    requires Fills([], vs) && StartsAt(ranges, Offsets([]))
    ensures vs == [] && ranges == []
  {
  }

  /** Whatever is accepted is a layout of the decoded values: padding, sizes, offsets, order and extent. */
  lemma {:induction false} TupleIsLaid(ts: seq<AbiType>, bytes: Span, opt: Options, depth: nat)
    requires DecodeTupleLike(ts, bytes, opt, depth).Ok?
    ensures var (vs, used) := DecodeTupleLike(ts, bytes, opt, depth).value;
      used <= |bytes| && LaysTuple(ts, vs, bytes, used, opt, depth)
    decreases opt.maxDepth - depth, 3
  {
    hide HeadsHold, TailsHold, DecodeHeads, DecodeTails;
    var slots := DecodeHeads(ts, bytes, opt, depth).value;
    var (vs, ranges) := DecodeTails(ts, slots, bytes, HeadTotal(ts), opt, depth).value;
    TailsAreLaid(ts, slots, bytes, HeadTotal(ts), opt, depth);
    HeadsAreLaid(ts, vs, ranges, bytes, opt, depth);
    if opt.canonicalOffsets && ranges != [] {
      PackedIsApart(SortByStart(ranges), HeadTotal(ts), |bytes|);
      SortedApart(ranges);
      assert forall x :: x in SortByStart(ranges) <==> x in multiset(SortByStart(ranges));
      assert forall x :: x in ranges <==> x in multiset(ranges);
    } else {
      MaxEndIsEnd(ranges, HeadTotal(ts), |bytes|);
    }
  }

  // -------- every layout is accepted --------

  predicate ByStart(rs: seq<Range>) {
    forall i, j | 0 <= i < j < |rs| :: rs[i].start <= rs[j].start
  }

  lemma {:induction false} SortedByStart(rs: seq<Range>)
    ensures ByStart(SortByStart(rs))
  {
    if rs != [] {
      SortedByStart(rs[1..]);
      InsertedByStart(rs[0], SortByStart(rs[1..]));
    }
  }

  lemma {:induction false} InsertedByStart(r: Range, rs: seq<Range>)
    requires ByStart(rs)
    ensures ByStart(InsertByStart(r, rs))
  {
    if rs != [] && r.start > rs[0].start {
      InsertedByStart(r, rs[1..]);
      InsertedMembers(r, rs[1..]);
      var rest := InsertByStart(r, rs[1..]);
      forall j | 0 <= j < |rest|
        ensures rs[0].start <= rest[j].start
      {
        assert rest[j] in rest;
      }
    }
  }

  lemma {:induction false} ApartIsPacked(rs: seq<Range>, prevEnd: nat, limit: nat)
    requires ByStart(rs) && Apart(rs) && prevEnd <= limit
    requires forall r <- rs :: prevEnd <= r.start <= r.end <= limit
    ensures PackedEnd(rs, prevEnd, limit).Some?
  {
    if rs != [] {
      forall r <- rs[1..]
        ensures rs[0].end <= r.start
      {
        assert Disjoint(rs[0], r);
        var j :| 0 <= j < |rs[1..]| && rs[1..][j] == r;
        assert rs[0].start <= rs[j + 1].start;
      }
      ApartIsPacked(rs[1..], rs[0].end, limit);
    }
  }

  lemma EndIsUnique(rs: seq<Range>, start: nat, a: nat, b: nat)
    requires EndsAt(rs, start, a) && EndsAt(rs, start, b)
    ensures a == b
  {
  }

  /** The slots of a layout's head. */
  function SlotsOf(ts: seq<AbiType>, vs: seq<AbiValue>, ranges: seq<Range>): seq<Slot> {
    if ts == [] || vs == [] then []
    else if !IsDynamic(ts[0]) then [Inline(vs[0])] + SlotsOf(ts[1..], vs[1..], ranges)
    else if ranges == [] then []
    else [Offset(ranges[0].start)] + SlotsOf(ts[1..], vs[1..], ranges[1..])
  }

  lemma {:induction false} HeadsAreRead(ts: seq<AbiType>, vs: seq<AbiValue>, ranges: seq<Range>, bytes: Span,
                                       opt: Options, depth: nat)
    requires HeadTotal(ts) <= |bytes| && depth <= opt.maxDepth && HeadsHold(ts, vs, ranges, bytes, opt, depth)
    requires forall r <- ranges :: r.start <= U64_MAX
    ensures DecodeHeads(ts, bytes, opt, depth) == Ok(SlotsOf(ts, vs, ranges))
    decreases |ts|
  {
    hide DecodeStatic, EncodeStatic, SizeWord, ParseSizeWord, StaticSize;
    if ts != [] {
      if IsDynamic(ts[0]) {
        SizeWordRoundTrip(ranges[0].start);
        HeadsAreRead(ts[1..], vs[1..], ranges[1..], bytes[32..], opt, depth);
      } else {
        var size := StaticSize(ts[0]);
        StaticRoundTrip(ts[0], vs[0], bytes[size..], opt, depth + 1);
        assert bytes[..size] + bytes[size..] == bytes;
        HeadsAreRead(ts[1..], vs[1..], ranges, bytes[size..], opt, depth);
      }
    }
  }

  lemma {:induction false} TailsAreRead(ts: seq<AbiType>, vs: seq<AbiValue>, ranges: seq<Range>, bytes: Span,
                                       headTotal: nat, opt: Options, depth: nat)
    requires depth <= opt.maxDepth && headTotal <= |bytes|
    requires TailsHold(ts, vs, ranges, bytes, headTotal, opt, depth) && |SlotsOf(ts, vs, ranges)| == |ts|
    ensures DecodeTails(ts, SlotsOf(ts, vs, ranges), bytes, headTotal, opt, depth) == Ok((vs, ranges))
    decreases opt.maxDepth - depth, 1, |ts|
  {
    hide DecodeDynamic, Lays;
    if ts != [] {
      if IsDynamic(ts[0]) {
        var r := ranges[0];
        DynamicIsRead(ts[0], vs[0], bytes[r.start..], r.end - r.start, opt, depth + 1);
        TailsAreRead(ts[1..], vs[1..], ranges[1..], bytes, headTotal, opt, depth);
        assert SlotsOf(ts, vs, ranges)[1..] == SlotsOf(ts[1..], vs[1..], ranges[1..]) && vs == [vs[0]] + vs[1..];
        assert DecodeTail(ts[0], r.start, bytes, headTotal, opt, depth) == Ok((vs[0], r));
        assert ranges == [r] + ranges[1..];
      } else {
        TailsAreRead(ts[1..], vs[1..], ranges, bytes, headTotal, opt, depth);
        assert SlotsOf(ts, vs, ranges)[1..] == SlotsOf(ts[1..], vs[1..], ranges) && vs == [vs[0]] + vs[1..];
      }
    }
  }

  lemma BlobIsAccepted(b: seq<byte>, bytes: Span, used: nat, opt: Options)
    requires 32 <= |bytes| <= opt.maxTotalBytes && used <= |bytes| && bytes[..used] == EncodeBlob(b)
    ensures DecodeBlob(bytes, opt) == Ok((b, used))
  {
    var n := |b|;
    assert |EncodeBlob(b)| == used;
    SizeWordRoundTrip(n);
    assert bytes[..32] == bytes[..used][..32] == SizeWord(n);
    assert bytes[32..32 + n] == bytes[..used][32..32 + n] == b;
    assert bytes[32 + n..used] == bytes[..used][32 + n..] == Zeros(Ceil32(n) - n);
  }

  lemma {:induction false} DynamicIsRead(t: AbiType, v: AbiValue, bytes: Span, used: nat, opt: Options, depth: nat)
    requires Lays(t, v, bytes, used, opt, depth)
    ensures DecodeDynamic(t, bytes, opt, depth) == Ok((v, used))
    decreases opt.maxDepth - depth, 0
  {
    match (t, v)
    case (BytesType, BytesValue(b)) => BlobIsAccepted(b, bytes, used, opt);
    case (StringType, StringValue(s)) => BlobIsAccepted(s, bytes, used, opt);
    case (ArrayType(elem, None), ArrayValue(vs)) =>
      SizeWordRoundTrip(|vs|);
      TupleIsRead(Repeat(|vs|, elem), vs, bytes[32..], used - 32, opt, depth + 1);
    case (ArrayType(elem, Some(n)), ArrayValue(vs)) =>
      TupleIsRead(Repeat(n, elem), vs, bytes, used, opt, depth + 1);
    case (TupleType(ts), TupleValue(vs)) => TupleIsRead(ts, vs, bytes, used, opt, depth + 1);
    case _ =>
  }

  lemma {:induction false} TupleIsRead(ts: seq<AbiType>, vs: seq<AbiValue>, bytes: Span, used: nat, opt: Options,
                                      depth: nat)
    requires LaysTuple(ts, vs, bytes, used, opt, depth) && used <= |bytes|
    ensures DecodeTupleLike(ts, bytes, opt, depth) == Ok((vs, used))
    decreases opt.maxDepth - depth, 3
  {
    hide HeadsHold, TailsHold, DecodeHeads, DecodeTails, Apart, EndsAt, SortByStart, PackedEnd, MaxEnd;
    var ranges :|
      && HeadsHold(ts, vs, ranges, bytes, opt, depth) && TailsHold(ts, vs, ranges, bytes, HeadTotal(ts), opt, depth)
      && (opt.canonicalOffsets ==> Apart(ranges)) && EndsAt(ranges, HeadTotal(ts), used);
    EndAfterStart(ranges, HeadTotal(ts), used);
    RangesAreInside(ts, vs, ranges, bytes, HeadTotal(ts), opt, depth);
    HeadsAreRead(ts, vs, ranges, bytes, opt, depth);
    TailsAreRead(ts, vs, ranges, bytes, HeadTotal(ts), opt, depth);
    EndIsFound(ranges, HeadTotal(ts), used, |bytes|);
  }

  lemma EndAfterStart(rs: seq<Range>, start: nat, end: nat)
    requires EndsAt(rs, start, end)
    ensures start <= end
  {
  }

  lemma EndIsFound(ranges: seq<Range>, start: nat, used: nat, limit: nat)
    requires EndsAt(ranges, start, used) && start <= limit && forall r <- ranges :: start <= r.start <= r.end <= limit
    ensures Apart(ranges) ==> PackedEnd(SortByStart(ranges), start, limit) == Some(used)
    ensures MaxEnd(ranges, start, limit) == used
  {
    var sorted := SortByStart(ranges);
    assert forall x :: x in sorted <==> x in multiset(sorted);
    assert forall x :: x in ranges <==> x in multiset(ranges);
    hide SortByStart, Apart, PackedEnd, MaxEnd;
    if Apart(ranges) {
      SortedByStart(ranges);
      SortedApart(ranges);
      ApartIsPacked(sorted, start, limit);
      PackedIsApart(sorted, start, limit);
      EndIsUnique(ranges, start, used, PackedEnd(sorted, start, limit).value);
    }
    MaxEndIsEnd(ranges, start, limit);
    EndIsUnique(ranges, start, used, MaxEnd(ranges, start, limit));
  }

  lemma {:induction false} RangesAreInside(ts: seq<AbiType>, vs: seq<AbiValue>, ranges: seq<Range>, bytes: Span,
                                          headTotal: nat, opt: Options, depth: nat)
    requires TailsHold(ts, vs, ranges, bytes, headTotal, opt, depth)
    ensures forall r <- ranges :: headTotal <= r.start <= r.end <= |bytes|
    ensures |ts| == |vs| == |SlotsOf(ts, vs, ranges)|
    decreases |ts|
  {
    if ts != [] {
      if IsDynamic(ts[0]) {
        RangesAreInside(ts[1..], vs[1..], ranges[1..], bytes, headTotal, opt, depth);
        assert ranges == [ranges[0]] + ranges[1..];
      } else {
        RangesAreInside(ts[1..], vs[1..], ranges, bytes, headTotal, opt, depth);
      }
    }
  }

  /** The decoder gives these values and this extent exactly when the input is a layout of them. */
  lemma DecodesIffLaid(ts: seq<AbiType>, vs: seq<AbiValue>, bytes: Span, used: nat, opt: Options, depth: nat)
    ensures DecodeTupleLike(ts, bytes, opt, depth) == Ok((vs, used)) <==>
      used <= |bytes| && LaysTuple(ts, vs, bytes, used, opt, depth)
  {
    if DecodeTupleLike(ts, bytes, opt, depth).Ok? {
      TupleIsLaid(ts, bytes, opt, depth);
    }
    if used <= |bytes| && LaysTuple(ts, vs, bytes, used, opt, depth) {
      TupleIsRead(ts, vs, bytes, used, opt, depth);
    }
  }
}
