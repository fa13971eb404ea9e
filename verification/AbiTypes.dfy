/** The type and value trees of the ABI codec, and the sizes that the codec derives from a type. */
module AbiTypes {
  import opened Common

  /** Widths above 32 make the encoder copy past its 32-byte word, so the model's types stop there. */
  type BytesWidth = n: nat | n <= 32

  type Word = w: seq<byte> | |w| == 32 witness Repeat(32, 0)
  type Address20 = a: seq<byte> | |a| == 20 witness Repeat(20, 0)

  datatype AbiType =
    | UintType(bits: nat)
    | IntType(bits: nat)
    | BoolType
    | AddressType
    | BytesNType(n: BytesWidth)
    | BytesType
    | StringType
    | ArrayType(elem: AbiType, fixedLen: Option<u64>)
    | TupleType(elems: seq<AbiType>)

  datatype AbiValue =
    | UintValue(word: Word)
    | IntValue(word: Word)
    | BoolValue(b: bool)
    | AddressValue(a: Address20)
    | BytesNValue(bytes: seq<byte>)
    | BytesValue(bytes: seq<byte>)
    | StringValue(s: seq<byte>)
    | ArrayValue(items: seq<AbiValue>)
    | TupleValue(items: seq<AbiValue>)

  predicate IsDynamic(t: AbiType) {
    match t
    case BytesType | StringType => true
    case ArrayType(elem, fixedLen) => fixedLen.None? || IsDynamic(elem)
    case TupleType(elems) => DynamicAny(elems)
    case _ => false
  }

  predicate DynamicAny(ts: seq<AbiType>) {
    exists i | 0 <= i < |ts| :: IsDynamic(ts[i])
  }

  /** The head size of a static type; 32 stands in where the size does not fit a `size_t`. */
  function StaticSize(t: AbiType): u64 {
    match t
    case ArrayType(elem, Some(n)) =>
      if IsDynamic(elem) || n * StaticSize(elem) > U64_MAX then 32 else n * StaticSize(elem)
    case TupleType(elems) =>
      if DynamicAny(elems) || SizeSum(elems) > U64_MAX then 32 else SizeSum(elems)
    case _ => 32
  }

  function SizeSum(ts: seq<AbiType>): nat {
    if ts == [] then 0 else StaticSize(ts[0]) + SizeSum(ts[1..])
  }

  /** What one component occupies in the head of its enclosing tuple: its own bytes, or an offset word. */
  function HeadSize(t: AbiType): u64 {
    if IsDynamic(t) then 32 else StaticSize(t)
  }

  function HeadTotal(ts: seq<AbiType>): nat {
    if ts == [] then 0 else HeadSize(ts[0]) + HeadTotal(ts[1..])
  }

  lemma {:induction false} StaticSizeIsWordMultiple(t: AbiType)
    ensures StaticSize(t) % 32 == 0
  {
    match t
    case ArrayType(elem, Some(n)) =>
      StaticSizeIsWordMultiple(elem);
      MultipleScales(n, StaticSize(elem));
    case TupleType(elems) =>
      SizeSumIsWordMultiple(elems);
    case _ =>
  }

  lemma {:induction false} SizeSumIsWordMultiple(ts: seq<AbiType>)
    ensures SizeSum(ts) % 32 == 0
  {
    if ts != [] {
      StaticSizeIsWordMultiple(ts[0]);
      SizeSumIsWordMultiple(ts[1..]);
    }
  }

  lemma {:induction false} HeadTotalIsWordMultiple(ts: seq<AbiType>)
    ensures HeadTotal(ts) % 32 == 0
  {
    if ts != [] {
      StaticSizeIsWordMultiple(ts[0]);
      HeadTotalIsWordMultiple(ts[1..]);
    }
  }

  lemma MultipleScales(n: nat, a: nat)
    requires a % 32 == 0
    ensures (n * a) % 32 == 0
  {
    var k := a / 32;
    assert n * a == 32 * (n * k);
  }
}
