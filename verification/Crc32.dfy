/** CRC-32 (RFC 1952, section 8): bit by bit, byte by byte with a table, and eight bytes at a time with eight tables. */
module Crc32 {
  import opened Common

  /** A 32-bit register. */
  datatype Word = Word(bits: bv32)

  const POLY := Word(0xEDB8_8320)
  const ALL_ONES := Word(0xFFFF_FFFF)
  const ZERO := Word(0)
  const ONE := Word(1)

  function Xor(a: Word, b: Word): Word {
    Word(a.bits ^ b.bits)
  }

  function Shr1(a: Word): Word {
    Word(a.bits >> 1)
  }

  function Shr8(a: Word): Word {
    Word(a.bits >> 8)
  }

  predicate Odd(a: Word) {
    a.bits & 1 == 1
  }

  function FromByte(b: byte): Word {
    Word((b as bv8) as bv32)
  }

  function LowByte(a: Word): (b: byte) {
    ((a.bits & 0xFF) as bv8) as nat
  }

  function HighBytes(a: Word): Word {
    Word(a.bits & 0xFFFF_FF00)
  }

  function LowBit(a: Word): Word {
    Word(a.bits & 1)
  }

  function UpperBits(a: Word): Word {
    Word(a.bits & 0xFFFF_FFFE)
  }

  // -------- facts about single operations --------

  lemma XorSymmetric(a: Word, b: Word)
    ensures Xor(a, b) == Xor(b, a)
  {
  }

  lemma XorAssociative(a: Word, b: Word, c: Word)
    ensures Xor(Xor(a, b), c) == Xor(a, Xor(b, c))
  {
  }

  lemma XorZero(a: Word)
    ensures Xor(a, ZERO) == a
  {
  }

  lemma XorSelf(a: Word)
    ensures Xor(a, a) == ZERO
  {
  }

  lemma XorLaws(a: Word, b: Word, c: Word)
    ensures Xor(a, b) == Xor(b, a)
    ensures Xor(Xor(a, b), c) == Xor(a, Xor(b, c))
    ensures Xor(a, ZERO) == a && Xor(ZERO, a) == a
    ensures Xor(a, Xor(a, b)) == b
    ensures Xor(a, b) == Xor(a, c) ==> b == c
    ensures Xor(b, a) == Xor(c, a) ==> b == c
  {
    hide Xor;
    XorSymmetric(a, b);
    XorSymmetric(a, c);
    XorSymmetric(a, ZERO);
    XorAssociative(a, b, c);
    XorZero(a);
    Undo(a, b);
    Undo(a, c);
  }

  lemma Undo(a: Word, b: Word)
    ensures Xor(a, Xor(a, b)) == b
  {
    hide Xor;
    XorAssociative(a, a, b);
    XorSelf(a);
    XorSymmetric(ZERO, b);
    XorZero(b);
  }

  lemma ShiftLaws(a: Word, b: Word)
    ensures Shr1(Xor(a, b)) == Xor(Shr1(a), Shr1(b))
    ensures Odd(Xor(a, b)) <==> Odd(a) != Odd(b)
  {
  }

  lemma SplitLowBit(a: Word)
    ensures a == Xor(LowBit(a), UpperBits(a))
  {
  }

  lemma UpperBitsEven(a: Word)
    ensures !Odd(UpperBits(a))
  {
  }

  lemma UpperBitsShift(a: Word)
    ensures Shr1(UpperBits(a)) == Shr1(a)
  {
  }

  lemma LowBitIs(a: Word)
    ensures LowBit(a) == if Odd(a) then ONE else ZERO
  {
  }

  lemma BitsAreByte(x: bv8)
    ensures (x as nat) as bv8 == x
  {
  }

  function CountTo(n: nat): bv8
    requires n < 256
  {
    if n == 0 then 0 else CountTo(n - 1) + 1
  }

  lemma CountOne(x: bv8)
    requires x != 255
    ensures (x + 1) as int == x as int + 1
  {
  }

  lemma CountIsFull(x: bv8)
    ensures x as int == 255 <==> x == 255
  {
  }

  lemma {:induction false} CountReaches(n: nat)
    requires n < 256
    ensures CountTo(n) as int == n
  {
    if n > 0 {
      CountReaches(n - 1);
      CountIsFull(CountTo(n - 1));
      CountOne(CountTo(n - 1));
    }
  }

  lemma ByteIsBits(b: byte)
    ensures (b as bv8) as nat == b
  {
    hide CountTo;
    CountReaches(b);
    BitsAreByte(CountTo(b));
  }

  lemma MaskedByte(x: bv32)
    ensures ((x & 0xFF) as bv8) as bv32 == x & 0xFF
  {
  }

  lemma LowByteAsWord(a: Word)
    ensures FromByte(LowByte(a)) == Word(a.bits & 0xFF)
  {
    BitsAreByte((a.bits & 0xFF) as bv8);
    MaskedByte(a.bits);
  }

  lemma SplitMasked(a: Word)
    ensures a == Xor(Word(a.bits & 0xFF), HighBytes(a))
  {
  }

  lemma SplitLowByte(a: Word)
    ensures a == Xor(FromByte(LowByte(a)), HighBytes(a))
  {
    hide LowByte, FromByte, Xor, HighBytes;
    LowByteAsWord(a);
    SplitMasked(a);
  }

  lemma HighBytesShift(a: Word)
    ensures Shr8(HighBytes(a)) == Shr8(a)
  {
  }

  lemma Shr8OfByte(b: byte)
    ensures Shr8(FromByte(b)) == ZERO
  {
    var x := b as bv8;
    assert (x as bv32) >> 8 == 0;
  }

  lemma Shr8Laws(a: Word, b: Word)
    ensures Shr8(Xor(a, b)) == Xor(Shr8(a), Shr8(b))
    ensures Shr8(Shr8(Shr8(Shr8(a)))) == ZERO
  {
  }

  lemma ClearByteIsEven(a: Word)
    ensures var x0 := HighBytes(a);
      var x1 := Shr1(x0); var x2 := Shr1(x1); var x3 := Shr1(x2);
      !Odd(x0) && !Odd(x1) && !Odd(x2) && !Odd(x3)
  {
  }

  lemma ClearByteIsEvenAbove(a: Word)
    ensures var x4 := Shr1(Shr1(Shr1(Shr1(HighBytes(a)))));
      var x5 := Shr1(x4); var x6 := Shr1(x5); var x7 := Shr1(x6);
      !Odd(x4) && !Odd(x5) && !Odd(x6) && !Odd(x7)
  {
  }

  lemma ClearByteShifts(a: Word)
    ensures Shr1(Shr1(Shr1(Shr1(Shr1(Shr1(Shr1(Shr1(HighBytes(a))))))))) == Shr8(a)
  {
  }

  // -------- the bit-serial register --------

  function StepBit(c: Word): Word {
    if Odd(c) then Xor(POLY, Shr1(c)) else Shr1(c)
  }

  function Steps(c: Word, n: nat): Word
    decreases n
  {
    if n == 0 then c else Steps(StepBit(c), n - 1)
  }

  /** Shifts message bits into the register one at a time. */
  function Feed(c: Word, bits: seq<bool>): Word
    decreases |bits|
  {
    if bits == [] then c else Feed(StepBit(Xor(c, if bits[0] then ONE else ZERO)), bits[1..])
  }

  /** The lowest `n` bits of a word, least significant first. */
  function BitsOf(b: Word, n: nat): seq<bool>
    decreases n
  {
    if n == 0 then [] else [Odd(b)] + BitsOf(Shr1(b), n - 1)
  }

  function MessageBits(data: seq<byte>): seq<bool> {
    if data == [] then [] else MessageBits(data[..|data| - 1]) + BitsOf(FromByte(data[|data| - 1]), 8)
  }

  /** The definition: all bits of the message through a register that starts as ones, and the register inverted. */
  function Crc(data: seq<byte>): Word {
    Xor(Feed(ALL_ONES, MessageBits(data)), ALL_ONES)
  }

  // -------- linearity --------

  lemma StepBitIsLinear(a: Word, b: Word)
    ensures StepBit(Xor(a, b)) == Xor(StepBit(a), StepBit(b))
  {
    hide Xor, Odd, Shr1;
    ShiftLaws(a, b);
    var x, y := Shr1(a), Shr1(b);
    XorLaws(POLY, x, y);
    XorLaws(x, POLY, y);
    XorLaws(x, Xor(POLY, y), POLY);
    XorLaws(Xor(POLY, x), POLY, y);
    XorLaws(POLY, x, POLY);
  }

  lemma {:induction false} StepsAreLinear(a: Word, b: Word, n: nat)
    ensures Steps(Xor(a, b), n) == Xor(Steps(a, n), Steps(b, n))
    decreases n
  {
    hide StepBit, Xor;
    if n > 0 {
      StepBitIsLinear(a, b);
      StepsAreLinear(StepBit(a), StepBit(b), n - 1);
    }
  }

  lemma {:induction false} StepsAdd(c: Word, m: nat, n: nat)
    ensures Steps(c, m + n) == Steps(Steps(c, m), n)
    decreases m
  {
    hide StepBit;
    if m > 0 {
      StepsAdd(StepBit(c), m - 1, n);
    }
  }

  // -------- one byte --------

  lemma LowBitIn(c: Word, b: Word)
    ensures StepBit(Xor(c, b)) == Xor(StepBit(Xor(c, LowBit(b))), Shr1(b))
  {
    hide Xor, Odd, Shr1, LowBit, UpperBits;
    SplitLowBit(b);
    UpperBitsEven(b);
    UpperBitsShift(b);
    XorLaws(c, LowBit(b), UpperBits(b));
    StepBitIsLinear(Xor(c, LowBit(b)), UpperBits(b));
  }

  /** A whole byte XORed in before its eight steps is its eight bits fed in one at a time. */
  lemma {:induction false} FeedIsSteps(c: Word, b: Word, n: nat)
    requires Shr1Out(b, n) == ZERO
    ensures Feed(c, BitsOf(b, n)) == Steps(Xor(c, b), n)
    decreases n
  {
    hide StepBit, Xor, Odd, Shr1, LowBit;
    if n == 0 {
      XorLaws(c, ZERO, ZERO);
    } else {
      LowBitIn(c, b);
      LowBitIs(b);
      FeedIsSteps(StepBit(Xor(c, LowBit(b))), Shr1(b), n - 1);
      assert BitsOf(b, n)[1..] == BitsOf(Shr1(b), n - 1);
    }
  }

  function Shr1Out(b: Word, n: nat): Word
    decreases n
  {
    if n == 0 then b else Shr1Out(Shr1(b), n - 1)
  }

  lemma ByteShiftsOut(b: byte)
    ensures Shr1Out(FromByte(b), 8) == ZERO
  {
    var x := (b as bv8) as bv32;
    EightShifts(b as bv8);
    assert Shr1Out(Word(x), 4) == Word(x >> 1 >> 1 >> 1 >> 1);
    assert Shr1Out(Word(x), 8) == Shr1Out(Word(x >> 1 >> 1 >> 1 >> 1), 4);
  }

  lemma EightShifts(x: bv8)
    ensures (x as bv32) >> 1 >> 1 >> 1 >> 1 >> 1 >> 1 >> 1 >> 1 == 0
  {
  }

  lemma {:induction false} FeedConcat(c: Word, a: seq<bool>, b: seq<bool>)
    ensures Feed(c, a + b) == Feed(Feed(c, a), b)
    decreases |a|
  {
    hide StepBit, Xor;
    if a == [] {
      assert a + b == b;
    } else {
      FeedConcat(StepBit(Xor(c, if a[0] then ONE else ZERO)), a[1..], b);
      assert (a + b)[1..] == a[1..] + b;
    }
  }

  function StepByte(c: Word, b: byte): Word {
    Steps(Xor(c, FromByte(b)), 8)
  }

  /** The register after `data`, a byte at a time. */
  function Bytewise(c: Word, data: seq<byte>): Word {
    if data == [] then c else StepByte(Bytewise(c, data[..|data| - 1]), data[|data| - 1])
  }

  lemma {:induction false} BytewiseIsBitSerial(c: Word, data: seq<byte>)
    ensures Bytewise(c, data) == Feed(c, MessageBits(data))
  {
    hide Steps, BitsOf, Feed, Xor, FromByte, Shr1Out;
    if data == [] {
      NothingFed(c);
    } else {
      var front, last := data[..|data| - 1], data[|data| - 1];
      BytewiseIsBitSerial(c, front);
      FeedConcat(c, MessageBits(front), BitsOf(FromByte(last), 8));
      ByteShiftsOut(last);
      FeedIsSteps(Bytewise(c, front), FromByte(last), 8);
    }
  }

  lemma NothingFed(c: Word)
    ensures Feed(c, []) == c
  {
  }

  lemma {:induction false} BytewiseConcat(c: Word, a: seq<byte>, b: seq<byte>)
    ensures Bytewise(c, a + b) == Bytewise(Bytewise(c, a), b)
  {
    hide StepByte;
    if b == [] {
      assert a + b == a;
    } else {
      BytewiseConcat(c, a, b[..|b| - 1]);
      assert (a + b)[..|a + b| - 1] == a + b[..|b| - 1];
    }
  }

  // -------- the tables --------

  lemma EightSteps(a: Word)
    ensures Steps(a, 8) == StepBit(StepBit(StepBit(StepBit(StepBit(StepBit(StepBit(StepBit(a))))))))
  {
    hide StepBit;
    var b := StepBit(StepBit(StepBit(StepBit(a))));
    StepsAdd(a, 4, 4);
    assert Steps(a, 4) == b;
    assert Steps(b, 4) == StepBit(StepBit(StepBit(StepBit(b))));
  }

  /** Eight steps of a word whose low byte is clear only shift it. */
  lemma StepsOfClearByte(a: Word)
    ensures Steps(HighBytes(a), 8) == Shr8(a)
  {
    hide Steps, Odd, Shr1, Shr8, HighBytes;
    EightSteps(HighBytes(a));
    ClearByteIsEven(a);
    ClearByteIsEvenAbove(a);
    ClearByteShifts(a);
  }

  /** Eight steps take in the low byte and shift the rest. */
  lemma StepsTakeLowByte(c: Word, x: Word)
    ensures Steps(Xor(c, x), 8) == Xor(StepByte(c, LowByte(x)), Shr8(x))
  {
    hide Steps, Xor, FromByte, LowByte, HighBytes, Shr8;
    SplitLowByte(x);
    HighBytesShift(x);
    XorLaws(c, FromByte(LowByte(x)), HighBytes(x));
    StepsAreLinear(Xor(c, FromByte(LowByte(x))), HighBytes(x), 8);
    StepsOfClearByte(x);
  }

  /** What table `n` holds for a byte: the byte after `n + 1` bytes of steps. */
  function Entry(n: nat, b: byte): Word {
    Steps(FromByte(b), 8 * (n + 1))
  }

  lemma TableStep(x: Word)
    ensures Steps(x, 8) == Xor(Entry(0, LowByte(x)), Shr8(x))
  {
    hide Steps, Xor, FromByte, LowByte, Shr8;
    StepsTakeLowByte(ZERO, x);
    XorLaws(x, x, x);
    XorLaws(FromByte(LowByte(x)), x, x);
  }

  lemma NextTable(n: nat, b: byte)
    ensures Entry(n + 1, b) == Xor(Entry(0, LowByte(Entry(n, b))), Shr8(Entry(n, b)))
  {
    hide Steps, Xor, FromByte, LowByte, Shr8;
    StepsAdd(FromByte(b), 8 * (n + 1), 8);
    TableStep(Entry(n, b));
  }

  /** One byte by the first table. */
  lemma ByteByTable(c: Word, b: byte)
    ensures StepByte(c, b) == Xor(Entry(0, LowByte(Xor(c, FromByte(b)))), Shr8(c))
  {
    hide Steps, Xor, FromByte, LowByte, Shr8, Entry;
    TableStep(Xor(c, FromByte(b)));
    Shr8Laws(c, FromByte(b));
    Shr8OfByte(b);
    XorLaws(Shr8(c), ZERO, ZERO);
  }

  // -------- eight bytes at once --------

  function LoadLe(p: seq<byte>): Word
    requires |p| == 4
  {
    Word(
      ((p[0] as bv8) as bv32) |
      (((p[1] as bv8) as bv32) << 8) |
      (((p[2] as bv8) as bv32) << 16) |
      (((p[3] as bv8) as bv32) << 24))
  }

  lemma LoadedBits(b0: bv8, b1: bv8, b2: bv8, b3: bv8)
    ensures var d := (b0 as bv32) | ((b1 as bv32) << 8) | ((b2 as bv32) << 16) | ((b3 as bv32) << 24);
      && (d & 0xFF) as bv8 == b0 && ((d >> 8) & 0xFF) as bv8 == b1
      && ((d >> 8 >> 8) & 0xFF) as bv8 == b2 && ((d >> 8 >> 8 >> 8) & 0xFF) as bv8 == b3
  {
  }

  lemma LoadLeBytes(p: seq<byte>)
    requires |p| == 4
    ensures var d := LoadLe(p);
      && LowByte(d) == p[0] && LowByte(Shr8(d)) == p[1]
      && LowByte(Shr8(Shr8(d))) == p[2] && LowByte(Shr8(Shr8(Shr8(d)))) == p[3]
  {
    LoadedBits(p[0] as bv8, p[1] as bv8, p[2] as bv8, p[3] as bv8);
    ByteIsBits(p[0]);
    ByteIsBits(p[1]);
    ByteIsBits(p[2]);
    ByteIsBits(p[3]);
  }

  lemma FourSteps(c: Word, p: seq<byte>)
    requires |p| == 4
    ensures Bytewise(c, p) == StepByte(StepByte(StepByte(StepByte(c, p[0]), p[1]), p[2]), p[3])
  {
    hide StepByte;
    assert p == [p[0], p[1], p[2]] + [p[3]] && [p[0], p[1], p[2]] == [p[0], p[1]] + [p[2]]
      && [p[0], p[1]] == [p[0]] + [p[1]];
    BytewiseConcat(c, [p[0], p[1], p[2]], [p[3]]);
    BytewiseConcat(c, [p[0], p[1]], [p[2]]);
    BytewiseConcat(c, [p[0]], [p[1]]);
    OneByte(c, p[0]);
    OneByte(Bytewise(c, [p[0]]), p[1]);
    OneByte(Bytewise(c, [p[0], p[1]]), p[2]);
    OneByte(Bytewise(c, [p[0], p[1], p[2]]), p[3]);
  }

  lemma OneByte(c: Word, b: byte)
    ensures Bytewise(c, [b]) == StepByte(c, b)
  {
    assert [b][..0] == [];
  }

  /** Four bytes XORed in together, followed by their steps. */
  lemma FourBytes(c: Word, p: seq<byte>)
    requires |p| == 4
    ensures Bytewise(c, p) == Steps(Xor(c, LoadLe(p)), 32)
  {
    hide Steps, Xor, LowByte, Shr8, LoadLe, StepByte, Bytewise;
    var d := LoadLe(p);
    LoadLeBytes(p);
    FourSteps(c, p);
    var c1 := StepByte(c, p[0]);
    var c2 := StepByte(c1, p[1]);
    var c3 := StepByte(c2, p[2]);
    StepsAdd(Xor(c, d), 8, 24);
    StepsTakeLowByte(c, d);
    StepsAdd(Xor(c1, Shr8(d)), 8, 16);
    StepsTakeLowByte(c1, Shr8(d));
    StepsAdd(Xor(c2, Shr8(Shr8(d))), 8, 8);
    StepsTakeLowByte(c2, Shr8(Shr8(d)));
    StepsTakeLowByte(c3, Shr8(Shr8(Shr8(d))));
    Shr8Laws(d, d);
    XorLaws(StepByte(c3, p[3]), ZERO, ZERO);
  }

  lemma StepsSplit(x: Word, n: nat)
    ensures Steps(x, n + 8) == Xor(Steps(FromByte(LowByte(x)), n + 8), Steps(Shr8(x), n))
  {
    hide Steps, Xor, LowByte, FromByte, Shr8;
    StepsAdd(x, 8, n);
    TableStep(x);
    StepsAdd(FromByte(LowByte(x)), 8, n);
    StepsAreLinear(Entry(0, LowByte(x)), Shr8(x), n);
  }

  lemma {:induction false} StepsOfZero(n: nat)
    ensures Steps(ZERO, n) == ZERO
    decreases n
  {
    if n > 0 {
      StepsOfZero(n - 1);
    }
  }

  /** The entries of four consecutive tables for the bytes of a word. */
  function FromTables(x: Word, n: nat): Word {
    Xor(Entry(n + 3, LowByte(x)),
      Xor(Entry(n + 2, LowByte(Shr8(x))),
        Xor(Entry(n + 1, LowByte(Shr8(Shr8(x)))), Entry(n, LowByte(Shr8(Shr8(Shr8(x))))))))
  }

  lemma WordFromTables(x: Word, n: nat)
    ensures Steps(x, 8 * n + 32) == FromTables(x, n)
  {
    hide Steps, Xor, LowByte, FromByte, Shr8;
    StepsSplit(x, 8 * n + 24);
    StepsSplit(Shr8(x), 8 * n + 16);
    StepsSplit(Shr8(Shr8(x)), 8 * n + 8);
    StepsSplit(Shr8(Shr8(Shr8(x))), 8 * n);
    Shr8Laws(x, x);
    StepsOfZero(8 * n);
    XorLaws(Entry(n, LowByte(Shr8(Shr8(Shr8(x))))), ZERO, ZERO);
  }

  /** The eight-table formula for the register after eight bytes. */
  function Sliced(c: Word, p: seq<byte>): Word
    requires |p| == 8
  {
    Xor(FromTables(Xor(c, LoadLe(p[..4])), 4), FromTables(LoadLe(p[4..]), 0))
  }

  /** The sliced step is eight bytewise steps. */
  lemma SlicedIsBytewise(c: Word, p: seq<byte>)
    requires |p| == 8
    ensures Sliced(c, p) == Bytewise(c, p)
  {
    hide Steps, Xor, LoadLe, Bytewise, FromTables;
    var x := Xor(c, LoadLe(p[..4]));
    var d1 := LoadLe(p[4..]);
    assert p == p[..4] + p[4..];
    BytewiseConcat(c, p[..4], p[4..]);
    FourBytes(c, p[..4]);
    FourBytes(Steps(x, 32), p[4..]);
    StepsAreLinear(Steps(x, 32), d1, 32);
    StepsAdd(x, 32, 32);
    WordFromTables(x, 4);
    WordFromTables(d1, 0);
  }

  // -------- the procedures --------

  ghost predicate Filled(t: array2<Word>, rows: nat)
    requires rows <= t.Length0 && t.Length1 == 256
    reads t
  {
    forall n: nat, i: nat | n < rows && i < 256 :: t[n, i] == Entry(n, i)
  }

  method MakeTables() returns (t: array2<Word>)
    ensures fresh(t) && t.Length0 == 8 && t.Length1 == 256 && Filled(t, 8)
  {
    hide Steps, Entry, Xor, Shr8, Shr1, Odd, LowByte, FromByte;
    t := new Word[8, 256]((_, _) => ZERO);
    for i := 0 to 256
      invariant forall j: nat | j < i :: t[0, j] == Entry(0, j)
    {
      t[0, i] := FirstEntry(i);
    }
    for n := 1 to 8
      invariant Filled(t, n)
    {
      for i := 0 to 256
        invariant Filled(t, n)
        invariant forall j: nat | j < i :: t[n, j] == Entry(n, j)
      {
        var c := t[n - 1, i];
        NextTable(n - 1, i);
        t[n, i] := Xor(t[0, LowByte(c)], Shr8(c));
      }
    }
  }

  method FirstEntry(b: byte) returns (c: Word)
    ensures c == Entry(0, b)
  {
    hide Steps, Entry, Xor, Shr1, Odd, FromByte;
    c := FromByte(b);
    FirstTable(b);
    for k := 0 to 8
      invariant Steps(c, 8 - k) == Entry(0, b)
    {
      OneStep(c, 8 - k);
      c := if Odd(c) then Xor(POLY, Shr1(c)) else Shr1(c);
    }
    NoSteps(c);
  }

  lemma FirstTable(b: byte)
    ensures Steps(FromByte(b), 8) == Entry(0, b)
  {
  }

  lemma OneStep(c: Word, n: nat)
    requires n > 0
    ensures Steps(c, n) == Steps(StepBit(c), n - 1)
  {
  }

  lemma NoSteps(c: Word)
    ensures Steps(c, 0) == c
  {
  }

  /** The table-driven checksum is the bit-serial one, for every byte string. */
  method Crc32Ieee(data: seq<byte>, t: array2<Word>) returns (crc: Word)
    requires t.Length0 == 8 && t.Length1 == 256 && Filled(t, 8)
    ensures crc == Crc(data)
  {
    hide Bytewise, StepByte, Entry, Xor, Shr8, LowByte, FromByte, Feed, MessageBits;
    var c := ALL_ONES;
    var p := 0;
    EmptyMessage(data);
    while |data| - p >= 8
      invariant 0 <= p <= |data|
      invariant c == Bytewise(ALL_ONES, data[..p])
    {
      c := SlicedStep(c, data[p..p + 8], t);
      assert data[..p + 8] == data[..p] + data[p..p + 8];
      BytewiseConcat(ALL_ONES, data[..p], data[p..p + 8]);
      p := p + 8;
    }
    while p < |data|
      invariant 0 <= p <= |data|
      invariant c == Bytewise(ALL_ONES, data[..p])
    {
      AppendByte(ALL_ONES, data, p);
      ByteByTable(c, data[p]);
      c := Xor(t[0, LowByte(Xor(c, FromByte(data[p])))], Shr8(c));
      p := p + 1;
    }
    assert data[..p] == data;
    BytewiseIsBitSerial(ALL_ONES, data);
    return Xor(c, ALL_ONES);
  }

  lemma EmptyMessage(data: seq<byte>)
    ensures Bytewise(ALL_ONES, data[..0]) == ALL_ONES
  {
  }

  lemma AppendByte(c: Word, data: seq<byte>, p: nat)
    requires p < |data|
    ensures Bytewise(c, data[..p + 1]) == StepByte(Bytewise(c, data[..p]), data[p])
  {
    hide StepByte;
    assert data[..p + 1][..p] == data[..p];
  }

  method SlicedStep(c: Word, p: seq<byte>, t: array2<Word>) returns (next: Word)
    requires |p| == 8 && t.Length0 == 8 && t.Length1 == 256 && Filled(t, 8)
    ensures next == Bytewise(c, p)
  {
    hide Bytewise, Entry, Xor, Shr8, LowByte, LoadLe;
    var x := Xor(c, LoadLe(p[..4]));
    var d1 := LoadLe(p[4..]);
    SlicedIsBytewise(c, p);
    var high := FourLookups(x, 4, t);
    var low := FourLookups(d1, 0, t);
    next := Xor(high, low);
  }

  method FourLookups(x: Word, n: nat, t: array2<Word>) returns (w: Word)
    requires n + 4 <= t.Length0 && t.Length1 == 256 && Filled(t, n + 4)
    ensures w == FromTables(x, n)
  {
    hide Entry, Xor, Shr8, LowByte;
    var b0, b1, b2, b3 := LowByte(x), LowByte(Shr8(x)), LowByte(Shr8(Shr8(x))), LowByte(Shr8(Shr8(Shr8(x))));
    w := Xor(t[n + 3, b0], Xor(t[n + 2, b1], Xor(t[n + 1, b2], t[n, b3])));
  }

  // -------- what the checksum detects --------

  lemma StepBitIsInjective(a: Word, b: Word)
    requires StepBit(a) == StepBit(b)
    ensures a == b
  {
    TopBitTells(a.bits, b.bits);
    TopBitTells(b.bits, a.bits);
  }

  lemma TopBitTells(a: bv32, b: bv32)
    ensures a >> 1 != 0xEDB8_8320 ^ (b >> 1)
    ensures 0xEDB8_8320 ^ (a >> 1) == 0xEDB8_8320 ^ (b >> 1) ==> a >> 1 == b >> 1
    ensures a >> 1 == b >> 1 && a & 1 == b & 1 ==> a == b
    ensures a & 1 == 0 || a & 1 == 1
  {
  }

  lemma {:induction false} StepsAreInjective(a: Word, b: Word, n: nat)
    requires Steps(a, n) == Steps(b, n)
    ensures a == b
    decreases n
  {
    hide StepBit;
    if n > 0 {
      StepsAreInjective(StepBit(a), StepBit(b), n - 1);
      StepBitIsInjective(a, b);
    }
  }

  lemma {:induction false} BytewiseIsInjective(a: Word, b: Word, data: seq<byte>)
    requires Bytewise(a, data) == Bytewise(b, data)
    ensures a == b
  {
    hide Steps, Xor, FromByte;
    if data != [] {
      var front, last := data[..|data| - 1], FromByte(data[|data| - 1]);
      StepsAreInjective(Xor(Bytewise(a, front), last), Xor(Bytewise(b, front), last), 8);
      XorLaws(last, Bytewise(a, front), Bytewise(b, front));
      BytewiseIsInjective(a, b, front);
    }
  }

  /** Two messages that differ, but only within four consecutive bytes, have different checksums. */
  lemma BurstsAreDetected(before: seq<byte>, x: seq<byte>, y: seq<byte>, after: seq<byte>)
    requires |x| == |y| == 4 && x != y
    ensures Crc(before + x + after) != Crc(before + y + after)
  {
    hide Bytewise, Steps, Feed, MessageBits, LowByte, Shr8, LoadLe, Xor;
    var c := Bytewise(ALL_ONES, before);
    BytewiseIsBitSerial(ALL_ONES, before + x + after);
    BytewiseIsBitSerial(ALL_ONES, before + y + after);
    BytewiseConcat(ALL_ONES, before + x, after);
    BytewiseConcat(ALL_ONES, before + y, after);
    BytewiseConcat(ALL_ONES, before, x);
    BytewiseConcat(ALL_ONES, before, y);
    FourBytes(c, x);
    FourBytes(c, y);
    XorLaws(ALL_ONES, Bytewise(ALL_ONES, before + x + after), Bytewise(ALL_ONES, before + y + after));
    XorLaws(c, LoadLe(x), LoadLe(y));
    LoadLeBytes(x);
    LoadLeBytes(y);
    if Crc(before + x + after) == Crc(before + y + after) {
      BytewiseIsInjective(Bytewise(c, x), Bytewise(c, y), after);
      StepsAreInjective(Xor(c, LoadLe(x)), Xor(c, LoadLe(y)), 32);
    }
  }

  // -------- bursts at any bit --------

  function PackBits(b0: bool, b1: bool, b2: bool, b3: bool, b4: bool, b5: bool, b6: bool, b7: bool): bv8 {
    (if b0 then 1 else 0) | (if b1 then 2 else 0) | (if b2 then 4 else 0) | (if b3 then 8 else 0) |
    (if b4 then 16 else 0) | (if b5 then 32 else 0) | (if b6 then 64 else 0) | (if b7 then 128 else 0)
  }

  lemma PackedBits(b0: bool, b1: bool, b2: bool, b3: bool, b4: bool, b5: bool, b6: bool, b7: bool)
    ensures var w := Word(PackBits(b0, b1, b2, b3, b4, b5, b6, b7) as bv32);
      var h := Shr1(Shr1(Shr1(Shr1(w))));
      && Odd(w) == b0 && Odd(Shr1(w)) == b1 && Odd(Shr1(Shr1(w))) == b2 && Odd(Shr1(Shr1(Shr1(w)))) == b3
      && Odd(h) == b4 && Odd(Shr1(h)) == b5 && Odd(Shr1(Shr1(h))) == b6 && Odd(Shr1(Shr1(Shr1(h)))) == b7
  {
  }

  lemma FourBitsOf(b: Word, n: nat)
    ensures BitsOf(b, n + 4) ==
      [Odd(b), Odd(Shr1(b)), Odd(Shr1(Shr1(b))), Odd(Shr1(Shr1(Shr1(b))))] + BitsOf(Shr1(Shr1(Shr1(Shr1(b)))), n)
  {
    hide Odd, Shr1;
    assert BitsOf(b, n + 4) == [Odd(b)] + BitsOf(Shr1(b), n + 3);
    assert BitsOf(Shr1(b), n + 3) == [Odd(Shr1(b))] + BitsOf(Shr1(Shr1(b)), n + 2);
    assert BitsOf(Shr1(Shr1(b)), n + 2) == [Odd(Shr1(Shr1(b)))] + BitsOf(Shr1(Shr1(Shr1(b))), n + 1);
  }

  lemma EightBitsOf(b: Word)
    ensures var h := Shr1(Shr1(Shr1(Shr1(b))));
      BitsOf(b, 8) == [
        Odd(b), Odd(Shr1(b)), Odd(Shr1(Shr1(b))), Odd(Shr1(Shr1(Shr1(b)))),
        Odd(h), Odd(Shr1(h)), Odd(Shr1(Shr1(h))), Odd(Shr1(Shr1(Shr1(h))))]
  {
    hide Odd, Shr1, BitsOf;
    var high := Shr1(Shr1(Shr1(Shr1(b))));
    FourBitsOf(b, 4);
    FourBitsOf(high, 0);
    NoBits(Shr1(Shr1(Shr1(Shr1(high)))));
  }

  lemma ByteWithBits(b0: bool, b1: bool, b2: bool, b3: bool, b4: bool, b5: bool, b6: bool, b7: bool) returns (b: byte)
    ensures var w := FromByte(b);
      var h := Shr1(Shr1(Shr1(Shr1(w))));
      && Odd(w) == b0 && Odd(Shr1(w)) == b1 && Odd(Shr1(Shr1(w))) == b2 && Odd(Shr1(Shr1(Shr1(w)))) == b3
      && Odd(h) == b4 && Odd(Shr1(h)) == b5 && Odd(Shr1(Shr1(h))) == b6 && Odd(Shr1(Shr1(Shr1(h)))) == b7
  {
    hide PackBits, Odd, Shr1, FromByte;
    b := AsByte(PackBits(b0, b1, b2, b3, b4, b5, b6, b7));
    PackedBits(b0, b1, b2, b3, b4, b5, b6, b7);
  }

  lemma ByteOfBits(x: seq<bool>) returns (b: byte)
    requires |x| == 8
    ensures BitsOf(FromByte(b), 8) == x
  {
    hide BitsOf, Odd, Shr1, FromByte;
    b := ByteWithBits(x[0], x[1], x[2], x[3], x[4], x[5], x[6], x[7]);
    EightBitsOf(FromByte(b));
  }

  lemma AsByte(v: bv8) returns (b: byte)
    ensures FromByte(b) == Word(v as bv32)
  {
    b := v as nat;
    BitsAreByte(v);
  }

  lemma NoBits(b: Word)
    ensures BitsOf(b, 0) == []
  {
  }

  lemma BytesOfBits(x: seq<bool>) returns (p: seq<byte>)
    requires |x| == 32
    ensures |p| == 4 && MessageBits(p) == x
  {
    hide BitsOf, FromByte;
    var b0 := ByteOfBits(x[..8]);
    var b1 := ByteOfBits(x[8..16]);
    var b2 := ByteOfBits(x[16..24]);
    var b3 := ByteOfBits(x[24..]);
    p := [b0, b1, b2, b3];
    assert p[..3] == [b0, b1, b2] && [b0, b1, b2][..2] == [b0, b1] && [b0, b1][..1] == [b0] && [b0][..0] == [];
    assert MessageBits([b0]) == x[..8];
    assert MessageBits([b0, b1]) == x[..16];
    assert MessageBits([b0, b1, b2]) == x[..24];
  }

  /** Thirty-two bits decide the register they leave. */
  lemma WindowsDiffer(c: Word, x: seq<bool>, y: seq<bool>)
    requires |x| == |y| == 32 && x != y
    ensures Feed(c, x) != Feed(c, y)
  {
    hide Bytewise, Steps, Feed, MessageBits, LowByte, Shr8, LoadLe, Xor;
    var p := BytesOfBits(x);
    var q := BytesOfBits(y);
    BytewiseIsBitSerial(c, p);
    BytewiseIsBitSerial(c, q);
    FourBytes(c, p);
    FourBytes(c, q);
    XorLaws(c, LoadLe(p), LoadLe(q));
    LoadLeBytes(p);
    LoadLeBytes(q);
    assert LoadLe(p) == LoadLe(q) ==> p == q;
    if Feed(c, x) == Feed(c, y) {
      StepsAreInjective(Xor(c, LoadLe(p)), Xor(c, LoadLe(q)), 32);
    }
  }

  lemma {:induction false} FeedIsInjective(a: Word, b: Word, bits: seq<bool>)
    requires Feed(a, bits) == Feed(b, bits)
    ensures a == b
    decreases |bits|
  {
    hide StepBit, Xor;
    if bits != [] {
      var bit := if bits[0] then ONE else ZERO;
      FeedIsInjective(StepBit(Xor(a, bit)), StepBit(Xor(b, bit)), bits[1..]);
      StepBitIsInjective(Xor(a, bit), Xor(b, bit));
      XorLaws(bit, a, b);
    }
  }

  /** Two messages that differ, but only within some 32 consecutive bits, have different checksums. */
  lemma BitBurstsAreDetected(data: seq<byte>, other: seq<byte>, before: seq<bool>, x: seq<bool>, y: seq<bool>,
                             after: seq<bool>)
    requires |x| == |y| <= 32 && x != y
    requires MessageBits(data) == before + x + after && MessageBits(other) == before + y + after
    ensures Crc(data) != Crc(other)
  {
    hide Feed, MessageBits, Xor;
    var c, pad := Feed(ALL_ONES, before), Repeat(32 - |x|, false);
    FeedConcat(ALL_ONES, before + x, after);
    FeedConcat(ALL_ONES, before + y, after);
    FeedConcat(ALL_ONES, before, x);
    FeedConcat(ALL_ONES, before, y);
    FeedConcat(c, x, pad);
    FeedConcat(c, y, pad);
    XorLaws(ALL_ONES, Feed(ALL_ONES, MessageBits(data)), Feed(ALL_ONES, MessageBits(other)));
    if Crc(data) == Crc(other) {
      FeedIsInjective(Feed(c, x), Feed(c, y), after);
      assert x == (x + pad)[..|x|] && y == (y + pad)[..|y|];
      WindowsDiffer(c, x + pad, y + pad);
    }
  }

  // -------- the standard --------

  /**
   The generator is x^32 + x^26 + x^23 + x^22 + x^16 + x^12 + x^11 + x^10 + x^8 + x^7 + x^5 + x^4 + x^2 + x + 1: the
   coefficient of x^k below 32 is bit 31 - k.
   */
  lemma PolyCoefficients(k: bv32)
    requires k < 32
    ensures (POLY.bits >> (31 - k)) & 1 == 1 <==> k in {0, 1, 2, 4, 5, 7, 8, 10, 11, 12, 16, 22, 23, 26}
  {
  }

  lemma NextByte(data: seq<byte>, b: byte, c: Word)
    requires Bytewise(ALL_ONES, data) == c
    ensures Bytewise(ALL_ONES, data + [b]) == StepByte(c, b)
  {
    assert (data + [b])[..|data|] == data;
  }

  lemma DigitSteps()
    ensures StepByte(Word(0xFFFF_FFFF), 49) == Word(0x7C23_1048)
    ensures StepByte(Word(0x7C23_1048), 50) == Word(0xB0AC_BB32)
    ensures StepByte(Word(0xB0AC_BB32), 51) == Word(0x77B7_9C2D)
    ensures StepByte(Word(0x77B7_9C2D), 52) == Word(0x641C_1F5C)
    ensures StepByte(Word(0x641C_1F5C), 53) == Word(0x340A_C5E3)
    ensures StepByte(Word(0x340A_C5E3), 54) == Word(0xF68D_2C9E)
    ensures StepByte(Word(0xF68D_2C9E), 55) == Word(0xAFFC_9660)
    ensures StepByte(Word(0xAFFC_9660), 56) == Word(0x651F_2550)
    ensures StepByte(Word(0x651F_2550), 57) == Word(0x340B_C6D9)
  {
  }

  /** The check value published with the standard: the digits 1 to 9 have the checksum CBF43926. */
  lemma CheckValue()
    ensures Crc([49, 50, 51, 52, 53, 54, 55, 56, 57]) == Word(0xCBF4_3926)
  {
    hide StepByte, Feed, MessageBits;
    DigitSteps();
    NextByte([], 49, Word(0xFFFF_FFFF));
    assert [] + [49] == [49];
    NextByte([49], 50, Word(0x7C23_1048));
    assert [49] + [50] == [49, 50];
    NextByte([49, 50], 51, Word(0xB0AC_BB32));
    assert [49, 50] + [51] == [49, 50, 51];
    NextByte([49, 50, 51], 52, Word(0x77B7_9C2D));
    assert [49, 50, 51] + [52] == [49, 50, 51, 52];
    NextByte([49, 50, 51, 52], 53, Word(0x641C_1F5C));
    assert [49, 50, 51, 52] + [53] == [49, 50, 51, 52, 53];
    NextByte([49, 50, 51, 52, 53], 54, Word(0x340A_C5E3));
    assert [49, 50, 51, 52, 53] + [54] == [49, 50, 51, 52, 53, 54];
    NextByte([49, 50, 51, 52, 53, 54], 55, Word(0xF68D_2C9E));
    assert [49, 50, 51, 52, 53, 54] + [55] == [49, 50, 51, 52, 53, 54, 55];
    NextByte([49, 50, 51, 52, 53, 54, 55], 56, Word(0xAFFC_9660));
    assert [49, 50, 51, 52, 53, 54, 55] + [56] == [49, 50, 51, 52, 53, 54, 55, 56];
    NextByte([49, 50, 51, 52, 53, 54, 55, 56], 57, Word(0x651F_2550));
    assert [49, 50, 51, 52, 53, 54, 55, 56] + [57] == [49, 50, 51, 52, 53, 54, 55, 56, 57];
    BytewiseIsBitSerial(ALL_ONES, [49, 50, 51, 52, 53, 54, 55, 56, 57]);
  }
}
