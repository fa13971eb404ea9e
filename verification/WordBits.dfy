/** The EVM's bitwise operators, limb by limb and on whole 256-bit words, and its byte order. */
module WordBits {
  import opened Common
  import opened U256
  import opened AbiWords

  datatype BitOp = BitAnd | BitOr | BitXor

  function BitResult(op: BitOp, x: nat, y: nat): (b: nat)
    ensures b < 2
  {
    match op
    case BitAnd => if x == 1 && y == 1 then 1 else 0
    case BitOr => if x == 1 || y == 1 then 1 else 0
    case BitXor => if x == y then 0 else 1
  }

  /** `op` on the lowest `n` bits of `x` and `y`. */
  function Bitwise(op: BitOp, x: nat, y: nat, n: nat): (r: nat)
    ensures r < Pow2(n)
  {
    if n == 0 then 0 else BitResult(op, x % 2, y % 2) + 2 * Bitwise(op, x / 2, y / 2, n - 1)
  }

  /** Bits above position `m` do not mix with those below. */
  lemma {:induction false} BitwiseSplits(op: BitOp, x: nat, y: nat, m: nat, hx: nat, hy: nat, n: nat)
    requires x < Pow2(m) && y < Pow2(m)
    ensures Bitwise(op, x + hx * Pow2(m), y + hy * Pow2(m), m + n)
         == Bitwise(op, x, y, m) + Bitwise(op, hx, hy, n) * Pow2(m)
  {
    if m > 0 {
      var p := Pow2(m - 1);
      HalveShifted(x, hx, p);
      HalveShifted(y, hy, p);
      BitwiseSplits(op, x / 2, y / 2, m - 1, hx, hy, n);
      var high := Bitwise(op, hx, hy, n);
      Assoc(high, 2, p);
      Assoc(2, high, p);
    }
  }

  lemma HalveShifted(x: nat, h: nat, p: nat)
    ensures (x + h * (2 * p)) % 2 == x % 2 && (x + h * (2 * p)) / 2 == x / 2 + h * p
  {
    var t := h * p;
    Assoc(h, 2, p);
    Assoc(2, h, p);
    assert h * (2 * p) == 2 * t;
  }

  /** The machine's operator on one limb. */
  function LimbBits(op: BitOp, a: u64, b: u64): u64 {
    LimbIsPow();
    Bitwise(op, a, b, 64)
  }

  /** The limbs of `op` applied to the lowest `i` limbs stand for `op` applied to their numbers. */
  lemma {:induction false} PrefixBits(op: BitOp, a: Limbs, b: Limbs, out: Limbs, i: nat)
    requires i <= 4
    requires forall j | 0 <= j < i :: out[j] == LimbBits(op, a[j], b[j])
    ensures Prefix(out, i) == Bitwise(op, Prefix(a, i), Prefix(b, i), 64 * i)
  {
    if i > 0 {
      hide Bitwise, LimbBits;
      PrefixBits(op, a, b, out, i - 1);
      PrefixBound(a, i - 1);
      PrefixBound(b, i - 1);
      WeightIsPow(i - 1);
      BitwiseSplits(op, Prefix(a, i - 1), Prefix(b, i - 1), 64 * (i - 1), a[i - 1], b[i - 1], 64);
      LimbBitsMeaning(op, a[i - 1], b[i - 1]);
    }
  }

  lemma LimbBitsMeaning(op: BitOp, a: u64, b: u64)
    ensures LimbBits(op, a, b) == Bitwise(op, a, b, 64)
  {
  }

  /** AND, OR and XOR of the limbs are AND, OR and XOR of the 256-bit numbers. */
  method ApplyBits(op: BitOp, a: Limbs, b: Limbs) returns (out: Limbs)
    ensures Value(out) == Bitwise(op, Value(a), Value(b), 256)
  {
    hide Bitwise, LimbBits;
    out := ZERO;
    for i := 0 to 4
      invariant forall j | 0 <= j < i :: out[j] == LimbBits(op, a[j], b[j])
    {
      out := out[i := LimbBits(op, a[i], b[i])];
    }
    PrefixBits(op, a, b, out, 4);
  }

  /** XOR undoes itself. */
  lemma {:induction false} XorTwice(x: nat, y: nat, n: nat)
    requires x < Pow2(n)
    ensures Bitwise(BitXor, Bitwise(BitXor, x, y, n), y, n) == x
  {
    if n > 0 {
      XorTwice(x / 2, y / 2, n - 1);
    }
  }

  /** AND keeps the shared bits and OR the rest, so together they add up to the operands. */
  lemma {:induction false} AndPlusOr(x: nat, y: nat, n: nat)
    requires x < Pow2(n) && y < Pow2(n)
    ensures Bitwise(BitAnd, x, y, n) + Bitwise(BitOr, x, y, n) == x + y
  {
    if n > 0 {
      AndPlusOr(x / 2, y / 2, n - 1);
    }
  }

  // -------- byte order --------

  lemma {:induction false} BigEndianSplits(hi: nat, lo: nat, m: nat, k: nat)
    requires lo < Pow256(k)
    ensures BigEndian(lo + hi * Pow256(k), m + k) == BigEndian(hi, m) + BigEndian(lo, k)
  {
    if k > 0 {
      var p := Pow256(k - 1);
      DropByte(lo, hi, p);
      BigEndianSplits(hi, lo / 256, m, k - 1);
      assert BigEndian(hi, m) + BigEndian(lo, k) == (BigEndian(hi, m) + BigEndian(lo / 256, k - 1)) + [lo % 256];
    }
  }

  lemma DropByte(x: nat, h: nat, p: nat)
    ensures (x + h * (256 * p)) % 256 == x % 256 && (x + h * (256 * p)) / 256 == x / 256 + h * p
  {
    var t := h * p;
    Assoc(h, 256, p);
    Assoc(256, h, p);
    assert h * (256 * p) == 256 * t;
  }

  lemma {:induction false} WeightIs256(i: nat)
    ensures Weight(i) == Pow256(8 * i)
  {
    if i > 0 {
      WeightIs256(i - 1);
      Pow256Of8();
      Pow256Sum(8 * (i - 1), 8);
    }
  }

  lemma {:induction false} Pow256Sum(a: nat, b: nat)
    ensures Pow256(a + b) == Pow256(b) * Pow256(a)
  {
    if b > 0 {
      Pow256Sum(a, b - 1);
      Assoc(256, Pow256(b - 1), Pow256(a));
    }
  }

  /** Limbs 0 to `i - 1`, most significant first, are the number's last `8 * i` bytes. */
  lemma {:induction false} PrefixBytes(v: Limbs, i: nat)
    requires 0 < i <= 4
    ensures BigEndian(Prefix(v, i), 8 * i) == BigEndian(v[i - 1], 8) + BigEndian(Prefix(v, i - 1), 8 * (i - 1))
  {
    hide BigEndian;
    PrefixBound(v, i - 1);
    WeightIs256(i - 1);
    BigEndianSplits(v[i - 1], Prefix(v, i - 1), 8, 8 * (i - 1));
  }

  /** Eight bytes shifted in, one at a time, from the most significant. */
  method LimbFromBytes(bytes: seq<byte>) returns (w: u64)
    requires |bytes| == 8
    ensures w == FromBigEndian(bytes)
  {
    w := 0;
    for j := 0 to 8
      invariant w == FromBigEndian(bytes[..j])
    {
      Pow256Of8();
      FromBigEndianBound(bytes[..j + 1]);
      Pow256Monotone(j + 1, 8);
      assert bytes[..j + 1][..j] == bytes[..j];
      w := w * 256 + bytes[j];
    }
    assert bytes[..8] == bytes;
  }

  lemma {:induction false} Pow256Monotone(a: nat, b: nat)
    requires a <= b
    ensures Pow256(a) <= Pow256(b)
  {
    if a < b {
      Pow256Monotone(a, b - 1);
    }
  }

  /** Reading 32 big-endian bytes. */
  method FromBe32(be: seq<byte>) returns (out: Limbs)
    requires |be| == 32
    ensures Value(out) == FromBigEndian(be)
  {
    hide FromBigEndian;
    out := ZERO;
    for i := 0 to 4
      invariant forall k | 4 - i <= k < 4 :: out[k] == FromBigEndian(be[8 * (3 - k)..8 * (3 - k) + 8])
    {
      var w := LimbFromBytes(be[8 * i..8 * i + 8]);
      out := out[3 - i := w];
    }
    BytesOfLimbs(out, be, 4);
    assert be[0..32] == be;
  }

  lemma {:induction false} BytesOfLimbs(out: Limbs, be: seq<byte>, n: nat)
    requires |be| == 32 && n <= 4
    requires forall k | 0 <= k < 4 :: out[k] == FromBigEndian(be[8 * (3 - k)..8 * (3 - k) + 8])
    ensures Prefix(out, n) == FromBigEndian(be[8 * (4 - n)..32])
  {
    if n > 0 {
      BytesOfLimbs(out, be, n - 1);
      var head := be[8 * (4 - n)..8 * (4 - n) + 8];
      var tail := be[8 * (4 - (n - 1))..32];
      assert head + tail == be[8 * (4 - n)..32];
      FromBigEndianConcat(head, tail);
      WeightIs256(n - 1);
    }
  }

  /** Byte `j` of a limb is what a right shift and a mask select. */
  lemma {:induction false} ByteOfLimb(w: nat, k: nat, j: nat)
    requires j < k
    ensures BigEndian(w, k)[j] == (w / Pow2(8 * (k - 1 - j))) % 256
  {
    if j < k - 1 {
      ByteOfLimb(w / 256, k - 1, j);
      DivTwice(w, Pow2(8 * (k - 2 - j)));
      PowSum(8, 8 * (k - 2 - j));
      assert Pow2(8) == 256;
    }
  }

  lemma DivTwice(w: nat, p: nat)
    requires p > 0
    ensures w / 256 / p == w / (256 * p)
  {
    hide Quotient, Remainder;
    var q, r := Quotient(w, 256), Remainder(w, 256);
    var q', r' := Quotient(q, p), Remainder(q, p);
    Assoc(q', p, 256);
    Assoc(256, q', p);
    QuotientUnique(w, 256 * p, q', r' * 256 + r);
    QuotientMeaning(w, 256);
    QuotientMeaning(q, p);
    QuotientMeaning(w, 256 * p);
  }

  lemma QuotientMeaning(x: nat, d: nat)
    requires d > 0
    ensures Quotient(x, d) == x / d
  {
  }

  /** Writing 32 big-endian bytes. */
  method ToBe32(v: Limbs) returns (out: seq<byte>)
    ensures out == BigEndian(Value(v), 32)
  {
    hide BigEndian;
    out := [];
    for i := 0 to 4
      invariant |out| == 8 * i
      invariant out + BigEndian(Prefix(v, 4 - i), 8 * (4 - i)) == BigEndian(Value(v), 32)
    {
      var w := v[3 - i];
      var bytes: seq<byte> := [];
      for j := 0 to 8
        invariant |bytes| == j
        invariant forall k | 0 <= k < j :: bytes[k] == BigEndian(w, 8)[k]
      {
        ByteOfLimb(w, 8, j);
        bytes := bytes + [(w / Pow2(56 - 8 * j)) % 256];
      }
      assert bytes == BigEndian(w, 8);
      PrefixBytes(v, 4 - i);
      out := out + bytes;
    }
    assert BigEndian(Prefix(v, 0), 0) == [];
  }
}
