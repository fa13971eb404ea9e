/** The 32-byte words of the ABI: big-endian sizes, canonical integers, and UTF-8 payloads. */
module AbiWords {
  import opened Common
  import opened AbiTypes

  function Zeros(n: nat): (r: seq<byte>)
    ensures |r| == n
    ensures AllEqual(r, 0)
  {
    Repeat(n, 0)
  }

  predicate AllEqual(s: seq<byte>, b: byte) {
    forall i | 0 <= i < |s| :: s[i] == b
  }

  function Ceil32(n: nat): (r: nat)
    ensures r % 32 == 0 && n <= r < n + 32
  {
    var rem := n % 32;
    if rem == 0 then n else n + (32 - rem)
  }

  /** The low `k` bytes of `v`, most significant first. */
  function BigEndian(v: nat, k: nat): (r: seq<byte>)
    ensures |r| == k
  {
    if k == 0 then [] else BigEndian(v / 256, k - 1) + [v % 256]
  }

  function FromBigEndian(s: seq<byte>): nat {
    if s == [] then 0 else FromBigEndian(s[..|s| - 1]) * 256 + s[|s| - 1]
  }

  function Pow256(k: nat): nat {
    if k == 0 then 1 else 256 * Pow256(k - 1)
  }

  lemma {:induction false} BigEndianRoundTrip(v: nat, k: nat)
    requires v < Pow256(k)
    ensures FromBigEndian(BigEndian(v, k)) == v
  {
    if k > 0 {
      BigEndianRoundTrip(v / 256, k - 1);
      assert BigEndian(v, k)[..k - 1] == BigEndian(v / 256, k - 1);
    }
  }

  lemma Pow256Of8()
    ensures Pow256(8) == U64_MAX + 1
  {
    assert Pow256(4) == 0x1_0000_0000;
    assert Pow256(8) == 256 * (256 * (256 * (256 * Pow256(4))));
  }

  /** A `size_t` written as a word: 24 zero bytes, then its 64 bits. */
  function SizeWord(v: nat): Word {
    Zeros(24) + BigEndian(v, 8)
  }

  function ParseSizeWord(w: Word): Option<nat> {
    if AllEqual(w[..24], 0) then Some(FromBigEndian(w[24..])) else None
  }

  lemma SizeWordRoundTrip(v: u64)
    ensures ParseSizeWord(SizeWord(v)) == Some(v)
  {
    Pow256Of8();
    BigEndianRoundTrip(v, 8);
    assert SizeWord(v)[..24] == Zeros(24) && SizeWord(v)[24..] == BigEndian(v, 8);
  }

  predicate WholeBytes(bits: nat) {
    0 < bits <= 256 && bits % 8 == 0
  }

  predicate ValidUintBits(w: Word, bits: nat) {
    WholeBytes(bits) && AllEqual(w[..32 - bits / 8], 0)
  }

  predicate ValidIntBits(w: Word, bits: nat) {
    && WholeBytes(bits)
    && (bits == 256 ||
        var high := 32 - bits / 8;
        AllEqual(w[..high], if w[high] >= 0x80 then 0xFF else 0))
  }

  /** Signed numeric value of a word read as a two's-complement 256-bit integer. */
  function SignedValue(w: Word): int {
    if w[0] >= 0x80 then FromBigEndian(w) - Pow256(32) else FromBigEndian(w)
  }

  lemma {:induction false} FromBigEndianBound(s: seq<byte>)
    ensures FromBigEndian(s) < Pow256(|s|)
  {
    if s != [] {
      FromBigEndianBound(s[..|s| - 1]);
    }
  }

  lemma {:induction false} FromBigEndianConcat(a: seq<byte>, b: seq<byte>)
    ensures FromBigEndian(a + b) == FromBigEndian(a) * Pow256(|b|) + FromBigEndian(b)
    ensures Pow256(|a| + |b|) == Pow256(|a|) * Pow256(|b|)
  {
    if b == [] {
      assert a + b == a;
    } else {
      var b' := b[..|b| - 1];
      FromBigEndianConcat(a, b');
      assert (a + b)[..|a + b| - 1] == a + b';
      ShiftByte(FromBigEndian(a), Pow256(|b'|));
      ShiftByte(Pow256(|a|), Pow256(|b'|));
    }
  }

  lemma ShiftByte(x: nat, p: nat)
    ensures x * (256 * p) == 256 * (x * p)
  {
  }

  lemma {:induction false} ExtremeBytes(s: seq<byte>)
    ensures AllEqual(s, 0) <==> FromBigEndian(s) == 0
    ensures AllEqual(s, 0xFF) <==> FromBigEndian(s) == Pow256(|s|) - 1
  {
    if s != [] {
      var s', last := s[..|s| - 1], s[|s| - 1];
      ExtremeBytes(s');
      FromBigEndianBound(s');
      assert s == s' + [last];
      assert forall b: byte :: AllEqual(s, b) <==> AllEqual(s', b) && last == b;
    }
  }

  lemma TopBit(s: seq<byte>)
    requires s != []
    ensures s[0] >= 0x80 <==> 2 * FromBigEndian(s) >= Pow256(|s|)
  {
    hide FromBigEndian, Pow256;
    var rest := s[1..];
    assert s == [s[0]] + rest;
    assert FromBigEndian([s[0]]) == s[0] && Pow256(1) == 256 by {
      SingleByte(s[0]);
    }
    FromBigEndianConcat([s[0]], rest);
    FromBigEndianBound(rest);
    TopByteDecides(s[0], Pow256(|rest|), FromBigEndian(rest));
  }

  lemma SingleByte(b: byte)
    ensures FromBigEndian([b]) == b && Pow256(1) == 256
  {
  }

  lemma TopByteDecides(b: byte, p: nat, low: nat)
    requires low < p
    ensures b >= 0x80 <==> 2 * (b * p + low) >= 256 * p
  {
    if b >= 0x80 {
      ScaleAtLeast(b, 0x80, p);
    } else {
      ScaleAtLeast(0x7F, b, p);
    }
  }

  lemma ScaleAtLeast(a: int, b: int, p: nat)
    requires a >= b
    ensures a * p >= b * p
  {
  }

  /** A word is a canonical uintN exactly when its value needs at most N bits. */
  lemma UintBitsMeanRange(w: Word, bits: nat)
    requires WholeBytes(bits)
    ensures ValidUintBits(w, bits) <==> FromBigEndian(w) < Pow256(bits / 8)
  {
    hide FromBigEndian, Pow256;
    var high, low := w[..32 - bits / 8], w[32 - bits / 8..];
    assert w == high + low;
    FromBigEndianConcat(high, low);
    FromBigEndianBound(low);
    ExtremeBytes(high);
    if FromBigEndian(high) >= 1 {
      ScaleAtLeast(FromBigEndian(high), 1, Pow256(|low|));
    }
  }

  /** A word is a canonical intN exactly when its two's-complement value lies in [-2^(N-1), 2^(N-1)). */
  lemma IntBitsMeanRange(w: Word, bits: nat)
    requires WholeBytes(bits)
    ensures var p: int := Pow256(bits / 8);
            ValidIntBits(w, bits) <==> -p <= 2 * SignedValue(w) < p
  {
    hide FromBigEndian, Pow256;
    TopBit(w);
    FromBigEndianBound(w);
    if bits < 256 {
      var high, low := w[..32 - bits / 8], w[32 - bits / 8..];
      assert w == high + low && low[0] == w[|high|];
      WordParts(high, low);
      TopBit(low);
      SignExtension(FromBigEndian(high), Pow256(|high|), FromBigEndian(low), Pow256(|low|));
    }
  }

  lemma WordParts(high: seq<byte>, low: seq<byte>)
    requires high != [] && low != []
    ensures FromBigEndian(high + low) == FromBigEndian(high) * Pow256(|low|) + FromBigEndian(low)
    ensures Pow256(|high + low|) == Pow256(|high|) * Pow256(|low|)
    ensures FromBigEndian(low) < Pow256(|low|) && FromBigEndian(high) < Pow256(|high|) && Pow256(|high|) >= 2
    ensures AllEqual(high, 0) <==> FromBigEndian(high) == 0
    ensures AllEqual(high, 0xFF) <==> FromBigEndian(high) == Pow256(|high|) - 1
  {
    hide FromBigEndian, Pow256;
    FromBigEndianConcat(high, low);
    FromBigEndianBound(low);
    FromBigEndianBound(high);
    ExtremeBytes(high);
    PowAtLeast256(|high|);
  }

  lemma {:induction false} PowAtLeast256(k: nat)
    requires k > 0
    ensures Pow256(k) >= 256
  {
    if k > 1 {
      PowAtLeast256(k - 1);
    }
  }

  /** The number `h * p + low` read modulo `top * p` is in range exactly when `h` repeats the sign of `low`. */
  lemma SignExtension(h: nat, top: nat, low: nat, p: int)
    requires h < top && low < p && top >= 2
    ensures var v := h * p + low;
            var signed := if 2 * v >= top * p then v - top * p else v;
            (if 2 * low >= p then h == top - 1 else h == 0) <==> -p <= 2 * signed < p
  {
    ScaleAtLeast(top, 2, p);
    if h == top - 1 {
      assert h * p == top * p - p;
    } else if h >= 1 {
      ScaleAtLeast(h, 1, p);
      ScaleAtLeast(top - 2, h, p);
      assert (top - 2) * p == top * p - 2 * p;
    }
  }

  // -------- UTF-8 --------

  predicate Continuation(b: byte) {
    b / 64 == 2
  }

  // Payload bits of a two-, three- and four-byte sequence.
  function CodePoint2(a: nat, b: nat): nat {
    a % 32 * 64 + b % 64
  }

  function CodePoint3(a: nat, b: nat, c: nat): nat {
    a % 16 * 4096 + b % 64 * 64 + c % 64
  }

  function CodePoint4(a: nat, b: nat, c: nat, d: nat): nat {
    a % 8 * 262144 + b % 64 * 4096 + c % 64 * 64 + d % 64
  }

  /** The number of bytes of the well-formed code point that starts `b`, or 0 when there is none. */
  function LeadingCodePoint(b: seq<byte>): (n: nat)
    requires b != []
    ensures n <= |b|
  {
    var c := b[0];
    if c <= 0x7F then 1
    else if c / 32 == 6 then
      if |b| < 2 || !Continuation(b[1]) || CodePoint2(c, b[1]) < 0x80 then 0 else 2
    else if c / 16 == 14 then
      if |b| < 3 || !Continuation(b[1]) || !Continuation(b[2]) then 0
      else
        var cp := CodePoint3(c, b[1], b[2]);
        if cp < 0x800 || 0xD800 <= cp <= 0xDFFF then 0 else 3
    else if c / 8 == 30 then
      if |b| < 4 || !Continuation(b[1]) || !Continuation(b[2]) || !Continuation(b[3]) then 0
      else
        var cp := CodePoint4(c, b[1], b[2], b[3]);
        if cp < 0x10000 || cp > 0x10FFFF then 0 else 4
    else 0
  }

  predicate ValidUtf8(b: seq<byte>) {
    b == [] || var n := LeadingCodePoint(b); n > 0 && ValidUtf8(b[n..])
  }

  /** The validator's loop over an index decides the recursive predicate. */
  method CheckUtf8(b: seq<byte>) returns (ok: bool)
    ensures ok == ValidUtf8(b)
  {
    var i := 0;
    while i < |b|
      invariant i <= |b|
      invariant ValidUtf8(b) == ValidUtf8(b[i..])
    {
      var n := LeadingCodePoint(b[i..]);
      if n == 0 {
        return false;
      }
      assert b[i..][n..] == b[i + n..];
      i := i + n;
    }
    return true;
  }

  /** The Unicode scalar values: every code point except the surrogates. */
  type Scalar = c: nat | c < 0xD800 || 0xE000 <= c <= 0x10FFFF

  /** The UTF-8 form of one scalar value (RFC 3629, section 3). */
  function Utf8(c: Scalar): seq<byte> {
    if c < 0x80 then [c]
    else if c < 0x800 then [0xC0 + c / 64, 0x80 + c % 64]
    else if c < 0x10000 then [0xE0 + c / 4096, 0x80 + c / 64 % 64, 0x80 + c % 64]
    else [0xF0 + c / 262144, 0x80 + c / 4096 % 64, 0x80 + c / 64 % 64, 0x80 + c % 64]
  }

  function Utf8Text(cs: seq<Scalar>): seq<byte> {
    if cs == [] then [] else Utf8(cs[0]) + Utf8Text(cs[1..])
  }

  // One sequence length at a time, the payload bits determine the bytes and the bytes the payload bits.

  lemma Bytes2(a: byte, b: byte)
    requires a / 32 == 6 && Continuation(b)
    ensures var c := CodePoint2(a, b); c < 0x800 && a == 0xC0 + c / 64 && b == 0x80 + c % 64
  {
  }

  lemma Bytes3(a: byte, b: byte, c: byte)
    requires a / 16 == 14 && Continuation(b) && Continuation(c)
    ensures var p := CodePoint3(a, b, c); p < 0x10000
    ensures var p := CodePoint3(a, b, c); a == 0xE0 + p / 4096 && b == 0x80 + p / 64 % 64 && c == 0x80 + p % 64
  {
    var p, high := CodePoint3(a, b, c), a % 16 * 64 + b % 64;
    assert p == high * 64 + c % 64;
    assert p / 64 == high && p / 4096 == high / 64;
  }

  lemma Bytes4(a: byte, b: byte, c: byte, d: byte)
    requires a / 8 == 30 && Continuation(b) && Continuation(c) && Continuation(d)
    ensures var p := CodePoint4(a, b, c, d);
            a == 0xF0 + p / 262144 && b == 0x80 + p / 4096 % 64 && c == 0x80 + p / 64 % 64 && d == 0x80 + p % 64
  {
    var p, top := CodePoint4(a, b, c, d), a % 8 * 64 + b % 64;
    var high := top * 64 + c % 64;
    assert p == high * 64 + d % 64;
    assert p / 64 == high && p / 4096 == high / 64 == top && p / 262144 == top / 64;
  }

  lemma Split2(c: nat)
    requires c < 0x800
    ensures (0xC0 + c / 64) / 32 == 6 && CodePoint2(0xC0 + c / 64, 0x80 + c % 64) == c
  {
  }

  lemma Split3(c: nat)
    requires c < 0x10000
    ensures (0xE0 + c / 4096) / 16 == 14
    ensures CodePoint3(0xE0 + c / 4096, 0x80 + c / 64 % 64, 0x80 + c % 64) == c
  {
    var high := c / 64;
    assert c == high * 64 + c % 64 && c / 4096 == high / 64;
  }

  lemma Split4(c: nat)
    requires c < 0x200000
    ensures (0xF0 + c / 262144) / 8 == 30
    ensures CodePoint4(0xF0 + c / 262144, 0x80 + c / 4096 % 64, 0x80 + c / 64 % 64, 0x80 + c % 64) == c
  {
    var high, top := c / 64, c / 4096;
    assert c == high * 64 + c % 64 && top == high / 64 && c / 262144 == top / 64;
    assert high == top * 64 + high % 64;
  }

  /** Each accepted leading code point is the UTF-8 form of a scalar value. */
  lemma LeadingIsScalar(b: seq<byte>) returns (c: Scalar)
    requires b != [] && LeadingCodePoint(b) > 0
    ensures b[..LeadingCodePoint(b)] == Utf8(c)
  {
    match LeadingCodePoint(b)
    case 1 =>
      c := b[0];
    case 2 =>
      Bytes2(b[0], b[1]);
      c := CodePoint2(b[0], b[1]);
    case 3 =>
      Bytes3(b[0], b[1], b[2]);
      c := CodePoint3(b[0], b[1], b[2]);
    case _ =>
      Bytes4(b[0], b[1], b[2], b[3]);
      c := CodePoint4(b[0], b[1], b[2], b[3]);
  }

  lemma ScalarIsLeading(c: Scalar, rest: seq<byte>)
    ensures LeadingCodePoint(Utf8(c) + rest) == |Utf8(c)| > 0
  {
    if 0x80 <= c < 0x800 {
      Split2(c);
    } else if 0x800 <= c < 0x10000 {
      Split3(c);
    } else if c >= 0x10000 {
      Split4(c);
    }
  }

  /** The validator accepts exactly the UTF-8 texts: what it accepts is the encoding of some scalars ... */
  lemma {:induction false} ValidUtf8IsText(b: seq<byte>) returns (cs: seq<Scalar>)
    requires ValidUtf8(b)
    ensures Utf8Text(cs) == b
  {
    if b == [] {
      cs := [];
    } else {
      var n := LeadingCodePoint(b);
      var c := LeadingIsScalar(b);
      var rest := ValidUtf8IsText(b[n..]);
      cs := [c] + rest;
      assert b == b[..n] + b[n..];
    }
  }

  /** ... and the encoding of any scalars is accepted. */
  lemma {:induction false} TextIsValidUtf8(cs: seq<Scalar>)
    ensures ValidUtf8(Utf8Text(cs))
  {
    if cs != [] {
      TextIsValidUtf8(cs[1..]);
      ScalarIsLeading(cs[0], Utf8Text(cs[1..]));
      assert (Utf8(cs[0]) + Utf8Text(cs[1..]))[|Utf8(cs[0])|..] == Utf8Text(cs[1..]);
    }
  }
}
