/** The EVM's 256-bit arithmetic on four 64-bit limbs, least significant first. */
module U256 {
  import opened Common

  const LIMB: nat := U64_MAX + 1

  type Limbs = w: seq<u64> | |w| == 4 witness [0, 0, 0, 0]

  const ZERO: Limbs := [0, 0, 0, 0]

  function Pow2(n: nat): (p: nat)
    ensures p > 0
  {
    if n == 0 then 1 else 2 * Pow2(n - 1)
  }

  /** The weight of limb `i`. */
  function Weight(i: nat): (w: nat)
    ensures w > 0
  {
    if i == 0 then 1 else LIMB * Weight(i - 1)
  }

  /** The number that the lowest `i` limbs stand for. */
  function Prefix(w: seq<u64>, i: nat): nat
    requires i <= |w|
  {
    if i == 0 then 0 else Prefix(w, i - 1) + w[i - 1] * Weight(i - 1)
  }

  function Value(w: Limbs): nat {
    Prefix(w, 4)
  }

  // -------- arithmetic facts --------

  lemma Scale(a: int, b: int, p: int)
    ensures (a + b) * p == a * p + b * p
    ensures (a - b) * p == a * p - b * p
  {
  }

  lemma ScaleMonotone(a: int, b: int, p: nat)
    requires a <= b
    ensures a * p <= b * p
  {
  }

  lemma Assoc(a: int, b: int, c: int)
    ensures (a * b) * c == a * (b * c)
    ensures a * b == b * a
  {
  }

  lemma {:induction false} PrefixBound(w: seq<u64>, i: nat)
    requires i <= |w|
    ensures Prefix(w, i) < Weight(i)
  {
    if i > 0 {
      PrefixBound(w, i - 1);
      ScaleMonotone(w[i - 1] as int + 1, LIMB, Weight(i - 1));
      Scale(w[i - 1], 1, Weight(i - 1));
    }
  }

  /** Only the limbs below `i` matter to `Prefix(w, i)`. */
  lemma {:induction false} PrefixSame(v: seq<u64>, w: seq<u64>, i: nat)
    requires i <= |v| && i <= |w| && forall k | 0 <= k < i :: v[k] == w[k]
    ensures Prefix(v, i) == Prefix(w, i)
  {
    if i > 0 {
      PrefixSame(v, w, i - 1);
    }
  }

  lemma {:induction false} PrefixUpdate(w: seq<u64>, k: nat, x: u64, i: nat)
    requires k < i <= |w|
    ensures Prefix(w[k := x], i) == Prefix(w, i) + (x - w[k]) * Weight(k)
  {
    if k == i - 1 {
      PrefixSame(w[k := x], w, k);
      Scale(x, w[k], Weight(k));
    } else {
      PrefixUpdate(w, k, x, i - 1);
    }
  }

  function Quotient(x: nat, d: nat): (q: nat)
    requires d > 0
    ensures q * d <= x < q * d + d
  {
    x / d
  }

  function Remainder(x: nat, d: nat): (r: nat)
    requires d > 0
    ensures r < d && x == Quotient(x, d) * d + r
  {
    x % d
  }

  lemma QuotientUnique(x: nat, d: nat, q: nat, r: nat)
    requires d > 0 && x == q * d + r && r < d
    ensures Quotient(x, d) == q && Remainder(x, d) == r
  {
    hide Quotient, Remainder;
    var q' := Quotient(x, d);
    if q' < q {
      ScaleMonotone(q' + 1, q, d);
      Scale(q', 1, d);
    } else if q < q' {
      ScaleMonotone(q + 1, q', d);
      Scale(q, 1, d);
    }
  }

  /** A result that is congruent to `x` and below the modulus is `x` reduced. */
  lemma Reduced(w: Limbs, q: nat, x: nat)
    requires Value(w) + q * Weight(4) == x
    ensures Value(w) == x % Weight(4)
  {
    PrefixBound(w, 4);
    QuotientUnique(x, Weight(4), q, Value(w));
  }

  // -------- addition and subtraction --------

  method AddCarry(a: u64, b: u64, carry: u64) returns (out: u64, carryOut: u64)
    requires carry <= 1
    ensures carryOut <= 1 && out + carryOut * LIMB == a + b + carry
  {
    var s1 := Wrap64(a + b);
    var c1 := s1 < a;
    var s2 := Wrap64(s1 + carry);
    var c2 := s2 < s1;
    out, carryOut := s2, if c1 || c2 then 1 else 0;
  }

  method AddMod(a: Limbs, b: Limbs) returns (out: Limbs)
    ensures Value(out) == (Value(a) + Value(b)) % Weight(4)
  {
    out := ZERO;
    var carry: u64 := 0;
    for i := 0 to 4
      invariant carry <= 1
      invariant Prefix(out, i) + carry * Weight(i) == Prefix(a, i) + Prefix(b, i)
    {
      var limb, next := AddCarry(a[i], b[i], carry);
      SumStep(out, a, b, i, limb, next, carry, 1);
      out, carry := out[i := limb], next;
    }
    Reduced(out, carry, Value(a) + Value(b));
  }

  /** One limb of an addition (`sign` 1) or of a subtraction (`sign` -1). */
  lemma SumStep(out: Limbs, a: Limbs, b: Limbs, i: nat, limb: u64, next: int, carry: int, sign: int)
    requires i < 4 && (sign == 1 || sign == -1)
    requires limb + sign * next * LIMB == a[i] as int + sign * (b[i] as int + carry)
    requires Prefix(out, i) + sign * carry * Weight(i) == Prefix(a, i) + sign * Prefix(b, i)
    ensures Prefix(out[i := limb], i + 1) + sign * next * Weight(i + 1) == Prefix(a, i + 1) + sign * Prefix(b, i + 1)
  {
    var w: int, x: int, y: int := Weight(i), a[i], b[i];
    PrefixSame(out[i := limb], out, i);
    LimbStep(x + sign * (y + carry), limb, sign * next, i);
    assert (x + sign * (y + carry)) * w == x * w + sign * (y * w) + sign * carry * w by {
      if sign == 1 {
        Scale(x, y + carry, w);
        Scale(y, carry, w);
      } else {
        Scale(x, y + carry, w);
        Scale(y, carry, w);
        Negate(carry, w);
      }
    }
    assert sign * (Prefix(b, i) + y * w) == sign * Prefix(b, i) + sign * (y * w);
  }

  lemma Negate(a: int, b: int)
    ensures (-a) * b == -(a * b)
  {
  }

  /** A limb and its carry, weighed, are the number they split. */
  lemma LimbStep(x: int, limb: int, carry: int, i: nat)
    requires limb + carry * LIMB == x
    ensures x * Weight(i) == limb * Weight(i) + carry * Weight(i + 1)
  {
    Scale(limb, carry * LIMB, Weight(i));
    Assoc(carry, LIMB, Weight(i));
  }

  method SubBorrow(a: u64, b: u64, borrow: u64) returns (out: u64, borrowOut: u64)
    requires borrow <= 1
    ensures borrowOut <= 1 && out - borrowOut * LIMB == a - b - borrow
  {
    var t := if b <= a then a - b else a + LIMB - b;
    var b1 := a < b;
    var t2 := if borrow <= t then t - borrow else t + LIMB - borrow;
    var b2 := t < borrow;
    out, borrowOut := t2, if b1 || b2 then 1 else 0;
  }

  method SubMod(a: Limbs, b: Limbs) returns (out: Limbs)
    ensures Value(out) == (Value(a) - Value(b)) % Weight(4)
    ensures Value(b) <= Value(a) ==> Value(out) == Value(a) - Value(b)
  {
    out := ZERO;
    var borrow: u64 := 0;
    for i := 0 to 4
      invariant borrow <= 1
      invariant Prefix(out, i) - borrow * Weight(i) == Prefix(a, i) - Prefix(b, i)
    {
      var limb, next := SubBorrow(a[i], b[i], borrow);
      Negate(borrow, Weight(i));
      Negate(next, Weight(i + 1));
      SumStep(out, a, b, i, limb, next, borrow, -1);
      out, borrow := out[i := limb], next;
    }
    PrefixBound(out, 4);
    PrefixBound(a, 4);
    PrefixBound(b, 4);
    DifferenceReduced(Value(a) - Value(b), Weight(4), Value(out), borrow);
  }

  lemma DifferenceReduced(d: int, m: int, r: int, borrow: int)
    requires 0 <= borrow <= 1 && 0 <= r < m && r == d + borrow * m && -m < d < m
    ensures r == d % m && (d >= 0 ==> r == d)
  {
    if borrow == 1 {
      assert r == d + m;
    } else {
      assert r == d;
    }
    SmallMod(d, m);
  }

  lemma SmallMod(d: int, m: int)
    requires -m < d < m
    ensures d % m == if d < 0 then d + m else d
  {
    if d < 0 {
      EuclideanUnique(d, m, -1, d + m);
    } else {
      EuclideanUnique(d, m, 0, d);
    }
  }

  lemma EuclideanUnique(x: int, m: int, q: int, r: int)
    requires m > 0 && x == q * m + r && 0 <= r < m
    ensures x % m == r
  {
    var q', r' := x / m, x % m;
    assert x == q' * m + r';
    if q' < q {
      ScaleMonotone(q' + 1, q, m);
      Scale(q', 1, m);
    } else if q < q' {
      ScaleMonotone(q + 1, q', m);
      Scale(q, 1, m);
    }
  }

  // -------- comparison --------

  method Less(a: Limbs, b: Limbs) returns (less: bool)
    ensures less <==> Value(a) < Value(b)
  {
    var i := 4;
    while i > 0
      invariant 0 <= i <= 4
      invariant Value(a) - Prefix(a, i) == Value(b) - Prefix(b, i)
    {
      i := i - 1;
      TopLimb(a, b, i);
      if a[i] < b[i] {
        return true;
      }
      if a[i] > b[i] {
        TopLimb(b, a, i);
        return false;
      }
    }
    return false;
  }

  lemma TopLimb(a: seq<u64>, b: seq<u64>, i: nat)
    requires i < |a| && i < |b|
    ensures a[i] < b[i] ==> Prefix(a, i + 1) < Prefix(b, i + 1)
  {
    PrefixBound(a, i);
    if a[i] < b[i] {
      ScaleMonotone(a[i] as int + 1, b[i], Weight(i));
      Scale(a[i], 1, Weight(i));
    }
  }

  // -------- multiplication --------

  /** `cur + x * y + carry` fits 128 bits; its halves are the new limb and the new carry. */
  method MulStep(cur: u64, x: u64, y: u64, carry: u64) returns (limb: u64, next: u64)
    ensures limb + next * LIMB == cur + x * y + carry
  {
    ProductFits(x, y);
    var sum: nat := cur + x * y + carry;
    limb, next := sum % LIMB, sum / LIMB;
  }

  lemma ProductFits(x: u64, y: u64)
    ensures 0 <= x * y <= U64_MAX * U64_MAX
  {
    ScaleMonotone(x, U64_MAX, y);
    ScaleMonotone(y, U64_MAX, U64_MAX);
    Assoc(U64_MAX, y, 1);
  }

  /** Adds `a[i] * b`, shifted by `i` limbs and cut off at the top, to `out`. */
  method MulRow(out0: Limbs, a: Limbs, b: Limbs, i: nat) returns (out: Limbs, carry: u64)
    requires i < 4
    ensures Value(out) + carry * Weight(4) == Value(out0) + a[i] * (Prefix(b, 4 - i) * Weight(i))
  {
    out, carry := out0, 0;
    for j := 0 to 4 - i
      invariant forall k | i + j <= k < 4 :: out[k] == out0[k]
      invariant Value(out) + carry * Weight(i + j) == Value(out0) + a[i] * (Prefix(b, j) * Weight(i))
    {
      var limb, next := MulStep(out[i + j], a[i], b[j], carry);
      RowStep(out, a[i], b, i, j, limb, next, carry);
      out, carry := out[i + j := limb], next;
    }
  }

  lemma {:induction false} WeightSum(i: nat, j: nat)
    ensures Weight(i + j) == Weight(i) * Weight(j)
  {
    if j > 0 {
      WeightSum(i, j - 1);
      Assoc(Weight(i), LIMB, Weight(j - 1));
      Assoc(LIMB, Weight(i), Weight(j - 1));
    }
  }

  lemma RowStep(out: Limbs, x: u64, b: Limbs, i: nat, j: nat, limb: u64, next: u64, carry: u64)
    requires i + j < 4
    requires limb + next * LIMB == out[i + j] + x * b[j] + carry
    ensures Value(out[i + j := limb]) + next * Weight(i + j + 1) - x * (Prefix(b, j + 1) * Weight(i)) ==
            Value(out) + carry * Weight(i + j) - x * (Prefix(b, j) * Weight(i))
  {
    var w: int, cur: int := Weight(i + j), out[i + j];
    PrefixUpdate(out, i + j, limb, 4);
    LimbStep(cur + x * b[j] + carry, limb, next, i + j);
    Scale(cur + x * b[j], carry, w);
    Scale(cur, x * b[j], w);
    Scale(limb, cur, w);
    // x * (b[j] * W(j)) * W(i) == x * b[j] * W(i + j)
    Scale(Prefix(b, j), b[j] * Weight(j), Weight(i));
    Distribute(x, Prefix(b, j) * Weight(i), b[j] * Weight(j) * Weight(i));
    WeightSum(i, j);
    Assoc(b[j], Weight(j), Weight(i));
    Assoc(Weight(j), Weight(i), 1);
    Assoc(x, b[j], w);
  }

  lemma Distribute(x: int, a: int, b: int)
    ensures x * (a + b) == x * a + x * b
  {
  }

  /** The limbs above the cut only add multiples of 2^256. */
  lemma {:induction false} UpperLimbs(b: Limbs, n: nat, i: nat) returns (q: nat)
    requires n <= i <= 4
    ensures Prefix(b, i) == Prefix(b, n) + q * Weight(n)
    decreases i
  {
    if i == n {
      q := 0;
    } else {
      var q' := UpperLimbs(b, n, i - 1);
      WeightSum(i - 1 - n, n);
      Assoc(b[i - 1], Weight(i - 1 - n), Weight(n));
      Scale(q', b[i - 1] * Weight(i - 1 - n), Weight(n));
      NatProduct(b[i - 1], Weight(i - 1 - n));
      q := q' + b[i - 1] * Weight(i - 1 - n);
    }
  }

  lemma NatProduct(a: nat, b: nat)
    ensures a * b >= 0
  {
  }

  method MulMod(a: Limbs, b: Limbs) returns (out: Limbs)
    ensures Value(out) == (Value(a) * Value(b)) % Weight(4)
  {
    out := ZERO;
    ghost var q: nat := 0;
    for i := 0 to 4
      invariant Value(out) + q * Weight(4) == Prefix(a, i) * Value(b)
    {
      var carry: u64;
      ghost var before := out;
      out, carry := MulRow(out, a, b, i);
      ghost var lost := RowLoses(a, b, i);
      Scale(q + carry, lost, Weight(4));
      Scale(q, carry, Weight(4));
      q := q + carry + lost;
    }
    Reduced(out, q, Value(a) * Value(b));
  }

  /** What row `i` does not add is a multiple of 2^256. */
  lemma RowLoses(a: Limbs, b: Limbs, i: nat) returns (lost: nat)
    requires i < 4
    ensures Prefix(a, i + 1) * Value(b) ==
            Prefix(a, i) * Value(b) + a[i] * (Prefix(b, 4 - i) * Weight(i)) + lost * Weight(4)
  {
    var upper := UpperLimbs(b, 4 - i, 4);
    var x: int, w: int, v: int := a[i], Weight(i), Value(b);
    NatProduct(a[i], upper);
    lost := a[i] * upper;
    WeightSum(4 - i, i);
    Scale(Prefix(a, i), x * w, v);
    assert v * w == Prefix(b, 4 - i) * w + upper * Weight(4) by {
      Scale(Prefix(b, 4 - i), upper * Weight(4 - i), w);
      Assoc(upper, Weight(4 - i), w);
    }
    assert (x * w) * v == x * (v * w) by {
      Assoc(x, w, v);
      Assoc(w, v, 1);
    }
    Distribute(x, Prefix(b, 4 - i) * w, upper * Weight(4));
    Assoc(x, upper, Weight(4));
  }

  // -------- shifting and single bits --------

  lemma {:induction false} PowSum(m: nat, n: nat)
    ensures Pow2(m + n) == Pow2(m) * Pow2(n)
  {
    if n > 0 {
      PowSum(m, n - 1);
      Assoc(Pow2(m), 2, Pow2(n - 1));
      Assoc(2, Pow2(m), Pow2(n - 1));
    }
  }

  lemma LimbIsPow()
    ensures Pow2(64) == LIMB
  {
    hide Pow2;
    EightBits();
    PowSum(8, 8);
    PowSum(16, 16);
    PowSum(32, 32);
  }

  lemma EightBits()
    ensures Pow2(8) == 256
  {
  }

  lemma {:induction false} WeightIsPow(i: nat)
    ensures Weight(i) == Pow2(64 * i)
  {
    if i > 0 {
      WeightIsPow(i - 1);
      LimbIsPow();
      PowSum(64, 64 * (i - 1));
    }
  }

  method Shl1(v: Limbs) returns (out: Limbs)
    ensures Value(out) == 2 * Value(v) % Weight(4)
    ensures 2 * Value(v) < Weight(4) ==> Value(out) == 2 * Value(v)
  {
    out := ZERO;
    var carry: u64 := 0;
    for i := 0 to 4
      invariant carry <= 1
      invariant Prefix(out, i) + carry * Weight(i) == 2 * Prefix(v, i)
    {
      var x: nat := v[i];
      var next, limb := x / 0x8000_0000_0000_0000, x * 2 % LIMB + carry;
      PrefixSame(out[i := limb], out, i);
      LimbStep(2 * x + carry, limb, next, i);
      Scale(2 * x, carry, Weight(i));
      Assoc(2, x, Weight(i));
      out, carry := out[i := limb], next;
    }
    Reduced(out, carry, 2 * Value(v));
    if 2 * Value(v) < Weight(4) {
      SmallMod(2 * Value(v), Weight(4));
    }
  }

  function GetBit(v: Limbs, bit: nat): nat
    requires bit < 256
  {
    Quotient(v[bit / 64], Pow2(bit % 64)) % 2
  }

  /** `v.w[word] |= 1 << off` */
  function SetBit(v: Limbs, bit: nat): Limbs
    requires bit < 256
  {
    SetBitFits(v, bit);
    if GetBit(v, bit) == 1 then v else v[bit / 64 := v[bit / 64] + Pow2(bit % 64)]
  }

  lemma {:induction false} PowMonotone(m: nat, n: nat)
    requires m <= n
    ensures Pow2(m) <= Pow2(n)
  {
    if m < n {
      PowMonotone(m, n - 1);
    }
  }

  lemma SetBitFits(v: Limbs, bit: nat)
    requires bit < 256
    ensures GetBit(v, bit) == 0 ==> v[bit / 64] + Pow2(bit % 64) <= U64_MAX
  {
    hide Quotient, Pow2;
    var x, off := v[bit / 64], bit % 64;
    LimbIsTwice(off);
    if GetBit(v, bit) == 0 {
      EvenBelowEven(Quotient(x, Pow2(off)), Pow2(off), Pow2(63 - off), x);
    }
  }

  /** An even multiple that is below an even number of steps leaves room for one more step. */
  lemma EvenBelowEven(q: nat, p: nat, t: nat, x: nat)
    requires q % 2 == 0 && q * p <= x < q * p + p && x < 2 * t * p
    ensures x + p < 2 * t * p
  {
    if q >= 2 * t {
      ScaleMonotone(2 * t, q, p);
    }
    ScaleMonotone(q + 2, 2 * t, p);
    Scale(q, 2, p);
  }

  /** `x / (d * e)` is `(x / d) / e`, seen from `x == n * d + low`. */
  lemma DivInTwoSteps(x: nat, n: nat, low: nat, d: nat, e: nat)
    requires d > 0 && e > 0 && x == n * d + low && low < d
    ensures d * e > 0 && Quotient(x, d * e) == Quotient(n, e)
  {
    hide Quotient, Remainder;
    var q, r := Quotient(n, e), Remainder(n, e);
    Scale(q * e, r, d);
    Assoc(q, e, d);
    Assoc(e, d, 1);
    ScaleMonotone(r + 1, e, d);
    Scale(r, 1, d);
    ScaleMonotone(1, e, d);
    NatProduct(r, d);
    QuotientUnique(x, d * e, q, r * d + low);
  }

  lemma AddMultiple(x: nat, p: nat, hi: nat)
    requires p > 0
    ensures hi * p >= 0 && Quotient(x + hi * p, p) == Quotient(x, p) + hi
  {
    hide Quotient, Remainder;
    Scale(Quotient(x, p), hi, p);
    NatProduct(hi, p);
    QuotientUnique(x + hi * p, p, Quotient(x, p) + hi, Remainder(x, p));
  }

  /** The number, cut just below limb `word`: that limb plus a multiple of 2^64, above less than one unit. */
  lemma CutAtLimb(v: Limbs, word: nat) returns (hi: nat)
    requires word < 4
    ensures Value(v) == (v[word] + hi * LIMB) * Weight(word) + Prefix(v, word) && Prefix(v, word) < Weight(word)
  {
    hi := UpperLimbs(v, word + 1, 4);
    PrefixBound(v, word);
    Assoc(hi, LIMB, Weight(word));
    Scale(v[word], hi * LIMB, Weight(word));
  }

  /** Bit `bit` of the limbs is bit `bit` of the number. */
  lemma BitOfValue(v: Limbs, bit: nat)
    requires bit < 256
    ensures GetBit(v, bit) == Quotient(Value(v), Pow2(bit)) % 2
    ensures Quotient(Value(v), Pow2(bit)) == 2 * Quotient(Value(v), Pow2(bit + 1)) + GetBit(v, bit)
  {
    hide Quotient, Value, Prefix, Weight;
    var word, off := bit / 64, bit % 64;
    var x, p, t := v[word], Pow2(off), Pow2(63 - off);
    var hi := CutAtLimb(v, word);
    WeightIsPow(word);
    PowSum(64 * word, off);
    DivInTwoSteps(Value(v), x + hi * LIMB, Prefix(v, word), Weight(word), p);
    LimbIsTwice(off);
    MultipleOfLimb(x, p, t, hi);
    HalfQuotient(Value(v), bit);
  }

  lemma LimbIsTwice(off: nat)
    requires off < 64
    ensures LIMB == 2 * Pow2(63 - off) * Pow2(off)
  {
    PowSum(off, 64 - off);
    LimbIsPow();
    assert Pow2(64 - off) == 2 * Pow2(63 - off);
    Assoc(Pow2(off), Pow2(64 - off), 1);
  }

  /** Adding a multiple of 2^64 does not change the bit above `p` within a limb. */
  lemma MultipleOfLimb(x: nat, p: nat, t: nat, hi: nat)
    requires p > 0 && LIMB == 2 * t * p
    ensures Quotient(x + hi * LIMB, p) % 2 == Quotient(x, p) % 2
  {
    hide Quotient;
    NatProduct(hi, t);
    Assoc(hi, 2 * t, p);
    Assoc(hi, 2, t);
    Assoc(2, hi, t);
    AddMultiple(x, p, 2 * (hi * t));
  }

  lemma HalfQuotient(x: nat, bit: nat)
    ensures Quotient(x, Pow2(bit)) == 2 * Quotient(x, Pow2(bit + 1)) + Quotient(x, Pow2(bit)) % 2
  {
    hide Quotient;
    var q := Quotient(x, Pow2(bit));
    DivInTwoSteps(x, q, x - q * Pow2(bit), Pow2(bit), 2);
    assert Pow2(bit) * 2 == Pow2(bit + 1);
    Halve(q);
  }

  lemma Halve(q: nat)
    ensures q == 2 * Quotient(q, 2) + q % 2
  {
  }

  lemma SetBitAdds(v: Limbs, bit: nat)
    requires bit < 256 && GetBit(v, bit) == 0
    ensures Value(SetBit(v, bit)) == Value(v) + Pow2(bit)
  {
    hide GetBit, Pow2, Weight, Prefix;
    var word, off := bit / 64, bit % 64;
    SetBitFits(v, bit);
    var x: int, p: int := v[word], Pow2(off);
    PrefixUpdate(v, word, v[word] + Pow2(off), 4);
    Scale(x + p, x, Weight(word));
    Scale(x, p, Weight(word));
    WeightIsPow(word);
    PowSum(64 * word, off);
    Assoc(Pow2(off), Weight(word), 1);
  }

  // -------- division --------

  /** The schoolbook step: quotient and remainder after bringing down one more bit. */
  lemma BringDown(x: nat, g: nat, d: nat)
    requires d > 0 && g <= 1
    ensures var r := 2 * Remainder(x, d) + g;
            if r >= d then Remainder(2 * x + g, d) == r - d && Quotient(2 * x + g, d) == 2 * Quotient(x, d) + 1
            else Remainder(2 * x + g, d) == r && Quotient(2 * x + g, d) == 2 * Quotient(x, d)
  {
    hide Quotient, Remainder;
    var q, r := Quotient(x, d), 2 * Remainder(x, d) + g;
    Assoc(2, q, d);
    Scale(2 * q, 1, d);
    if r >= d {
      QuotientUnique(2 * x + g, d, 2 * q + 1, r - d);
    } else {
      QuotientUnique(2 * x + g, d, 2 * q, r);
    }
  }

  /** Shift the remainder left and bring down bit `bit` of `a`: the top bit is never lost, whatever the divisor. */
  method ShiftIn(r: Limbs, a: Limbs, bit: nat) returns (next: Limbs)
    requires bit < 256 && Value(r) <= Quotient(Value(a), Pow2(bit + 1))
    ensures Value(next) == 2 * Value(r) + GetBit(a, bit)
  {
    hide Quotient, Value, GetBit, SetBit;
    BitOfValue(a, bit);
    BitRange(a, bit);
    PrefixBoundValue(a);
    QuotientAtMost(Value(a), Pow2(bit));
    next := Shl1(r);
    var g := GetBit(a, bit);
    if g == 1 {
      LowBitOfEven(next, Value(r));
      SetBitAdds(next, 0);
      PowZero();
      next := SetBit(next, 0);
    }
  }

  lemma PrefixBoundValue(a: Limbs)
    ensures Value(a) < Weight(4)
  {
    PrefixBound(a, 4);
  }

  lemma BitRange(a: Limbs, bit: nat)
    requires bit < 256
    ensures GetBit(a, bit) <= 1
  {
  }

  lemma LowBitOfEven(v: Limbs, half: nat)
    requires Value(v) == 2 * half
    ensures GetBit(v, 0) == 0
  {
    BitOfValue(v, 0);
    QuotientUnique(Value(v), 1, Value(v), 0);
  }

  lemma PowZero()
    ensures Pow2(0) == 1
  {
  }

  lemma QuotientAtMost(x: nat, d: nat)
    requires d > 0
    ensures Quotient(x, d) <= x
  {
    hide Quotient;
    ScaleMonotone(1, d, Quotient(x, d));
    Assoc(Quotient(x, d), d, 1);
  }

  lemma {:induction false} ValueZero()
    ensures Value(ZERO) == 0
  {
    assert Prefix(ZERO, 2) == 0;
  }

  method IsZero(w: Limbs) returns (zero: bool)
    ensures zero <==> Value(w) == 0
  {
    zero := w[0] == 0 && w[1] == 0 && w[2] == 0 && w[3] == 0;
    ZeroLimbs(w, 4);
  }

  lemma {:induction false} ZeroLimbs(w: seq<u64>, i: nat)
    requires i <= |w|
    ensures Prefix(w, i) == 0 <==> forall k | 0 <= k < i :: w[k] == 0
  {
    if i > 0 {
      ZeroLimbs(w, i - 1);
      if w[i - 1] > 0 {
        ScaleMonotone(1, w[i - 1], Weight(i - 1));
      }
    }
  }

  lemma SmallDividend(x: nat, d: nat)
    requires x < d
    ensures Quotient(x, d) == 0 && Remainder(x, d) == x
  {
    QuotientUnique(x, d, 0, x);
  }

  /** Quotient and remainder of the number that `a`'s bits from `bit` upwards stand for. */
  function Quot(a: Limbs, b: Limbs, bit: nat): nat
    requires Value(b) > 0
  {
    Quotient(Quotient(Value(a), Pow2(bit)), Value(b))
  }

  function Rem(a: Limbs, b: Limbs, bit: nat): nat
    requires Value(b) > 0
  {
    Remainder(Quotient(Value(a), Pow2(bit)), Value(b))
  }

  lemma DivisionStart(a: Limbs, b: Limbs)
    requires Value(b) > 0
    ensures Quot(a, b, 256) == Rem(a, b, 256) == 0
  {
    PrefixBound(a, 4);
    WeightIsPow(4);
    SmallDividend(Value(a), Pow2(256));
    SmallDividend(0, Value(b));
  }

  lemma DivisionStep(a: Limbs, b: Limbs, bit: nat)
    requires bit < 256 && Value(b) > 0
    ensures Rem(a, b, bit + 1) <= Quotient(Value(a), Pow2(bit + 1))
    ensures var r := 2 * Rem(a, b, bit + 1) + GetBit(a, bit);
            if r >= Value(b) then Rem(a, b, bit) == r - Value(b) && Quot(a, b, bit) == 2 * Quot(a, b, bit + 1) + 1
            else Rem(a, b, bit) == r && Quot(a, b, bit) == 2 * Quot(a, b, bit + 1)
  {
    hide Value, Pow2, GetBit, Quotient, Remainder;
    RemainderAtMost(Quotient(Value(a), Pow2(bit + 1)), Value(b));
    BitOfValue(a, bit);
    BitRange(a, bit);
    BringDown(Quotient(Value(a), Pow2(bit + 1)), GetBit(a, bit), Value(b));
  }

  lemma DivisionEnd(a: Limbs, b: Limbs)
    requires Value(b) > 0
    ensures Quot(a, b, 0) == Value(a) / Value(b) && Rem(a, b, 0) == Value(a) % Value(b)
  {
    PowZero();
    QuotientUnique(Value(a), 1, Value(a), 0);
  }

  lemma SmallerDividend(a: Limbs, b: Limbs)
    requires Value(a) < Value(b)
    ensures Value(a) / Value(b) == 0 && Value(a) % Value(b) == Value(a)
  {
    SmallDividend(Value(a), Value(b));
  }

  /** One turn of the remainder loop; `subtracted` says whether the quotient gets a bit. */
  method RemainderBit(r0: Limbs, a: Limbs, b: Limbs, bit: nat) returns (r: Limbs, subtracted: bool)
    requires bit < 256 && Value(b) > 0 && Value(r0) == Rem(a, b, bit + 1)
    ensures Value(r) == Rem(a, b, bit)
    ensures Quot(a, b, bit) == 2 * Quot(a, b, bit + 1) + if subtracted then 1 else 0
  {
    hide Value, Pow2, GetBit, Rem, Quot;
    DivisionStep(a, b, bit);
    r := ShiftIn(r0, a, bit);
    var below := Less(r, b);
    subtracted := !below;
    if subtracted {
      r := SubMod(r, b);
    }
  }

  /** The quotient gets bit `bit`. */
  lemma QuotientBit(q: Limbs, n: nat, bit: nat)
    requires bit < 256 && Value(q) == n * Pow2(bit + 1)
    ensures Value(q) == 2 * n * Pow2(bit)
    ensures Value(SetBit(q, bit)) == (2 * n + 1) * Pow2(bit)
  {
    hide Value, GetBit, SetBit;
    DoubleStep(n, bit);
    BitIsClear(q, n, bit);
    SetBitAdds(q, bit);
    Scale(2 * n, 1, Pow2(bit));
  }

  method Div(a: Limbs, b: Limbs) returns (q: Limbs)
    ensures Value(q) == if Value(b) == 0 then 0 else Value(a) / Value(b)
  {
    hide Value, Pow2, GetBit, SetBit, Rem, Quot;
    ValueZero();
    var zero := IsZero(b);
    if zero {
      return ZERO;
    }
    var small := Less(a, b);
    if small {
      SmallerDividend(a, b);
      return ZERO;
    }
    q := ZERO;
    var r := ZERO;
    DivisionStart(a, b);
    var bit := 255;
    while bit >= 0
      invariant -1 <= bit <= 255
      invariant Value(r) == Rem(a, b, bit + 1)
      invariant Value(q) == Quot(a, b, bit + 1) * Pow2(bit + 1)
    {
      QuotientBit(q, Quot(a, b, bit + 1), bit);
      var subtracted: bool;
      r, subtracted := RemainderBit(r, a, b, bit);
      if subtracted {
        q := SetBit(q, bit);
      }
      bit := bit - 1;
    }
    DivisionEnd(a, b);
    PowZero();
  }

  method Mod(a: Limbs, b: Limbs) returns (r: Limbs)
    ensures Value(r) == if Value(b) == 0 then 0 else Value(a) % Value(b)
  {
    hide Value, Pow2, GetBit, Rem, Quot;
    ValueZero();
    var zero := IsZero(b);
    if zero {
      return ZERO;
    }
    var small := Less(a, b);
    if small {
      SmallerDividend(a, b);
      return a;
    }
    r := ZERO;
    DivisionStart(a, b);
    var bit := 255;
    while bit >= 0
      invariant -1 <= bit <= 255
      invariant Value(r) == Rem(a, b, bit + 1)
    {
      var subtracted: bool;
      r, subtracted := RemainderBit(r, a, b, bit);
      bit := bit - 1;
    }
    DivisionEnd(a, b);
  }

  lemma DoubleStep(q: nat, bit: nat)
    ensures q * Pow2(bit + 1) == 2 * q * Pow2(bit)
  {
    Assoc(q, 2, Pow2(bit));
    Assoc(2, q, Pow2(bit));
  }

  lemma BitIsClear(q: Limbs, n: nat, bit: nat)
    requires bit < 256 && Value(q) == 2 * n * Pow2(bit)
    ensures GetBit(q, bit) == 0
  {
    hide Value, GetBit, Quotient, Remainder;
    BitOfValue(q, bit);
    QuotientUnique(Value(q), Pow2(bit), 2 * n, 0);
  }

  lemma RemainderAtMost(x: nat, d: nat)
    requires d > 0
    ensures Remainder(x, d) <= x
  {
    hide Quotient, Remainder;
    NatProduct(Quotient(x, d), d);
  }
}
