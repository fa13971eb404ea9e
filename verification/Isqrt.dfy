/** The pool contract's integer square root: a Newton iteration that stops when two iterates agree. */
module Isqrt {
  import opened Common

  const U128_MAX: nat := (U64_MAX + 1) * (U64_MAX + 1) - 1

  type u128 = x: nat | x <= U128_MAX

  predicate IsFloorSqrt(x: nat, s: nat) {
    s * s <= x < (s + 1) * (s + 1)
  }

  function FloorSqrt(x: nat): (s: nat)
    ensures IsFloorSqrt(x, s)
  {
    if x == 0 then 0
    else
      var s := FloorSqrt(x - 1);
      if (s + 1) * (s + 1) <= x then
        assert (s + 2) * (s + 2) > x;
        s + 1
      else s
  }

  predicate IsSquare(x: nat) {
    FloorSqrt(x) * FloorSqrt(x) == x
  }

  lemma FloorSqrtUnique(x: nat, s: nat)
    requires IsFloorSqrt(x, s)
    ensures s == FloorSqrt(x)
  {
    var t := FloorSqrt(x);
    if s < t {
      SquareMonotone(s + 1, t);
    } else if t < s {
      SquareMonotone(t + 1, s);
    }
  }

  lemma SquareMonotone(a: nat, b: nat)
    requires a <= b
    ensures a * a <= b * b
  {
    assert a * a <= a * b <= b * b;
  }

  function Newton(x: nat, r: nat): (next: nat)
    requires r > 0
  {
    (r + x / r) / 2
  }

  lemma DivBounds(x: nat, r: nat)
    requires r > 0
    ensures x / r * r <= x < x / r * r + r
  {
  }

  lemma ScaleMonotone(a: nat, b: nat, p: nat)
    requires a <= b
    ensures a * p <= b * p
  {
  }

  lemma QuotientIs(x: nat, r: nat, q: nat)
    requires r > 0 && q * r <= x < q * r + r
    ensures x / r == q
  {
    DivBounds(x, r);
    var p := x / r;
    if p < q {
      ScaleMonotone(p + 1, q, r);
    } else if q < p {
      ScaleMonotone(q + 1, p, r);
    }
  }

  /** Two numbers whose sum is at most 2s have a product of at most s * s. */
  lemma MeanBound(a: int, b: int, s: int)
    requires 0 <= a && a + b <= 2 * s
    ensures a * b <= s * s
  {
    var d := a - s;
    assert a * (s - d) == s * s - d * d;
    assert a * b <= a * (s - d);
  }

  /** A step never undershoots the floor root. */
  lemma NewtonAbove(x: nat, r: nat)
    requires r > 0
    ensures Newton(x, r) >= FloorSqrt(x)
  {
    DivBounds(x, r);
    SumAtLeastTwice(x, FloorSqrt(x), r, x / r);
  }

  lemma SumAtLeastTwice(x: nat, s: nat, r: nat, q: nat)
    requires s * s <= x < q * r + r
    ensures r + q >= 2 * s
  {
    if r + q < 2 * s {
      MeanBound(q + 1, r, s);
    }
  }

  /** Above the floor root every step goes strictly down. */
  lemma NewtonDown(x: nat, r: nat)
    requires r > FloorSqrt(x)
    ensures Newton(x, r) < r
  {
    DivBounds(x, r);
    QuotientBelow(x, FloorSqrt(x), r, x / r);
  }

  lemma QuotientBelow(x: nat, s: nat, r: nat, q: nat)
    requires x < (s + 1) * (s + 1) && s + 1 <= r && q * r <= x
    ensures q < r
  {
    SquareMonotone(s + 1, r);
    if q >= r {
      ScaleMonotone(r, q, r);
    }
  }

  /** At the floor root the iteration stays, unless `x + 1` is a square: then it steps up by one. */
  lemma NewtonAtRoot(x: nat)
    requires x > 0
    ensures FloorSqrt(x) > 0
    ensures Newton(x, FloorSqrt(x)) == if IsSquare(x + 1) then FloorSqrt(x) + 1 else FloorSqrt(x)
  {
    hide Newton, FloorSqrt, IsSquare;
    var s := FloorSqrt(x);
    var e := x - s * s;
    assert (s + 1) * (s + 1) == s * s + 2 * s + 1;
    if e < s {
      NewtonIs(x, s, s);
      NextIsNoSquare(x, s);
    } else if e < 2 * s {
      assert (s + 1) * s == s * s + s;
      NewtonIs(x, s, s + 1);
      NextIsNoSquare(x, s);
    } else {
      assert (s + 2) * s == s * s + 2 * s == x;
      NewtonIs(x, s, s + 2);
      NextIsSquare(x, s);
    }
  }

  lemma NewtonIs(x: nat, r: nat, q: nat)
    requires r > 0 && q * r <= x < q * r + r
    ensures Newton(x, r) == (r + q) / 2
  {
    QuotientIs(x, r, q);
  }

  lemma NextIsSquare(x: nat, s: nat)
    requires x + 1 == (s + 1) * (s + 1)
    ensures IsSquare(x + 1)
  {
    assert (s + 2) * (s + 2) > x + 1;
    FloorSqrtIs(x + 1, s + 1);
  }

  lemma NextIsNoSquare(x: nat, s: nat)
    requires s * s <= x && x + 1 < (s + 1) * (s + 1)
    ensures !IsSquare(x + 1)
  {
    FloorSqrtIs(x + 1, s);
  }

  lemma FloorSqrtIs(x: nat, s: nat)
    requires s * s <= x < (s + 1) * (s + 1)
    ensures FloorSqrt(x) == s
  {
    FloorSqrtUnique(x, s);
  }

  /** When `x + 1` is a square the root's successor steps back down. */
  lemma NewtonAboveRoot(x: nat)
    requires x > 0 && IsSquare(x + 1)
    ensures Newton(x, FloorSqrt(x) + 1) == FloorSqrt(x)
  {
    var s, t := FloorSqrt(x), FloorSqrt(x + 1);
    SquareAbove(x, s, t);
    assert (s + 1) * (s + 1) == s * (s + 1) + s + 1;
    QuotientIs(x, s + 1, s);
  }

  lemma SquareAbove(x: nat, s: nat, t: nat)
    requires s * s <= x < (s + 1) * (s + 1) && t * t == x + 1
    ensures t == s + 1
  {
    assert (s + 2) * (s + 2) > (s + 1) * (s + 1) + 1;
    if t <= s {
      SquareMonotone(t, s);
    } else if t > s + 1 {
      SquareMonotone(s + 2, t);
    }
  }

  // -------- the loop --------

  /** The loop variable after `k` steps. */
  function Iterate(x: nat, k: nat): (r: nat)
    requires x > 0
    ensures r > 0
  {
    if k == 0 then x
    else
      NewtonAbove(x, Iterate(x, k - 1));
      NewtonAtRoot(x);
      Newton(x, Iterate(x, k - 1))
  }

  /** The loop leaves when two consecutive values agree (it starts from `prev == 0`, which no iterate equals). */
  ghost predicate LoopStops(x: nat) {
    x == 0 || exists k: nat :: Iterate(x, k + 1) == Iterate(x, k)
  }

  lemma {:induction false} IterateAbove(x: nat, k: nat)
    requires x > 0
    ensures Iterate(x, k) >= FloorSqrt(x)
  {
    if k == 0 {
      RootAtMost(x);
    } else {
      NewtonAbove(x, Iterate(x, k - 1));
    }
  }

  lemma RootAtMost(x: nat)
    ensures FloorSqrt(x) <= x
  {
    var s := FloorSqrt(x);
    if s > 0 {
      ScaleMonotone(1, s, s);
    }
  }

  /** As long as it is above the root the iteration descends, so it reaches the root. */
  lemma {:induction false} IterateReachesRoot(x: nat, k: nat) returns (m: nat)
    requires x > 0
    ensures m >= k && Iterate(x, m) == FloorSqrt(x)
    decreases Iterate(x, k)
  {
    IterateAbove(x, k);
    if Iterate(x, k) == FloorSqrt(x) {
      m := k;
    } else {
      NewtonDown(x, Iterate(x, k));
      m := IterateReachesRoot(x, k + 1);
    }
  }

  /** When `x + 1` is a square no two consecutive iterates agree. */
  lemma NeverTwice(x: nat, k: nat)
    requires x > 0 && IsSquare(x + 1)
    ensures Iterate(x, k + 1) != Iterate(x, k)
  {
    IterateAbove(x, k);
    NewtonAtRoot(x);
    if Iterate(x, k) > FloorSqrt(x) {
      NewtonDown(x, Iterate(x, k));
    }
  }

  /** The loop stops exactly for 0 and for the numbers whose successor is not a square. */
  lemma LoopStopsIff(x: nat)
    ensures LoopStops(x) <==> x == 0 || !IsSquare(x + 1)
  {
    if x > 0 {
      if IsSquare(x + 1) {
        forall k: nat {
          NeverTwice(x, k);
        }
      } else {
        var m := IterateReachesRoot(x, 0);
        NewtonAtRoot(x);
        assert Iterate(x, m + 1) == Iterate(x, m);
      }
    }
  }

  /** In the diverging case the iterates end up alternating between the root and its successor. */
  lemma AlternatesForever(x: nat, k: nat)
    requires x > 0 && IsSquare(x + 1) && Iterate(x, k) == FloorSqrt(x)
    ensures Iterate(x, k + 1) == FloorSqrt(x) + 1 && Iterate(x, k + 2) == FloorSqrt(x)
  {
    NewtonAtRoot(x);
    NewtonAboveRoot(x);
  }

  /** Where the loop stops, it stops at the floor root, which always fits 64 bits; no step overflows 128 bits. */
  method IntegerSqrt(x: u128) returns (r: Option<u64>)
    requires x == 0 || !IsSquare(x + 1)
    ensures r == Some(FloorSqrt(x))
  {
    if x == 0 {
      return Some(0);
    }
    RootAtMost(x);
    NewtonAtRoot(x);
    RootFits(x);
    MaxIsExcluded(x);
    var s, prev: u128 := x, 0;
    while s != prev
      invariant s >= FloorSqrt(x) && s <= x
      invariant prev != 0 ==> s == Newton(x, prev) && prev >= FloorSqrt(x)
      invariant s == prev ==> s == FloorSqrt(x)
      decreases 2 * s + if s == prev then 0 else 1
    {
      prev := s;
      assert s + x / s <= U128_MAX by {
        SumFits(x, s);
      }
      s := (s + x / s) / 2;
      NewtonAbove(x, prev);
      if prev > FloorSqrt(x) {
        NewtonDown(x, prev);
      }
    }
    if s > U64_MAX {
      return None;
    }
    return Some(s);
  }

  lemma RootFits(x: u128)
    ensures FloorSqrt(x) <= U64_MAX
  {
    if FloorSqrt(x) > U64_MAX {
      SquareMonotone(U64_MAX + 1, FloorSqrt(x));
    }
  }

  lemma MaxIsExcluded(x: u128)
    requires !IsSquare(x + 1)
    ensures x < U128_MAX
  {
    if x == U128_MAX {
      FloorSqrtIs(x + 1, U64_MAX + 1);
    }
  }

  /** `r + x / r` is largest at the ends, where it is `x + 1`. */
  lemma SumFits(x: nat, r: nat)
    requires 1 <= r <= x
    ensures r + x / r <= x + 1
  {
    DivBounds(x, r);
    SumBound(x, r, x / r);
  }

  lemma SumBound(x: nat, r: nat, q: nat)
    requires 1 <= r <= x && q * r <= x
    ensures r + q <= x + 1
  {
    if q > 0 {
      ScaleMonotone(1, r, q - 1);
      assert r * (q - 1) == q * r - r;
    }
  }
}
