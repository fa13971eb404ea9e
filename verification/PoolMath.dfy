/** The pool's share and price arithmetic: floor divisions that always favour the pool. */
module PoolMath {
  lemma DivBounds(x: nat, d: nat)
    requires d > 0
    ensures x / d * d <= x < x / d * d + d
  {
  }

  lemma ScaleMonotone(a: nat, b: nat, p: nat)
    requires a <= b
    ensures a * p <= b * p
  {
  }

  lemma ProductMonotone(a: nat, b: nat, c: nat, d: nat)
    requires a <= b && c <= d
    ensures a * c <= b * d
  {
    ScaleMonotone(a, b, c);
    ScaleMonotone(c, d, b);
  }

  lemma CancelFactor(a: nat, b: nat, p: nat)
    requires p > 0 && a * p <= b * p
    ensures a <= b
  {
    if b < a {
      ScaleMonotone(b + 1, a, p);
    }
  }

  lemma Regroup(a: nat, b: nat, c: nat, d: nat)
    ensures (a * b) * (c * d) == (a * c) * (b * d)
  {
  }

  /**
   Supplies stay below the geometric mean of the reserves whenever neither reserve per share falls: from
   `l * l <= r0 * r1` and `n / l <= s0 / r0`, `n / l <= s1 / r1` follows `n * n <= s0 * s1`.
   */
  lemma GeometricMean(l: nat, r0: nat, r1: nat, n: nat, s0: nat, s1: nat)
    requires l * l <= r0 * r1 && r0 > 0 && r1 > 0
    requires n * r0 <= l * s0 && n * r1 <= l * s1
    ensures n * n <= s0 * s1
  {
    ProductMonotone(n * r0, l * s0, n * r1, l * s1);
    Regroup(n, r0, n, r1);
    Regroup(l, s0, l, s1);
    ScaleMonotone(l * l, r0 * r1, s0 * s1);
    assert (r0 * r1) * (s0 * s1) == (s0 * s1) * (r0 * r1);
    PositiveProduct(r0, r1);
    CancelFactor(n * n, s0 * s1, r0 * r1);
  }

  lemma PositiveProduct(a: nat, b: nat)
    requires a > 0 && b > 0
    ensures a * b > 0
  {
  }

  /** Minting at most `amount * supply / reserve` shares does not lower the reserve per share. */
  lemma MintKeepsShare(amount: nat, supply: nat, reserve: nat, minted: nat)
    requires reserve > 0 && minted <= amount * supply / reserve
    ensures (supply + minted) * reserve <= supply * (reserve + amount)
  {
    DivBounds(amount * supply, reserve);
    ScaleMonotone(minted, amount * supply / reserve, reserve);
    assert (supply + minted) * reserve == supply * reserve + minted * reserve;
    assert supply * (reserve + amount) == supply * reserve + amount * supply;
  }

  /** Paying out the floor of the proportional part does not lower the reserve per share either. */
  lemma BurnKeepsShare(burned: nat, supply: nat, reserve: nat, paid: nat)
    requires supply > 0 && burned <= supply && paid == burned * reserve / supply
    ensures paid <= reserve
    ensures (supply - burned) * reserve <= supply * (reserve - paid)
    ensures burned < supply && reserve > 0 ==> paid < reserve
    ensures burned == supply ==> paid == reserve
  {
    DivBounds(burned * reserve, supply);
    ScaleMonotone(burned, supply, reserve);
    assert supply * reserve == reserve * supply;
    CancelFactor(paid, reserve, supply);
    assert (supply - burned) * reserve == supply * reserve - burned * reserve;
    assert supply * (reserve - paid) == supply * reserve - paid * supply;
    assert (burned + 1) * reserve == burned * reserve + reserve;
    assert (paid + 1) * supply == paid * supply + supply;
    if burned < supply && reserve > 0 {
      ScaleMonotone(burned + 1, supply, reserve);
      CancelStrict(paid, reserve, supply);
    } else if burned == supply {
      CancelStrict(reserve, paid + 1, supply);
    }
  }

  lemma CancelStrict(a: nat, b: nat, p: nat)
    requires a * p < b * p
    ensures a < b
  {
    if b <= a {
      ScaleMonotone(b, a, p);
    }
  }

  /** A swap pays out at most the constant-product amount, so the product of the reserves does not fall. */
  lemma SwapKeepsProduct(rin: nat, rout: nat, amountIn: nat, afterFee: nat, amountOut: nat)
    requires afterFee <= amountIn && rin + afterFee > 0
    requires amountOut == afterFee * rout / (rin + afterFee) && amountOut <= rout
    ensures rin * rout <= (rin + amountIn) * (rout - amountOut)
  {
    var den := rin + afterFee;
    DivBounds(afterFee * rout, den);
    ScaleMonotone(den, rin + amountIn, rout - amountOut);
    assert den * (rout - amountOut) == den * rout - amountOut * den;
    assert den * rout == rin * rout + afterFee * rout;
  }

  lemma FeeOnlyLowers(amountIn: nat, feeBps: nat)
    requires feeBps <= 10000
    ensures amountIn * (10000 - feeBps) / 10000 <= amountIn
  {
    ScaleMonotone(10000 - feeBps, 10000, amountIn);
    assert amountIn * (10000 - feeBps) <= amountIn * 10000;
  }
}
