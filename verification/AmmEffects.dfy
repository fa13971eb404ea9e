/** What each call of the pool gives and takes, and why its quotes are the best the pool can afford. */
module AmmEffects {
  import opened Common
  import opened ContractStore
  import opened PoolMath
  import opened Amm
  import opened AmmTheorems
  import opened AmmCalls
  import opened Ledger

  // -------- quotes --------

  /** The floored quotient is the largest `m` with `m * c <= a * b`. */
  lemma FloorIsLargest(a: nat, b: nat, c: nat, m: nat)
    requires c > 0
    ensures m <= MulDiv(a, b, c) <==> m * c <= a * b
  {
    var q := MulDiv(a, b, c);
    DivBounds(a * b, c);
    if m <= q {
      ScaleMonotone(m, q, c);
    } else {
      ScaleMonotone(q + 1, m, c);
    }
  }

  lemma LeftAfterPaying(rin: nat, rout: nat, added: nat, m: nat)
    requires m <= rout
    ensures rin * rout <= (rin + added) * (rout - m) <==> m * (rin + added) <= added * rout
  {
    assert (rin + added) * (rout - m) == rin * rout + added * rout - m * (rin + added);
  }

  /** A swap pays the most that does not lower the product of the reserves, counting the input after its fee. */
  lemma SwapQuoteIsBest(rin: u64, rout: u64, feeBps: u64, amountIn: u64, m: nat)
    requires feeBps <= 10000 && SwapQuote(rin, rout, feeBps, amountIn).Some? && m <= rout
    ensures var afterFee := MulDiv(amountIn, 10000 - feeBps, 10000);
      m <= SwapQuote(rin, rout, feeBps, amountIn).value <==> rin * rout <= (rin + afterFee) * (rout - m)
  {
    hide MulDiv;
    var afterFee := MulDiv(amountIn, 10000 - feeBps, 10000);
    FloorIsLargest(afterFee, rout, rin + afterFee, m);
    LeftAfterPaying(rin, rout, afterFee, m);
  }

  /** An addition to a pool with shares mints the most that both deposits cover at the present ratio. */
  lemma MintQuoteIsMost(pool: Pool, amount0: u64, amount1: u64, m: nat)
    requires pool.supply > 0 && MintQuote(pool, amount0, amount1).Quoted?
    ensures m <= MintQuote(pool, amount0, amount1).value <==>
      m * pool.r0 <= amount0 * pool.supply && m * pool.r1 <= amount1 * pool.supply
  {
    hide MulDiv;
    FloorIsLargest(amount0, pool.supply, pool.r0, m);
    FloorIsLargest(amount1, pool.supply, pool.r1, m);
  }

  /** A removal pays, of each token, the most that the burned shares are worth. */
  lemma BurnQuoteIsMost(pool: Pool, shares: u64, m: nat)
    requires BurnQuote(pool, shares).Some?
    ensures var (out0, out1) := BurnQuote(pool, shares).value;
      && (m <= out0 <==> m * pool.supply <= shares * pool.r0)
      && (m <= out1 <==> m * pool.supply <= shares * pool.r1)
  {
    hide MulDiv;
    FloorIsLargest(shares, pool.r0, pool.supply, m);
    FloorIsLargest(shares, pool.r1, pool.supply, m);
  }

  // -------- calls --------

  ghost predicate Pays(st: Store, next: Store, token: string, from: Address, to: Address, amount: int) {
    Balance(next, token, from) == Balance(st, token, from) - amount
      && Balance(next, token, to) == Balance(st, token, to) + amount
  }

  /** Everything a call changes for its caller and the pool. */
  ghost predicate Trades(st: Store, next: Store, contract: string, caller: string, in0: int, in1: int, gain: int)
    requires Initialized(st, contract)
  {
    var me, vault := AddressOf(caller), PoolAddress(contract);
    && R0(next, contract) == R0(st, contract) + in0 && R1(next, contract) == R1(st, contract) + in1
    && Supply(next, contract) == Supply(st, contract) + gain
    && Pays(st, next, Token0(st, contract).value, me, vault, in0)
    && Pays(st, next, Token1(st, contract).value, me, vault, in1)
    && forall account ::
         ShareOf(next, contract, account) == ShareOf(st, contract, account) + if account == caller then gain else 0
  }

  lemma BooksDiffer(st: Store, contract: string)
    requires Inv(st, contract) && Initialized(st, contract)
    ensures Token0(st, contract).value != Token1(st, contract).value
    ensures Supply(st, contract) == Total(st, ShareWeight(contract))
  {
  }

  lemma BothPay(st: Store, token0: string, from0: Address, to0: Address, amount0: nat, token1: string, from1: Address,
                to1: Address, amount1: nat)
    requires CanSend(st, token0, from0, to0, amount0) && CanSend(st, token1, from1, to1, amount1)
    requires token0 != token1 && from0 != to0 && from1 != to1
    ensures var paid := Sent(Sent(st, st, token0, from0, to0, amount0), st, token1, from1, to1, amount1);
      Pays(st, paid, token0, from0, to0, amount0) && Pays(st, paid, token1, from1, to1, amount1)
  {
  }

  /** New numbers and an event after a payment leave its balances alone. */
  lemma NumbersThen(st: Store, paid: Store, contract: string, r0: u64, r1: u64, supply: u64, owner: string, share: u64,
                    event: Value)
    requires CanRecord(st, contract) && OnlyTokens(st, paid)
    ensures var pool := Put(Put(paid, Slot(contract, PoolReserve0), r0), Slot(contract, PoolReserve1), r1);
      var owned := Put(Put(pool, Slot(contract, PoolSupply), supply), Slot(contract, PoolShare(owner)), share);
      var next := Recorded(owned, st, contract, event);
      && R0(next, contract) == r0 && R1(next, contract) == r1 && Supply(next, contract) == supply
      && (forall account ::
            ShareOf(next, contract, account) == if account == owner then share else ShareOf(st, contract, account))
      && forall token, who :: Balance(next, token, who) == Balance(paid, token, who)
  {
  }

  lemma ReservesThen(st: Store, paid: Store, contract: string, slotIn: Slot, newIn: u64, slotOut: Slot, newOut: u64,
                     event: Value)
    requires CanRecord(st, contract) && OnlyTokens(st, paid) && slotIn != slotOut
    requires slotIn in {Slot(contract, PoolReserve0), Slot(contract, PoolReserve1)}
    requires slotOut in {Slot(contract, PoolReserve0), Slot(contract, PoolReserve1)}
    ensures var next := Recorded(Put(Put(paid, slotIn, newIn), slotOut, newOut), st, contract, event);
      && Num(next, slotIn) == newIn && Num(next, slotOut) == newOut && Supply(next, contract) == Supply(st, contract)
      && (forall account :: ShareOf(next, contract, account) == ShareOf(st, contract, account))
      && forall token, who :: Balance(next, token, who) == Balance(paid, token, who)
  {
  }

  /** Adding takes both amounts from the caller and gives it the shares they mint, no fewer than it asked for. */
  lemma AddGives(st: Store, caller: string, contract: string, amount0: u64, amount1: u64, minShares: u64)
    requires Inv(st, contract) && !IsPool(caller, contract)
    requires Apply(st, caller, contract, AddLiquidity(amount0, amount1, minShares)).Applied?
    ensures Initialized(st, contract)
    ensures var next := After(st, Apply(st, caller, contract, AddLiquidity(amount0, amount1, minShares)));
      var minted := Minted(st, contract, amount0, amount1);
      minted >= minShares && Trades(st, next, contract, caller, amount0, amount1, minted)
  {
    hide Apply, ApplyAll, Minted, Inv, RootHangs, CanSend, Sent, Recorded, Put, OnlyTokens;
    CallAgrees(st, caller, contract, AddLiquidity(amount0, amount1, minShares));
    BooksDiffer(st, contract);
    var me, vault, minted := AddressOf(caller), PoolAddress(contract), Minted(st, contract, amount0, amount1);
    var token0, token1 := Token0(st, contract).value, Token1(st, contract).value;
    BothPay(st, token0, me, vault, amount0, token1, me, vault, amount1);
    PaidTwice(st, token0, me, vault, amount0, token1, me, vault, amount1);
    NumbersThen(st, Sent(Sent(st, st, token0, me, vault, amount0), st, token1, me, vault, amount1), contract,
                R0(st, contract) + amount0, R1(st, contract) + amount1, Supply(st, contract) + minted, caller,
                ShareOf(st, contract, caller) + minted, Event(2, me, [], [amount0, amount1, minted]));
  }

  function Minus(x: int): int {
    -x
  }

  /** Removing burns the caller's shares and pays what they are worth of both tokens, no less than it asked for. */
  lemma RemoveGives(st: Store, caller: string, contract: string, shares: u64, min0: u64, min1: u64)
    requires Inv(st, contract) && !IsPool(caller, contract)
    requires Apply(st, caller, contract, RemoveLiquidity(shares, min0, min1)).Applied?
    ensures Initialized(st, contract) && shares <= ShareOf(st, contract, caller)
    ensures var next := After(st, Apply(st, caller, contract, RemoveLiquidity(shares, min0, min1)));
      var out0, out1 := Worth(st, contract, shares, R0(st, contract)), Worth(st, contract, shares, R1(st, contract));
      out0 >= min0 && out1 >= min1 && Trades(st, next, contract, caller, Minus(out0), Minus(out1), Minus(shares))
  {
    hide Apply, ApplyAll, Worth, Inv, CanSend, Sent, Recorded, Put, OnlyTokens;
    CallAgrees(st, caller, contract, RemoveLiquidity(shares, min0, min1));
    BooksDiffer(st, contract);
    ShareAtMostSupply(st, contract, caller);
    var me, vault := AddressOf(caller), PoolAddress(contract);
    var out0, out1 := Worth(st, contract, shares, R0(st, contract)), Worth(st, contract, shares, R1(st, contract));
    var token0, token1 := Token0(st, contract).value, Token1(st, contract).value;
    BothPay(st, token0, vault, me, out0, token1, vault, me, out1);
    PaidTwice(st, token0, vault, me, out0, token1, vault, me, out1);
    NumbersThen(st, Sent(Sent(st, st, token0, vault, me, out0), st, token1, vault, me, out1), contract,
                R0(st, contract) - out0, R1(st, contract) - out1, Supply(st, contract) - shares, caller,
                ShareOf(st, contract, caller) - shares, Event(3, me, [], [shares, out0, out1]));
  }

  /** A swap takes the amount of one token and pays the product's price in the other, no less than it asked for. */
  lemma SwapGives(st: Store, caller: string, contract: string, dir: u64, amountIn: u64, minOut: u64)
    requires Inv(st, contract) && !IsPool(caller, contract)
    requires Apply(st, caller, contract, SwapExactIn(dir, amountIn, minOut)).Applied?
    ensures Initialized(st, contract)
    ensures var next := After(st, Apply(st, caller, contract, SwapExactIn(dir, amountIn, minOut)));
      var out := Payment(st, contract, dir, amountIn);
      && out >= minOut
      && Trades(st, next, contract, caller, if dir == 0 then amountIn else Minus(out),
           if dir == 0 then Minus(out) else amountIn, 0)
  {
    hide Apply, ApplyAll, Payment, Inv, CanSend, Sent, Recorded, Put, OnlyTokens;
    CallAgrees(st, caller, contract, SwapExactIn(dir, amountIn, minOut));
    BooksDiffer(st, contract);
    var me, vault, out := AddressOf(caller), PoolAddress(contract), Payment(st, contract, dir, amountIn);
    var token0, token1 := Token0(st, contract).value, Token1(st, contract).value;
    var s0, s1 := Slot(contract, PoolReserve0), Slot(contract, PoolReserve1);
    if dir == 0 {
      BothPay(st, token0, me, vault, amountIn, token1, vault, me, out);
      PaidTwice(st, token0, me, vault, amountIn, token1, vault, me, out);
      ReservesThen(st, Sent(Sent(st, st, token0, me, vault, amountIn), st, token1, vault, me, out), contract,
                   s0, R0(st, contract) + amountIn, s1, R1(st, contract) - out, Event(4, me, [], [dir, amountIn, out]));
    } else {
      BothPay(st, token1, me, vault, amountIn, token0, vault, me, out);
      PaidTwice(st, token1, me, vault, amountIn, token0, vault, me, out);
      ReservesThen(st, Sent(Sent(st, st, token1, me, vault, amountIn), st, token0, vault, me, out), contract,
                   s1, R1(st, contract) + amountIn, s0, R0(st, contract) - out, Event(4, me, [], [dir, amountIn, out]));
    }
  }
}
