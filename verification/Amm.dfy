/** The constant-product pool contract. */
module Amm {
  import opened Common
  import opened ContractStore
  import opened Isqrt

  datatype Call =
    | CreatePool(token0: string, token1: string, feeBps: u64)
    | AddLiquidity(amount0: u64, amount1: u64, minShares: u64)
    | RemoveLiquidity(shares: u64, min0: u64, min1: u64)
    | SwapExactIn(dir: u64, amountIn: u64, minOut: u64)

  /** A call hands its changes to the executor, is refused, or never returns. */
  datatype Outcome = Applied(changes: seq<Change>) | Rejected | Hangs

  function PoolAddress(contract: string): Address {
    Sha("amm119:pool:" + contract)
  }

  predicate Initialized(st: Store, contract: string) {
    ReadId(st, Slot(contract, PoolToken0)).Some? && ReadId(st, Slot(contract, PoolToken1)).Some?
  }

  /** What the pool holds: reserves, share supply and fee. */
  datatype Pool = Pool(r0: u64, r1: u64, supply: u64, feeBps: u64, token0: string, token1: string)

  function ReadPool(st: Store, contract: string): Option<Pool> {
    var r0, r1 := ReadWord(st, Slot(contract, PoolReserve0)), ReadWord(st, Slot(contract, PoolReserve1));
    var supply, fee := ReadWord(st, Slot(contract, PoolSupply)), ReadWord(st, Slot(contract, PoolFee));
    var token0, token1 := ReadId(st, Slot(contract, PoolToken0)), ReadId(st, Slot(contract, PoolToken1));
    if token0.None? || token1.None? || r0.None? || r1.None? || supply.None? || fee.None? then None
    else Some(Pool(r0.value, r1.value, supply.value, fee.value, token0.value, token1.value))
  }

  // -------- quotes --------

  /** 128-bit `a * b / c`. */
  function MulDiv(a: nat, b: nat, c: nat): nat
    requires c > 0
  {
    a * b / c
  }

  datatype Quote<T> = Quoted(value: T) | NoQuote | Endless

  function MintQuote(pool: Pool, amount0: u64, amount1: u64): Quote<u64> {
    if pool.supply == 0 then
      var product := amount0 * amount1;
      if product > 0 && IsSquare(product + 1) then Endless
      else
        var s := FloorSqrt(product);
        if s == 0 || s > U64_MAX then NoQuote else Quoted(s)
    else if pool.r0 == 0 || pool.r1 == 0 then NoQuote
    else
      var a, b := MulDiv(amount0, pool.supply, pool.r0), MulDiv(amount1, pool.supply, pool.r1);
      var m := if a < b then a else b;
      if m == 0 || m > U64_MAX then NoQuote else Quoted(m)
  }

  function BurnQuote(pool: Pool, shares: u64): Option<(u64, u64)> {
    if pool.supply == 0 || pool.r0 == 0 || pool.r1 == 0 then None
    else
      var out0, out1 := MulDiv(shares, pool.r0, pool.supply), MulDiv(shares, pool.r1, pool.supply);
      if out0 == 0 || out1 == 0 || out0 > U64_MAX || out1 > U64_MAX || pool.r0 < out0 || pool.r1 < out1 then None
      else Some((out0, out1))
  }

  function SwapQuote(rin: u64, rout: u64, feeBps: u64, amountIn: u64): Option<u64>
    requires feeBps <= 10000
  {
    var afterFee := MulDiv(amountIn, 10000 - feeBps, 10000);
    if afterFee == 0 || afterFee > U64_MAX then None
    else
      var out := MulDiv(afterFee, rout, rin + afterFee);
      if out == 0 || out > U64_MAX || out >= rout then None else Some(out)
  }

  // -------- calls --------

  function Create(st: Store, caller: string, contract: string, token0: string, token1: string, feeBps: u64): Outcome {
    var event := EventChanges(st, contract, Event(1, AddressOf(caller), [token0, token1], [feeBps]));
    if Initialized(st, contract) || token0 == token1 || feeBps > 10000 || event.None? then Rejected
    else
      Applied([Change(Slot(contract, PoolToken0), Id(token0)), Change(Slot(contract, PoolToken1), Id(token1)),
               Change(Slot(contract, PoolReserve0), Word(0)), Change(Slot(contract, PoolReserve1), Word(0)),
               Change(Slot(contract, PoolSupply), Word(0)), Change(Slot(contract, PoolFee), Word(feeBps))]
              + event.value)
  }

  function PoolChanges(contract: string, caller: string, r0: u64, r1: u64, supply: u64, share: u64): seq<Change> {
    [Change(Slot(contract, PoolReserve0), Word(r0)), Change(Slot(contract, PoolReserve1), Word(r1)),
     Change(Slot(contract, PoolSupply), Word(supply)), Change(Slot(contract, PoolShare(caller)), Word(share))]
  }

  function Add(st: Store, caller: string, contract: string, pool: Pool, amount0: u64, amount1: u64, minShares: u64)
    : Outcome {
    var me, vault := AddressOf(caller), PoolAddress(contract);
    if amount0 == 0 || amount1 == 0 then Rejected
    else
      match MintQuote(pool, amount0, amount1)
      case Endless => Hangs
      case NoQuote => Rejected
      case Quoted(minted) =>
        var t0 := TransferChanges(st, pool.token0, me, vault, amount0);
        var t1 := TransferChanges(st, pool.token1, me, vault, amount1);
        var r0, r1 := CheckedAdd(pool.r0, amount0), CheckedAdd(pool.r1, amount1);
        var supply, held := CheckedAdd(pool.supply, minted), ReadWord(st, Slot(contract, PoolShare(caller)));
        var event := EventChanges(st, contract, Event(2, me, [], [amount0, amount1, minted]));
        if minted < minShares || t0.None? || t1.None? || r0.None? || r1.None? then Rejected
        else if supply.None? || held.None? then Rejected
        else
          var share := CheckedAdd(held.value, minted);
          if share.None? || event.None? then Rejected
          else
            Applied(t0.value + t1.value + PoolChanges(contract, caller, r0.value, r1.value, supply.value, share.value)
                    + event.value)
  }

  function Remove(st: Store, caller: string, contract: string, pool: Pool, shares: u64, min0: u64, min1: u64): Outcome {
    var me, vault := AddressOf(caller), PoolAddress(contract);
    var held, quote := ReadWord(st, Slot(contract, PoolShare(caller))), BurnQuote(pool, shares);
    if shares == 0 || held.None? || held.value < shares || quote.None? then Rejected
    else
      var (out0, out1) := quote.value;
      var t0, t1 := TransferChanges(st, pool.token0, vault, me, out0),
        TransferChanges(st, pool.token1, vault, me, out1);
      var event := EventChanges(st, contract, Event(3, me, [], [shares, out0, out1]));
      if out0 < min0 || out1 < min1 || t0.None? || t1.None? || event.None? then Rejected
      else
        Applied(t0.value + t1.value
                + PoolChanges(contract, caller, pool.r0 - out0, pool.r1 - out1, WrapSub(pool.supply, shares),
                              held.value - shares)
                + event.value)
  }

  function Swap(st: Store, caller: string, contract: string, pool: Pool, dir: u64, amountIn: u64,
                minOut: u64): Outcome {
    var me, vault := AddressOf(caller), PoolAddress(contract);
    if pool.r0 == 0 || pool.r1 == 0 || pool.feeBps > 10000 || amountIn == 0 || (dir != 0 && dir != 1) then Rejected
    else
      var (rin, rout) := if dir == 0 then (pool.r0, pool.r1) else (pool.r1, pool.r0);
      var (tokenIn, tokenOut) := if dir == 0 then (pool.token0, pool.token1) else (pool.token1, pool.token0);
      match SwapQuote(rin, rout, pool.feeBps, amountIn)
      case None => Rejected
      case Some(out) =>
        var tIn, tOut := TransferChanges(st, tokenIn, me, vault, amountIn),
          TransferChanges(st, tokenOut, vault, me, out);
        var newIn := CheckedAdd(rin, amountIn);
        var event := EventChanges(st, contract, Event(4, me, [], [dir, amountIn, out]));
        if out < minOut || tIn.None? || tOut.None? || newIn.None? || event.None? then Rejected
        else
          var slotIn := Slot(contract, if dir == 0 then PoolReserve0 else PoolReserve1);
          var slotOut := Slot(contract, if dir == 0 then PoolReserve1 else PoolReserve0);
          Applied(tIn.value + tOut.value + [Change(slotIn, Word(newIn.value)), Change(slotOut, Word(rout - out))]
                  + event.value)
  }

  function Apply(st: Store, caller: string, contract: string, call: Call): Outcome {
    match call
    case CreatePool(token0, token1, feeBps) => Create(st, caller, contract, token0, token1, feeBps)
    case _ =>
      match ReadPool(st, contract)
      case None => Rejected
      case Some(pool) =>
        match call
        case AddLiquidity(a0, a1, min) => Add(st, caller, contract, pool, a0, a1, min)
        case RemoveLiquidity(shares, min0, min1) => Remove(st, caller, contract, pool, shares, min0, min1)
        case SwapExactIn(dir, amountIn, minOut) => Swap(st, caller, contract, pool, dir, amountIn, minOut)
  }
}
