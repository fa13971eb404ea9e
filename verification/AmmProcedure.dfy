/** The pool contract's entry point: it builds the list of storage changes step by step. */
module AmmProcedure {
  import opened Common
  import opened ContractStore
  import opened Isqrt
  import opened Amm

  /** `st` is only read; what the call wants changed is appended to `changes`. */
  class PoolCall {
    const st: Store
    const caller: string
    const contract: string
    var changes: seq<Change>
    var eventSeq: u64

    constructor (st: Store, caller: string, contract: string, eventSeq: u64)
      ensures this.st == st && this.caller == caller && this.contract == contract
      ensures changes == [] && this.eventSeq == eventSeq
    {
      this.st, this.caller, this.contract, this.eventSeq := st, caller, contract, eventSeq;
      changes := [];
    }

    method Set(slot: Slot, value: Value)
      modifies this
      ensures changes == old(changes) + [Change(slot, value)] && eventSeq == old(eventSeq)
    {
      changes := changes + [Change(slot, value)];
    }

    method Transfer(token: string, from: Address, to: Address, amount: u64) returns (ok: bool)
      modifies this
      ensures eventSeq == old(eventSeq)
      ensures var t := TransferChanges(st, token, from, to, amount);
              ok == t.Some? && changes == if ok then old(changes) + t.value else old(changes)
    {
      if amount == 0 {
        return false;
      }
      var fromBalance := ReadWord(st, Slot(token, TokenBalance(from)));
      if fromBalance.None? || fromBalance.value < amount {
        return false;
      }
      var toBalance := ReadWord(st, Slot(token, TokenBalance(to)));
      if toBalance.None? {
        return false;
      }
      var next := CheckedAdd(toBalance.value, amount);
      if next.None? {
        return false;
      }
      Set(Slot(token, TokenBalance(from)), Word(fromBalance.value - amount));
      Set(Slot(token, TokenBalance(to)), Word(next.value));
      return true;
    }

    method Emit(event: Value) returns (ok: bool)
      requires ReadWord(st, Slot(contract, EventSeq)) == Some(eventSeq)
      modifies this
      ensures var e := EventChanges(st, contract, event);
              ok == e.Some? && changes == if ok then old(changes) + e.value else old(changes)
    {
      var next := CheckedAdd(eventSeq, 1);
      if next.None? {
        return false;
      }
      eventSeq := next.value;
      Set(Slot(contract, EventSeq), Word(eventSeq));
      Set(Slot(contract, EventAt(eventSeq)), event);
      return true;
    }

    method SetPool(r0: u64, r1: u64, supply: u64, share: u64)
      modifies this
      ensures changes == old(changes) + PoolChanges(contract, caller, r0, r1, supply, share)
      ensures eventSeq == old(eventSeq)
    {
      Set(Slot(contract, PoolReserve0), Word(r0));
      Set(Slot(contract, PoolReserve1), Word(r1));
      Set(Slot(contract, PoolSupply), Word(supply));
      Set(Slot(contract, PoolShare(caller)), Word(share));
    }

    method DoCreate(token0: string, token1: string, feeBps: u64) returns (ok: bool)
      requires changes == [] && ReadWord(st, Slot(contract, EventSeq)) == Some(eventSeq)
      modifies this
      ensures (if ok then Applied(changes) else Rejected) == Create(st, caller, contract, token0, token1, feeBps)
    {
      if Initialized(st, contract) || token0 == token1 || feeBps > 10000 {
        return false;
      }
      Set(Slot(contract, PoolToken0), Id(token0));
      Set(Slot(contract, PoolToken1), Id(token1));
      Set(Slot(contract, PoolReserve0), Word(0));
      Set(Slot(contract, PoolReserve1), Word(0));
      Set(Slot(contract, PoolSupply), Word(0));
      Set(Slot(contract, PoolFee), Word(feeBps));
      ok := Emit(Event(1, AddressOf(caller), [token0, token1], [feeBps]));
    }

    method Mint(pool: Pool, amount0: u64, amount1: u64) returns (minted: Option<u64>)
      requires amount0 > 0 && amount1 > 0 && !MintQuote(pool, amount0, amount1).Endless?
      ensures var q := MintQuote(pool, amount0, amount1);
              minted == if q.Quoted? then Some(q.value) else None
    {
      if pool.supply == 0 {
        var product := Product(amount0, amount1);
        var s := IntegerSqrt(product);
        return if s.value == 0 then None else s;
      }
      if pool.r0 == 0 || pool.r1 == 0 {
        return None;
      }
      var a, b := MulDiv(amount0, pool.supply, pool.r0), MulDiv(amount1, pool.supply, pool.r1);
      var m := if a < b then a else b;
      return if m == 0 || m > U64_MAX then None else Some(m);
    }

    method DoAdd(pool: Pool, amount0: u64, amount1: u64, minShares: u64) returns (ok: bool)
      requires changes == [] && ReadWord(st, Slot(contract, EventSeq)) == Some(eventSeq)
      requires !Add(st, caller, contract, pool, amount0, amount1, minShares).Hangs?
      modifies this
      ensures (if ok then Applied(changes) else Rejected) ==
              Add(st, caller, contract, pool, amount0, amount1, minShares)
    {
      if amount0 == 0 || amount1 == 0 {
        return false;
      }
      var minted := Mint(pool, amount0, amount1);
      if minted.None? || minted.value < minShares {
        return false;
      }
      var me, vault := AddressOf(caller), PoolAddress(contract);
      ok := Transfer(pool.token0, me, vault, amount0);
      if !ok {
        return;
      }
      ok := Transfer(pool.token1, me, vault, amount1);
      if !ok {
        return;
      }
      var r0, r1 := CheckedAdd(pool.r0, amount0), CheckedAdd(pool.r1, amount1);
      var supply := CheckedAdd(pool.supply, minted.value);
      if r0.None? || r1.None? || supply.None? {
        return false;
      }
      var held := ReadWord(st, Slot(contract, PoolShare(caller)));
      if held.None? {
        return false;
      }
      var share := CheckedAdd(held.value, minted.value);
      if share.None? {
        return false;
      }
      SetPool(r0.value, r1.value, supply.value, share.value);
      ok := Emit(Event(2, me, [], [amount0, amount1, minted.value]));
    }

    method DoRemove(pool: Pool, shares: u64, min0: u64, min1: u64) returns (ok: bool)
      requires changes == [] && ReadWord(st, Slot(contract, EventSeq)) == Some(eventSeq)
      modifies this
      ensures (if ok then Applied(changes) else Rejected) ==
              Remove(st, caller, contract, pool, shares, min0, min1)
    {
      if pool.supply == 0 || pool.r0 == 0 || pool.r1 == 0 || shares == 0 {
        return false;
      }
      var held := ReadWord(st, Slot(contract, PoolShare(caller)));
      if held.None? || held.value < shares {
        return false;
      }
      var out0, out1 := MulDiv(shares, pool.r0, pool.supply), MulDiv(shares, pool.r1, pool.supply);
      if out0 == 0 || out1 == 0 || out0 > U64_MAX || out1 > U64_MAX {
        return false;
      }
      if out0 < min0 || out1 < min1 || pool.r0 < out0 || pool.r1 < out1 {
        return false;
      }
      var me, vault := AddressOf(caller), PoolAddress(contract);
      ok := Transfer(pool.token0, vault, me, out0);
      if !ok {
        return;
      }
      ok := Transfer(pool.token1, vault, me, out1);
      if !ok {
        return;
      }
      SetPool(pool.r0 - out0, pool.r1 - out1, WrapSub(pool.supply, shares), held.value - shares);
      ok := Emit(Event(3, me, [], [shares, out0, out1]));
    }

    /** The part of a swap that writes: both transfers, the two reserves in the direction's order, and the event. */
    method Exchange(tokenIn: string, tokenOut: string, slotIn: Slot, slotOut: Slot, rin: u64, left: u64, amountIn: u64,
                    out: u64, event: Value)
      returns (ok: bool)
      requires changes == [] && ReadWord(st, Slot(contract, EventSeq)) == Some(eventSeq)
      modifies this
      ensures var tIn := TransferChanges(st, tokenIn, AddressOf(caller), PoolAddress(contract), amountIn);
        var tOut := TransferChanges(st, tokenOut, PoolAddress(contract), AddressOf(caller), out);
        var newIn, e := CheckedAdd(rin, amountIn), EventChanges(st, contract, event);
        && ok == (tIn.Some? && tOut.Some? && newIn.Some? && e.Some?)
        && (ok ==>
             changes ==
               tIn.value + tOut.value + [Change(slotIn, Word(newIn.value)), Change(slotOut, Word(left))] + e.value)
    {
      hide TransferChanges, EventChanges, CheckedAdd;
      ok := Transfer(tokenIn, AddressOf(caller), PoolAddress(contract), amountIn);
      if !ok {
        return;
      }
      ok := Transfer(tokenOut, PoolAddress(contract), AddressOf(caller), out);
      var next := CheckedAdd(rin, amountIn);
      if !ok || next.None? {
        return false;
      }
      Set(slotIn, Word(next.value));
      Set(slotOut, Word(left));
      ok := Emit(event);
    }

    method DoSwap(pool: Pool, dir: u64, amountIn: u64, minOut: u64) returns (ok: bool)
      requires changes == [] && ReadWord(st, Slot(contract, EventSeq)) == Some(eventSeq)
      modifies this
      ensures (if ok then Applied(changes) else Rejected) == Swap(st, caller, contract, pool, dir, amountIn, minOut)
    {
      hide TransferChanges, EventChanges, MulDiv, SwapQuote, CheckedAdd;
      if pool.r0 == 0 || pool.r1 == 0 || pool.feeBps > 10000 || amountIn == 0 || (dir != 0 && dir != 1) {
        return false;
      }
      var me := AddressOf(caller);
      var rin, rout := if dir == 0 then pool.r0 else pool.r1, if dir == 0 then pool.r1 else pool.r0;
      var quote := SwapQuote(rin, rout, pool.feeBps, amountIn);
      if quote.None? || quote.value < minOut {
        return false;
      }
      OutIsBelowReserve(rin, rout, pool.feeBps, amountIn);
      var tokenIn, tokenOut :=
        if dir == 0 then pool.token0 else pool.token1, if dir == 0 then pool.token1 else pool.token0;
      ok := Exchange(tokenIn, tokenOut,
        Slot(contract, if dir == 0 then PoolReserve0 else PoolReserve1),
        Slot(contract, if dir == 0 then PoolReserve1 else PoolReserve0),
        rin, rout - quote.value, amountIn, quote.value, Event(4, me, [], [dir, amountIn, quote.value]));
    }
  }

  lemma OutIsBelowReserve(rin: u64, rout: u64, feeBps: u64, amountIn: u64)
    requires feeBps <= 10000 && SwapQuote(rin, rout, feeBps, amountIn).Some?
    ensures SwapQuote(rin, rout, feeBps, amountIn).value < rout
  {
    hide MulDiv;
  }

  method Product(a: u64, b: u64) returns (p: u128)
    ensures p == a * b
  {
    ProductFits(a, b);
    p := a * b;
  }

  lemma ProductFits(a: u64, b: u64)
    ensures 0 <= a * b <= U128_MAX
  {
    ScaleMonotone(a, U64_MAX, b);
    assert a * b <= U64_MAX * b;
  }

  method Amm119Apply(st: Store, caller: string, contract: string, call: Call) returns (out: Outcome)
    requires !Apply(st, caller, contract, call).Hangs?
    ensures out == Apply(st, caller, contract, call)
  {
    var seq0 := ReadWord(st, Slot(contract, EventSeq));
    if seq0.None? {
      return Rejected;
    }
    var run := new PoolCall(st, caller, contract, seq0.value);
    var ok := false;
    if call.CreatePool? {
      ok := run.DoCreate(call.token0, call.token1, call.feeBps);
    } else {
      var pool := ReadPool(st, contract);
      if pool.None? {
        return Rejected;
      }
      if call.AddLiquidity? {
        ok := run.DoAdd(pool.value, call.amount0, call.amount1, call.minShares);
      } else if call.RemoveLiquidity? {
        ok := run.DoRemove(pool.value, call.shares, call.min0, call.min1);
      } else {
        ok := run.DoSwap(pool.value, call.dir, call.amountIn, call.minOut);
      }
    }
    return if ok then Applied(run.changes) else Rejected;
  }
}
