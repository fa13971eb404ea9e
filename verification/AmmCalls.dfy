/** When each call of the pool is accepted and what it leaves, told over the numbers in its slots. */
module AmmCalls {
  import opened Common
  import opened ContractStore
  import opened Ledger
  import opened Isqrt
  import opened Amm
  import opened AmmTheorems
  import opened PoolMath

  function FeeOf(st: Store, c: string): u64 { Num(st, Slot(c, PoolFee)) }

  function ShareOf(st: Store, c: string, account: string): u64 {
    Num(st, Slot(c, PoolShare(account)))
  }

  /** A pool has two token names and four readable numbers. */
  predicate IsSetUp(st: Store, c: string) {
    && Token0(st, c).Some? && Token1(st, c).Some?
    && Readable(st, Slot(c, PoolReserve0)) && Readable(st, Slot(c, PoolReserve1))
    && Readable(st, Slot(c, PoolSupply)) && Readable(st, Slot(c, PoolFee))
  }

  // -------- amounts --------

  /** What a swap pays: constant product, after the stored fee is taken off the input. */
  function Payment(st: Store, c: string, dir: u64, amountIn: u64): nat {
    var after := if FeeOf(st, c) <= 10000 then MulDiv(amountIn, 10000 - FeeOf(st, c), 10000) else 0;
    var (rin, rout) := if dir == 0 then (R0(st, c), R1(st, c)) else (R1(st, c), R0(st, c));
    if rin + after == 0 then 0 else MulDiv(after, rout, rin + after)
  }

  /** What an addition mints: at first the root of the product, later the smaller proportional part. */
  function Minted(st: Store, c: string, amount0: u64, amount1: u64): nat {
    if Supply(st, c) == 0 then FloorSqrt(amount0 * amount1)
    else if R0(st, c) == 0 || R1(st, c) == 0 then 0
    else
      var a, b := MulDiv(amount0, Supply(st, c), R0(st, c)), MulDiv(amount1, Supply(st, c), R1(st, c));
      if a < b then a else b
  }

  /** What burned shares are worth of a reserve. */
  function Worth(st: Store, c: string, shares: u64, reserve: u64): nat {
    if Supply(st, c) == 0 then 0 else MulDiv(shares, reserve, Supply(st, c))
  }

  predicate RootHangs(st: Store, c: string, amount0: u64, amount1: u64) {
    Supply(st, c) == 0 && amount0 * amount1 > 0 && IsSquare(amount0 * amount1 + 1)
  }

  // -------- acceptance --------

  predicate Admits(st: Store, caller: string, c: string, call: Call) {
    var me, vault := AddressOf(caller), PoolAddress(c);
    && CanRecord(st, c)
    && match call
       case CreatePool(token0, token1, fee) =>
         && !(Token0(st, c).Some? && Token1(st, c).Some?) && token0 != token1 && fee <= 10000
       case AddLiquidity(amount0, amount1, min) =>
         var minted := Minted(st, c, amount0, amount1);
         && IsSetUp(st, c) && !RootHangs(st, c, amount0, amount1)
         && CanSend(st, Token0(st, c).value, me, vault, amount0) && CanSend(st, Token1(st, c).value, me, vault, amount1)
         && 0 < minted && min <= minted
         && R0(st, c) + amount0 <= U64_MAX && R1(st, c) + amount1 <= U64_MAX && Supply(st, c) + minted <= U64_MAX
         && Readable(st, Slot(c, PoolShare(caller))) && ShareOf(st, c, caller) + minted <= U64_MAX
       case RemoveLiquidity(shares, min0, min1) =>
         var out0, out1 := Worth(st, c, shares, R0(st, c)), Worth(st, c, shares, R1(st, c));
         && IsSetUp(st, c) && Readable(st, Slot(c, PoolShare(caller))) && 0 < shares <= ShareOf(st, c, caller)
         && min0 <= out0 <= R0(st, c) && min1 <= out1 <= R1(st, c)
         && CanSend(st, Token0(st, c).value, vault, me, out0) && CanSend(st, Token1(st, c).value, vault, me, out1)
       case SwapExactIn(dir, amountIn, min) =>
         var out := Payment(st, c, dir, amountIn);
         && IsSetUp(st, c) && FeeOf(st, c) <= 10000 && dir <= 1 && 0 < R0(st, c) && 0 < R1(st, c) && min <= out
         && var token0, token1 := Token0(st, c).value, Token1(st, c).value;
            if dir == 0 then
              && R0(st, c) + amountIn <= U64_MAX && out < R1(st, c)
              && CanSend(st, token0, me, vault, amountIn) && CanSend(st, token1, vault, me, out)
            else
              && R1(st, c) + amountIn <= U64_MAX && out < R0(st, c)
              && CanSend(st, token1, me, vault, amountIn) && CanSend(st, token0, vault, me, out)
  }

  // -------- effect --------

  function Result(st: Store, caller: string, c: string, call: Call): Store
    requires Admits(st, caller, c, call)
  {
    var me, vault := AddressOf(caller), PoolAddress(c);
    match call
    case CreatePool(token0, token1, fee) =>
      var named := st[Slot(c, PoolToken0) := Id(token0)][Slot(c, PoolToken1) := Id(token1)];
      var empty := Put(Put(Put(named, Slot(c, PoolReserve0), 0), Slot(c, PoolReserve1), 0), Slot(c, PoolSupply), 0);
      Recorded(Put(empty, Slot(c, PoolFee), fee), st, c, Event(1, me, [token0, token1], [fee]))
    case AddLiquidity(amount0, amount1, _) =>
      var minted := Minted(st, c, amount0, amount1);
      var token0, token1, r0, r1 := Token0(st, c).value, Token1(st, c).value, R0(st, c) + amount0, R1(st, c) + amount1;
      var paid := Sent(Sent(st, st, token0, me, vault, amount0), st, token1, me, vault, amount1);
      var pool := Put(Put(paid, Slot(c, PoolReserve0), r0), Slot(c, PoolReserve1), r1);
      var owned := Put(Put(pool, Slot(c, PoolSupply), Supply(st, c) + minted),
                       Slot(c, PoolShare(caller)), ShareOf(st, c, caller) + minted);
      Recorded(owned, st, c, Event(2, me, [], [amount0, amount1, minted]))
    case RemoveLiquidity(shares, _, _) =>
      var out0, out1 := Worth(st, c, shares, R0(st, c)), Worth(st, c, shares, R1(st, c));
      var paid := Sent(Sent(st, st, Token0(st, c).value, vault, me, out0), st, Token1(st, c).value, vault, me, out1);
      var pool := Put(Put(paid, Slot(c, PoolReserve0), R0(st, c) - out0), Slot(c, PoolReserve1), R1(st, c) - out1);
      // The supply is not compared with the shares: where it is smaller, it wraps.
      var owned := Put(Put(pool, Slot(c, PoolSupply), (Supply(st, c) - shares) % (U64_MAX + 1)),
                       Slot(c, PoolShare(caller)), ShareOf(st, c, caller) - shares);
      Recorded(owned, st, c, Event(3, me, [], [shares, out0, out1]))
    case SwapExactIn(dir, amountIn, _) =>
      var out := Payment(st, c, dir, amountIn);
      var token0, token1 := Token0(st, c).value, Token1(st, c).value;
      var pool :=
        if dir == 0 then
          Put(Put(Sent(Sent(st, st, token0, me, vault, amountIn), st, token1, vault, me, out),
                  Slot(c, PoolReserve0), R0(st, c) + amountIn), Slot(c, PoolReserve1), R1(st, c) - out)
        else
          Put(Put(Sent(Sent(st, st, token1, me, vault, amountIn), st, token0, vault, me, out),
                  Slot(c, PoolReserve1), R1(st, c) + amountIn), Slot(c, PoolReserve0), R0(st, c) - out);
      Recorded(pool, st, c, Event(4, me, [], [dir, amountIn, out]))
  }

  // -------- the contract agrees --------

  /** A call hangs on the root, is accepted exactly when admitted, and leaves exactly the result. */
  ghost predicate Agrees(st: Store, caller: string, c: string, call: Call) {
    var out := Apply(st, caller, c, call);
    && (out.Applied? <==> Admits(st, caller, c, call))
    && (out.Applied? ==> ApplyAll(st, out.changes) == Result(st, caller, c, call))
  }

  lemma ReadPoolIs(st: Store, c: string)
    ensures ReadPool(st, c) ==
      if IsSetUp(st, c) then
        Some(Pool(R0(st, c), R1(st, c), Supply(st, c), FeeOf(st, c), Token0(st, c).value, Token1(st, c).value))
      else None
  {
  }

  lemma CreateAgrees(st: Store, caller: string, c: string, token0: string, token1: string, fee: u64)
    ensures Agrees(st, caller, c, CreatePool(token0, token1, fee))
  {
    hide ApplyAll, EventChanges;
    var me := AddressOf(caller);
    var event := Event(1, me, [token0, token1], [fee]);
    EventIsRecorded(st, st, c, event);
    if Admits(st, caller, c, CreatePool(token0, token1, fee)) {
      var a := [Change(Slot(c, PoolToken0), Id(token0)), Change(Slot(c, PoolToken1), Id(token1))];
      var b := [Change(Slot(c, PoolReserve0), Word(0)), Change(Slot(c, PoolReserve1), Word(0)),
                Change(Slot(c, PoolSupply), Word(0)), Change(Slot(c, PoolFee), Word(fee))];
      var e := EventChanges(st, c, event).value;
      assert Create(st, caller, c, token0, token1, fee).changes == a + b + [] + e;
      Stages(st, a, b, [], e);
      NoChanges(ApplyAll(ApplyAll(st, a), b));
      Two(st, a[0], a[1]);
      Four(ApplyAll(st, a), b[0], b[1], b[2], b[3]);
      EventIsRecorded(ApplyAll(ApplyAll(st, a), b), st, c, event);
    }
  }

  /** Two transfers, the pool's four numbers and an event. */
  lemma FourStages(st: Store, c: string, caller: string, from: Address, to: Address, token0: string, amount0: u64,
                   token1: string, amount1: u64, r0: u64, r1: u64, supply: u64, share: u64, event: Value)
    requires CanSend(st, token0, from, to, amount0) && CanSend(st, token1, from, to, amount1) && CanRecord(st, c)
    ensures TransferChanges(st, token0, from, to, amount0).Some? && TransferChanges(st, token1, from, to, amount1).Some?
    ensures EventChanges(st, c, event).Some?
    ensures
      var paid := Sent(Sent(st, st, token0, from, to, amount0), st, token1, from, to, amount1);
      var pool := Put(Put(paid, Slot(c, PoolReserve0), r0), Slot(c, PoolReserve1), r1);
      var owned := Put(Put(pool, Slot(c, PoolSupply), supply), Slot(c, PoolShare(caller)), share);
      ApplyAll(st, TransferChanges(st, token0, from, to, amount0).value
                   + TransferChanges(st, token1, from, to, amount1).value
                   + PoolChanges(c, caller, r0, r1, supply, share)
                   + EventChanges(st, c, event).value) == Recorded(owned, st, c, event)
  {
    hide ApplyAll, EventChanges, TransferChanges, CanSend, Sent;
    TransferIsSent(st, st, token0, from, to, amount0);
    var st1 := Sent(st, st, token0, from, to, amount0);
    TransferIsSent(st1, st, token1, from, to, amount1);
    var st2 := Sent(st1, st, token1, from, to, amount1);
    EventIsRecorded(st, st, c, event);
    var p := PoolChanges(c, caller, r0, r1, supply, share);
    Stages(st, TransferChanges(st, token0, from, to, amount0).value,
           TransferChanges(st, token1, from, to, amount1).value, p, EventChanges(st, c, event).value);
    Four(st2, p[0], p[1], p[2], p[3]);
    EventIsRecorded(ApplyAll(st2, p), st, c, event);
  }

  lemma MintedIs(st: Store, c: string, amount0: u64, amount1: u64)
    requires IsSetUp(st, c) && amount0 > 0 && amount1 > 0
    ensures var quote, minted := MintQuote(ReadPool(st, c).value, amount0, amount1), Minted(st, c, amount0, amount1);
      quote == if RootHangs(st, c, amount0, amount1) then Endless
               else if 0 < minted <= U64_MAX then Quoted(minted) else NoQuote
  {
    hide MulDiv, FloorSqrt;
    ReadPoolIs(st, c);
    PositiveProduct(amount0, amount1);
  }

  /** Which additions go through, before their changes are applied. */
  lemma AddIsAdmitted(st: Store, caller: string, c: string, amount0: u64, amount1: u64, min: u64)
    requires IsSetUp(st, c)
    ensures var out := Add(st, caller, c, ReadPool(st, c).value, amount0, amount1, min);
      var me, vault, minted := AddressOf(caller), PoolAddress(c), Minted(st, c, amount0, amount1);
      && (out.Hangs? <==> RootHangs(st, c, amount0, amount1))
      && (out.Applied? <==> Admits(st, caller, c, AddLiquidity(amount0, amount1, min)))
      && (out.Applied? ==>
            minted <= U64_MAX && EventChanges(st, c, Event(2, me, [], [amount0, amount1, minted])).Some? &&
            out.changes == TransferChanges(st, Token0(st, c).value, me, vault, amount0).value
              + TransferChanges(st, Token1(st, c).value, me, vault, amount1).value
              + PoolChanges(c, caller, R0(st, c) + amount0, R1(st, c) + amount1, Supply(st, c) + minted,
                            ShareOf(st, c, caller) + minted)
              + EventChanges(st, c, Event(2, me, [], [amount0, amount1, minted])).value)
  {
    hide ApplyAll, EventChanges, TransferChanges, ReadPool, MintQuote, Minted, CanSend, IsSquare;
    ReadPoolIs(st, c);
    var me, vault, minted := AddressOf(caller), PoolAddress(c), Minted(st, c, amount0, amount1);
    TransferIsSent(st, st, Token0(st, c).value, me, vault, amount0);
    TransferIsSent(st, st, Token1(st, c).value, me, vault, amount1);
    if amount0 > 0 && amount1 > 0 {
      MintedIs(st, c, amount0, amount1);
      if minted <= U64_MAX {
        EventIsRecorded(st, st, c, Event(2, me, [], [amount0, amount1, minted]));
      }
    } else {
      NothingSent(st, Token0(st, c).value, me, vault);
      NothingSent(st, Token1(st, c).value, me, vault);
    }
  }

  lemma AddAgrees(st: Store, caller: string, c: string, amount0: u64, amount1: u64, min: u64)
    ensures Agrees(st, caller, c, AddLiquidity(amount0, amount1, min))
    ensures Apply(st, caller, c, AddLiquidity(amount0, amount1, min)).Hangs? <==>
      IsSetUp(st, c) && RootHangs(st, c, amount0, amount1)
  {
    hide ApplyAll, EventChanges, TransferChanges, ReadPool, Minted, RootHangs, Add, Sent, CanSend, PoolChanges;
    ReadPoolIs(st, c);
    if IsSetUp(st, c) {
      AddIsAdmitted(st, caller, c, amount0, amount1, min);
      var me, vault, minted := AddressOf(caller), PoolAddress(c), Minted(st, c, amount0, amount1);
      if Admits(st, caller, c, AddLiquidity(amount0, amount1, min)) {
        FourStages(st, c, caller, me, vault, Token0(st, c).value, amount0, Token1(st, c).value, amount1,
                   R0(st, c) + amount0, R1(st, c) + amount1, Supply(st, c) + minted, ShareOf(st, c, caller) + minted,
                   Event(2, me, [], [amount0, amount1, minted]));
      }
    }
  }

  // -------- removals and swaps --------

  lemma RemoveIsAdmitted(st: Store, caller: string, c: string, shares: u64, min0: u64, min1: u64)
    requires IsSetUp(st, c)
    ensures var out := Remove(st, caller, c, ReadPool(st, c).value, shares, min0, min1);
      var me, vault := AddressOf(caller), PoolAddress(c);
      var out0, out1 := Worth(st, c, shares, R0(st, c)), Worth(st, c, shares, R1(st, c));
      && !out.Hangs?
      && (out.Applied? <==> Admits(st, caller, c, RemoveLiquidity(shares, min0, min1)))
      && (out.Applied? ==>
            out0 <= R0(st, c) && out1 <= R1(st, c) &&
            EventChanges(st, c, Event(3, me, [], [shares, out0, out1])).Some? &&
            out.changes == TransferChanges(st, Token0(st, c).value, vault, me, out0).value
              + TransferChanges(st, Token1(st, c).value, vault, me, out1).value
              + PoolChanges(c, caller, R0(st, c) - out0, R1(st, c) - out1, WrapSub(Supply(st, c), shares),
                            ShareOf(st, c, caller) - shares)
              + EventChanges(st, c, Event(3, me, [], [shares, out0, out1])).value)
  {
    hide ApplyAll, EventChanges, TransferChanges, ReadPool, CanSend, MulDiv;
    ReadPoolIs(st, c);
    var me, vault := AddressOf(caller), PoolAddress(c);
    var out0, out1 := Worth(st, c, shares, R0(st, c)), Worth(st, c, shares, R1(st, c));
    NothingSent(st, Token0(st, c).value, vault, me);
    NothingSent(st, Token1(st, c).value, vault, me);
    if out0 <= R0(st, c) && out1 <= R1(st, c) {
      TransferIsSent(st, st, Token0(st, c).value, vault, me, out0);
      TransferIsSent(st, st, Token1(st, c).value, vault, me, out1);
      EventIsRecorded(st, st, c, Event(3, me, [], [shares, out0, out1]));
    }
  }

  lemma WrapSubIs(a: u64, b: u64)
    ensures WrapSub(a, b) == (a - b) % (U64_MAX + 1)
  {
  }

  lemma RemoveAgrees(st: Store, caller: string, c: string, shares: u64, min0: u64, min1: u64)
    ensures Agrees(st, caller, c, RemoveLiquidity(shares, min0, min1))
    ensures !Apply(st, caller, c, RemoveLiquidity(shares, min0, min1)).Hangs?
  {
    hide ApplyAll, EventChanges, TransferChanges, ReadPool, Worth, Remove, Sent, WrapSub, CanSend, PoolChanges;
    ReadPoolIs(st, c);
    if IsSetUp(st, c) {
      RemoveIsAdmitted(st, caller, c, shares, min0, min1);
      var me, vault := AddressOf(caller), PoolAddress(c);
      var out0, out1 := Worth(st, c, shares, R0(st, c)), Worth(st, c, shares, R1(st, c));
      WrapSubIs(Supply(st, c), shares);
      if Admits(st, caller, c, RemoveLiquidity(shares, min0, min1)) {
        FourStages(st, c, caller, vault, me, Token0(st, c).value, out0, Token1(st, c).value, out1,
                   R0(st, c) - out0, R1(st, c) - out1, WrapSub(Supply(st, c), shares),
                   ShareOf(st, c, caller) - shares, Event(3, me, [], [shares, out0, out1]));
      }
    }
  }

  /** Two transfers, two reserves and an event. */
  lemma SwapStages(st: Store, c: string, me: Address, vault: Address, tokenIn: string, amountIn: u64, tokenOut: string,
                   out: u64, slotIn: Slot, newIn: u64, slotOut: Slot, newOut: u64, event: Value)
    requires CanSend(st, tokenIn, me, vault, amountIn) && CanSend(st, tokenOut, vault, me, out) && CanRecord(st, c)
    ensures TransferChanges(st, tokenIn, me, vault, amountIn).Some?
    ensures TransferChanges(st, tokenOut, vault, me, out).Some? && EventChanges(st, c, event).Some?
    ensures var paid := Sent(Sent(st, st, tokenIn, me, vault, amountIn), st, tokenOut, vault, me, out);
      ApplyAll(st, TransferChanges(st, tokenIn, me, vault, amountIn).value
                   + TransferChanges(st, tokenOut, vault, me, out).value
                   + [Change(slotIn, Word(newIn)), Change(slotOut, Word(newOut))]
                   + EventChanges(st, c, event).value)
        == Recorded(Put(Put(paid, slotIn, newIn), slotOut, newOut), st, c, event)
  {
    hide ApplyAll, EventChanges, TransferChanges, CanSend, Sent;
    TransferIsSent(st, st, tokenIn, me, vault, amountIn);
    var st1 := Sent(st, st, tokenIn, me, vault, amountIn);
    TransferIsSent(st1, st, tokenOut, vault, me, out);
    var st2 := Sent(st1, st, tokenOut, vault, me, out);
    EventIsRecorded(st, st, c, event);
    var a, b := Change(slotIn, Word(newIn)), Change(slotOut, Word(newOut));
    Stages(st, TransferChanges(st, tokenIn, me, vault, amountIn).value,
           TransferChanges(st, tokenOut, vault, me, out).value, [a, b], EventChanges(st, c, event).value);
    Two(st2, a, b);
    EventIsRecorded(ApplyAll(st2, [a, b]), st, c, event);
  }

  lemma PaymentIs(st: Store, c: string, dir: u64, amountIn: u64)
    requires FeeOf(st, c) <= 10000 && R0(st, c) > 0 && R1(st, c) > 0 && dir <= 1
    ensures var (rin, rout) := if dir == 0 then (R0(st, c), R1(st, c)) else (R1(st, c), R0(st, c));
      var quote, out := SwapQuote(rin, rout, FeeOf(st, c), amountIn), Payment(st, c, dir, amountIn);
      quote == if 0 < out < rout then Some(out) else None
  {
    FeeOnlyLowers(amountIn, FeeOf(st, c));
    var after := MulDiv(amountIn, 10000 - FeeOf(st, c), 10000);
    hide MulDiv;
    NothingOfNothing(R0(st, c), R1(st, c));
    NothingOfNothing(R1(st, c), R0(st, c));
  }

  lemma NothingOfNothing(a: nat, b: nat)
    requires b > 0
    ensures MulDiv(0, a, b) == 0
  {
  }

  lemma SwapIsAdmitted(st: Store, caller: string, c: string, dir: u64, amountIn: u64, min: u64)
    requires IsSetUp(st, c)
    ensures var out := Swap(st, caller, c, ReadPool(st, c).value, dir, amountIn, min);
      var me, vault, pays := AddressOf(caller), PoolAddress(c), Payment(st, c, dir, amountIn);
      var (token0, token1) := (Token0(st, c).value, Token1(st, c).value);
      && !out.Hangs?
      && (out.Applied? <==> Admits(st, caller, c, SwapExactIn(dir, amountIn, min)))
      && (out.Applied? && dir == 0 ==>
            pays <= R1(st, c) && EventChanges(st, c, Event(4, me, [], [dir, amountIn, pays])).Some? &&
            out.changes == TransferChanges(st, token0, me, vault, amountIn).value
              + TransferChanges(st, token1, vault, me, pays).value
              + [Change(Slot(c, PoolReserve0), Word(R0(st, c) + amountIn)),
                 Change(Slot(c, PoolReserve1), Word(R1(st, c) - pays))]
              + EventChanges(st, c, Event(4, me, [], [dir, amountIn, pays])).value)
      && (out.Applied? && dir != 0 ==>
            pays <= R0(st, c) && EventChanges(st, c, Event(4, me, [], [dir, amountIn, pays])).Some? &&
            out.changes == TransferChanges(st, token1, me, vault, amountIn).value
              + TransferChanges(st, token0, vault, me, pays).value
              + [Change(Slot(c, PoolReserve1), Word(R1(st, c) + amountIn)),
                 Change(Slot(c, PoolReserve0), Word(R0(st, c) - pays))]
              + EventChanges(st, c, Event(4, me, [], [dir, amountIn, pays])).value)
  {
    hide ApplyAll, EventChanges, TransferChanges, ReadPool, CanSend, SwapQuote, Payment;
    ReadPoolIs(st, c);
    var me, vault, pays := AddressOf(caller), PoolAddress(c), Payment(st, c, dir, amountIn);
    var token0, token1 := Token0(st, c).value, Token1(st, c).value;
    NothingSent(st, token0, me, vault);
    NothingSent(st, token1, me, vault);
    NothingSent(st, token0, vault, me);
    NothingSent(st, token1, vault, me);
    if FeeOf(st, c) <= 10000 && R0(st, c) > 0 && R1(st, c) > 0 && dir <= 1 {
      PaymentIs(st, c, dir, amountIn);
      TransferIsSent(st, st, token0, me, vault, amountIn);
      TransferIsSent(st, st, token1, me, vault, amountIn);
      if pays <= U64_MAX {
        TransferIsSent(st, st, token0, vault, me, pays);
        TransferIsSent(st, st, token1, vault, me, pays);
        EventIsRecorded(st, st, c, Event(4, me, [], [dir, amountIn, pays]));
      }
    }
  }

  lemma SwapAgrees(st: Store, caller: string, c: string, dir: u64, amountIn: u64, min: u64)
    ensures Agrees(st, caller, c, SwapExactIn(dir, amountIn, min))
    ensures !Apply(st, caller, c, SwapExactIn(dir, amountIn, min)).Hangs?
  {
    hide ApplyAll, EventChanges, TransferChanges, ReadPool, Payment, Swap, Sent, CanSend;
    ReadPoolIs(st, c);
    if IsSetUp(st, c) {
      SwapIsAdmitted(st, caller, c, dir, amountIn, min);
      var me, vault, pays := AddressOf(caller), PoolAddress(c), Payment(st, c, dir, amountIn);
      var token0, token1 := Token0(st, c).value, Token1(st, c).value;
      var s0, s1 := Slot(c, PoolReserve0), Slot(c, PoolReserve1);
      if Admits(st, caller, c, SwapExactIn(dir, amountIn, min)) {
        var event := Event(4, me, [], [dir, amountIn, pays]);
        if dir == 0 {
          SwapStages(st, c, me, vault, token0, amountIn, token1, pays, s0, R0(st, c) + amountIn, s1, R1(st, c) - pays,
                     event);
        } else {
          SwapStages(st, c, me, vault, token1, amountIn, token0, pays, s1, R1(st, c) + amountIn, s0, R0(st, c) - pays,
                     event);
        }
      }
    }
  }

  /** Every call, on any storage: when it hangs, when it is accepted, and the whole storage it leaves. */
  lemma CallAgrees(st: Store, caller: string, c: string, call: Call)
    ensures Agrees(st, caller, c, call)
    ensures Apply(st, caller, c, call).Hangs? <==>
      call.AddLiquidity? && IsSetUp(st, c) && RootHangs(st, c, call.amount0, call.amount1)
  {
    hide Apply, Agrees;
    match call
    case CreatePool(token0, token1, fee) =>
      CreateAgrees(st, caller, c, token0, token1, fee);
      CreateReturns(st, caller, c, token0, token1, fee);
    case AddLiquidity(amount0, amount1, min) => AddAgrees(st, caller, c, amount0, amount1, min);
    case RemoveLiquidity(shares, min0, min1) => RemoveAgrees(st, caller, c, shares, min0, min1);
    case SwapExactIn(dir, amountIn, min) => SwapAgrees(st, caller, c, dir, amountIn, min);
  }

  lemma CreateReturns(st: Store, caller: string, c: string, token0: string, token1: string, fee: u64)
    ensures !Apply(st, caller, c, CreatePool(token0, token1, fee)).Hangs?
  {
  }

  // -------- runs --------

  /** The tokens and the fee of a pool are those it was created with, in every run. */
  lemma {:induction false} RunKeepsTerms(st: Store, c: string, calls: seq<(string, Call)>)
    requires IsSetUp(st, c)
    ensures var end := Run(st, c, calls);
      end.Some? ==> IsSetUp(end.value, c) && SameTerms(st, end.value, c)
    decreases |calls|
  {
    if calls != [] {
      hide Apply, ApplyAll, Admits, Result, IsSetUp;
      var (caller, call) := calls[0];
      var out := Apply(st, caller, c, call);
      if !out.Hangs? {
        CallAgrees(st, caller, c, call);
        if out.Applied? {
          ResultKeepsTerms(st, caller, c, call);
        }
        RunKeepsTerms(After(st, out), c, calls[1..]);
      }
    }
  }

  predicate SameTerms(st: Store, next: Store, c: string) {
    FeeOf(next, c) == FeeOf(st, c) && Token0(next, c) == Token0(st, c) && Token1(next, c) == Token1(st, c)
  }

  predicate Moves(s: Slot) {
    s.key.TokenBalance? || s.key.PoolReserve0? || s.key.PoolReserve1? || s.key.PoolSupply? || s.key.PoolShare?
    || s.key.EventSeq? || s.key.EventAt?
  }

  ghost predicate OnlyTokens(st: Store, paid: Store) {
    forall s: Slot | !s.key.TokenBalance? :: (s in paid <==> s in st) && (s in st ==> paid[s] == st[s])
  }

  lemma PaidTwice(st: Store, token0: string, from0: Address, to0: Address, amount0: nat, token1: string, from1: Address,
                  to1: Address, amount1: nat)
    requires CanSend(st, token0, from0, to0, amount0) && CanSend(st, token1, from1, to1, amount1)
    ensures OnlyTokens(st, Sent(Sent(st, st, token0, from0, to0, amount0), st, token1, from1, to1, amount1))
  {
    SentElsewhere(st, st, token0, from0, to0, amount0);
    SentElsewhere(Sent(st, st, token0, from0, to0, amount0), st, token1, from1, to1, amount1);
  }

  lemma PutKeepsTerms(st: Store, base: Store, c: string, slot: Slot, n: u64)
    requires KeepsTerms(st, base, c) && Moves(slot)
    ensures KeepsTerms(st, Put(base, slot, n), c)
  {
  }

  lemma RecordedKeepsTerms(st: Store, base: Store, c: string, event: Value)
    requires KeepsTerms(st, base, c) && CanRecord(st, c)
    ensures KeepsTerms(st, Recorded(base, st, c, event), c)
  {
  }

  lemma ReservesKeepTerms(st: Store, paid: Store, c: string, slotIn: Slot, r: u64, slotOut: Slot, q: u64, event: Value)
    requires IsSetUp(st, c) && CanRecord(st, c) && OnlyTokens(st, paid)
    requires slotIn.key in {PoolReserve0, PoolReserve1} && slotOut.key in {PoolReserve0, PoolReserve1}
    ensures KeepsTerms(st, Recorded(Put(Put(paid, slotIn, r), slotOut, q), st, c, event), c)
  {
    assert KeepsTerms(st, paid, c);
    hide KeepsTerms, Put, Recorded;
    PutKeepsTerms(st, paid, c, slotIn, r);
    PutKeepsTerms(st, Put(paid, slotIn, r), c, slotOut, q);
    RecordedKeepsTerms(st, Put(Put(paid, slotIn, r), slotOut, q), c, event);
  }

  lemma NumbersKeepTerms(st: Store, paid: Store, c: string, r0: u64, r1: u64, supply: u64, account: string, share: u64,
                         event: Value)
    requires IsSetUp(st, c) && CanRecord(st, c) && OnlyTokens(st, paid)
    ensures var pool := Put(Put(paid, Slot(c, PoolReserve0), r0), Slot(c, PoolReserve1), r1);
      var owned := Put(Put(pool, Slot(c, PoolSupply), supply), Slot(c, PoolShare(account)), share);
      KeepsTerms(st, Recorded(owned, st, c, event), c)
  {
    assert KeepsTerms(st, paid, c);
    hide KeepsTerms, Put, Recorded;
    var one := Put(paid, Slot(c, PoolReserve0), r0);
    var two := Put(one, Slot(c, PoolReserve1), r1);
    var three := Put(two, Slot(c, PoolSupply), supply);
    PutKeepsTerms(st, paid, c, Slot(c, PoolReserve0), r0);
    PutKeepsTerms(st, one, c, Slot(c, PoolReserve1), r1);
    PutKeepsTerms(st, two, c, Slot(c, PoolSupply), supply);
    PutKeepsTerms(st, three, c, Slot(c, PoolShare(account)), share);
    RecordedKeepsTerms(st, Put(three, Slot(c, PoolShare(account)), share), c, event);
  }

  ghost predicate KeepsTerms(st: Store, next: Store, c: string) {
    IsSetUp(next, c) && SameTerms(st, next, c) && SameOutside(st, next, Moves)
  }

  /** After its creation a pool's calls write balances, reserves, supply, shares and events, and numbers at that. */
  lemma ResultKeepsTerms(st: Store, caller: string, c: string, call: Call)
    requires IsSetUp(st, c) && Admits(st, caller, c, call)
    ensures KeepsTerms(st, Result(st, caller, c, call), c)
  {
    hide Minted, Payment, Worth, CanSend, Sent, Recorded, Put, KeepsTerms, OnlyTokens;
    var me, vault, token0, token1 := AddressOf(caller), PoolAddress(c), Token0(st, c).value, Token1(st, c).value;
    match call
    case AddLiquidity(amount0, amount1, _) =>
      var minted := Minted(st, c, amount0, amount1);
      PaidTwice(st, token0, me, vault, amount0, token1, me, vault, amount1);
      NumbersKeepTerms(st, Sent(Sent(st, st, token0, me, vault, amount0), st, token1, me, vault, amount1), c,
                       R0(st, c) + amount0, R1(st, c) + amount1, Supply(st, c) + minted, caller,
                       ShareOf(st, c, caller) + minted, Event(2, me, [], [amount0, amount1, minted]));
    case RemoveLiquidity(shares, _, _) =>
      var out0, out1 := Worth(st, c, shares, R0(st, c)), Worth(st, c, shares, R1(st, c));
      PaidTwice(st, token0, vault, me, out0, token1, vault, me, out1);
      NumbersKeepTerms(st, Sent(Sent(st, st, token0, vault, me, out0), st, token1, vault, me, out1), c,
                       R0(st, c) - out0, R1(st, c) - out1, (Supply(st, c) - shares) % (U64_MAX + 1), caller,
                       ShareOf(st, c, caller) - shares, Event(3, me, [], [shares, out0, out1]));
    case SwapExactIn(dir, amountIn, _) =>
      var out, s0, s1 := Payment(st, c, dir, amountIn), Slot(c, PoolReserve0), Slot(c, PoolReserve1);
      var event := Event(4, me, [], [dir, amountIn, out]);
      if dir == 0 {
        PaidTwice(st, token0, me, vault, amountIn, token1, vault, me, out);
        ReservesKeepTerms(st, Sent(Sent(st, st, token0, me, vault, amountIn), st, token1, vault, me, out), c,
                          s0, R0(st, c) + amountIn, s1, R1(st, c) - out, event);
      } else {
        PaidTwice(st, token1, me, vault, amountIn, token0, vault, me, out);
        ReservesKeepTerms(st, Sent(Sent(st, st, token1, me, vault, amountIn), st, token0, vault, me, out), c,
                          s1, R1(st, c) + amountIn, s0, R0(st, c) - out, event);
      }
  }
}
