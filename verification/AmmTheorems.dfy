/** What every run of one pool keeps: solvency of shares, prices that favour the pool, and backing by tokens. */
module AmmTheorems {
  import opened Common
  import opened ContractStore
  import opened Isqrt
  import opened PoolMath
  import opened Amm

  // -------- the pool's numbers --------

  function R0(st: Store, contract: string): u64 { Num(st, Slot(contract, PoolReserve0)) }
  function R1(st: Store, contract: string): u64 { Num(st, Slot(contract, PoolReserve1)) }
  function Supply(st: Store, contract: string): u64 { Num(st, Slot(contract, PoolSupply)) }
  function Token0(st: Store, contract: string): Option<string> { ReadId(st, Slot(contract, PoolToken0)) }
  function Token1(st: Store, contract: string): Option<string> { ReadId(st, Slot(contract, PoolToken1)) }
  /** Weighs each liquidity provider's shares in the pool. */
  function ShareWeight(contract: string): Weight {
    (s: Slot, v: Value) => if s.contract == contract && s.key.PoolShare? && v.Word? then v.n else 0
  }

  ghost predicate Inv(st: Store, contract: string) {
    var r0, r1, supply := R0(st, contract), R1(st, contract), Supply(st, contract);
    && supply * supply <= r0 * r1
    && (supply == 0 <==> r0 == 0) && (supply == 0 <==> r1 == 0)
    && Total(st, ShareWeight(contract)) == supply
    && (if Initialized(st, contract) then Token0(st, contract) != Token1(st, contract) else supply == 0)
  }

  // -------- applying change lists --------

  /** Changes to other slots keep every token's supply. */
  lemma SuppliesStay(st: Store, changes: seq<Change>)
    requires forall i | 0 <= i < |changes| :: !changes[i].slot.key.TokenBalance?
    ensures forall token :: Total(ApplyAll(st, changes), TokenWeight(token)) == Total(st, TokenWeight(token))
  {
    hide Total, ApplyAll;
    forall token ensures Total(ApplyAll(st, changes), TokenWeight(token)) == Total(st, TokenWeight(token)) {
      WeightlessChanges(st, changes, TokenWeight(token));
    }
  }

  /** Recording an event touches nothing but the event slots. */
  lemma EventTouches(st: Store, before: Store, contract: string, event: Value)
    requires EventChanges(before, contract, event).Some?
    ensures var changes := EventChanges(before, contract, event).value;
            var next := ApplyAll(st, changes);
            && (forall s: Slot :: !s.key.EventSeq? && !s.key.EventAt? ==>
                  (s in next <==> s in st) && (s in st ==> next[s] == st[s]))
            && Total(next, ShareWeight(contract)) == Total(st, ShareWeight(contract))
            && forall token :: Total(next, TokenWeight(token)) == Total(st, TokenWeight(token))
  {
    hide Total, ApplyAll;
    var changes := EventChanges(before, contract, event).value;
    assert changes == [changes[0], changes[1]];
    Two(st, changes[0], changes[1]);
    WeightlessChanges(st, changes, ShareWeight(contract));
    SuppliesStay(st, changes);
  }

  /** What a call may do to the books: new reserves and supply, a new share balance, two transfers. */
  ghost predicate Moved(st: Store, next: Store, contract: string, caller: string, r0: nat, r1: nat, supply: nat,
                        shareGain: int) {
    && R0(next, contract) == r0 && R1(next, contract) == r1 && Supply(next, contract) == supply
    && Token0(next, contract) == Token0(st, contract) && Token1(next, contract) == Token1(st, contract)
    && Total(next, ShareWeight(contract)) == Total(st, ShareWeight(contract)) + shareGain
  }

  /** The token side of a call: two transfers, of two different tokens. */
  ghost predicate TokensMoved(st: Store, next: Store, token: string, from: Address, to: Address, amount: u64) {
    && Balance(next, token, to) == Balance(st, token, to) + amount
    && (from != to ==> Balance(next, token, from) == Balance(st, token, from) - amount)
    && (from != to ==> Total(next, TokenWeight(token)) == Total(st, TokenWeight(token)))
  }

  /** What happened to a token stands when its balances and supply are left alone. */
  lemma TokensStayMoved(st: Store, mid: Store, next: Store, token: string, from: Address, to: Address, amount: u64)
    requires TokensMoved(st, mid, token, from, to, amount)
    requires forall s: Slot :: s.key.TokenBalance? ==> (s in next <==> s in mid) && (s in mid ==> next[s] == mid[s])
    requires Total(next, TokenWeight(token)) == Total(mid, TokenWeight(token))
    ensures TokensMoved(st, next, token, from, to, amount)
  {
    hide Total;
  }

  function CallChanges(st: Store, contract: string, caller: string, t0: seq<Change>, t1: seq<Change>, r0: u64, r1: u64,
                       supply: u64, share: u64, event: Value): seq<Change>
    requires EventChanges(st, contract, event).Some?
  {
    t0 + t1 + PoolChanges(contract, caller, r0, r1, supply, share) + EventChanges(st, contract, event).value
  }

  /** Two transfers followed by new pool numbers and an event. */
  lemma BooksAfter(st: Store, contract: string, caller: string, pool: Pool, from0: Address, to0: Address, amount0: u64,
                   from1: Address, to1: Address, amount1: u64, r0: u64, r1: u64, supply: u64, share: u64, event: Value)
    requires ReadPool(st, contract) == Some(pool) && pool.token0 != pool.token1
    requires ReadWord(st, Slot(contract, PoolShare(caller))).Some?
    requires TransferChanges(st, pool.token0, from0, to0, amount0).Some?
    requires TransferChanges(st, pool.token1, from1, to1, amount1).Some?
    requires EventChanges(st, contract, event).Some?
    ensures var t0 := TransferChanges(st, pool.token0, from0, to0, amount0).value;
            var t1 := TransferChanges(st, pool.token1, from1, to1, amount1).value;
            var next := ApplyAll(st, CallChanges(st, contract, caller, t0, t1, r0, r1, supply, share, event));
            && Moved(st, next, contract, caller, r0, r1, supply, share - Num(st, Slot(contract, PoolShare(caller))))
            && TokensMoved(st, next, pool.token0, from0, to0, amount0)
            && TokensMoved(st, next, pool.token1, from1, to1, amount1)
  {
    hide ApplyAll, Total, TransferChanges, EventChanges, PoolChanges, ReadPool, TokensMoved;
    var t0 := TransferChanges(st, pool.token0, from0, to0, amount0).value;
    var t1 := TransferChanges(st, pool.token1, from1, to1, amount1).value;
    var p, e := PoolChanges(contract, caller, r0, r1, supply, share), EventChanges(st, contract, event).value;
    var st2 := ApplyAll(ApplyAll(st, t0), t1);
    var st3 := ApplyAll(st2, p);
    Stages(st, t0, t1, p, e);
    BothTransfers(st, contract, pool.token0, from0, to0, amount0, pool.token1, from1, to1, amount1);
    PoolChangesDo(st2, contract, caller, r0, r1, supply, share);
    EventTouches(st3, st, contract, event);
    var next := ApplyAll(st3, e);
    TokensStayMoved(st, st2, next, pool.token0, from0, to0, amount0);
    TokensStayMoved(st, st2, next, pool.token1, from1, to1, amount1);
  }

  lemma BothTransfers(st: Store, contract: string, token0: string, from0: Address, to0: Address, amount0: u64,
                      token1: string, from1: Address, to1: Address, amount1: u64)
    requires token0 != token1
    requires TransferChanges(st, token0, from0, to0, amount0).Some?
    requires TransferChanges(st, token1, from1, to1, amount1).Some?
    ensures var t0 := TransferChanges(st, token0, from0, to0, amount0).value;
            var t1 := TransferChanges(st, token1, from1, to1, amount1).value;
            var next := ApplyAll(ApplyAll(st, t0), t1);
            && (forall s: Slot :: !s.key.TokenBalance? ==> (s in next <==> s in st) && (s in st ==> next[s] == st[s]))
            && Total(next, ShareWeight(contract)) == Total(st, ShareWeight(contract))
            && TokensMoved(st, next, token0, from0, to0, amount0)
            && TokensMoved(st, next, token1, from1, to1, amount1)
  {
    hide ApplyAll, Total, TransferChanges;
    var st1 := ApplyAll(st, TransferChanges(st, token0, from0, to0, amount0).value);
    TransferMoves(st, token0, from0, to0, amount0);
    // The second transfer was priced on `st`, but the first one did not touch its token.
    SameTransfer(st, st1, token1, from1, to1, amount1);
    TransferMoves(st1, token1, from1, to1, amount1);
    TransferIgnored(st, token0, from0, to0, amount0, contract, token1);
    TransferIgnored(st1, token1, from1, to1, amount1, contract, token0);
  }

  /** A transfer leaves the pool's shares and every other token alone. */
  lemma TransferIgnored(st: Store, token: string, from: Address, to: Address, amount: u64, contract: string,
                        other: string)
    requires TransferChanges(st, token, from, to, amount).Some? && other != token
    ensures var next := ApplyAll(st, TransferChanges(st, token, from, to, amount).value);
            Total(next, ShareWeight(contract)) == Total(st, ShareWeight(contract)) &&
            Total(next, TokenWeight(other)) == Total(st, TokenWeight(other))
  {
    var changes := TransferChanges(st, token, from, to, amount).value;
    WeightlessChanges(st, changes, ShareWeight(contract));
    WeightlessChanges(st, changes, TokenWeight(other));
  }

  lemma PoolChangesDo(st: Store, contract: string, caller: string, r0: u64, r1: u64, supply: u64, share: u64)
    ensures var next := ApplyAll(st, PoolChanges(contract, caller, r0, r1, supply, share));
            && R0(next, contract) == r0 && R1(next, contract) == r1 && Supply(next, contract) == supply
            && (forall s: Slot :: s.key.TokenBalance? || s.key.PoolToken0? || s.key.PoolToken1? ==>
                  (s in next <==> s in st) && (s in st ==> next[s] == st[s]))
            && Total(next, ShareWeight(contract)) ==
               Total(st, ShareWeight(contract)) - Num(st, Slot(contract, PoolShare(caller))) + share
            && forall token :: Total(next, TokenWeight(token)) == Total(st, TokenWeight(token))
  {
    hide Total, ApplyAll;
    var p := PoolChanges(contract, caller, r0, r1, supply, share);
    Four(st, p[0], p[1], p[2], p[3]);
    var st3 := st[p[0].slot := p[0].value][p[1].slot := p[1].value][p[2].slot := p[2].value];
    var w := ShareWeight(contract);
    TotalUpdate(st, p[0].slot, p[0].value, w);
    TotalUpdate(st[p[0].slot := p[0].value], p[1].slot, p[1].value, w);
    TotalUpdate(st[p[0].slot := p[0].value][p[1].slot := p[1].value], p[2].slot, p[2].value, w);
    TotalUpdate(st3, p[3].slot, p[3].value, w);
    SuppliesStay(st, p);
  }

  // -------- one call --------

  /** Neither reserve per share falls (cross-multiplied). */
  ghost predicate SharesKeepValue(st: Store, next: Store, contract: string) {
    && Supply(next, contract) * R0(st, contract) <= Supply(st, contract) * R0(next, contract)
    && Supply(next, contract) * R1(st, contract) <= Supply(st, contract) * R1(next, contract)
  }

  /** The tokens the pool account holds beyond its reserves are the same before and after. */
  ghost predicate BackingKept(st: Store, next: Store, contract: string)
    requires Initialized(st, contract)
  {
    var token0, token1, vault := Token0(st, contract).value, Token1(st, contract).value, PoolAddress(contract);
    && Balance(next, token0, vault) - R0(next, contract) == Balance(st, token0, vault) - R0(st, contract)
    && Balance(next, token1, vault) - R1(next, contract) == Balance(st, token1, vault) - R1(st, contract)
  }

  /** Both token supplies are conserved. */
  ghost predicate TokensConserved(st: Store, next: Store, contract: string)
    requires Initialized(st, contract)
  {
    && Total(next, TokenWeight(Token0(st, contract).value)) == Total(st, TokenWeight(Token0(st, contract).value))
    && Total(next, TokenWeight(Token1(st, contract).value)) == Total(st, TokenWeight(Token1(st, contract).value))
  }

  ghost predicate SameTokens(st: Store, next: Store, contract: string) {
    Token0(next, contract) == Token0(st, contract) && Token1(next, contract) == Token1(st, contract)
  }

  /** An account whose name hashes to the pool's own address. */
  predicate IsPool(caller: string, contract: string) {
    AddressOf(caller) == PoolAddress(contract)
  }

  lemma PoolNumbers(st: Store, contract: string, pool: Pool)
    requires ReadPool(st, contract) == Some(pool)
    ensures Initialized(st, contract)
    ensures R0(st, contract) == pool.r0 && R1(st, contract) == pool.r1 && Supply(st, contract) == pool.supply
    ensures Token0(st, contract) == Some(pool.token0) && Token1(st, contract) == Some(pool.token1)
  {
  }

  lemma SameTokensStayInitialized(st: Store, next: Store, contract: string)
    requires Initialized(st, contract) && SameTokens(st, next, contract)
    ensures Initialized(next, contract)
  {
  }

  lemma AddKeeps(st: Store, caller: string, contract: string, pool: Pool, amount0: u64, amount1: u64, minShares: u64)
    requires Inv(st, contract) && ReadPool(st, contract) == Some(pool)
    requires Add(st, caller, contract, pool, amount0, amount1, minShares).Applied?
    ensures var next := ApplyAll(st, Add(st, caller, contract, pool, amount0, amount1, minShares).changes);
            && Inv(next, contract) && SameTokens(st, next, contract) && BackingKept(st, next, contract)
            && (Supply(st, contract) > 0 ==> SharesKeepValue(st, next, contract))
            && (!IsPool(caller, contract) ==> TokensConserved(st, next, contract))
  {
    hide Total, ApplyAll, TransferChanges, EventChanges, PoolChanges, MintQuote, ReadPool, Initialized, R0, R1, Supply,
         Token0, Token1, Balance, Inv, Moved, SharesKeepValue;
    PoolNumbers(st, contract, pool);
    var me, vault := AddressOf(caller), PoolAddress(contract);
    var minted := MintQuote(pool, amount0, amount1).value;
    var share := ReadWord(st, Slot(contract, PoolShare(caller))).value;
    TokensDiffer(st, contract, pool);
    BooksAfter(st, contract, caller, pool, me, vault, amount0, me, vault, amount1, pool.r0 + amount0, pool.r1 + amount1,
               pool.supply + minted, share + minted, Event(2, me, [], [amount0, amount1, minted]));
    MintIsBounded(pool, amount0, amount1);
    var next := ApplyAll(st, Add(st, caller, contract, pool, amount0, amount1, minShares).changes);
    GrownPool(st, next, contract, caller, pool, pool.r0 + amount0, pool.r1 + amount1, pool.supply + minted, minted);
    SameTokensStayInitialized(st, next, contract);
  }

  lemma TokensDiffer(st: Store, contract: string, pool: Pool)
    requires Inv(st, contract) && ReadPool(st, contract) == Some(pool)
    ensures pool.token0 != pool.token1
    ensures pool.supply * pool.supply <= pool.r0 * pool.r1
    ensures (pool.supply == 0 <==> pool.r0 == 0) && (pool.supply == 0 <==> pool.r1 == 0)
  {
    hide Total;
  }

  /** New numbers that grow together keep the pool sound and its shares worth what they were. */
  lemma GrownPool(st: Store, next: Store, contract: string, caller: string, pool: Pool, r0: nat, r1: nat, supply: nat,
                  gain: nat)
    requires Inv(st, contract) && ReadPool(st, contract) == Some(pool) && supply == pool.supply + gain
    requires Moved(st, next, contract, caller, r0, r1, supply, gain)
    requires 0 < supply && 0 < r0 && 0 < r1 && supply * supply <= r0 * r1
    requires supply * pool.r0 <= pool.supply * r0 && supply * pool.r1 <= pool.supply * r1
    ensures Inv(next, contract) && SameTokens(st, next, contract) && SharesKeepValue(st, next, contract)
    ensures R0(next, contract) == r0 && R1(next, contract) == r1
  {
    hide Total, ReadPool, R0, R1, Supply, Token0, Token1;
    PoolNumbers(st, contract, pool);
    SameTokensStayInitialized(st, next, contract);
  }

  lemma MintIsBounded(pool: Pool, amount0: u64, amount1: u64)
    requires MintQuote(pool, amount0, amount1).Quoted?
    requires pool.supply * pool.supply <= pool.r0 * pool.r1
    requires (pool.supply == 0 <==> pool.r0 == 0) && (pool.supply == 0 <==> pool.r1 == 0)
    ensures var n, s0, s1 :=
              pool.supply + MintQuote(pool, amount0, amount1).value, pool.r0 + amount0, pool.r1 + amount1;
            && 0 < n && 0 < s0 && 0 < s1 && n * n <= s0 * s1
            && n * pool.r0 <= pool.supply * s0 && n * pool.r1 <= pool.supply * s1
  {
    var minted := MintQuote(pool, amount0, amount1).value;
    if pool.supply == 0 {
      if amount0 == 0 || amount1 == 0 {
        ZeroRoot(amount0 * amount1);
      }
    } else {
      MintKeepsShare(amount0, pool.supply, pool.r0, minted);
      MintKeepsShare(amount1, pool.supply, pool.r1, minted);
      GeometricMean(pool.supply, pool.r0, pool.r1, pool.supply + minted, pool.r0 + amount0, pool.r1 + amount1);
    }
  }

  lemma ZeroRoot(x: nat)
    ensures x == 0 ==> FloorSqrt(x) == 0
  {
  }

  /** One provider never holds more than all shares, so burning cannot wrap the supply around. */
  lemma ShareAtMostSupply(st: Store, contract: string, caller: string)
    ensures Num(st, Slot(contract, PoolShare(caller))) <= Total(st, ShareWeight(contract))
  {
    var slot := Slot(contract, PoolShare(caller));
    if slot in st {
      TotalRemove(st, slot, ShareWeight(contract));
    }
  }

  lemma RemoveKeeps(st: Store, caller: string, contract: string, pool: Pool, shares: u64, min0: u64, min1: u64)
    requires Inv(st, contract) && ReadPool(st, contract) == Some(pool)
    requires Remove(st, caller, contract, pool, shares, min0, min1).Applied?
    ensures var next := ApplyAll(st, Remove(st, caller, contract, pool, shares, min0, min1).changes);
            && Inv(next, contract) && SameTokens(st, next, contract) && SharesKeepValue(st, next, contract)
            && Supply(next, contract) == Supply(st, contract) - shares
            && (if IsPool(caller, contract) then !BackingKept(st, next, contract)
                else BackingKept(st, next, contract) && TokensConserved(st, next, contract))
  {
    hide Total, ApplyAll, TransferChanges, EventChanges, PoolChanges, BurnQuote;
    var me, vault := AddressOf(caller), PoolAddress(contract);
    var (out0, out1) := BurnQuote(pool, shares).value;
    var share := ReadWord(st, Slot(contract, PoolShare(caller))).value;
    ShareAtMostSupply(st, contract, caller);
    BurnIsBounded(pool, shares);
    BooksAfter(st, contract, caller, pool, vault, me, out0, vault, me, out1, pool.r0 - out0, pool.r1 - out1,
               pool.supply - shares, share - shares, Event(3, me, [], [shares, out0, out1]));
  }

  lemma BurnIsBounded(pool: Pool, shares: u64)
    requires BurnQuote(pool, shares).Some? && shares <= pool.supply
    requires pool.supply * pool.supply <= pool.r0 * pool.r1
    ensures var (out0, out1) := BurnQuote(pool, shares).value;
            var n, s0, s1 := pool.supply - shares, pool.r0 - out0, pool.r1 - out1;
            && out0 > 0 && s0 >= 0 && s1 >= 0 && n * n <= s0 * s1 && (n == 0 <==> s0 == 0) && (n == 0 <==> s1 == 0)
            && n * pool.r0 <= pool.supply * s0 && n * pool.r1 <= pool.supply * s1
  {
    var (out0, out1) := BurnQuote(pool, shares).value;
    BurnKeepsShare(shares, pool.supply, pool.r0, out0);
    BurnKeepsShare(shares, pool.supply, pool.r1, out1);
    GeometricMean(pool.supply, pool.r0, pool.r1, pool.supply - shares, pool.r0 - out0, pool.r1 - out1);
  }

  /** The books after a swap: two transfers, two reserves and an event. */
  lemma SwapBooks(st: Store, contract: string, tokenIn: string, tokenOut: string, me: Address, amountIn: u64, out: u64,
                  slotIn: Slot, slotOut: Slot, newIn: u64, newOut: u64, event: Value)
    requires tokenIn != tokenOut && slotIn != slotOut && slotIn.contract == slotOut.contract == contract
    requires slotIn.key in {PoolReserve0, PoolReserve1} && slotOut.key in {PoolReserve0, PoolReserve1}
    requires TransferChanges(st, tokenIn, me, PoolAddress(contract), amountIn).Some?
    requires TransferChanges(st, tokenOut, PoolAddress(contract), me, out).Some?
    requires EventChanges(st, contract, event).Some?
    ensures var tIn := TransferChanges(st, tokenIn, me, PoolAddress(contract), amountIn).value;
            var tOut := TransferChanges(st, tokenOut, PoolAddress(contract), me, out).value;
            var next := ApplyAll(st, tIn + tOut + [Change(slotIn, Word(newIn)), Change(slotOut, Word(newOut))]
                                     + EventChanges(st, contract, event).value);
            && Num(next, slotIn) == newIn && Num(next, slotOut) == newOut
            && Supply(next, contract) == Supply(st, contract)
            && Token0(next, contract) == Token0(st, contract) && Token1(next, contract) == Token1(st, contract)
            && Total(next, ShareWeight(contract)) == Total(st, ShareWeight(contract))
            && TokensMoved(st, next, tokenIn, me, PoolAddress(contract), amountIn)
            && TokensMoved(st, next, tokenOut, PoolAddress(contract), me, out)
  {
    hide Total, ApplyAll, TransferChanges, EventChanges, TokensMoved;
    var vault := PoolAddress(contract);
    var tIn := TransferChanges(st, tokenIn, me, vault, amountIn).value;
    var tOut := TransferChanges(st, tokenOut, vault, me, out).value;
    var p := [Change(slotIn, Word(newIn)), Change(slotOut, Word(newOut))];
    var st2 := ApplyAll(ApplyAll(st, tIn), tOut);
    var st3 := ApplyAll(st2, p);
    Stages(st, tIn, tOut, p, EventChanges(st, contract, event).value);
    BothTransfers(st, contract, tokenIn, me, vault, amountIn, tokenOut, vault, me, out);
    ReservesAndEvent(st2, st, contract, slotIn, slotOut, newIn, newOut, event);
    var next := ApplyAll(st3, EventChanges(st, contract, event).value);
    TokensStayMoved(st, st2, next, tokenIn, me, vault, amountIn);
    TokensStayMoved(st, st2, next, tokenOut, vault, me, out);
  }

  /** Two reserves and an event: what they write, and what they leave alone. */
  lemma ReservesAndEvent(st: Store, before: Store, contract: string, slotIn: Slot, slotOut: Slot, newIn: u64,
                         newOut: u64, event: Value)
    requires slotIn != slotOut && slotIn.contract == slotOut.contract == contract
    requires EventChanges(before, contract, event).Some?
    requires slotIn.key in {PoolReserve0, PoolReserve1} && slotOut.key in {PoolReserve0, PoolReserve1}
    ensures var p := [Change(slotIn, Word(newIn)), Change(slotOut, Word(newOut))];
            var next := ApplyAll(ApplyAll(st, p), EventChanges(before, contract, event).value);
            && Num(next, slotIn) == newIn && Num(next, slotOut) == newOut
            && (forall s: Slot :: s.key.TokenBalance? || s.key.PoolSupply? || s.key.PoolToken0? || s.key.PoolToken1? ==>
                  (s in next <==> s in st) && (s in st ==> next[s] == st[s]))
            && Total(next, ShareWeight(contract)) == Total(st, ShareWeight(contract))
            && forall token :: Total(next, TokenWeight(token)) == Total(st, TokenWeight(token))
  {
    hide Total, ApplyAll, EventChanges;
    var p := [Change(slotIn, Word(newIn)), Change(slotOut, Word(newOut))];
    ReservesDo(st, contract, slotIn, slotOut, newIn, newOut);
    EventTouches(ApplyAll(st, p), before, contract, event);
  }

  lemma ReservesDo(st: Store, contract: string, slotIn: Slot, slotOut: Slot, newIn: u64, newOut: u64)
    requires slotIn != slotOut && slotIn.contract == slotOut.contract == contract
    requires slotIn.key in {PoolReserve0, PoolReserve1} && slotOut.key in {PoolReserve0, PoolReserve1}
    ensures var next := ApplyAll(st, [Change(slotIn, Word(newIn)), Change(slotOut, Word(newOut))]);
            && Num(next, slotIn) == newIn && Num(next, slotOut) == newOut
            && (forall s: Slot :: !s.key.PoolReserve0? && !s.key.PoolReserve1? ==>
                  (s in next <==> s in st) && (s in st ==> next[s] == st[s]))
            && Total(next, ShareWeight(contract)) == Total(st, ShareWeight(contract))
            && forall token :: Total(next, TokenWeight(token)) == Total(st, TokenWeight(token))
  {
    hide Total, ApplyAll;
    var p := [Change(slotIn, Word(newIn)), Change(slotOut, Word(newOut))];
    Two(st, p[0], p[1]);
    WeightlessChanges(st, p, ShareWeight(contract));
    SuppliesStay(st, p);
  }

  lemma SwapKeeps(st: Store, caller: string, contract: string, pool: Pool, dir: u64, amountIn: u64, minOut: u64)
    requires Inv(st, contract) && ReadPool(st, contract) == Some(pool)
    requires Swap(st, caller, contract, pool, dir, amountIn, minOut).Applied?
    ensures var next := ApplyAll(st, Swap(st, caller, contract, pool, dir, amountIn, minOut).changes);
            && Inv(next, contract) && SameTokens(st, next, contract)
            && R0(st, contract) * R1(st, contract) <= R0(next, contract) * R1(next, contract)
            && Supply(next, contract) == Supply(st, contract)
            && (if IsPool(caller, contract) then !BackingKept(st, next, contract)
                else BackingKept(st, next, contract) && TokensConserved(st, next, contract))
  {
    hide Total, ApplyAll, TransferChanges, EventChanges, SwapQuote;
    var me, r0, r1 := AddressOf(caller), Slot(contract, PoolReserve0), Slot(contract, PoolReserve1);
    if dir == 0 {
      var out := SwapQuote(pool.r0, pool.r1, pool.feeBps, amountIn).value;
      SwapIsBounded(pool.r0, pool.r1, pool.feeBps, amountIn);
      SwapBooks(st, contract, pool.token0, pool.token1, me, amountIn, out, r0, r1, pool.r0 + amountIn, pool.r1 - out,
                Event(4, me, [], [dir, amountIn, out]));
    } else {
      var out := SwapQuote(pool.r1, pool.r0, pool.feeBps, amountIn).value;
      SwapIsBounded(pool.r1, pool.r0, pool.feeBps, amountIn);
      SwapBooks(st, contract, pool.token1, pool.token0, me, amountIn, out, r1, r0, pool.r1 + amountIn, pool.r0 - out,
                Event(4, me, [], [dir, amountIn, out]));
      Commutes(pool.r1, pool.r0);
      Commutes(pool.r1 + amountIn, pool.r0 - out);
    }
  }

  lemma Commutes(a: nat, b: nat)
    ensures a * b == b * a
  {
  }

  lemma SwapIsBounded(rin: u64, rout: u64, feeBps: u64, amountIn: u64)
    requires feeBps <= 10000 && SwapQuote(rin, rout, feeBps, amountIn).Some?
    ensures var out := SwapQuote(rin, rout, feeBps, amountIn).value;
            0 < out < rout && rin * rout <= (rin + amountIn) * (rout - out)
  {
    var afterFee := MulDiv(amountIn, 10000 - feeBps, 10000);
    FeeOnlyLowers(amountIn, feeBps);
    SwapKeepsProduct(rin, rout, amountIn, afterFee, SwapQuote(rin, rout, feeBps, amountIn).value);
  }

  lemma CreateKeeps(st: Store, caller: string, contract: string, token0: string, token1: string, feeBps: u64)
    requires Inv(st, contract) && Create(st, caller, contract, token0, token1, feeBps).Applied?
    ensures Inv(ApplyAll(st, Create(st, caller, contract, token0, token1, feeBps).changes), contract)
  {
    hide Total, ApplyAll, EventChanges;
    var event := Event(1, AddressOf(caller), [token0, token1], [feeBps]);
    var a := [Change(Slot(contract, PoolToken0), Id(token0)), Change(Slot(contract, PoolToken1), Id(token1))];
    var b := [Change(Slot(contract, PoolReserve0), Word(0)), Change(Slot(contract, PoolReserve1), Word(0)),
              Change(Slot(contract, PoolSupply), Word(0)), Change(Slot(contract, PoolFee), Word(feeBps))];
    var e := EventChanges(st, contract, event).value;
    assert Create(st, caller, contract, token0, token1, feeBps).changes == a + b + [] + e;
    var st2 := ApplyAll(ApplyAll(st, a), b);
    Stages(st, a, b, [], e);
    NoChanges(st2);
    CreatedPool(st, contract, token0, token1, feeBps);
    EventTouches(st2, st, contract, event);
  }

  lemma CreatedPool(st: Store, contract: string, token0: string, token1: string, feeBps: u64)
    ensures var a := [Change(Slot(contract, PoolToken0), Id(token0)), Change(Slot(contract, PoolToken1), Id(token1))];
            var b := [Change(Slot(contract, PoolReserve0), Word(0)), Change(Slot(contract, PoolReserve1), Word(0)),
                      Change(Slot(contract, PoolSupply), Word(0)), Change(Slot(contract, PoolFee), Word(feeBps))];
            var next := ApplyAll(ApplyAll(st, a), b);
            && Token0(next, contract) == Some(token0) && Token1(next, contract) == Some(token1)
            && R0(next, contract) == R1(next, contract) == Supply(next, contract) == 0
            && Total(next, ShareWeight(contract)) == Total(st, ShareWeight(contract))
  {
    hide Total;
    var a := [Change(Slot(contract, PoolToken0), Id(token0)), Change(Slot(contract, PoolToken1), Id(token1))];
    var b := [Change(Slot(contract, PoolReserve0), Word(0)), Change(Slot(contract, PoolReserve1), Word(0)),
              Change(Slot(contract, PoolSupply), Word(0)), Change(Slot(contract, PoolFee), Word(feeBps))];
    Two(st, a[0], a[1]);
    Four(ApplyAll(st, a), b[0], b[1], b[2], b[3]);
    WeightlessChanges(st, a, ShareWeight(contract));
    WeightlessChanges(ApplyAll(st, a), b, ShareWeight(contract));
  }

  lemma NoChanges(st: Store)
    ensures ApplyAll(st, []) == st
  {
  }

  // -------- runs --------

  /** The executor applies the changes of a call that succeeds, and nothing of one that is refused. */
  function After(st: Store, out: Outcome): Store
    requires !out.Hangs?
  {
    if out.Applied? then ApplyAll(st, out.changes) else st
  }

  /**
   The state after a sequence of calls from any accounts, or None when one of them never returns.
   */
  function Run(st: Store, contract: string, calls: seq<(string, Call)>): Option<Store>
    decreases |calls|
  {
    if calls == [] then Some(st)
    else
      var out := Apply(st, calls[0].0, contract, calls[0].1);
      if out.Hangs? then None else Run(After(st, out), contract, calls[1..])
  }

  ghost predicate CallPromise(st: Store, next: Store, caller: string, contract: string, swap: bool) {
    && Inv(next, contract)
    && (Initialized(st, contract) ==>
          && SameTokens(st, next, contract)
          && (swap ==> R0(st, contract) * R1(st, contract) <= R0(next, contract) * R1(next, contract)
                       && Supply(next, contract) == Supply(st, contract))
          && (!swap && Supply(st, contract) > 0 ==> SharesKeepValue(st, next, contract))
          && (!IsPool(caller, contract) ==> BackingKept(st, next, contract) && TokensConserved(st, next, contract)))
  }

  /**
   One call, applied or refused: the invariant holds afterwards; a swap does not lower the product of the reserves; any
   other call does not lower the reserves per share; the pool's token balances follow its reserves.
   */
  lemma CallKeeps(st: Store, caller: string, contract: string, call: Call)
    requires Inv(st, contract) && !Apply(st, caller, contract, call).Hangs?
    ensures CallPromise(st, After(st, Apply(st, caller, contract, call)), caller, contract, call.SwapExactIn?)
  {
    hide Total, ApplyAll, Add, Remove, Swap, Inv, BackingKept, TokensConserved, SharesKeepValue;
    var out := Apply(st, caller, contract, call);
    if out.Rejected? {
      NothingHappened(st, contract);
    } else {
      match call
      case CreatePool(token0, token1, feeBps) =>
        CreateKeeps(st, caller, contract, token0, token1, feeBps);
      case AddLiquidity(amount0, amount1, minShares) =>
        AddKeeps(st, caller, contract, ReadPool(st, contract).value, amount0, amount1, minShares);
      case RemoveLiquidity(shares, min0, min1) =>
        RemoveKeeps(st, caller, contract, ReadPool(st, contract).value, shares, min0, min1);
      case SwapExactIn(dir, amountIn, minOut) =>
        SwapKeeps(st, caller, contract, ReadPool(st, contract).value, dir, amountIn, minOut);
    }
  }

  lemma NothingHappened(st: Store, contract: string)
    ensures SharesKeepValue(st, st, contract)
    ensures Initialized(st, contract) ==> BackingKept(st, st, contract) && TokensConserved(st, st, contract)
  {
  }

  /** Every run of one pool, from any state that satisfies the invariant, ends in one that does, if it ends. */
  lemma {:induction false} RunKeepsInvariant(st: Store, contract: string, calls: seq<(string, Call)>)
    requires Inv(st, contract)
    ensures var end := Run(st, contract, calls); end.Some? ==> Inv(end.value, contract)
    decreases |calls|
  {
    if calls != [] {
      var out := Apply(st, calls[0].0, contract, calls[0].1);
      if !out.Hangs? {
        CallKeeps(st, calls[0].0, contract, calls[0].1);
        RunKeepsInvariant(After(st, out), contract, calls[1..]);
      }
    }
  }

  /** The balances of the pool's account in its two tokens follow the reserves over whole runs, too. */
  lemma {:induction false} RunKeepsBacking(st: Store, contract: string, calls: seq<(string, Call)>)
    requires Inv(st, contract) && Initialized(st, contract)
    requires forall i | 0 <= i < |calls| :: !IsPool(calls[i].0, contract)
    ensures var end := Run(st, contract, calls);
            end.Some? ==> SameTokens(st, end.value, contract) && BackingKept(st, end.value, contract)
                          && TokensConserved(st, end.value, contract)
    decreases |calls|
  {
    if calls != [] {
      var out := Apply(st, calls[0].0, contract, calls[0].1);
      if !out.Hangs? {
        CallKeeps(st, calls[0].0, contract, calls[0].1);
        RunKeepsBacking(After(st, out), contract, calls[1..]);
      }
    }
  }

  /** Storage in which the pool contract has not written anything satisfies the invariant. */
  lemma FreshStoreIsInvariant(st: Store, contract: string)
    requires forall s :: s in st && s.contract == contract ==> s.key.TokenBalance?
    ensures Inv(st, contract)
  {
    var w := ShareWeight(contract);
    assert forall s :: s in st ==> w(s, st[s]) == 0;
    ZeroWeights(st, w);
  }

  /** The first deposit into a pool makes the node loop forever exactly when one more than its product is a square. */
  lemma FirstDepositHangsIff(st: Store, caller: string, contract: string, amount0: u64, amount1: u64, minShares: u64)
    requires Inv(st, contract) && ReadPool(st, contract).Some?
    ensures Apply(st, caller, contract, AddLiquidity(amount0, amount1, minShares)).Hangs? <==>
            amount0 > 0 && amount1 > 0 && Supply(st, contract) == 0 && !LoopStops(amount0 * amount1)
  {
    LoopStopsIff(amount0 * amount1);
    if amount0 > 0 && amount1 > 0 {
      PositiveProduct(amount0, amount1);
    }
  }
}
