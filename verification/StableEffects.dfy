/** What each call of the stablecoin does to accounts, and which positions it leaves or touches. */
module StableEffects {
  import opened Common
  import opened ContractStore
  import opened Stable
  import opened StableTheorems
  import StableCalls
  import U256
  import Executor
  import ExecutorTheorems

  predicate NotHeld(s: Slot) {
    s.key.Stable? ==> !s.key.field.Held?
  }

  /** One account's collateral and debt and one account's coins move; nothing else that is held does. */
  ghost predicate Moved(st: Store, next: Store, c: string, payer: string, owner: string, collateral: int, debt: int,
                        coins: int) {
    forall h, u ::
      HeldBy(next, c, h, u) == HeldBy(st, c, h, u) + match h
        case Collateral => if u == owner then collateral else 0
        case Debt => if u == owner then debt else 0
        case Coin => if u == payer then coins else 0
  }

  /** Native balance moves from one account to another. */
  ghost predicate Paid(w: World, next: World, from: string, to: string, amount: int) {
    forall id ::
      ExecutorTheorems.BalanceOf(next.accounts, id) == ExecutorTheorems.BalanceOf(w.accounts, id)
        - (if id == from then amount else 0) + (if id == to then amount else 0)
  }

  lemma HoldingsAfter(st: Store, c: string, note: seq<Change>, main: seq<Change>, event: Value)
    requires EventChanges(st, c, event).Some? && Within(note, NotHeld)
    ensures var base := ApplyAll(st, note);
      forall h, u ::
        && HeldBy(ApplyAll(st, note + main + EventChanges(st, c, event).value), c, h, u) ==
             HeldBy(ApplyAll(base, main), c, h, u)
        && HeldBy(base, c, h, u) == HeldBy(st, c, h, u)
  {
    hide ApplyAll;
    assert Within(EventChanges(st, c, event).value, NotHeld);
    MiddleOnly(st, note, main, EventChanges(st, c, event).value, NotHeld);
    forall h, u
      ensures !NotHeld(At(c, Held(h, u)))
    {
    }
  }

  lemma CollateralSet(base: Store, c: string, user: string, v: u64, total: u64)
    ensures var next := ApplyAll(base, CollateralChanges(c, user, v, total));
      forall h, u :: HeldBy(next, c, h, u) == if h == Collateral && u == user then v else HeldBy(base, c, h, u)
  {
    hide ApplyAll;
    Two(base, CollateralChanges(c, user, v, total)[0], CollateralChanges(c, user, v, total)[1]);
  }

  lemma MintSet(base: Store, c: string, user: string, debt: u64, total: u64, coins: u64)
    ensures var next := ApplyAll(base, MintChanges(c, user, debt, total, coins));
      forall h, u :: HeldBy(next, c, h, u) ==
        if h == Debt && u == user then debt else if h == Coin && u == user then coins else HeldBy(base, c, h, u)
  {
    hide ApplyAll;
    var m := MintChanges(c, user, debt, total, coins);
    Three(base, m[0], m[1], m[2]);
  }

  lemma BurnSet(base: Store, c: string, payer: string, coins: u64, debtor: string, debt: u64, total: u64)
    ensures var next := ApplyAll(base, BurnChanges(c, payer, coins, debtor, debt, total));
      forall h, u :: HeldBy(next, c, h, u) ==
        if h == Coin && u == payer then coins else if h == Debt && u == debtor then debt else HeldBy(base, c, h, u)
  {
    hide ApplyAll;
    var b := BurnChanges(c, payer, coins, debtor, debt, total);
    Three(base, b[0], b[1], b[2]);
  }

  lemma PaysIn(w: World, caller: string, c: string, amount: u64, storage: seq<Change>)
    requires PayIn(w.accounts, caller, c, amount).Some? && caller != VaultId(c)
    ensures Paid(w, After(w, Done(PayIn(w.accounts, caller, c, amount).value, storage)), caller, VaultId(c), amount)
  {
    hide ApplyAll, Executor.ApplyChanges, VaultId;
    var changes := PayIn(w.accounts, caller, c, amount).value;
    TwoAccounts(w.accounts, changes[0], changes[1]);
  }

  lemma PaysOut(w: World, caller: string, c: string, amount: u64, storage: seq<Change>)
    requires PayOut(w.accounts, caller, c, amount).Some? && caller != VaultId(c)
    ensures Paid(w, After(w, Done(PayOut(w.accounts, caller, c, amount).value, storage)), VaultId(c), caller, amount)
  {
    hide ApplyAll, Executor.ApplyChanges, VaultId;
    var changes := PayOut(w.accounts, caller, c, amount).value;
    TwoAccounts(w.accounts, changes[0], changes[1]);
  }

  // -------- cover --------

  function ValueOf(collateral: nat, price: Point): nat
    requires price.den > 0
  {
    U256.Quotient(collateral * price.num, price.den)
  }

  /** The collateral is worth the debt at the ratio, over the integers. */
  predicate Covered(collateral: nat, debt: nat, ratio: nat, price: Point) {
    debt == 0 || (price.den > 0 && ValueOf(collateral, price) * 10000 >= debt * ratio)
  }

  /** The scaled worth wraps to less than the debt at the ratio. */
  predicate WrapsShort(collateral: nat, debt: nat, ratio: nat, price: Point) {
    && debt > 0 && price.den > 0
    && ValueOf(collateral, price) * 10000 >= TWO_128 && ValueOf(collateral, price) * 10000 % TWO_128 < debt * ratio
  }

  /** What passes the test is covered; what is covered passes it exactly unless the 128-bit product wraps short. */
  lemma CollateralisedIff(collateral: nat, debt: u64, ratio: u64, price: Point)
    ensures Collateralised(collateral, debt, ratio, price) <==>
      Covered(collateral, debt, ratio, price) && !WrapsShort(collateral, debt, ratio, price)
    ensures !Collateralised(collateral, debt, ratio, price) ==>
      (Covered(collateral, debt, ratio, price) <==> WrapsShort(collateral, debt, ratio, price))
  {
    hide U256.Quotient, Wrap128;
    if price.den > 0 {
      ProductFits(debt, ratio);
      WrappedReachesIff(ValueOf(collateral, price) * 10000, debt * ratio);
    }
  }

  lemma ProductFits(a: u64, b: u64)
    ensures a * b < TWO_128
  {
    Scale(a, U64_MAX, b);
    Scale(b, U64_MAX, U64_MAX);
  }

  /** A position whose worth is 2^124 fails the test for a debt of one coin. */
  lemma CoveredCanFail()
    ensures var collateral, price := 0x8000_0000_0000_0000, Point(0x2000_0000_0000_0000, 1, 0);
      Covered(collateral, 1, 10000, price) && !Collateralised(collateral, 1, 10000, price)
  {
    hide U256.Quotient;
    var collateral, price := 0x8000_0000_0000_0000, Point(0x2000_0000_0000_0000, 1, 0);
    U256.QuotientUnique(collateral * price.num, 1, collateral * price.num, 0);
  }

  // -------- calls --------

  /** A deposit takes native balance and adds as much collateral. */
  lemma DepositGives(w: World, env: Env, caller: string, c: string, amount: u64)
    requires Apply(w, env, caller, c, Deposit(amount)).Done? && caller != VaultId(c)
    ensures var next := After(w, Apply(w, env, caller, c, Deposit(amount)));
      Moved(w.store, next.store, c, caller, caller, amount, 0, 0) && Paid(w, next, caller, VaultId(c), amount)
  {
    hide ApplyAll, EventChanges, PayIn, VaultId, ReadParams, ParamsBroken;
    var st, out := w.store, Apply(w, env, caller, c, Deposit(amount));
    var coll, tot := HeldBy(st, c, Collateral, caller) + amount, Num(st, At(c, TotalCollateral)) + amount;
    var main := CollateralChanges(c, caller, coll, tot);
    assert [] + main == main;
    HoldingsAfter(st, c, [], main, Event(0x11, AddressOf(caller), [], [amount]));
    CollateralSet(ApplyAll(st, []), c, caller, coll, tot);
    PaysIn(w, caller, c, amount, out.storage);
  }

  /** A withdrawal pays collateral out and leaves the position covered. */
  lemma WithdrawGives(w: World, env: Env, caller: string, c: string, amount: u64)
    requires Apply(w, env, caller, c, Withdraw(amount)).Done? && caller != VaultId(c)
    ensures StableCalls.IsPriced(w.store, env, c)
    ensures var next := After(w, Apply(w, env, caller, c, Withdraw(amount)));
      && Moved(w.store, next.store, c, caller, caller, Minus(amount), 0, 0) && Paid(w, next, VaultId(c), caller, amount)
      && Covered(HeldBy(next.store, c, Collateral, caller), HeldBy(next.store, c, Debt, caller),
                 Num(w.store, At(c, Param(CollateralRatio))), StableCalls.PointOf(w.store, env, c))
  {
    StableCalls.ReadParamsIs(w.store, c);
    StableCalls.PriceIs(w.store, env, c);
    hide ApplyAll, EventChanges, PayOut, VaultId, ReadParams, ParamsBroken, PriceOf, Collateralised,
      Covered, WrapsShort;
    var st, out, p := w.store, Apply(w, env, caller, c, Withdraw(amount)), ReadParams(w.store, c).value;
    var coll, tot := HeldBy(st, c, Collateral, caller) - amount, Num(st, At(c, TotalCollateral)) - amount;
    var note := Noted(c, PriceOf(env, p).value);
    HoldingsAfter(st, c, note, CollateralChanges(c, caller, coll, tot), Event(0x12, AddressOf(caller), [], [amount]));
    CollateralSet(ApplyAll(st, note), c, caller, coll, tot);
    CollateralisedIff(coll, HeldBy(st, c, Debt, caller), p.collateralRatio, PriceOf(env, p).value);
    PaysOut(w, caller, c, amount, out.storage);
  }

  lemma MintMoves(w: World, env: Env, caller: string, c: string, amount: u64)
    requires Apply(w, env, caller, c, Mint(amount)).Done?
    ensures ReadParams(w.store, c).Some? && PriceOf(env, ReadParams(w.store, c).value).Some?
    ensures var next, p := After(w, Apply(w, env, caller, c, Mint(amount))), ReadParams(w.store, c).value;
      && Moved(w.store, next.store, c, caller, caller, 0, amount, amount) && next.accounts == w.accounts
      && Collateralised(HeldBy(next.store, c, Collateral, caller), HeldBy(next.store, c, Debt, caller),
                        p.collateralRatio, PriceOf(env, p).value)
      && Covered(HeldBy(next.store, c, Collateral, caller), HeldBy(next.store, c, Debt, caller),
                 p.collateralRatio, PriceOf(env, p).value)
  {
    hide ApplyAll, EventChanges, ReadParams, ParamsBroken, PriceOf, Collateralised, Covered, WrapsShort;
    var st, p := w.store, ReadParams(w.store, c).value;
    var debt, tot := HeldBy(st, c, Debt, caller) + amount, Num(st, At(c, TotalDebt)) + amount;
    var coins := HeldBy(st, c, Coin, caller) + amount;
    var note := Noted(c, PriceOf(env, p).value);
    HoldingsAfter(st, c, note, MintChanges(c, caller, debt, tot, coins), Event(0x13, AddressOf(caller), [], [amount]));
    MintSet(ApplyAll(st, note), c, caller, debt, tot, coins);
    CollateralisedIff(HeldBy(st, c, Collateral, caller), debt, p.collateralRatio, PriceOf(env, p).value);
    NothingPaid(w.accounts);
  }

  /** A mint gives coins for as much debt and leaves the position covered. */
  lemma MintGives(w: World, env: Env, caller: string, c: string, amount: u64)
    requires Apply(w, env, caller, c, Mint(amount)).Done?
    ensures StableCalls.IsPriced(w.store, env, c)
    ensures var next := After(w, Apply(w, env, caller, c, Mint(amount)));
      && Moved(w.store, next.store, c, caller, caller, 0, amount, amount) && next.accounts == w.accounts
      && Covered(HeldBy(next.store, c, Collateral, caller), HeldBy(next.store, c, Debt, caller),
                 Num(w.store, At(c, Param(CollateralRatio))), StableCalls.PointOf(w.store, env, c))
  {
    StableCalls.ReadParamsIs(w.store, c);
    MintMoves(w, env, caller, c, amount);
    StableCalls.PriceIs(w.store, env, c);
    hide Apply, ApplyAll, ReadParams, PriceOf, Collateralised, Covered, Moved, StableCalls.PointOf,
      StableCalls.IsPriced, StableCalls.IsSetUp;
  }

  /** A burn takes coins off for as much debt. */
  lemma BurnGives(w: World, env: Env, caller: string, c: string, amount: u64)
    requires Apply(w, env, caller, c, Burn(amount)).Done?
    ensures var next := After(w, Apply(w, env, caller, c, Burn(amount)));
      Moved(w.store, next.store, c, caller, caller, 0, Minus(amount), Minus(amount)) && next.accounts == w.accounts
  {
    hide ApplyAll, EventChanges, ReadParams, ParamsBroken;
    var st := w.store;
    var debt, tot := HeldBy(st, c, Debt, caller) - amount, Num(st, At(c, TotalDebt)) - amount;
    var coins := HeldBy(st, c, Coin, caller) - amount;
    var main := BurnChanges(c, caller, coins, caller, debt, tot);
    assert [] + main == main;
    HoldingsAfter(st, c, [], main, Event(0x14, AddressOf(caller), [], [amount]));
    BurnSet(ApplyAll(st, []), c, caller, coins, caller, debt, tot);
    NothingPaid(w.accounts);
  }

  lemma SeizureSet(base: Store, c: string, payer: string, coins: u64, owner: string, debt: u64, total: u64, coll: u64,
                   totColl: u64)
    ensures var next := ApplyAll(base,
      BurnChanges(c, payer, coins, owner, debt, total) + CollateralChanges(c, owner, coll, totColl));
      forall h, u :: HeldBy(next, c, h, u) ==
        if h == Coin && u == payer then coins else if h == Debt && u == owner then debt
        else if h == Collateral && u == owner then coll else HeldBy(base, c, h, u)
  {
    hide ApplyAll, HeldBy;
    ApplyConcat(base, BurnChanges(c, payer, coins, owner, debt, total), CollateralChanges(c, owner, coll, totColl));
    BurnSet(base, c, payer, coins, owner, debt, total);
    CollateralSet(ApplyAll(base, BurnChanges(c, payer, coins, owner, debt, total)), c, owner, coll, totColl);
  }

  lemma LiquidationMoves(w: World, env: Env, caller: string, c: string, target: string, amount: u64)
    requires Apply(w, env, caller, c, Liquidate(target, amount)).Done? && caller != VaultId(c)
    ensures ReadParams(w.store, c).Some? && PriceOf(env, ReadParams(w.store, c).value).Some?
    ensures PriceOf(env, ReadParams(w.store, c).value).value.num > 0
    ensures var next, p := After(w, Apply(w, env, caller, c, Liquidate(target, amount))), ReadParams(w.store, c).value;
      var have, debt := HeldBy(w.store, c, Collateral, target), HeldBy(w.store, c, Debt, target);
      var burned := Min(amount, debt);
      var reward := Min(RewardQuote(burned, p.penalty, PriceOf(env, p).value), have);
      && !Collateralised(have, debt, p.liquidationRatio, PriceOf(env, p).value)
      && (Covered(have, debt, p.liquidationRatio, PriceOf(env, p).value) <==>
            WrapsShort(have, debt, p.liquidationRatio, PriceOf(env, p).value))
      && Moved(w.store, next.store, c, caller, target, Minus(reward), Minus(burned), Minus(burned))
      && Paid(w, next, VaultId(c), caller, reward)
  {
    hide ApplyAll, EventChanges, PayOut, VaultId, ReadParams, ParamsBroken, PriceOf, Collateralised, RewardQuote,
      Covered, WrapsShort;
    var st, out, p := w.store, Apply(w, env, caller, c, Liquidate(target, amount)), ReadParams(w.store, c).value;
    var price := PriceOf(env, p).value;
    var burned: u64 := Min(amount, HeldBy(st, c, Debt, target));
    var reward: u64 := Min(RewardQuote(burned, p.penalty, price), HeldBy(st, c, Collateral, target));
    var coins, debt := HeldBy(st, c, Coin, caller) - burned, HeldBy(st, c, Debt, target) - burned;
    var tot, coll := Num(st, At(c, TotalDebt)) - burned, HeldBy(st, c, Collateral, target) - reward;
    var totColl := Num(st, At(c, TotalCollateral)) - reward;
    var main := BurnChanges(c, caller, coins, target, debt, tot) + CollateralChanges(c, target, coll, totColl);
    HoldingsAfter(st, c, Noted(c, price), main, Event(0x15, AddressOf(caller), [target], [burned, reward]));
    SeizureSet(ApplyAll(st, Noted(c, price)), c, caller, coins, target, debt, tot, coll, totColl);
    PaysOut(w, caller, c, reward, out.storage);
    CollateralisedIff(HeldBy(st, c, Collateral, target), HeldBy(st, c, Debt, target), p.liquidationRatio, price);
  }

  /** A liquidation burns the caller's coins for a weak position's debt and rewards it out of that collateral. */
  lemma LiquidateGives(w: World, env: Env, caller: string, c: string, target: string, amount: u64)
    requires Apply(w, env, caller, c, Liquidate(target, amount)).Done? && caller != VaultId(c)
    ensures StableCalls.IsPriced(w.store, env, c) && StableCalls.PointOf(w.store, env, c).num > 0
    ensures var next, point := After(w, Apply(w, env, caller, c, Liquidate(target, amount))),
        StableCalls.PointOf(w.store, env, c);
      var have, debt := HeldBy(w.store, c, Collateral, target), HeldBy(w.store, c, Debt, target);
      var ratio, burned := Num(w.store, At(c, Param(LiquidationRatio))), Min(amount, debt);
      var reward := Min(StableCalls.Quote(w.store, c, burned, point), have);
      && !Collateralised(have, debt, ratio, point)
      && (Covered(have, debt, ratio, point) <==> WrapsShort(have, debt, ratio, point))
      && Moved(w.store, next.store, c, caller, target, Minus(reward), Minus(burned), Minus(burned))
      && Paid(w, next, VaultId(c), caller, reward)
  {
    var st, p := w.store, ReadParams(w.store, c);
    StableCalls.ReadParamsIs(st, c);
    LiquidationMoves(w, env, caller, c, target, amount);
    StableCalls.PriceIs(st, env, c);
    hide Apply, ApplyAll, ReadParams, PriceOf, Collateralised, Covered, WrapsShort, Moved, Paid, StableCalls.Quote,
      RewardQuote, StableCalls.PointOf, StableCalls.IsPriced, StableCalls.IsSetUp;
    var burned := Min(amount, HeldBy(st, c, Debt, target));
    StableCalls.QuoteIs(st, c, burned, StableCalls.PointOf(st, env, c));
  }
}
