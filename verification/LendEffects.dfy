/** What each call of the lending contract does to its users, and which positions it leaves or touches. */
module LendEffects {
  import opened Common
  import opened ContractStore
  import opened Lend
  import opened LendTheorems
  import LendCalls
  import U256

  predicate NotUser(s: Slot) {
    !s.key.LendShares? && !s.key.LendDebt?
  }

  predicate NotToken(s: Slot) {
    !s.key.TokenBalance?
  }

  /** One user's shares and debt move; nobody else's do. */
  ghost predicate Moved(st: Store, next: Store, c: string, user: string, shares: int, debt: int) {
    forall u ::
      && SharesOf(next, c, u) == SharesOf(st, c, u) + (if u == user then shares else 0)
      && DebtOf(next, c, u) == DebtOf(st, c, u) + (if u == user then debt else 0)
  }

  /** The asset moves between a caller and the vault. */
  ghost predicate Paid(st: Store, next: Store, asset: string, from: Address, to: Address, amount: int) {
    && Balance(next, asset, from) == Balance(st, asset, from) - amount
    && Balance(next, asset, to) == Balance(st, asset, to) + amount
  }

  lemma Quiet(st: Store, c: string, cfg: Cfg, height: u64, from: Address, to: Address, amount: u64, event: Value)
    requires Accrue(st, c, cfg, height).Some? && EventChanges(st, c, event).Some?
    requires TransferChanges(st, cfg.asset, from, to, amount).Some?
    ensures Within(Accrue(st, c, cfg, height).value.changes, NotUser)
      && Within(Accrue(st, c, cfg, height).value.changes, NotToken)
    ensures Within(EventChanges(st, c, event).value, NotUser) && Within(EventChanges(st, c, event).value, NotToken)
    ensures Within(TransferChanges(st, cfg.asset, from, to, amount).value, NotUser)
  {
    hide Interest;
  }

  // -------- health --------

  function Worth(shares: nat, price: Price): nat
    requires price.den > 0
  {
    U256.Quotient(shares * price.num, price.den)
  }

  /** The shares are worth the debt at the ratio, over the integers. */
  predicate Covered(shares: nat, debt: nat, ratio: nat, price: Price) {
    debt == 0 || (price.den > 0 && Worth(shares, price) * ratio >= debt * 10000)
  }

  /** The product of worth and ratio wraps to less than the debt. */
  predicate WrapsShort(shares: nat, debt: nat, ratio: nat, price: Price) {
    && debt > 0 && price.den > 0
    && Worth(shares, price) * ratio >= TWO_128 && Worth(shares, price) * ratio % TWO_128 < debt * 10000
  }

  /** What passes the test is covered; what is covered passes it exactly unless the 128-bit product wraps short. */
  lemma HealthOkIff(shares: nat, debt: u64, ratio: nat, price: Price)
    ensures HealthOk(shares, debt, ratio, price) <==>
      Covered(shares, debt, ratio, price) && !WrapsShort(shares, debt, ratio, price)
    ensures !HealthOk(shares, debt, ratio, price) ==>
      (Covered(shares, debt, ratio, price) <==> WrapsShort(shares, debt, ratio, price))
  {
    hide U256.Quotient, Wrap128;
    if price.den > 0 {
      WrappedReachesIff(Worth(shares, price) * ratio, debt * 10000);
    }
  }

  /** Half of all shares, at a price of 2^59, fails the test for a debt of one. */
  lemma CoveredCanFail()
    ensures var shares, price := 0x8000_0000_0000_0000, Price(0x800_0000_0000_0000, 1);
      Covered(shares, 1, 8000, price) && !HealthOk(shares, 1, 8000, price)
  {
    hide U256.Quotient;
    var shares, price := 0x8000_0000_0000_0000, Price(0x800_0000_0000_0000, 1);
    U256.QuotientUnique(shares * price.num, 1, shares * price.num, 0);
  }

  // -------- calls --------

  /** Interest, a transfer, the users' entries and an event: the entries decide the users, the transfer the tokens. */
  lemma Parts(st: Store, c: string, cfg: Cfg, height: u64, from: Address, to: Address, amount: u64, main: seq<Change>,
              event: Value)
    requires Accrue(st, c, cfg, height).Some? && EventChanges(st, c, event).Some?
    requires TransferChanges(st, cfg.asset, from, to, amount).Some? && from != to && Within(main, NotToken)
    ensures var acc, t :=
      Accrue(st, c, cfg, height).value.changes, TransferChanges(st, cfg.asset, from, to, amount).value;
      var next := ApplyAll(st, acc + t + main + EventChanges(st, c, event).value);
      var base := ApplyAll(st, acc + t);
      && (forall u :: SharesOf(next, c, u) == SharesOf(ApplyAll(base, main), c, u)
           && SharesOf(base, c, u) == SharesOf(st, c, u))
      && (forall u :: DebtOf(next, c, u) == DebtOf(ApplyAll(base, main), c, u)
           && DebtOf(base, c, u) == DebtOf(st, c, u))
      && Paid(st, next, cfg.asset, from, to, amount)
  {
    hide ApplyAll, Accrue, EventChanges, TransferChanges;
    var acc, t := Accrue(st, c, cfg, height).value.changes, TransferChanges(st, cfg.asset, from, to, amount).value;
    var e := EventChanges(st, c, event).value;
    Quiet(st, c, cfg, height, from, to, amount, event);
    MiddleOnly(st, acc + t, main, e, NotUser);
    forall u
      ensures !NotUser(Slot(c, LendShares(u))) && !NotUser(Slot(c, LendDebt(u)))
    {
    }
    assert acc + t + main + e == acc + t + (main + e);
    MiddleOnly(st, acc, t, main + e, NotToken);
    TokensAfter(st, ApplyAll(st, acc), cfg.asset, from, to, amount);
  }

  lemma TokensAfter(st: Store, base: Store, asset: string, from: Address, to: Address, amount: u64)
    requires TransferChanges(st, asset, from, to, amount).Some? && from != to
    requires forall s | !NotToken(s) :: Num(base, s) == Num(st, s)
    ensures var next := ApplyAll(base, TransferChanges(st, asset, from, to, amount).value);
      Balance(next, asset, from) == Balance(st, asset, from) - amount
        && Balance(next, asset, to) == Balance(st, asset, to) + amount
  {
    hide ApplyAll;
    var t := TransferChanges(st, asset, from, to, amount).value;
    Two(base, t[0], t[1]);
  }

  lemma SharesSet(base: Store, c: string, user: string, shares: u64, total: u64)
    ensures var next := ApplyAll(base, ShareChanges(c, user, shares, total));
      forall u :: SharesOf(next, c, u) == (if u == user then shares else SharesOf(base, c, u))
        && DebtOf(next, c, u) == DebtOf(base, c, u)
  {
    hide ApplyAll;
    Two(base, ShareChanges(c, user, shares, total)[0], ShareChanges(c, user, shares, total)[1]);
  }

  lemma DebtSet(base: Store, c: string, user: string, debt: u64, total: u64)
    ensures var next := ApplyAll(base, DebtChanges(c, user, debt, total));
      forall u :: DebtOf(next, c, u) == (if u == user then debt else DebtOf(base, c, u))
        && SharesOf(next, c, u) == SharesOf(base, c, u)
  {
    hide ApplyAll;
    Two(base, DebtChanges(c, user, debt, total)[0], DebtChanges(c, user, debt, total)[1]);
  }

  /** A deposit takes the amount and gives the caller as many shares. */
  lemma DepositGives(st: Store, env: Env, caller: string, c: string, amount: u64)
    requires Apply(st, env, caller, c, Deposit(amount)).Some? && AddressOf(caller) != Vault(c)
    ensures LendCalls.AssetOf(st, c).Some?
    ensures var next := ApplyAll(st, Apply(st, env, caller, c, Deposit(amount)).value);
      && Moved(st, next, c, caller, amount, 0)
      && Paid(st, next, LendCalls.AssetOf(st, c).value, AddressOf(caller), Vault(c), amount)
  {
    LendCalls.ReadCfgIs(st, c);
    hide ApplyAll, Accrue, EventChanges, TransferChanges, ReadCfg, CfgBroken;
    var cfg, shares := ReadCfg(st, c).value, SharesOf(st, c, caller) + amount;
    var main := ShareChanges(c, caller, shares, Num(st, Slot(c, LendTotalShares)) + amount);
    Parts(st, c, cfg, env.height, AddressOf(caller), Vault(c), amount, main, Event(2, AddressOf(caller), [], [amount]));
    var t := TransferChanges(st, cfg.asset, AddressOf(caller), Vault(c), amount).value;
    SharesSet(ApplyAll(st, Accrue(st, c, cfg, env.height).value.changes + t),
              c, caller, shares, Num(st, Slot(c, LendTotalShares)) + amount);
  }

  /** A withdrawal pays the caller for its shares and leaves its position healthy. */
  lemma WithdrawGives(st: Store, env: Env, caller: string, c: string, shares: u64)
    requires Apply(st, env, caller, c, Withdraw(shares)).Some? && AddressOf(caller) != Vault(c)
    ensures LendCalls.AssetOf(st, c).Some? && env.price.Some?
    ensures var next, factor :=
      ApplyAll(st, Apply(st, env, caller, c, Withdraw(shares)).value), Num(st, Slot(c, LendCollateralFactor));
      && Moved(st, next, c, caller, Minus(shares), 0)
      && Paid(st, next, LendCalls.AssetOf(st, c).value, Vault(c), AddressOf(caller), shares)
      && Covered(SharesOf(next, c, caller), DebtOf(next, c, caller), factor, env.price.value)
  {
    LendCalls.ReadCfgIs(st, c);
    hide ApplyAll, Accrue, EventChanges, TransferChanges, ReadCfg, CfgBroken, HealthOk, Covered, WrapsShort;
    var cfg, left := ReadCfg(st, c).value, SharesOf(st, c, caller) - shares;
    var tot := Num(st, Slot(c, LendTotalShares)) - shares;
    var main := ShareChanges(c, caller, left, tot);
    Parts(st, c, cfg, env.height, Vault(c), AddressOf(caller), shares, main, Event(3, AddressOf(caller), [], [shares]));
    var t := TransferChanges(st, cfg.asset, Vault(c), AddressOf(caller), shares).value;
    SharesSet(ApplyAll(st, Accrue(st, c, cfg, env.height).value.changes + t), c, caller, left, tot);
    HealthOkIff(left, DebtOf(st, c, caller), cfg.collateralFactor, env.price.value);
  }

  /** A loan pays the caller what it adds to its debt and leaves its position healthy. */
  lemma BorrowGives(st: Store, env: Env, caller: string, c: string, amount: u64)
    requires Apply(st, env, caller, c, Borrow(amount)).Some? && AddressOf(caller) != Vault(c)
    ensures LendCalls.AssetOf(st, c).Some? && env.price.Some?
    ensures var next, factor :=
      ApplyAll(st, Apply(st, env, caller, c, Borrow(amount)).value), Num(st, Slot(c, LendCollateralFactor));
      && Moved(st, next, c, caller, 0, amount)
      && Paid(st, next, LendCalls.AssetOf(st, c).value, Vault(c), AddressOf(caller), amount)
      && Covered(SharesOf(next, c, caller), DebtOf(next, c, caller), factor, env.price.value)
  {
    LendCalls.ReadCfgIs(st, c);
    hide ApplyAll, Accrue, EventChanges, TransferChanges, ReadCfg, CfgBroken, HealthOk, DebtNow, Covered, WrapsShort;
    var cfg, debt := ReadCfg(st, c).value, DebtOf(st, c, caller) + amount;
    var acc := Accrue(st, c, cfg, env.height).value;
    var tot := DebtNow(st, c, acc).value + amount;
    Parts(st, c, cfg, env.height, Vault(c), AddressOf(caller), amount, DebtChanges(c, caller, debt, tot),
          Event(4, AddressOf(caller), [], [amount]));
    var t := TransferChanges(st, cfg.asset, Vault(c), AddressOf(caller), amount).value;
    DebtSet(ApplyAll(st, acc.changes + t), c, caller, debt, tot);
    HealthOkIff(SharesOf(st, c, caller), debt, cfg.collateralFactor, env.price.value);
  }

  /** A repayment takes no more than the debt, and lowers it by what it takes. */
  lemma RepayGives(st: Store, env: Env, caller: string, c: string, amount: u64)
    requires Apply(st, env, caller, c, Repay(amount)).Some? && AddressOf(caller) != Vault(c)
    ensures LendCalls.AssetOf(st, c).Some?
    ensures var next, pay :=
      ApplyAll(st, Apply(st, env, caller, c, Repay(amount)).value), Min(amount, DebtOf(st, c, caller));
      Moved(st, next, c, caller, 0, Minus(pay))
        && Paid(st, next, LendCalls.AssetOf(st, c).value, AddressOf(caller), Vault(c), pay)
  {
    LendCalls.ReadCfgIs(st, c);
    hide ApplyAll, Accrue, EventChanges, TransferChanges, ReadCfg, CfgBroken, DebtNow;
    var cfg, pay := ReadCfg(st, c).value, Min(amount, DebtOf(st, c, caller));
    var acc := Accrue(st, c, cfg, env.height).value;
    var debt, tot := DebtOf(st, c, caller) - pay, DebtNow(st, c, acc).value - pay;
    Parts(st, c, cfg, env.height, AddressOf(caller), Vault(c), pay, DebtChanges(c, caller, debt, tot),
          Event(5, AddressOf(caller), [], [pay]));
    var t := TransferChanges(st, cfg.asset, AddressOf(caller), Vault(c), pay).value;
    DebtSet(ApplyAll(st, acc.changes + t), c, caller, debt, tot);
  }

  /** A liquidation takes an unhealthy victim's shares for debt paid on its behalf; nobody else is touched. */
  ghost predicate Seizes(st: Store, next: Store, c: string, victim: string, caller: string, pay: int, seized: int) {
    forall u ::
      && SharesOf(next, c, u) == SharesOf(st, c, u)
           + (if u == caller then seized else 0) - (if u == victim then seized else 0)
      && DebtOf(next, c, u) == DebtOf(st, c, u) - (if u == victim then pay else 0)
  }

  lemma LiquidationMoves(st: Store, env: Env, caller: string, c: string, victim: string, amount: u64)
    requires Apply(st, env, caller, c, Liquidate(victim, amount)).Some? && AddressOf(caller) != Vault(c)
      && victim != caller
    ensures ReadCfg(st, c).Some? && env.price.Some?
    ensures var next, cfg :=
      ApplyAll(st, Apply(st, env, caller, c, Liquidate(victim, amount)).value), ReadCfg(st, c).value;
      var pay := Min(amount, DebtOf(st, c, victim));
      var seized := Seized(cfg, pay, SharesOf(st, c, victim));
      && !HealthOk(SharesOf(st, c, victim), DebtOf(st, c, victim), cfg.threshold, env.price.value)
      && (Covered(SharesOf(st, c, victim), DebtOf(st, c, victim), cfg.threshold, env.price.value) <==>
            WrapsShort(SharesOf(st, c, victim), DebtOf(st, c, victim), cfg.threshold, env.price.value))
      && seized.Some? && Seizes(st, next, c, victim, caller, pay, seized.value)
      && Paid(st, next, cfg.asset, AddressOf(caller), Vault(c), pay)
  {
    hide ApplyAll, Accrue, EventChanges, TransferChanges, ReadCfg, CfgBroken, DebtNow, HealthOk, Seized, Covered,
      WrapsShort;
    var cfg, pay := ReadCfg(st, c).value, Min(amount, DebtOf(st, c, victim));
    var acc := Accrue(st, c, cfg, env.height).value;
    var seize := Seized(cfg, pay, SharesOf(st, c, victim)).value;
    var debt, tot := DebtOf(st, c, victim) - pay, DebtNow(st, c, acc).value - pay;
    var left, mine := SharesOf(st, c, victim) - seize, SharesOf(st, c, caller) + seize;
    var d := DebtChanges(c, victim, debt, tot);
    var s := [Change(Slot(c, LendShares(victim)), Word(left)), Change(Slot(c, LendShares(caller)), Word(mine))];
    Parts(st, c, cfg, env.height, AddressOf(caller), Vault(c), pay, d + s,
      Event(6, AddressOf(caller), [victim], [pay, seize]));
    var t := TransferChanges(st, cfg.asset, AddressOf(caller), Vault(c), pay).value;
    var base := ApplyAll(st, acc.changes + t);
    SeizureSet(base, c, victim, debt, tot, left, caller, mine);
    HealthOkIff(SharesOf(st, c, victim), DebtOf(st, c, victim), cfg.threshold, env.price.value);
  }

  /**
   A liquidated position fails the test at the threshold. Its owner's debt falls by what the liquidator pays the vault,
   and the liquidator gets the prize for that, or all the owner's shares.
   */
  lemma LiquidateGives(st: Store, env: Env, caller: string, c: string, victim: string, amount: u64)
    requires Apply(st, env, caller, c, Liquidate(victim, amount)).Some? && AddressOf(caller) != Vault(c)
      && victim != caller
    ensures LendCalls.AssetOf(st, c).Some? && env.price.Some?
    ensures var next := ApplyAll(st, Apply(st, env, caller, c, Liquidate(victim, amount)).value);
      var threshold, pay := Num(st, Slot(c, LendLiquidationThreshold)), Min(amount, DebtOf(st, c, victim));
      var seized := LendCalls.Least(LendCalls.Prize(st, c, pay), SharesOf(st, c, victim));
      && !HealthOk(SharesOf(st, c, victim), DebtOf(st, c, victim), threshold, env.price.value)
      && (Covered(SharesOf(st, c, victim), DebtOf(st, c, victim), threshold, env.price.value) <==>
            WrapsShort(SharesOf(st, c, victim), DebtOf(st, c, victim), threshold, env.price.value))
      && Seizes(st, next, c, victim, caller, pay, seized)
      && Paid(st, next, LendCalls.AssetOf(st, c).value, AddressOf(caller), Vault(c), pay)
  {
    LendCalls.ReadCfgIs(st, c);
    LiquidationMoves(st, env, caller, c, victim, amount);
    LendCalls.PrizeIs(st, c, Min(amount, DebtOf(st, c, victim)), SharesOf(st, c, victim));
    hide Apply, ApplyAll, HealthOk, Covered, WrapsShort, LendCalls.Prize, LendCalls.IsSetUp, Seized, ReadCfg;
  }

  lemma SeizureSet(base: Store, c: string, victim: string, debt: u64, total: u64, left: u64, caller: string, mine: u64)
    requires victim != caller
    ensures var s := [Change(Slot(c, LendShares(victim)), Word(left)), Change(Slot(c, LendShares(caller)), Word(mine))];
      var next := ApplyAll(base, DebtChanges(c, victim, debt, total) + s);
      forall u ::
        && DebtOf(next, c, u) == (if u == victim then debt else DebtOf(base, c, u))
        && SharesOf(next, c, u) == (if u == victim then left else if u == caller then mine else SharesOf(base, c, u))
  {
    hide ApplyAll;
    var d := DebtChanges(c, victim, debt, total);
    var s := [Change(Slot(c, LendShares(victim)), Word(left)), Change(Slot(c, LendShares(caller)), Word(mine))];
    ApplyConcat(base, d, s);
    DebtSet(base, c, victim, debt, total);
    Two(ApplyAll(base, d), s[0], s[1]);
  }
}
