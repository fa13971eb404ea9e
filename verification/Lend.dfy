/** The lending contract: deposits, debts with interest, and liquidation. */
module Lend {
  import opened Common
  import opened ContractStore
  import U256

  datatype Call =
    | Configure(asset: string, collateralFactor: u64, threshold: u64, interest: u64, reserve: u64)
    | AccrueInterest
    | Deposit(amount: u64)
    | Withdraw(shares: u64)
    | Borrow(amount: u64)
    | Repay(amount: u64)
    | Liquidate(victim: string, amount: u64)

  /** A fresh price of the asset, as the oracle gives it. */
  datatype Price = Price(num: u64, den: u64)

  datatype Env = Env(height: u64, price: Option<Price>)

  datatype Cfg = Cfg(asset: string, collateralFactor: u64, threshold: u64, interest: u64)

  function Vault(contract: string): Address {
    Sha("lend119:vault:" + contract)
  }

  function ReadCfg(st: Store, c: string): Option<Cfg> {
    var init, asset := ReadWord(st, Slot(c, LendInitialized)), ReadId(st, Slot(c, LendAsset));
    var cf, lt := ReadWord(st, Slot(c, LendCollateralFactor)), ReadWord(st, Slot(c, LendLiquidationThreshold));
    var ir, rf := ReadWord(st, Slot(c, LendInterestRate)), ReadWord(st, Slot(c, LendReserveFactor));
    if init != Some(1) || asset.None? || cf.None? || lt.None? || ir.None? || rf.None? then None
    else Some(Cfg(asset.value, cf.value, lt.value, ir.value))
  }

  /** A configuration that says it is initialised must be complete for any call to go on. */
  predicate CfgBroken(st: Store, c: string) {
    var init := ReadWord(st, Slot(c, LendInitialized));
    init.None? || (init == Some(1) && ReadCfg(st, c).None?)
  }

  // -------- interest --------

  /** The changes of bringing interest up to date, and the total debt if it was touched. */
  datatype Accrued = Accrued(changes: seq<Change>, debt: Option<u64>)

  function Interest(debt: nat, rate: nat, epochs: nat): nat {
    U256.Quotient(Wrap128(debt * rate * epochs), 10000)
  }

  function Accrue(st: Store, c: string, cfg: Cfg, height: u64): Option<Accrued> {
    var last, debt := ReadWord(st, Slot(c, LendAccrueHeight)), ReadWord(st, Slot(c, LendTotalDebt));
    if last.None? || height < last.value then None
    else
      var stamp := [Change(Slot(c, LendAccrueHeight), Word(height))];
      if height == last.value || cfg.interest == 0 then Some(Accrued(stamp, None))
      else if debt.None? then None
      else if debt.value == 0 then Some(Accrued(stamp, Some(0)))
      else
        var add := Interest(debt.value, cfg.interest, height - last.value);
        if add > U64_MAX || debt.value + add > U64_MAX then None
        else
          var next: u64 := debt.value + add;
          Some(Accrued(stamp + [Change(Slot(c, LendTotalDebt), Word(next))], Some(next)))
  }

  function DebtNow(st: Store, c: string, acc: Accrued): Option<u64> {
    if acc.debt.Some? then acc.debt else ReadWord(st, Slot(c, LendTotalDebt))
  }

  // -------- health --------

  function HealthOk(shares: nat, debt: nat, ratio: nat, price: Price): bool {
    if debt == 0 then true
    else if price.den == 0 then false
    else Wrap128(U256.Quotient(shares * price.num, price.den) * ratio) >= debt * 10000
  }

  // -------- calls --------

  function ConfigureCall(st: Store, caller: string, c: string, height: u64, call: Call): Option<seq<Change>>
    requires call.Configure?
  {
    var cf, lt, ir, rf := call.collateralFactor, call.threshold, call.interest, call.reserve;
    var event := EventChanges(st, c, Event(1, AddressOf(caller), [call.asset], [cf, lt, ir, rf]));
    if cf > 10000 || lt > 10000 || ir > 10000 || rf > 10000 || cf > lt || event.None? then None
    else Some([
      Change(Slot(c, LendAsset), Id(call.asset)),
      Change(Slot(c, LendCollateralFactor), Word(cf)),
      Change(Slot(c, LendLiquidationThreshold), Word(lt)),
      Change(Slot(c, LendInterestRate), Word(ir)),
      Change(Slot(c, LendReserveFactor), Word(rf)),
      Change(Slot(c, LendInitialized), Word(1)),
      Change(Slot(c, LendTotalShares), Word(0)),
      Change(Slot(c, LendTotalDebt), Word(0)),
      Change(Slot(c, LendAccrueHeight), Word(height))] + event.value)
  }

  /** What a call leaves to be written after interest and the token transfer. */
  function ShareChanges(c: string, user: string, shares: u64, total: u64): seq<Change> {
    [Change(Slot(c, LendShares(user)), Word(shares)), Change(Slot(c, LendTotalShares), Word(total))]
  }

  function DebtChanges(c: string, user: string, debt: u64, total: u64): seq<Change> {
    [Change(Slot(c, LendDebt(user)), Word(debt)), Change(Slot(c, LendTotalDebt), Word(total))]
  }

  function DepositCall(st: Store, caller: string, c: string, cfg: Cfg, acc: Accrued, amount: u64): Option<seq<Change>> {
    var me := AddressOf(caller);
    var t := TransferChanges(st, cfg.asset, me, Vault(c), amount);
    var user, tot := ReadWord(st, Slot(c, LendShares(caller))), ReadWord(st, Slot(c, LendTotalShares));
    var event := EventChanges(st, c, Event(2, me, [], [amount]));
    if t.None? || user.None? || tot.None? || event.None? then None
    else
      var next, nextTot := CheckedAdd(user.value, amount), CheckedAdd(tot.value, amount);
      if next.None? || nextTot.None? then None
      else Some(acc.changes + t.value + ShareChanges(c, caller, next.value, nextTot.value) + event.value)
  }

  function WithdrawCall(st: Store, env: Env, caller: string, c: string, cfg: Cfg, acc: Accrued, shares: u64)
    : Option<seq<Change>>
  {
    var me := AddressOf(caller);
    var user, debt := ReadWord(st, Slot(c, LendShares(caller))), ReadWord(st, Slot(c, LendDebt(caller)));
    var t := TransferChanges(st, cfg.asset, Vault(c), me, shares);
    var tot := ReadWord(st, Slot(c, LendTotalShares));
    var event := EventChanges(st, c, Event(3, me, [], [shares]));
    if user.None? || debt.None? || user.value < shares || env.price.None? then None
    else if t.None? || tot.None? || event.None? then None
    else if !HealthOk(user.value - shares, debt.value, cfg.collateralFactor, env.price.value) then None
    else if tot.value < shares then None
    else Some(acc.changes + t.value + ShareChanges(c, caller, user.value - shares, tot.value - shares) + event.value)
  }

  function BorrowCall(st: Store, env: Env, caller: string, c: string, cfg: Cfg, acc: Accrued, amount: u64)
    : Option<seq<Change>>
  {
    var me := AddressOf(caller);
    var user, debt := ReadWord(st, Slot(c, LendShares(caller))), ReadWord(st, Slot(c, LendDebt(caller)));
    var t := TransferChanges(st, cfg.asset, Vault(c), me, amount);
    var tot := DebtNow(st, c, acc);
    var event := EventChanges(st, c, Event(4, me, [], [amount]));
    if user.None? || debt.None? || env.price.None? || t.None? || tot.None? || event.None? then None
    else
      var next, nextTot := CheckedAdd(debt.value, amount), CheckedAdd(tot.value, amount);
      if next.None? || nextTot.None? then None
      else if !HealthOk(user.value, next.value, cfg.collateralFactor, env.price.value) then None
      else Some(acc.changes + t.value + DebtChanges(c, caller, next.value, nextTot.value) + event.value)
  }

  function Min(a: u64, b: u64): u64 {
    if a > b then b else a
  }

  function RepayCall(st: Store, caller: string, c: string, cfg: Cfg, acc: Accrued, amount: u64): Option<seq<Change>> {
    var me := AddressOf(caller);
    var debt := ReadWord(st, Slot(c, LendDebt(caller)));
    if debt.None? then None
    else
      var pay := Min(amount, debt.value);
      var t := TransferChanges(st, cfg.asset, me, Vault(c), pay);
      var tot := DebtNow(st, c, acc);
      var event := EventChanges(st, c, Event(5, me, [], [pay]));
      if t.None? || tot.None? || tot.value < pay || event.None? then None
      else Some(acc.changes + t.value + DebtChanges(c, caller, debt.value - pay, tot.value - pay) + event.value)
  }

  function Bonus(cfg: Cfg): nat {
    if cfg.threshold >= cfg.collateralFactor then cfg.threshold - cfg.collateralFactor else 0
  }

  /** The shares that a liquidator gets for what it pays, at most what the victim has. */
  function Seized(cfg: Cfg, pay: nat, available: u64): (seize: Option<u64>)
    ensures seize.Some? ==> seize.value <= available
  {
    var seize := U256.Quotient(pay * Wrap64(10000 + Bonus(cfg)), 10000);
    if seize == 0 || seize > U64_MAX then None else Some(Min(seize, available))
  }

  function LiquidateCall(st: Store, env: Env, caller: string, c: string, cfg: Cfg, acc: Accrued, victim: string,
                         amount: u64)
    : Option<seq<Change>>
  {
    var me := AddressOf(caller);
    var vShares, vDebt := ReadWord(st, Slot(c, LendShares(victim))), ReadWord(st, Slot(c, LendDebt(victim)));
    var mine, tot := ReadWord(st, Slot(c, LendShares(caller))), DebtNow(st, c, acc);
    if amount == 0 || vShares.None? || vDebt.None? || vDebt.value == 0 || vShares.value == 0 then None
    else if env.price.None? then None
    else if HealthOk(vShares.value, vDebt.value, cfg.threshold, env.price.value) then None
    else
      var pay := Min(amount, vDebt.value);
      var seize := Seized(cfg, pay, vShares.value);
      var t := TransferChanges(st, cfg.asset, me, Vault(c), pay);
      if seize.None? || seize.value == 0 || t.None? || mine.None? || tot.None? || tot.value < pay then None
      else
        var next := CheckedAdd(mine.value, seize.value);
        var event := EventChanges(st, c, Event(6, me, [victim], [pay, seize.value]));
        if next.None? || event.None? then None
        else Some(acc.changes + t.value
          + (DebtChanges(c, victim, vDebt.value - pay, tot.value - pay)
             + [Change(Slot(c, LendShares(victim)), Word(vShares.value - seize.value)),
                Change(Slot(c, LendShares(caller)), Word(next.value))])
          + event.value)
  }

  function AccrueCall(st: Store, caller: string, c: string, acc: Accrued): Option<seq<Change>> {
    var event := EventChanges(st, c, Event(7, AddressOf(caller), [], []));
    if event.None? then None else Some(acc.changes + event.value)
  }

  /** The storage changes of a call, or nothing if it is refused. */
  function Apply(st: Store, env: Env, caller: string, c: string, call: Call): Option<seq<Change>> {
    if CfgBroken(st, c) || ReadWord(st, Slot(c, EventSeq)).None? then None
    else if call.Configure? then ConfigureCall(st, caller, c, env.height, call)
    else
      var cfg := ReadCfg(st, c);
      if cfg.None? then None
      else
        var acc := Accrue(st, c, cfg.value, env.height);
        if acc.None? then None
        else match call
          case AccrueInterest => AccrueCall(st, caller, c, acc.value)
          case Deposit(amount) => DepositCall(st, caller, c, cfg.value, acc.value, amount)
          case Withdraw(shares) => WithdrawCall(st, env, caller, c, cfg.value, acc.value, shares)
          case Borrow(amount) => BorrowCall(st, env, caller, c, cfg.value, acc.value, amount)
          case Repay(amount) => RepayCall(st, caller, c, cfg.value, acc.value, amount)
          case Liquidate(victim, amount) => LiquidateCall(st, env, caller, c, cfg.value, acc.value, victim, amount)
  }
}
