/** The stablecoin contract: coins minted as debt against deposited native balance, and weak positions liquidated. */
module Stable {
  import opened Common
  import opened ContractStore
  import U256
  import Executor

  datatype Params = Params(
    collateralRatio: u64, liquidationRatio: u64, penalty: u64, debtCeiling: u64,
    minDeposit: u64, minMint: u64, staleness: u64, feed: string)

  datatype Call =
    | RegisterParams(params: Params)
    | Deposit(amount: u64)
    | Withdraw(amount: u64)
    | Mint(amount: u64)
    | Burn(amount: u64)
    | Liquidate(target: string, amount: u64)

  /** The latest value of an oracle feed: `num / den` at a height. */
  datatype Point = Point(num: u64, den: u64, height: u64)

  datatype Env = Env(height: u64, latest: map<string, Point>)

  datatype World = World(store: Store, accounts: Executor.Accounts)

  /** `Undefined` is a division by zero. */
  datatype Outcome =
    | Refused
    | Undefined
    | Done(accounts: seq<Executor.AccountChange>, storage: seq<Change>)

  function At(c: string, field: StableField): Slot {
    Slot(c, Stable(field))
  }

  function Read(st: Store, c: string, field: StableField): Option<u64> {
    ReadWord(st, At(c, field))
  }

  function ReadParam(st: Store, c: string, name: ParamName): Option<u64> {
    Read(st, c, Param(name))
  }

  function ReadParams(st: Store, c: string): Option<Params> {
    var cr, lr, pen := ReadParam(st, c, CollateralRatio), ReadParam(st, c, LiquidationRatio), ReadParam(st, c, Penalty);
    var dc, md, mm := ReadParam(st, c, DebtCeiling), ReadParam(st, c, MinDeposit), ReadParam(st, c, MinMint);
    var stale, feed := ReadParam(st, c, Staleness), ReadId(st, At(c, Feed));
    if ReadParam(st, c, ParamsSet) != Some(1) || cr.None? || lr.None? || pen.None? || dc.None? || md.None? || mm.None?
       || stale.None? || feed.None?
    then None
    else Some(Params(cr.value, lr.value, pen.value, dc.value, md.value, mm.value, stale.value, feed.value))
  }

  /** Parameters that say they are set must be complete for any call to go on. */
  predicate ParamsBroken(st: Store, c: string) {
    var set_ := ReadParam(st, c, ParamsSet);
    set_.None? || (set_ == Some(1) && ReadParams(st, c).None?)
  }

  // -------- prices --------

  function PriceOf(env: Env, p: Params): Option<Point> {
    if p.feed !in env.latest then None
    else
      var point := env.latest[p.feed];
      if env.height < point.height || env.height - point.height > p.staleness || point.den == 0 then None
      else Some(point)
  }

  function Collateralised(collateral: nat, debt: nat, ratio: nat, price: Point): bool {
    if debt == 0 then true
    else if price.den == 0 then false
    else Wrap128(U256.Quotient(collateral * price.num, price.den) * 10000) >= debt * ratio
  }

  /** The collateral that `burned` coins are worth, rounded up, with the penalty on top. */
  function RewardQuote(burned: nat, penalty: u64, price: Point): nat
    requires price.num > 0
  {
    var base := U256.Quotient(burned * price.den + price.num - 1, price.num);
    U256.Quotient(Wrap128(base * Wrap64(10000 + penalty)), 10000)
  }

  // -------- native balance --------

  function VaultId(c: string): string {
    "stable118_vault:" + c
  }

  /** Both accounts are read before either is written. */
  function PayIn(accounts: Executor.Accounts, caller: string, c: string,
                 amount: u64): Option<seq<Executor.AccountChange>> {
    var user, vault := Executor.Get(accounts, caller), Executor.Get(accounts, VaultId(c));
    if user.None? || user.value.balance < amount then None
    else
      var to := if vault.Some? then vault.value else Executor.Account(0, 0);
      var next := CheckedAdd(to.balance, amount);
      if next.None? then None
      else Some([
        Executor.AccountChange(caller, user.value.(balance := user.value.balance - amount)),
        Executor.AccountChange(VaultId(c), to.(balance := next.value))])
  }

  function PayOut(accounts: Executor.Accounts, caller: string, c: string,
                  amount: u64): Option<seq<Executor.AccountChange>> {
    var user, vault := Executor.Get(accounts, caller), Executor.Get(accounts, VaultId(c));
    if user.None? || vault.None? || vault.value.balance < amount then None
    else
      var next := CheckedAdd(user.value.balance, amount);
      if next.None? then None
      else Some([
        Executor.AccountChange(VaultId(c), vault.value.(balance := vault.value.balance - amount)),
        Executor.AccountChange(caller, user.value.(balance := next.value))])
  }

  // -------- calls --------

  function Noted(c: string, price: Point): seq<Change> {
    [Change(At(c, OracleHeight), Word(price.height))]
  }

  function CollateralChanges(c: string, user: string, collateral: u64, total: u64): seq<Change> {
    [Change(At(c, Held(Collateral, user)), Word(collateral)), Change(At(c, TotalCollateral), Word(total))]
  }

  function MintChanges(c: string, user: string, debt: u64, total: u64, coins: u64): seq<Change> {
    [Change(At(c, Held(Debt, user)), Word(debt)), Change(At(c, TotalDebt), Word(total)),
     Change(At(c, Held(Coin, user)), Word(coins))]
  }

  /** Coins of `payer` burned against the debt of `debtor`. */
  function BurnChanges(c: string, payer: string, coins: u64, debtor: string, debt: u64, total: u64): seq<Change> {
    [Change(At(c, Held(Coin, payer)), Word(coins)), Change(At(c, Held(Debt, debtor)), Word(debt)),
     Change(At(c, TotalDebt), Word(total))]
  }

  function ParamChanges(c: string, p: Params): seq<Change> {
    [Change(At(c, Param(CollateralRatio)), Word(p.collateralRatio)),
     Change(At(c, Param(LiquidationRatio)), Word(p.liquidationRatio)),
     Change(At(c, Param(Penalty)), Word(p.penalty)),
     Change(At(c, Param(DebtCeiling)), Word(p.debtCeiling)),
     Change(At(c, Param(MinDeposit)), Word(p.minDeposit)),
     Change(At(c, Param(MinMint)), Word(p.minMint)),
     Change(At(c, Param(Staleness)), Word(p.staleness)),
     Change(At(c, Feed), Id(p.feed)),
     Change(At(c, Param(ParamsSet)), Word(1))]
  }

  function RegisterEvent(caller: string, p: Params): Value {
    Event(0x10, AddressOf(caller), [p.feed],
          [p.collateralRatio, p.liquidationRatio, p.penalty, p.debtCeiling, p.minDeposit, p.minMint, p.staleness])
  }

  predicate Sensible(p: Params) {
    10000 <= p.liquidationRatio <= p.collateralRatio && p.penalty <= 20000
  }

  /** Only the owner may set parameters. */
  function RegisterCall(w: World, caller: string, c: string, p: Params): Outcome {
    var event := EventChanges(w.store, c, RegisterEvent(caller, p));
    if ReadId(w.store, At(c, Owner)) != Some(caller) || !Sensible(p) || event.None? then Refused
    else Done([], ParamChanges(c, p) + event.value)
  }

  function DepositCall(w: World, caller: string, c: string, p: Params, amount: u64): Outcome {
    var moved := PayIn(w.accounts, caller, c, amount);
    var have, tot := Read(w.store, c, Held(Collateral, caller)), Read(w.store, c, TotalCollateral);
    var event := EventChanges(w.store, c, Event(0x11, AddressOf(caller), [], [amount]));
    if amount == 0 || amount < p.minDeposit || moved.None? || have.None? || tot.None? || event.None? then Refused
    else
      var next, nextTot := CheckedAdd(have.value, amount), CheckedAdd(tot.value, amount);
      if next.None? || nextTot.None? then Refused
      else Done(moved.value, CollateralChanges(c, caller, next.value, nextTot.value) + event.value)
  }

  function WithdrawCall(w: World, env: Env, caller: string, c: string, p: Params, amount: u64): Outcome {
    var price, moved := PriceOf(env, p), PayOut(w.accounts, caller, c, amount);
    var have, debt := Read(w.store, c, Held(Collateral, caller)), Read(w.store, c, Held(Debt, caller));
    var tot := Read(w.store, c, TotalCollateral);
    var event := EventChanges(w.store, c, Event(0x12, AddressOf(caller), [], [amount]));
    if amount == 0 || price.None? || have.None? || debt.None? || have.value < amount then Refused
    else if !Collateralised(have.value - amount, debt.value, p.collateralRatio, price.value) then Refused
    else if moved.None? || tot.None? || tot.value < amount || event.None? then Refused
    else Done(moved.value,
      Noted(c, price.value) + CollateralChanges(c, caller, have.value - amount, tot.value - amount) + event.value)
  }

  function MintCall(w: World, env: Env, caller: string, c: string, p: Params, amount: u64): Outcome {
    var price := PriceOf(env, p);
    var have, debt := Read(w.store, c, Held(Collateral, caller)), Read(w.store, c, Held(Debt, caller));
    var tot, coins := Read(w.store, c, TotalDebt), Read(w.store, c, Held(Coin, caller));
    var event := EventChanges(w.store, c, Event(0x13, AddressOf(caller), [], [amount]));
    if amount == 0 || amount < p.minMint || price.None? then Refused
    else if have.None? || debt.None? || tot.None? || coins.None? then Refused
    else
      var nextDebt, nextTot := CheckedAdd(debt.value, amount), CheckedAdd(tot.value, amount);
      var nextCoins := CheckedAdd(coins.value, amount);
      if nextDebt.None? || nextTot.None? || nextTot.value > p.debtCeiling then Refused
      else if !Collateralised(have.value, nextDebt.value, p.collateralRatio, price.value) then Refused
      else if nextCoins.None? || event.None? then Refused
      else Done([],
        Noted(c, price.value) + MintChanges(c, caller, nextDebt.value, nextTot.value, nextCoins.value) + event.value)
  }

  function BurnCall(w: World, caller: string, c: string, amount: u64): Outcome {
    var coins, debt := Read(w.store, c, Held(Coin, caller)), Read(w.store, c, Held(Debt, caller));
    var tot := Read(w.store, c, TotalDebt);
    var event := EventChanges(w.store, c, Event(0x14, AddressOf(caller), [], [amount]));
    if amount == 0 || coins.None? || debt.None? || coins.value < amount || debt.value < amount then Refused
    else if tot.None? || tot.value < amount || event.None? then Refused
    else Done([],
      BurnChanges(c, caller, coins.value - amount, caller, debt.value - amount, tot.value - amount) + event.value)
  }

  function Min(a: nat, b: nat): nat {
    if a > b then b else a
  }

  function LiquidateCall(w: World, env: Env, caller: string, c: string, p: Params, target: string,
                         amount: u64): Outcome {
    var price := PriceOf(env, p);
    var have, debt := Read(w.store, c, Held(Collateral, target)), Read(w.store, c, Held(Debt, target));
    var coins := Read(w.store, c, Held(Coin, caller));
    var totDebt, totColl := Read(w.store, c, TotalDebt), Read(w.store, c, TotalCollateral);
    if amount == 0 || price.None? || have.None? || debt.None? || debt.value == 0 then Refused
    else if Collateralised(have.value, debt.value, p.liquidationRatio, price.value) then Refused
    else
      var burned: u64 := Min(amount, debt.value);
      if coins.None? || coins.value < burned || totDebt.None? || totDebt.value < burned then Refused
      else if price.value.num == 0 then Undefined
      else
        var quote := RewardQuote(burned, p.penalty, price.value);
        if quote > U64_MAX then Refused
        else
          var reward: u64 := Min(quote, have.value);
          var moved := PayOut(w.accounts, caller, c, reward);
          var event := EventChanges(w.store, c, Event(0x15, AddressOf(caller), [target], [burned, reward]));
          if reward == 0 || moved.None? || totColl.None? || totColl.value < reward || event.None? then Refused
          else Done(moved.value,
            Noted(c, price.value)
            + (BurnChanges(c, caller, coins.value - burned, target, debt.value - burned, totDebt.value - burned)
               + CollateralChanges(c, target, have.value - reward, totColl.value - reward))
            + event.value)
  }

  function Apply(w: World, env: Env, caller: string, c: string, call: Call): Outcome {
    if ReadWord(w.store, Slot(c, EventSeq)).None? || ParamsBroken(w.store, c) then Refused
    else if call.RegisterParams? then RegisterCall(w, caller, c, call.params)
    else
      var p := ReadParams(w.store, c);
      if p.None? then Refused
      else match call
        case Deposit(amount) => DepositCall(w, caller, c, p.value, amount)
        case Withdraw(amount) => WithdrawCall(w, env, caller, c, p.value, amount)
        case Mint(amount) => MintCall(w, env, caller, c, p.value, amount)
        case Burn(amount) => BurnCall(w, caller, c, amount)
        case Liquidate(target, amount) => LiquidateCall(w, env, caller, c, p.value, target, amount)
  }

  /** The world after a call's changes, the later ones winning. */
  function After(w: World, out: Outcome): World {
    if out.Done? then World(ApplyAll(w.store, out.storage), Executor.ApplyChanges(w.accounts, out.accounts)) else w
  }
}
