/** The stablecoin's entry point: it fills a list of account changes and a list of storage changes. */
module StableProcedure {
  import opened Common
  import opened ContractStore
  import opened Stable
  import Executor

  /** `w` is only read; what the call wants changed is appended to the two lists. */
  class StableCall {
    const w: World
    const env: Env
    const caller: string
    const c: string
    var accounts: seq<Executor.AccountChange>
    var storage: seq<Change>
    var eventSeq: u64

    constructor (w: World, env: Env, caller: string, c: string, eventSeq: u64)
      ensures this.w == w && this.env == env && this.caller == caller && this.c == c
      ensures accounts == [] && storage == [] && this.eventSeq == eventSeq
    {
      this.w, this.env, this.caller, this.c, this.eventSeq := w, env, caller, c, eventSeq;
      accounts, storage := [], [];
    }

    ghost predicate Ready()
      reads this
    {
      ReadWord(w.store, Slot(c, EventSeq)) == Some(eventSeq) && accounts == [] && storage == []
    }

    method Set(field: StableField, value: Value)
      modifies this`storage
      ensures storage == old(storage) + [Change(At(c, field), value)]
    {
      storage := storage + [Change(At(c, field), value)];
    }

    method Emit(event: Value) returns (ok: bool)
      requires ReadWord(w.store, Slot(c, EventSeq)) == Some(eventSeq)
      modifies this`storage, this`eventSeq
      ensures var e := EventChanges(w.store, c, event);
        ok == e.Some? && storage == if ok then old(storage) + e.value else old(storage)
    {
      var next := CheckedAdd(eventSeq, 1);
      if next.None? {
        return false;
      }
      eventSeq := next.value;
      storage := storage + [Change(Slot(c, EventSeq), Word(eventSeq))];
      storage := storage + [Change(Slot(c, EventAt(eventSeq)), event)];
      return true;
    }

    /** The price, whose height is noted in storage. */
    method GetPrice(p: Params) returns (price: Option<Point>)
      requires storage == []
      modifies this`storage
      ensures price == PriceOf(env, p) && storage == if price.Some? then Noted(c, price.value) else []
    {
      if p.feed !in env.latest {
        return None;
      }
      var point := env.latest[p.feed];
      if env.height < point.height {
        return None;
      }
      var delta := env.height - point.height;
      if delta > p.staleness || point.den == 0 {
        return None;
      }
      Set(OracleHeight, Word(point.height));
      return Some(point);
    }

    method MoveIn(amount: u64) returns (ok: bool)
      requires accounts == []
      modifies this`accounts
      ensures PayIn(w.accounts, caller, c, amount) == if ok then Some(accounts) else None
    {
      var user := Executor.Get(w.accounts, caller);
      if user.None? || user.value.balance < amount {
        return false;
      }
      var held := Executor.Get(w.accounts, VaultId(c));
      var vault := if held.Some? then held.value else Executor.Account(0, 0);
      var userNext := user.value.(balance := user.value.balance - amount);
      var next := CheckedAdd(vault.balance, amount);
      if next.None? {
        return false;
      }
      var vaultNext := vault.(balance := next.value);
      accounts := accounts + [Executor.AccountChange(caller, userNext)];
      accounts := accounts + [Executor.AccountChange(VaultId(c), vaultNext)];
      assert accounts == [Executor.AccountChange(caller, userNext), Executor.AccountChange(VaultId(c), vaultNext)];
      return true;
    }

    method MoveOut(amount: u64) returns (ok: bool)
      requires accounts == []
      modifies this`accounts
      ensures PayOut(w.accounts, caller, c, amount) == if ok then Some(accounts) else None
    {
      var vault, user := Executor.Get(w.accounts, VaultId(c)), Executor.Get(w.accounts, caller);
      if vault.None? || user.None? || vault.value.balance < amount {
        return false;
      }
      var vaultNext := vault.value.(balance := vault.value.balance - amount);
      var next := CheckedAdd(user.value.balance, amount);
      if next.None? {
        return false;
      }
      var userNext := user.value.(balance := next.value);
      accounts := accounts + [Executor.AccountChange(VaultId(c), vaultNext)];
      accounts := accounts + [Executor.AccountChange(caller, userNext)];
      assert accounts == [Executor.AccountChange(VaultId(c), vaultNext), Executor.AccountChange(caller, userNext)];
      return true;
    }

    function Result(ok: bool): Outcome
      reads this
    {
      if ok then Done(accounts, storage) else Refused
    }

    method WriteParams(p: Params)
      requires storage == []
      modifies this`storage
      ensures storage == ParamChanges(c, p)
    {
      Set(Param(CollateralRatio), Word(p.collateralRatio));
      Set(Param(LiquidationRatio), Word(p.liquidationRatio));
      Set(Param(Penalty), Word(p.penalty));
      Set(Param(DebtCeiling), Word(p.debtCeiling));
      Set(Param(MinDeposit), Word(p.minDeposit));
      Set(Param(MinMint), Word(p.minMint));
      Set(Param(Staleness), Word(p.staleness));
      Set(Feed, Id(p.feed));
      Set(Param(ParamsSet), Word(1));
    }

    method DoRegister(p: Params) returns (ok: bool)
      requires Ready()
      modifies this
      ensures Result(ok) == RegisterCall(w, caller, c, p)
    {
      hide EventChanges;
      if ReadId(w.store, At(c, Owner)) != Some(caller) {
        return false;
      }
      if p.collateralRatio < 10000 || p.liquidationRatio < 10000 {
        return false;
      }
      if p.liquidationRatio > p.collateralRatio || p.penalty > 20000 {
        return false;
      }
      WriteParams(p);
      ok := Emit(RegisterEvent(caller, p));
    }

    method WriteCollateral(user: string, collateral: u64, total: u64)
      modifies this`storage
      ensures storage == old(storage) + CollateralChanges(c, user, collateral, total)
    {
      Set(Held(Collateral, user), Word(collateral));
      Set(TotalCollateral, Word(total));
    }

    method DoDeposit(p: Params, amount: u64) returns (ok: bool)
      requires Ready()
      modifies this
      ensures Result(ok) == DepositCall(w, caller, c, p, amount)
    {
      hide EventChanges, PayIn;
      if amount == 0 || amount < p.minDeposit {
        return false;
      }
      ok := MoveIn(amount);
      var have := Read(w.store, c, Held(Collateral, caller));
      if !ok || have.None? {
        return false;
      }
      var next := CheckedAdd(have.value, amount);
      var tot := Read(w.store, c, TotalCollateral);
      if next.None? || tot.None? {
        return false;
      }
      var nextTot := CheckedAdd(tot.value, amount);
      if nextTot.None? {
        return false;
      }
      WriteCollateral(caller, next.value, nextTot.value);
      ok := Emit(Event(0x11, AddressOf(caller), [], [amount]));
    }

    method DoWithdraw(p: Params, amount: u64) returns (ok: bool)
      requires Ready()
      modifies this
      ensures Result(ok) == WithdrawCall(w, env, caller, c, p, amount)
    {
      hide EventChanges, PayOut, Collateralised, PriceOf;
      if amount == 0 {
        return false;
      }
      var price := GetPrice(p);
      var have, debt := Read(w.store, c, Held(Collateral, caller)), Read(w.store, c, Held(Debt, caller));
      if price.None? || have.None? || debt.None? || have.value < amount {
        return false;
      }
      var left := have.value - amount;
      if !Collateralised(left, debt.value, p.collateralRatio, price.value) {
        return false;
      }
      ok := MoveOut(amount);
      var tot := Read(w.store, c, TotalCollateral);
      if !ok || tot.None? || tot.value < amount {
        return false;
      }
      WriteCollateral(caller, left, tot.value - amount);
      ok := Emit(Event(0x12, AddressOf(caller), [], [amount]));
    }

    method DoMint(p: Params, amount: u64) returns (ok: bool)
      requires Ready()
      modifies this
      ensures Result(ok) == MintCall(w, env, caller, c, p, amount)
    {
      hide EventChanges, Collateralised, PriceOf;
      if amount == 0 || amount < p.minMint {
        return false;
      }
      var price := GetPrice(p);
      var have, debt := Read(w.store, c, Held(Collateral, caller)), Read(w.store, c, Held(Debt, caller));
      if price.None? || have.None? || debt.None? {
        return false;
      }
      var nextDebt := CheckedAdd(debt.value, amount);
      var tot := Read(w.store, c, TotalDebt);
      if nextDebt.None? || tot.None? {
        return false;
      }
      var nextTot := CheckedAdd(tot.value, amount);
      if nextTot.None? || nextTot.value > p.debtCeiling {
        return false;
      }
      if !Collateralised(have.value, nextDebt.value, p.collateralRatio, price.value) {
        return false;
      }
      var coins := Read(w.store, c, Held(Coin, caller));
      if coins.None? {
        return false;
      }
      var nextCoins := CheckedAdd(coins.value, amount);
      if nextCoins.None? {
        return false;
      }
      WriteMint(nextDebt.value, nextTot.value, nextCoins.value);
      ok := Emit(Event(0x13, AddressOf(caller), [], [amount]));
    }

    method WriteMint(debt: u64, total: u64, coins: u64)
      modifies this`storage
      ensures storage == old(storage) + MintChanges(c, caller, debt, total, coins)
    {
      Set(Held(Debt, caller), Word(debt));
      Set(TotalDebt, Word(total));
      Set(Held(Coin, caller), Word(coins));
    }

    method WriteBurn(coins: u64, debtor: string, debt: u64, total: u64)
      modifies this`storage
      ensures storage == old(storage) + BurnChanges(c, caller, coins, debtor, debt, total)
    {
      Set(Held(Coin, caller), Word(coins));
      Set(Held(Debt, debtor), Word(debt));
      Set(TotalDebt, Word(total));
    }

    method DoBurn(amount: u64) returns (ok: bool)
      requires Ready()
      modifies this
      ensures Result(ok) == BurnCall(w, caller, c, amount)
    {
      hide EventChanges;
      var coins, debt := Read(w.store, c, Held(Coin, caller)), Read(w.store, c, Held(Debt, caller));
      if amount == 0 || coins.None? || debt.None? || coins.value < amount || debt.value < amount {
        return false;
      }
      var tot := Read(w.store, c, TotalDebt);
      if tot.None? || tot.value < amount {
        return false;
      }
      WriteBurn(coins.value - amount, caller, debt.value - amount, tot.value - amount);
      ok := Emit(Event(0x14, AddressOf(caller), [], [amount]));
    }

    function Settlement(target: string, have: u64, debt: u64, coins: u64, totDebt: u64, totColl: u64, burned: u64,
                        reward: u64)
      : seq<Change>
      requires reward <= have && reward <= totColl && burned <= debt && burned <= coins && burned <= totDebt
    {
      BurnChanges(c, caller, coins - burned, target, debt - burned, totDebt - burned)
      + CollateralChanges(c, target, have - reward, totColl - reward)
    }

    /** The part of a liquidation that writes: the reward is paid out, coins burned, collateral taken. */
    method Settle(target: string, have: u64, debt: u64, coins: u64, totDebt: u64, burned: u64, reward: u64)
      returns (ok: bool)
      requires accounts == [] && ReadWord(w.store, Slot(c, EventSeq)) == Some(eventSeq)
      requires reward <= have && burned <= debt && burned <= coins && burned <= totDebt
      modifies this
      ensures var moved, totColl := PayOut(w.accounts, caller, c, reward), Read(w.store, c, TotalCollateral);
        var event := EventChanges(w.store, c, Event(0x15, AddressOf(caller), [target], [burned, reward]));
        && ok == (moved.Some? && totColl.Some? && totColl.value >= reward && event.Some?)
        && (ok ==> accounts == moved.value)
        && (ok ==>
             storage == old(storage)
               + Settlement(target, have, debt, coins, totDebt, totColl.value, burned, reward) + event.value)
    {
      hide EventChanges, PayOut;
      ok := MoveOut(reward);
      if !ok {
        return;
      }
      WriteBurn(coins - burned, target, debt - burned, totDebt - burned);
      var totColl := Read(w.store, c, TotalCollateral);
      if totColl.None? || totColl.value < reward {
        return false;
      }
      WriteCollateral(target, have - reward, totColl.value - reward);
      ok := Emit(Event(0x15, AddressOf(caller), [target], [burned, reward]));
    }

    method DoLiquidate(p: Params, target: string, amount: u64) returns (out: Outcome)
      requires Ready()
      modifies this
      ensures out == LiquidateCall(w, env, caller, c, p, target, amount)
    {
      hide EventChanges, PayOut, Collateralised, PriceOf, RewardQuote;
      if amount == 0 {
        return Refused;
      }
      var price := GetPrice(p);
      var have, debt := Read(w.store, c, Held(Collateral, target)), Read(w.store, c, Held(Debt, target));
      if price.None? || have.None? || debt.None? || debt.value == 0 {
        return Refused;
      }
      if Collateralised(have.value, debt.value, p.liquidationRatio, price.value) {
        return Refused;
      }
      var burned := if amount > debt.value then debt.value else amount;
      var coins, totDebt := Read(w.store, c, Held(Coin, caller)), Read(w.store, c, TotalDebt);
      if coins.None? || coins.value < burned || totDebt.None? || totDebt.value < burned {
        return Refused;
      }
      if price.value.num == 0 {
        return Undefined;
      }
      var quote := RewardQuote(burned, p.penalty, price.value);
      if quote > U64_MAX {
        return Refused;
      }
      var reward: u64 := if quote > have.value then have.value else quote;
      if reward == 0 {
        return Refused;
      }
      var ok := Settle(target, have.value, debt.value, coins.value, totDebt.value, burned, reward);
      return Result(ok);
    }
  }

  method Stable118Apply(w: World, env: Env, caller: string, c: string, call: Call) returns (out: Outcome)
    ensures out == Apply(w, env, caller, c, call)
  {
    hide RegisterCall, DepositCall, WithdrawCall, MintCall, BurnCall, LiquidateCall, ReadParams;
    var seq0 := ReadWord(w.store, Slot(c, EventSeq));
    if seq0.None? || ParamsBroken(w.store, c) {
      return Refused;
    }
    var run := new StableCall(w, env, caller, c, seq0.value);
    var ok: bool;
    if call.RegisterParams? {
      ok := run.DoRegister(call.params);
      return run.Result(ok);
    }
    var p := ReadParams(w.store, c);
    if p.None? {
      return Refused;
    }
    match call {
      case Deposit(amount) => ok := run.DoDeposit(p.value, amount);
      case Withdraw(amount) => ok := run.DoWithdraw(p.value, amount);
      case Mint(amount) => ok := run.DoMint(p.value, amount);
      case Burn(amount) => ok := run.DoBurn(amount);
      case Liquidate(target, amount) =>
        out := run.DoLiquidate(p.value, target, amount);
        return;
    }
    return run.Result(ok);
  }
}
