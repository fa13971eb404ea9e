/** The lending contract's entry point: it appends to a list of storage changes and keeps the total debt at hand. */
module LendProcedure {
  import opened Common
  import opened ContractStore
  import opened Lend
  import U256

  /** `st` is only read; what the call wants changed is appended to `changes`. */
  class LendCall {
    const st: Store
    const env: Env
    const caller: string
    const c: string
    var changes: seq<Change>
    var totDebtOverride: Option<u64>
    var eventSeq: u64

    constructor (st: Store, env: Env, caller: string, c: string, eventSeq: u64)
      ensures this.st == st && this.env == env && this.caller == caller && this.c == c
      ensures changes == [] && totDebtOverride == None && this.eventSeq == eventSeq
    {
      this.st, this.env, this.caller, this.c, this.eventSeq := st, env, caller, c, eventSeq;
      changes, totDebtOverride := [], None;
    }

    ghost predicate Ready()
      reads this
    {
      ReadWord(st, Slot(c, EventSeq)) == Some(eventSeq)
    }

    method Set(key: Key, value: Value)
      modifies this`changes
      ensures changes == old(changes) + [Change(Slot(c, key), value)]
    {
      changes := changes + [Change(Slot(c, key), value)];
    }

    method Transfer(token: string, from: Address, to: Address, amount: u64) returns (ok: bool)
      modifies this`changes
      ensures var t := TransferChanges(st, token, from, to, amount);
        ok == t.Some? && changes == if ok then old(changes) + t.value else old(changes)
    {
      if amount == 0 {
        return false;
      }
      var fromBalance := ReadWord(st, Slot(token, TokenBalance(from)));
      if fromBalance.None? || fromBalance.value < amount {
        return false;
      }
      var toBalance := ReadWord(st, Slot(token, TokenBalance(to)));
      if toBalance.None? {
        return false;
      }
      var next := CheckedAdd(toBalance.value, amount);
      if next.None? {
        return false;
      }
      changes := changes + [Change(Slot(token, TokenBalance(from)), Word(fromBalance.value - amount))];
      changes := changes + [Change(Slot(token, TokenBalance(to)), Word(next.value))];
      return true;
    }

    method Emit(event: Value) returns (ok: bool)
      requires Ready()
      modifies this`changes, this`eventSeq
      ensures var e := EventChanges(st, c, event);
        ok == e.Some? && changes == if ok then old(changes) + e.value else old(changes)
    {
      var next := CheckedAdd(eventSeq, 1);
      if next.None? {
        return false;
      }
      eventSeq := next.value;
      Set(EventSeq, Word(eventSeq));
      Set(EventAt(eventSeq), event);
      return true;
    }

    method DoAccrue(cfg: Cfg) returns (ok: bool)
      requires changes == [] && totDebtOverride == None
      modifies this`changes, this`totDebtOverride
      ensures var acc := Accrue(st, c, cfg, env.height);
        ok == acc.Some? && (ok ==> changes == acc.value.changes && totDebtOverride == acc.value.debt)
    {
      hide Interest;
      var last := ReadWord(st, Slot(c, LendAccrueHeight));
      if last.None? || env.height < last.value {
        return false;
      }
      var epochs := env.height - last.value;
      Set(LendAccrueHeight, Word(env.height));
      if epochs == 0 || cfg.interest == 0 {
        return true;
      }
      var debt := ReadWord(st, Slot(c, LendTotalDebt));
      if debt.None? {
        return false;
      }
      if debt.value == 0 {
        totDebtOverride := Some(0);
        return true;
      }
      var add := Interest(debt.value, cfg.interest, epochs);
      if add > U64_MAX || debt.value + add > U64_MAX {
        return false;
      }
      Set(LendTotalDebt, Word(debt.value + add));
      totDebtOverride := Some(debt.value + add);
      return true;
    }

    method CurrentDebt(ghost acc: Accrued) returns (debt: Option<u64>)
      requires totDebtOverride == acc.debt
      ensures debt == DebtNow(st, c, acc)
    {
      debt := if totDebtOverride.Some? then totDebtOverride else ReadWord(st, Slot(c, LendTotalDebt));
    }

    method WriteShares(user: string, shares: u64, total: u64)
      modifies this`changes
      ensures changes == old(changes) + ShareChanges(c, user, shares, total)
    {
      Set(LendShares(user), Word(shares));
      Set(LendTotalShares, Word(total));
    }

    method WriteDebt(user: string, debt: u64, total: u64)
      modifies this`changes, this`totDebtOverride
      ensures changes == old(changes) + DebtChanges(c, user, debt, total) && totDebtOverride == Some(total)
    {
      Set(LendDebt(user), Word(debt));
      Set(LendTotalDebt, Word(total));
      totDebtOverride := Some(total);
    }

    method DoConfigure(call: Call) returns (ok: bool)
      requires call.Configure? && changes == [] && Ready()
      modifies this
      ensures ConfigureCall(st, caller, c, env.height, call) == if ok then Some(changes) else None
    {
      if call.collateralFactor > 10000 || call.threshold > 10000 || call.interest > 10000 || call.reserve > 10000 {
        return false;
      }
      if call.collateralFactor > call.threshold {
        return false;
      }
      Set(LendAsset, Id(call.asset));
      Set(LendCollateralFactor, Word(call.collateralFactor));
      Set(LendLiquidationThreshold, Word(call.threshold));
      Set(LendInterestRate, Word(call.interest));
      Set(LendReserveFactor, Word(call.reserve));
      Set(LendInitialized, Word(1));
      Set(LendTotalShares, Word(0));
      Set(LendTotalDebt, Word(0));
      Set(LendAccrueHeight, Word(env.height));
      assert changes == [
        Change(Slot(c, LendAsset), Id(call.asset)),
        Change(Slot(c, LendCollateralFactor), Word(call.collateralFactor)),
        Change(Slot(c, LendLiquidationThreshold), Word(call.threshold)),
        Change(Slot(c, LendInterestRate), Word(call.interest)),
        Change(Slot(c, LendReserveFactor), Word(call.reserve)),
        Change(Slot(c, LendInitialized), Word(1)),
        Change(Slot(c, LendTotalShares), Word(0)),
        Change(Slot(c, LendTotalDebt), Word(0)),
        Change(Slot(c, LendAccrueHeight), Word(env.height))];
      ok := Emit(Event(1, AddressOf(caller), [call.asset],
        [call.collateralFactor, call.threshold, call.interest, call.reserve]));
    }

    /** Interest has been accrued, and nothing else written. */
    ghost predicate Accruing(acc: Accrued)
      reads this
    {
      Ready() && changes == acc.changes && totDebtOverride == acc.debt
    }

    method DoDeposit(cfg: Cfg, ghost acc: Accrued, amount: u64) returns (ok: bool)
      requires Accruing(acc)
      modifies this
      ensures DepositCall(st, caller, c, cfg, acc, amount) == if ok then Some(changes) else None
    {
      hide TransferChanges, EventChanges, DebtNow;
      ok := Transfer(cfg.asset, AddressOf(caller), Vault(c), amount);
      var user := ReadWord(st, Slot(c, LendShares(caller)));
      if !ok || user.None? {
        return false;
      }
      var next := CheckedAdd(user.value, amount);
      var tot := ReadWord(st, Slot(c, LendTotalShares));
      if next.None? || tot.None? {
        return false;
      }
      var nextTot := CheckedAdd(tot.value, amount);
      if nextTot.None? {
        return false;
      }
      WriteShares(caller, next.value, nextTot.value);
      ok := Emit(Event(2, AddressOf(caller), [], [amount]));
    }

    method DoWithdraw(cfg: Cfg, ghost acc: Accrued, shares: u64) returns (ok: bool)
      requires Accruing(acc)
      modifies this
      ensures WithdrawCall(st, env, caller, c, cfg, acc, shares) == if ok then Some(changes) else None
    {
      hide TransferChanges, EventChanges, DebtNow, HealthOk;
      var user := ReadWord(st, Slot(c, LendShares(caller)));
      var debt := ReadWord(st, Slot(c, LendDebt(caller)));
      if user.None? || debt.None? || user.value < shares || env.price.None? {
        return false;
      }
      var left := user.value - shares;
      if !HealthOk(left, debt.value, cfg.collateralFactor, env.price.value) {
        return false;
      }
      ok := Transfer(cfg.asset, Vault(c), AddressOf(caller), shares);
      var tot := ReadWord(st, Slot(c, LendTotalShares));
      if !ok || tot.None? || tot.value < shares {
        return false;
      }
      WriteShares(caller, left, tot.value - shares);
      ok := Emit(Event(3, AddressOf(caller), [], [shares]));
    }

    method DoBorrow(cfg: Cfg, ghost acc: Accrued, amount: u64) returns (ok: bool)
      requires Accruing(acc)
      modifies this
      ensures BorrowCall(st, env, caller, c, cfg, acc, amount) == if ok then Some(changes) else None
    {
      hide TransferChanges, EventChanges, DebtNow, HealthOk;
      var user := ReadWord(st, Slot(c, LendShares(caller)));
      var debt := ReadWord(st, Slot(c, LendDebt(caller)));
      if user.None? || debt.None? {
        return false;
      }
      var next := CheckedAdd(debt.value, amount);
      if next.None? || env.price.None? {
        return false;
      }
      if !HealthOk(user.value, next.value, cfg.collateralFactor, env.price.value) {
        return false;
      }
      ok := Transfer(cfg.asset, Vault(c), AddressOf(caller), amount);
      var tot := CurrentDebt(acc);
      if !ok || tot.None? {
        return false;
      }
      var nextTot := CheckedAdd(tot.value, amount);
      if nextTot.None? {
        return false;
      }
      WriteDebt(caller, next.value, nextTot.value);
      ok := Emit(Event(4, AddressOf(caller), [], [amount]));
    }

    method DoRepay(cfg: Cfg, ghost acc: Accrued, amount: u64) returns (ok: bool)
      requires Accruing(acc)
      modifies this
      ensures RepayCall(st, caller, c, cfg, acc, amount) == if ok then Some(changes) else None
    {
      hide TransferChanges, EventChanges, DebtNow;
      var debt := ReadWord(st, Slot(c, LendDebt(caller)));
      if debt.None? {
        return false;
      }
      var pay := if amount > debt.value then debt.value else amount;
      ok := Transfer(cfg.asset, AddressOf(caller), Vault(c), pay);
      var tot := CurrentDebt(acc);
      if !ok || tot.None? || tot.value < pay {
        return false;
      }
      WriteDebt(caller, debt.value - pay, tot.value - pay);
      ok := Emit(Event(5, AddressOf(caller), [], [pay]));
    }

    /** What the liquidator gets: what it pays plus the bonus, capped by what the victim has. */
    method SeizeQuote(cfg: Cfg, pay: nat, available: u64) returns (quote: Option<u64>)
      ensures quote == Seized(cfg, pay, available)
    {
      hide U256.Quotient;
      var seize := U256.Quotient(pay * Wrap64(10000 + Bonus(cfg)), 10000);
      if seize == 0 || seize > U64_MAX {
        return None;
      }
      if seize > available {
        seize := available;
      }
      return Some(seize);
    }

    method WriteSeizure(victim: string, debt: u64, total: u64, left: u64, mine: u64)
      modifies this`changes, this`totDebtOverride
      ensures changes == old(changes)
        + (DebtChanges(c, victim, debt, total)
           + [Change(Slot(c, LendShares(victim)), Word(left)), Change(Slot(c, LendShares(caller)), Word(mine))])
    {
      WriteDebt(victim, debt, total);
      Set(LendShares(victim), Word(left));
      Set(LendShares(caller), Word(mine));
    }

    method DoLiquidate(cfg: Cfg, ghost acc: Accrued, victim: string, amount: u64) returns (ok: bool)
      requires Accruing(acc)
      modifies this
      ensures LiquidateCall(st, env, caller, c, cfg, acc, victim, amount) == if ok then Some(changes) else None
    {
      hide TransferChanges, EventChanges, DebtNow, HealthOk, Seized;
      var vShares := ReadWord(st, Slot(c, LendShares(victim)));
      var vDebt := ReadWord(st, Slot(c, LendDebt(victim)));
      if amount == 0 || vShares.None? || vDebt.None? || vDebt.value == 0 || vShares.value == 0 || env.price.None? {
        return false;
      }
      if HealthOk(vShares.value, vDebt.value, cfg.threshold, env.price.value) {
        return false;
      }
      var pay := if amount > vDebt.value then vDebt.value else amount;
      var quote := SeizeQuote(cfg, pay, vShares.value);
      if quote.None? || quote.value == 0 {
        return false;
      }
      var seize := quote.value;
      ok := Transfer(cfg.asset, AddressOf(caller), Vault(c), pay);
      var mine := ReadWord(st, Slot(c, LendShares(caller)));
      if !ok || mine.None? {
        return false;
      }
      var next := CheckedAdd(mine.value, seize);
      var tot := CurrentDebt(acc);
      if next.None? || tot.None? || tot.value < pay {
        return false;
      }
      WriteSeizure(victim, vDebt.value - pay, tot.value - pay, vShares.value - seize, next.value);
      ok := Emit(Event(6, AddressOf(caller), [victim], [pay, seize]));
    }
  }

  method Lend119Apply(st: Store, env: Env, caller: string, c: string, call: Call) returns (out: Option<seq<Change>>)
    ensures out == Apply(st, env, caller, c, call)
  {
    hide Accrue, ConfigureCall, DepositCall, WithdrawCall, BorrowCall, RepayCall, LiquidateCall, ReadCfg;
    if CfgBroken(st, c) {
      return None;
    }
    var seq0 := ReadWord(st, Slot(c, EventSeq));
    if seq0.None? {
      return None;
    }
    var run := new LendCall(st, env, caller, c, seq0.value);
    var ok: bool;
    if call.Configure? {
      ok := run.DoConfigure(call);
      return if ok then Some(run.changes) else None;
    }
    var cfg := ReadCfg(st, c);
    if cfg.None? {
      return None;
    }
    ok := run.DoAccrue(cfg.value);
    if !ok {
      return None;
    }
    ghost var acc := Accrue(st, c, cfg.value, env.height).value;
    match call {
      case AccrueInterest => ok := run.Emit(Event(7, AddressOf(caller), [], []));
      case Deposit(amount) => ok := run.DoDeposit(cfg.value, acc, amount);
      case Withdraw(shares) => ok := run.DoWithdraw(cfg.value, acc, shares);
      case Borrow(amount) => ok := run.DoBorrow(cfg.value, acc, amount);
      case Repay(amount) => ok := run.DoRepay(cfg.value, acc, amount);
      case Liquidate(victim, amount) => ok := run.DoLiquidate(cfg.value, acc, victim, amount);
    }
    return if ok then Some(run.changes) else None;
  }
}
