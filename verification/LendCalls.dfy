/** When each call of the lending contract is accepted and what it leaves, told over the numbers in its slots. */
module LendCalls {
  import opened Common
  import opened ContractStore
  import opened Ledger
  import opened Lend
  import U256

  function AssetOf(st: Store, c: string): Option<string> { ReadId(st, Slot(c, LendAsset)) }
  function Factor(st: Store, c: string): u64 { Num(st, Slot(c, LendCollateralFactor)) }
  function Threshold(st: Store, c: string): u64 { Num(st, Slot(c, LendLiquidationThreshold)) }
  function Rate(st: Store, c: string): u64 { Num(st, Slot(c, LendInterestRate)) }
  function Shares(st: Store, c: string, user: string): u64 { Num(st, Slot(c, LendShares(user))) }
  function Debt(st: Store, c: string, user: string): u64 { Num(st, Slot(c, LendDebt(user))) }
  function AllShares(st: Store, c: string): u64 { Num(st, Slot(c, LendTotalShares)) }
  function AllDebt(st: Store, c: string): u64 { Num(st, Slot(c, LendTotalDebt)) }
  function LastHeight(st: Store, c: string): u64 { Num(st, Slot(c, LendAccrueHeight)) }

  /** The mark is set, the asset is named and the four numbers can be read. */
  predicate IsSetUp(st: Store, c: string) {
    && Num(st, Slot(c, LendInitialized)) == 1 && AssetOf(st, c).Some?
    && Readable(st, Slot(c, LendCollateralFactor)) && Readable(st, Slot(c, LendLiquidationThreshold))
    && Readable(st, Slot(c, LendInterestRate)) && Readable(st, Slot(c, LendReserveFactor))
  }

  // -------- interest --------

  function Product(a: nat, b: nat, c: nat): nat {
    a * b * c
  }

  function Growth(st: Store, c: string, height: u64): nat
    requires LastHeight(st, c) <= height
  {
    U256.Quotient(Wrap128(Product(AllDebt(st, c), Rate(st, c), height - LastHeight(st, c))), 10000)
  }

  /** Time has passed at a rate. */
  predicate Bears(st: Store, c: string, height: u64) {
    height != LastHeight(st, c) && Rate(st, c) != 0
  }

  predicate CanAccrue(st: Store, c: string, height: u64) {
    && Readable(st, Slot(c, LendAccrueHeight)) && LastHeight(st, c) <= height
    && (Bears(st, c, height) ==>
          Readable(st, Slot(c, LendTotalDebt)) && DebtAt(st, c, height) <= U64_MAX)
  }

  /** The total debt with the interest due at a height. */
  function DebtAt(st: Store, c: string, height: u64): nat {
    if LastHeight(st, c) <= height && Bears(st, c, height) && AllDebt(st, c) > 0 then
      AllDebt(st, c) + Growth(st, c, height)
    else AllDebt(st, c)
  }

  function AccruedStore(st: Store, c: string, height: u64): Store
    requires CanAccrue(st, c, height)
  {
    var stamped := Put(st, Slot(c, LendAccrueHeight), height);
    if Bears(st, c, height) && AllDebt(st, c) > 0 then Put(stamped, Slot(c, LendTotalDebt), DebtAt(st, c, height))
    else stamped
  }

  /** The total debt is known: accrued just now, or readable. */
  predicate DebtKnown(st: Store, c: string, height: u64) {
    Bears(st, c, height) || Readable(st, Slot(c, LendTotalDebt))
  }

  // -------- cover --------

  /** Shares at a price, at a ratio, against a debt: as the contract computes it, on 128 bits. */
  predicate Healthy(shares: nat, debt: nat, ratio: nat, price: Price) {
    debt == 0 ||
    (price.den > 0 && U256.Quotient(shares * price.num, price.den) * ratio % TWO_128 >= debt * 10000)
  }

  function Least(a: nat, b: nat): nat {
    if a < b then a else b
  }

  /** What a liquidator gets for `pay`: a bonus of the distance between the two ratios, from what there is. */
  function Prize(st: Store, c: string, pay: nat): nat {
    var bonus := if Threshold(st, c) >= Factor(st, c) then Threshold(st, c) - Factor(st, c) else 0;
    U256.Quotient(pay * Wrap64(10000 + bonus), 10000)
  }

  // -------- acceptance --------

  predicate Admits(st: Store, env: Env, caller: string, c: string, call: Call) {
    && CanRecord(st, c) && Readable(st, Slot(c, LendInitialized))
    && if call.Configure? then
         && (Num(st, Slot(c, LendInitialized)) == 1 ==> IsSetUp(st, c))
         && call.collateralFactor <= call.threshold <= 10000 && call.interest <= 10000 && call.reserve <= 10000
       else
         IsSetUp(st, c) && CanAccrue(st, c, env.height) && AdmitsUser(st, env, caller, c, call)
  }

  predicate AdmitsUser(st: Store, env: Env, caller: string, c: string, call: Call)
    requires !call.Configure? && IsSetUp(st, c) && CanAccrue(st, c, env.height)
  {
    var me, vault, asset := AddressOf(caller), Vault(c), AssetOf(st, c).value;
    var grown := DebtAt(st, c, env.height);
    match call
    case AccrueInterest => true
    case Deposit(amount) =>
      && CanSend(st, asset, me, vault, amount)
      && Readable(st, Slot(c, LendShares(caller))) && Shares(st, c, caller) + amount <= U64_MAX
      && Readable(st, Slot(c, LendTotalShares)) && AllShares(st, c) + amount <= U64_MAX
    case Withdraw(shares) =>
      && CanSend(st, asset, vault, me, shares) && env.price.Some?
      && Readable(st, Slot(c, LendShares(caller))) && Readable(st, Slot(c, LendDebt(caller)))
      && shares <= Shares(st, c, caller)
      && Readable(st, Slot(c, LendTotalShares)) && shares <= AllShares(st, c)
      && Healthy(Shares(st, c, caller) - shares, Debt(st, c, caller), Factor(st, c), env.price.value)
    case Borrow(amount) =>
      && CanSend(st, asset, vault, me, amount) && env.price.Some?
      && Readable(st, Slot(c, LendShares(caller))) && Readable(st, Slot(c, LendDebt(caller)))
      && Debt(st, c, caller) + amount <= U64_MAX
      && DebtKnown(st, c, env.height) && grown + amount <= U64_MAX
      && Healthy(Shares(st, c, caller), Debt(st, c, caller) + amount, Factor(st, c), env.price.value)
    case Repay(amount) =>
      var pay := Least(amount, Debt(st, c, caller));
      && Readable(st, Slot(c, LendDebt(caller))) && CanSend(st, asset, me, vault, pay)
      && DebtKnown(st, c, env.height) && pay <= grown
    case Liquidate(victim, amount) =>
      var pay := Least(amount, Debt(st, c, victim));
      var got := Least(Prize(st, c, pay), Shares(st, c, victim));
      && env.price.Some? && Readable(st, Slot(c, LendShares(victim))) && Readable(st, Slot(c, LendDebt(victim)))
      && Shares(st, c, victim) > 0 && Debt(st, c, victim) > 0
      && !Healthy(Shares(st, c, victim), Debt(st, c, victim), Threshold(st, c), env.price.value)
      && 0 < Prize(st, c, pay) <= U64_MAX && CanSend(st, asset, me, vault, pay)
      && Readable(st, Slot(c, LendShares(caller))) && Shares(st, c, caller) + got <= U64_MAX
      && DebtKnown(st, c, env.height) && pay <= grown
  }

  // -------- effect --------

  function Result(st: Store, env: Env, caller: string, c: string, call: Call): Store
    requires Admits(st, env, caller, c, call)
  {
    var me := AddressOf(caller);
    if call.Configure? then
      var named := st[Slot(c, LendAsset) := Id(call.asset)];
      var ratios := Put(Put(named, Slot(c, LendCollateralFactor), call.collateralFactor),
                        Slot(c, LendLiquidationThreshold), call.threshold);
      var rates := Put(Put(ratios, Slot(c, LendInterestRate), call.interest), Slot(c, LendReserveFactor), call.reserve);
      var empty := Put(Put(Put(rates, Slot(c, LendInitialized), 1), Slot(c, LendTotalShares), 0),
                       Slot(c, LendTotalDebt), 0);
      Recorded(Put(empty, Slot(c, LendAccrueHeight), env.height), st, c,
               Event(1, me, [call.asset], [call.collateralFactor, call.threshold, call.interest, call.reserve]))
    else
      UserResult(st, env, caller, c, call)
  }

  function UserResult(st: Store, env: Env, caller: string, c: string, call: Call): Store
    requires !call.Configure? && Admits(st, env, caller, c, call)
  {
    var me, vault, asset := AddressOf(caller), Vault(c), AssetOf(st, c).value;
    var base, grown := AccruedStore(st, c, env.height), DebtAt(st, c, env.height);
    var mine, owe := Slot(c, LendShares(caller)), Slot(c, LendDebt(caller));
    match call
    case AccrueInterest => Recorded(base, st, c, Event(7, me, [], []))
    case Deposit(amount) =>
      var own := Put(Sent(base, st, asset, me, vault, amount), mine, Shares(st, c, caller) + amount);
      Recorded(Put(own, Slot(c, LendTotalShares), AllShares(st, c) + amount), st, c, Event(2, me, [], [amount]))
    case Withdraw(shares) =>
      var own := Put(Sent(base, st, asset, vault, me, shares), mine, Shares(st, c, caller) - shares);
      Recorded(Put(own, Slot(c, LendTotalShares), AllShares(st, c) - shares), st, c, Event(3, me, [], [shares]))
    case Borrow(amount) =>
      var own := Put(Sent(base, st, asset, vault, me, amount), owe, Debt(st, c, caller) + amount);
      Recorded(Put(own, Slot(c, LendTotalDebt), grown + amount), st, c, Event(4, me, [], [amount]))
    case Repay(amount) =>
      var pay := Least(amount, Debt(st, c, caller));
      var own := Put(Sent(base, st, asset, me, vault, pay), owe, Debt(st, c, caller) - pay);
      Recorded(Put(own, Slot(c, LendTotalDebt), grown - pay), st, c, Event(5, me, [], [pay]))
    case Liquidate(victim, amount) =>
      var pay := Least(amount, Debt(st, c, victim));
      var got := Least(Prize(st, c, pay), Shares(st, c, victim));
      var owed := Put(Put(Sent(base, st, asset, me, vault, pay), Slot(c, LendDebt(victim)), Debt(st, c, victim) - pay),
                      Slot(c, LendTotalDebt), grown - pay);
      Recorded(Put(Put(owed, Slot(c, LendShares(victim)), Shares(st, c, victim) - got), mine,
                   Shares(st, c, caller) + got), st, c, Event(6, me, [victim], [pay, got]))
  }

  // -------- the contract agrees --------

  /** A call is accepted exactly when admitted, and leaves exactly the result. */
  ghost predicate Agrees(st: Store, env: Env, caller: string, c: string, call: Call) {
    var out := Apply(st, env, caller, c, call);
    && (out.Some? <==> Admits(st, env, caller, c, call))
    && (out.Some? ==> ApplyAll(st, out.value) == Result(st, env, caller, c, call))
  }

  lemma ReadCfgIs(st: Store, c: string)
    ensures ReadCfg(st, c) ==
      if IsSetUp(st, c) then Some(Cfg(AssetOf(st, c).value, Factor(st, c), Threshold(st, c), Rate(st, c))) else None
  {
  }

  lemma AccrueIs(st: Store, c: string, height: u64)
    requires IsSetUp(st, c)
    ensures var acc := Accrue(st, c, ReadCfg(st, c).value, height);
      && (acc.Some? <==> CanAccrue(st, c, height))
      && (acc.Some? ==> ApplyAll(st, acc.value.changes) == AccruedStore(st, c, height))
      && (acc.Some? ==> DebtNow(st, c, acc.value) ==
                          if DebtKnown(st, c, height) then Some(DebtAt(st, c, height)) else None)
  {
    hide U256.Quotient, Wrap128, ApplyAll;
    ReadCfgIs(st, c);
    hide ReadCfg;
    var acc := Accrue(st, c, ReadCfg(st, c).value, height);
    if acc.Some? {
      var changes := acc.value.changes;
      One(st, changes[0]);
      if |changes| == 2 {
        assert changes == [changes[0], changes[1]];
        Two(st, changes[0], changes[1]);
      }
    }
  }

  lemma HealthyIs(shares: nat, debt: nat, ratio: nat, price: Price)
    ensures HealthOk(shares, debt, ratio, price) == Healthy(shares, debt, ratio, price)
  {
  }

  /** Interest, a transfer, two numbers and an event. */
  lemma UserStages(st: Store, c: string, height: u64, from: Address, to: Address, amount: u64, a: Change, b: Change,
                   event: Value)
    requires IsSetUp(st, c) && CanAccrue(st, c, height) && CanSend(st, AssetOf(st, c).value, from, to, amount)
    requires CanRecord(st, c) && a.value.Word? && b.value.Word?
    ensures ReadCfg(st, c).Some?
    ensures var asset := AssetOf(st, c).value;
      && Accrue(st, c, ReadCfg(st, c).value, height).Some? && TransferChanges(st, asset, from, to, amount).Some?
      && EventChanges(st, c, event).Some?
      && ApplyAll(st, Accrue(st, c, ReadCfg(st, c).value, height).value.changes
                      + TransferChanges(st, asset, from, to, amount).value + [a, b] + EventChanges(st, c, event).value)
           == Recorded(Put(Put(Sent(AccruedStore(st, c, height), st, asset, from, to, amount), a.slot, a.value.n),
                           b.slot, b.value.n), st, c, event)
  {
    hide ApplyAll, Accrue, EventChanges, TransferChanges, CanSend, Sent, CanAccrue, AccruedStore, ReadCfg;
    ReadCfgIs(st, c);
    var asset := AssetOf(st, c).value;
    AccrueIs(st, c, height);
    var base := AccruedStore(st, c, height);
    TransferIsSent(base, st, asset, from, to, amount);
    var paid := Sent(base, st, asset, from, to, amount);
    EventIsRecorded(st, st, c, event);
    Stages(st, Accrue(st, c, ReadCfg(st, c).value, height).value.changes,
           TransferChanges(st, asset, from, to, amount).value, [a, b], EventChanges(st, c, event).value);
    Two(paid, a, b);
    EventIsRecorded(paid[a.slot := a.value][b.slot := b.value], st, c, event);
  }

  lemma ConfigureAgrees(st: Store, env: Env, caller: string, c: string, call: Call)
    requires call.Configure?
    ensures Agrees(st, env, caller, c, call)
  {
    hide ApplyAll, EventChanges;
    ReadCfgIs(st, c);
    hide ReadCfg;
    var event := Event(1, AddressOf(caller), [call.asset],
                       [call.collateralFactor, call.threshold, call.interest, call.reserve]);
    EventIsRecorded(st, st, c, event);
    if Admits(st, env, caller, c, call) {
      var a := [Change(Slot(c, LendAsset), Id(call.asset)),
                Change(Slot(c, LendCollateralFactor), Word(call.collateralFactor)),
                Change(Slot(c, LendLiquidationThreshold), Word(call.threshold)),
                Change(Slot(c, LendInterestRate), Word(call.interest))];
      var b := [Change(Slot(c, LendReserveFactor), Word(call.reserve)), Change(Slot(c, LendInitialized), Word(1)),
                Change(Slot(c, LendTotalShares), Word(0)), Change(Slot(c, LendTotalDebt), Word(0))];
      var d := [Change(Slot(c, LendAccrueHeight), Word(env.height))];
      var e := EventChanges(st, c, event).value;
      assert Apply(st, env, caller, c, call).value == a + b + d + e;
      Stages(st, a, b, d, e);
      Four(st, a[0], a[1], a[2], a[3]);
      Four(ApplyAll(st, a), b[0], b[1], b[2], b[3]);
      One(ApplyAll(ApplyAll(st, a), b), d[0]);
      EventIsRecorded(ApplyAll(ApplyAll(ApplyAll(st, a), b), d), st, c, event);
    }
  }

  lemma AccrueAgrees(st: Store, env: Env, caller: string, c: string)
    ensures Agrees(st, env, caller, c, AccrueInterest)
  {
    hide ApplyAll, Accrue, EventChanges, CanAccrue, AccruedStore;
    ReadCfgIs(st, c);
    hide ReadCfg;
    var event := Event(7, AddressOf(caller), [], []);
    EventIsRecorded(st, st, c, event);
    if IsSetUp(st, c) {
      AccrueIs(st, c, env.height);
      if Admits(st, env, caller, c, AccrueInterest) {
        ApplyConcat(st, Accrue(st, c, ReadCfg(st, c).value, env.height).value.changes,
                    EventChanges(st, c, event).value);
        EventIsRecorded(AccruedStore(st, c, env.height), st, c, event);
      }
    }
  }

  lemma DepositAgrees(st: Store, env: Env, caller: string, c: string, amount: u64)
    ensures Agrees(st, env, caller, c, Deposit(amount))
  {
    hide ApplyAll, Accrue, EventChanges, TransferChanges, CanSend, Sent, Recorded, CanAccrue, AccruedStore;
    ReadCfgIs(st, c);
    hide ReadCfg;
    if IsSetUp(st, c) {
      AccrueIs(st, c, env.height);
      var me, vault, asset := AddressOf(caller), Vault(c), AssetOf(st, c).value;
      var event := Event(2, me, [], [amount]);
      EventIsRecorded(st, st, c, event);
      TransferIsSent(st, st, asset, me, vault, amount);
      if Admits(st, env, caller, c, Deposit(amount)) {
        UserStages(st, c, env.height, me, vault, amount,
                   Change(Slot(c, LendShares(caller)), Word(Shares(st, c, caller) + amount)),
                   Change(Slot(c, LendTotalShares), Word(AllShares(st, c) + amount)), event);
      }
    }
  }

  lemma WithdrawAgrees(st: Store, env: Env, caller: string, c: string, shares: u64)
    ensures Agrees(st, env, caller, c, Withdraw(shares))
  {
    hide ApplyAll, Accrue, EventChanges, TransferChanges, CanSend, Sent, Recorded, CanAccrue, AccruedStore, HealthOk,
      Healthy;
    ReadCfgIs(st, c);
    hide ReadCfg;
    if IsSetUp(st, c) {
      AccrueIs(st, c, env.height);
      var me, vault, asset := AddressOf(caller), Vault(c), AssetOf(st, c).value;
      var event := Event(3, me, [], [shares]);
      EventIsRecorded(st, st, c, event);
      TransferIsSent(st, st, asset, vault, me, shares);
      if env.price.Some? && shares <= Shares(st, c, caller) {
        HealthyIs(Shares(st, c, caller) - shares, Debt(st, c, caller), Factor(st, c), env.price.value);
      }
      if Admits(st, env, caller, c, Withdraw(shares)) {
        UserStages(st, c, env.height, vault, me, shares,
                   Change(Slot(c, LendShares(caller)), Word(Shares(st, c, caller) - shares)),
                   Change(Slot(c, LendTotalShares), Word(AllShares(st, c) - shares)), event);
      }
    }
  }

  lemma BorrowAgrees(st: Store, env: Env, caller: string, c: string, amount: u64)
    ensures Agrees(st, env, caller, c, Borrow(amount))
  {
    hide ApplyAll, Accrue, EventChanges, TransferChanges, CanSend, Sent, Recorded, CanAccrue, AccruedStore, HealthOk,
      Healthy, DebtNow, DebtAt, DebtKnown;
    ReadCfgIs(st, c);
    hide ReadCfg;
    if IsSetUp(st, c) {
      AccrueIs(st, c, env.height);
      var me, vault, asset := AddressOf(caller), Vault(c), AssetOf(st, c).value;
      var event := Event(4, me, [], [amount]);
      EventIsRecorded(st, st, c, event);
      TransferIsSent(st, st, asset, vault, me, amount);
      if env.price.Some? {
        HealthyIs(Shares(st, c, caller), Debt(st, c, caller) + amount, Factor(st, c), env.price.value);
      }
      if Admits(st, env, caller, c, Borrow(amount)) {
        UserStages(st, c, env.height, vault, me, amount,
                   Change(Slot(c, LendDebt(caller)), Word(Debt(st, c, caller) + amount)),
                   Change(Slot(c, LendTotalDebt), Word(DebtAt(st, c, env.height) + amount)), event);
      }
    }
  }

  lemma RepayAgrees(st: Store, env: Env, caller: string, c: string, amount: u64)
    ensures Agrees(st, env, caller, c, Repay(amount))
  {
    hide ApplyAll, Accrue, EventChanges, TransferChanges, CanSend, Sent, Recorded, CanAccrue, AccruedStore, DebtNow,
      DebtAt, DebtKnown;
    ReadCfgIs(st, c);
    hide ReadCfg;
    if IsSetUp(st, c) {
      AccrueIs(st, c, env.height);
      var me, vault, asset := AddressOf(caller), Vault(c), AssetOf(st, c).value;
      var pay := Min(amount, Debt(st, c, caller));
      assert pay == Least(amount, Debt(st, c, caller));
      var event := Event(5, me, [], [pay]);
      EventIsRecorded(st, st, c, event);
      TransferIsSent(st, st, asset, me, vault, pay);
      if Admits(st, env, caller, c, Repay(amount)) {
        UserStages(st, c, env.height, me, vault, pay,
                   Change(Slot(c, LendDebt(caller)), Word(Debt(st, c, caller) - pay)),
                   Change(Slot(c, LendTotalDebt), Word(DebtAt(st, c, env.height) - pay)), event);
      }
    }
  }

  lemma PrizeIs(st: Store, c: string, pay: nat, available: u64)
    requires IsSetUp(st, c)
    ensures var got, cfg := Prize(st, c, pay), ReadCfg(st, c);
      cfg.Some? && Seized(cfg.value, pay, available) ==
        if 0 < got <= U64_MAX then Some(Least(got, available)) else None
  {
    hide U256.Quotient, Wrap64;
  }

  /** Interest, a transfer, four numbers and an event. */
  lemma SeizureStages(st: Store, c: string, height: u64, from: Address, to: Address, amount: u64, x: seq<Change>,
                      event: Value)
    requires IsSetUp(st, c) && CanAccrue(st, c, height) && CanSend(st, AssetOf(st, c).value, from, to, amount)
    requires CanRecord(st, c) && |x| == 4
    ensures ReadCfg(st, c).Some?
    ensures var asset := AssetOf(st, c).value;
      && Accrue(st, c, ReadCfg(st, c).value, height).Some? && TransferChanges(st, asset, from, to, amount).Some?
      && EventChanges(st, c, event).Some?
      && var paid := Sent(AccruedStore(st, c, height), st, asset, from, to, amount);
         ApplyAll(st, Accrue(st, c, ReadCfg(st, c).value, height).value.changes
                      + TransferChanges(st, asset, from, to, amount).value + x + EventChanges(st, c, event).value)
           == Recorded(paid[x[0].slot := x[0].value][x[1].slot := x[1].value][x[2].slot := x[2].value]
                           [x[3].slot := x[3].value], st, c, event)
  {
    hide ApplyAll, Accrue, EventChanges, TransferChanges, CanSend, Sent, Recorded, CanAccrue, AccruedStore, ReadCfg;
    ReadCfgIs(st, c);
    var asset := AssetOf(st, c).value;
    AccrueIs(st, c, height);
    var base := AccruedStore(st, c, height);
    TransferIsSent(base, st, asset, from, to, amount);
    var paid := Sent(base, st, asset, from, to, amount);
    EventIsRecorded(st, st, c, event);
    Stages(st, Accrue(st, c, ReadCfg(st, c).value, height).value.changes,
           TransferChanges(st, asset, from, to, amount).value, x, EventChanges(st, c, event).value);
    assert x == [x[0], x[1], x[2], x[3]];
    Four(paid, x[0], x[1], x[2], x[3]);
    EventIsRecorded(ApplyAll(paid, x), st, c, event);
  }

  lemma LiquidateAgrees(st: Store, env: Env, caller: string, c: string, victim: string, amount: u64)
    ensures Agrees(st, env, caller, c, Liquidate(victim, amount))
  {
    hide ApplyAll, Accrue, EventChanges, TransferChanges, CanSend, Sent, Recorded, CanAccrue, AccruedStore, HealthOk,
      Healthy, DebtNow, DebtAt, DebtKnown, Seized, Prize;
    ReadCfgIs(st, c);
    if IsSetUp(st, c) {
      var me, vault, asset := AddressOf(caller), Vault(c), AssetOf(st, c).value;
      var vShares, pay := Shares(st, c, victim), Min(amount, Debt(st, c, victim));
      assert pay == Least(amount, Debt(st, c, victim));
      hide ReadCfg;
      AccrueIs(st, c, env.height);
      PrizeIs(st, c, pay, vShares);
      TransferIsSent(st, st, asset, me, vault, pay);
      NothingSent(st, asset, me, vault);
      var got := Least(Prize(st, c, pay), vShares);
      var event := Event(6, me, [victim], [pay, got]);
      EventIsRecorded(st, st, c, event);
      if env.price.Some? {
        HealthyIs(vShares, Debt(st, c, victim), Threshold(st, c), env.price.value);
      }
      if Admits(st, env, caller, c, Liquidate(victim, amount)) {
        var debt, all := Debt(st, c, victim) - pay, DebtAt(st, c, env.height) - pay;
        var moved := [Change(Slot(c, LendShares(victim)), Word(vShares - got)),
                      Change(Slot(c, LendShares(caller)), Word(Shares(st, c, caller) + got))];
        var x := DebtChanges(c, victim, debt, all) + moved;
        assert x[0] == Change(Slot(c, LendDebt(victim)), Word(debt));
        assert x[1] == Change(Slot(c, LendTotalDebt), Word(all));
        SeizureStages(st, c, env.height, me, vault, pay, x, event);
      }
    }
  }

  /** Every call, on any storage, at any height and price: when it is accepted, and the whole storage it leaves. */
  lemma CallAgrees(st: Store, env: Env, caller: string, c: string, call: Call)
    ensures Agrees(st, env, caller, c, call)
  {
    hide Agrees;
    match call
    case Configure(_, _, _, _, _) => ConfigureAgrees(st, env, caller, c, call);
    case AccrueInterest => AccrueAgrees(st, env, caller, c);
    case Deposit(amount) => DepositAgrees(st, env, caller, c, amount);
    case Withdraw(shares) => WithdrawAgrees(st, env, caller, c, shares);
    case Borrow(amount) => BorrowAgrees(st, env, caller, c, amount);
    case Repay(amount) => RepayAgrees(st, env, caller, c, amount);
    case Liquidate(victim, amount) => LiquidateAgrees(st, env, caller, c, victim, amount);
  }
}
