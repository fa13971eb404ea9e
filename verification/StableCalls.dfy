/** When each call of the stablecoin is accepted and what it leaves, told over the numbers in its slots. */
module StableCalls {
  import opened Common
  import opened ContractStore
  import opened Ledger
  import opened Stable
  import U256
  import Executor
  import StableTheorems

  function Setting(st: Store, c: string, name: ParamName): u64 { Num(st, At(c, Param(name))) }
  function FeedOf(st: Store, c: string): Option<string> { ReadId(st, At(c, Feed)) }
  function Collat(st: Store, c: string, user: string): u64 { Num(st, At(c, Held(Collateral, user))) }
  function Owes(st: Store, c: string, user: string): u64 { Num(st, At(c, Held(Debt, user))) }
  function Coins(st: Store, c: string, user: string): u64 { Num(st, At(c, Held(Coin, user))) }
  function AllCollateral(st: Store, c: string): u64 { Num(st, At(c, TotalCollateral)) }
  function AllDebt(st: Store, c: string): u64 { Num(st, At(c, TotalDebt)) }

  predicate Legible(st: Store, c: string, field: StableField) {
    Readable(st, At(c, field))
  }

  /** The mark is set, the feed is named and the seven numbers can be read. */
  predicate IsSetUp(st: Store, c: string) {
    && Setting(st, c, ParamsSet) == 1 && FeedOf(st, c).Some?
    && Legible(st, c, Param(CollateralRatio)) && Legible(st, c, Param(LiquidationRatio))
    && Legible(st, c, Param(Penalty)) && Legible(st, c, Param(DebtCeiling)) && Legible(st, c, Param(MinDeposit))
    && Legible(st, c, Param(MinMint)) && Legible(st, c, Param(Staleness))
  }

  // -------- prices --------

  /** The feed has a point that is not of the future, not too old, and has a denominator. */
  predicate IsPriced(st: Store, env: Env, c: string) {
    && FeedOf(st, c).Some? && FeedOf(st, c).value in env.latest
    && var point := env.latest[FeedOf(st, c).value];
       point.height <= env.height <= point.height + Setting(st, c, Staleness) && point.den > 0
  }

  function PointOf(st: Store, env: Env, c: string): Point
    requires IsPriced(st, env, c)
  {
    env.latest[FeedOf(st, c).value]
  }

  /** Collateral at a price, against a debt at a ratio: as the contract computes it, on 128 bits. */
  predicate Healthy(collateral: nat, debt: nat, ratio: nat, point: Point) {
    debt == 0 ||
    (point.den > 0 && U256.Quotient(collateral * point.num, point.den) * 10000 % TWO_128 >= debt * ratio)
  }

  /** The collateral worth `burned` coins, rounded up, and the penalty on top, as the contract computes it. */
  function Quote(st: Store, c: string, burned: nat, point: Point): nat
    requires point.num > 0
  {
    var base := U256.Quotient(burned * point.den + point.num - 1, point.num);
    U256.Quotient(base * ((10000 + Setting(st, c, Penalty)) % (U64_MAX + 1)) % TWO_128, 10000)
  }

  function Least(a: nat, b: nat): nat {
    if a < b then a else b
  }

  // -------- native balance --------

  function Native(accounts: Executor.Accounts, id: string): Executor.Account {
    if id in accounts then accounts[id] else Executor.Account(0, 0)
  }

  predicate CanPay(accounts: Executor.Accounts, from: string, to: string, amount: nat) {
    from in accounts && amount <= accounts[from].balance && Native(accounts, to).balance + amount <= U64_MAX
  }

  /** Both balances are read before, and the receiver's is written last. */
  function Paid(accounts: Executor.Accounts, from: string, to: string, amount: nat): Executor.Accounts
    requires CanPay(accounts, from, to, amount)
  {
    var payer, payee := accounts[from], Native(accounts, to);
    accounts[from := payer.(balance := payer.balance - amount)][to := payee.(balance := payee.balance + amount)]
  }

  // -------- acceptance --------

  predicate Admits(w: World, env: Env, caller: string, c: string, call: Call) {
    var st := w.store;
    && CanRecord(st, c) && Legible(st, c, Param(ParamsSet))
    && if call.RegisterParams? then
         && (Setting(st, c, ParamsSet) == 1 ==> IsSetUp(st, c)) && ReadId(st, At(c, Owner)) == Some(caller)
         && 10000 <= call.params.liquidationRatio <= call.params.collateralRatio && call.params.penalty <= 20000
       else
         IsSetUp(st, c) && AdmitsUser(w, env, caller, c, call)
  }

  predicate AdmitsUser(w: World, env: Env, caller: string, c: string, call: Call)
    requires !call.RegisterParams?
  {
    var st, vault := w.store, VaultId(c);
    match call
    case Deposit(amount) =>
      && 0 < amount && Setting(st, c, MinDeposit) <= amount && CanPay(w.accounts, caller, vault, amount)
      && Legible(st, c, Held(Collateral, caller)) && Collat(st, c, caller) + amount <= U64_MAX
      && Legible(st, c, TotalCollateral) && AllCollateral(st, c) + amount <= U64_MAX
    case Withdraw(amount) =>
      && 0 < amount <= Collat(st, c, caller) && amount <= AllCollateral(st, c) && IsPriced(st, env, c)
      && Legible(st, c, Held(Debt, caller))
      && Healthy(Collat(st, c, caller) - amount, Owes(st, c, caller), Setting(st, c, CollateralRatio),
                 PointOf(st, env, c))
      && caller in w.accounts && CanPay(w.accounts, vault, caller, amount)
    case Mint(amount) =>
      && 0 < amount && Setting(st, c, MinMint) <= amount && IsPriced(st, env, c)
      && Legible(st, c, Held(Collateral, caller)) && Legible(st, c, Held(Debt, caller))
      && Legible(st, c, TotalDebt) && Legible(st, c, Held(Coin, caller))
      && Owes(st, c, caller) + amount <= U64_MAX && Coins(st, c, caller) + amount <= U64_MAX
      && AllDebt(st, c) + amount <= U64_MAX && AllDebt(st, c) + amount <= Setting(st, c, DebtCeiling)
      && Healthy(Collat(st, c, caller), Owes(st, c, caller) + amount, Setting(st, c, CollateralRatio),
                 PointOf(st, env, c))
    case Burn(amount) =>
      && 0 < amount <= Coins(st, c, caller) && amount <= Owes(st, c, caller) && amount <= AllDebt(st, c)
    case Liquidate(target, amount) =>
      var burned := Least(amount, Owes(st, c, target));
      && Seizable(st, env, caller, c, target, amount) && PointOf(st, env, c).num > 0
      && var quote := Quote(st, c, burned, PointOf(st, env, c));
         var reward := Least(quote, Collat(st, c, target));
         && quote <= U64_MAX && 0 < reward <= AllCollateral(st, c)
         && caller in w.accounts && CanPay(w.accounts, vault, caller, reward)
  }

  /** A weak position, and a caller with the coins: what is left to ask is the price. */
  predicate Seizable(st: Store, env: Env, caller: string, c: string, target: string, amount: u64) {
    var burned := Least(amount, Owes(st, c, target));
    && 0 < burned <= Coins(st, c, caller) && burned <= AllDebt(st, c) && IsPriced(st, env, c)
    && Legible(st, c, Held(Collateral, target))
    && !Healthy(Collat(st, c, target), Owes(st, c, target), Setting(st, c, LiquidationRatio), PointOf(st, env, c))
  }

  // -------- effect --------

  function Result(w: World, env: Env, caller: string, c: string, call: Call): World
    requires Admits(w, env, caller, c, call)
  {
    if call.RegisterParams? then World(Registered(w.store, caller, c, call.params), w.accounts)
    else UserResult(w, env, caller, c, call)
  }

  function Registered(st: Store, caller: string, c: string, p: Params): Store
    requires CanRecord(st, c)
  {
    var ratios := Put(Put(st, At(c, Param(CollateralRatio)), p.collateralRatio),
                      At(c, Param(LiquidationRatio)), p.liquidationRatio);
    var limits := Put(Put(ratios, At(c, Param(Penalty)), p.penalty), At(c, Param(DebtCeiling)), p.debtCeiling);
    var least := Put(Put(limits, At(c, Param(MinDeposit)), p.minDeposit), At(c, Param(MinMint)), p.minMint);
    var fed := Put(least, At(c, Param(Staleness)), p.staleness)[At(c, Feed) := Id(p.feed)];
    Recorded(Put(fed, At(c, Param(ParamsSet)), 1), st, c,
             Event(0x10, AddressOf(caller), [p.feed],
                   [p.collateralRatio, p.liquidationRatio, p.penalty, p.debtCeiling, p.minDeposit, p.minMint,
                    p.staleness]))
  }

  function UserResult(w: World, env: Env, caller: string, c: string, call: Call): World
    requires !call.RegisterParams? && Admits(w, env, caller, c, call)
  {
    var st, me, vault := w.store, AddressOf(caller), VaultId(c);
    match call
    case Deposit(amount) =>
      var own := Put(st, At(c, Held(Collateral, caller)), Collat(st, c, caller) + amount);
      World(Recorded(Put(own, At(c, TotalCollateral), AllCollateral(st, c) + amount), st, c,
                     Event(0x11, me, [], [amount])),
            Paid(w.accounts, caller, vault, amount))
    case Withdraw(amount) =>
      var noted := Put(st, At(c, OracleHeight), PointOf(st, env, c).height);
      var own := Put(noted, At(c, Held(Collateral, caller)), Collat(st, c, caller) - amount);
      World(Recorded(Put(own, At(c, TotalCollateral), AllCollateral(st, c) - amount), st, c,
                     Event(0x12, me, [], [amount])),
            Paid(w.accounts, vault, caller, amount))
    case Mint(amount) =>
      var noted := Put(st, At(c, OracleHeight), PointOf(st, env, c).height);
      var owed := Put(Put(noted, At(c, Held(Debt, caller)), Owes(st, c, caller) + amount),
                      At(c, TotalDebt), AllDebt(st, c) + amount);
      World(Recorded(Put(owed, At(c, Held(Coin, caller)), Coins(st, c, caller) + amount), st, c,
                     Event(0x13, me, [], [amount])), w.accounts)
    case Burn(amount) =>
      var spent := Put(st, At(c, Held(Coin, caller)), Coins(st, c, caller) - amount);
      var owed := Put(Put(spent, At(c, Held(Debt, caller)), Owes(st, c, caller) - amount),
                      At(c, TotalDebt), AllDebt(st, c) - amount);
      World(Recorded(owed, st, c, Event(0x14, me, [], [amount])), w.accounts)
    case Liquidate(target, amount) =>
      var burned := Least(amount, Owes(st, c, target));
      var reward := Least(Quote(st, c, burned, PointOf(st, env, c)), Collat(st, c, target));
      var noted := Put(st, At(c, OracleHeight), PointOf(st, env, c).height);
      var spent := Put(noted, At(c, Held(Coin, caller)), Coins(st, c, caller) - burned);
      var owed := Put(Put(spent, At(c, Held(Debt, target)), Owes(st, c, target) - burned),
                      At(c, TotalDebt), AllDebt(st, c) - burned);
      var own := Put(owed, At(c, Held(Collateral, target)), Collat(st, c, target) - reward);
      World(Recorded(Put(own, At(c, TotalCollateral), AllCollateral(st, c) - reward), st, c,
                     Event(0x15, me, [target], [burned, reward])),
            Paid(w.accounts, vault, caller, reward))
  }

  // -------- the contract agrees --------

  /** A call is accepted exactly when admitted, and leaves exactly the result. */
  ghost predicate Agrees(w: World, env: Env, caller: string, c: string, call: Call) {
    var out := Apply(w, env, caller, c, call);
    && (out.Done? <==> Admits(w, env, caller, c, call))
    && (out.Done? ==> After(w, out) == Result(w, env, caller, c, call))
  }

  lemma ReadParamsIs(st: Store, c: string)
    ensures ReadParams(st, c) ==
      if IsSetUp(st, c) then
        Some(Params(Setting(st, c, CollateralRatio), Setting(st, c, LiquidationRatio), Setting(st, c, Penalty),
                    Setting(st, c, DebtCeiling), Setting(st, c, MinDeposit), Setting(st, c, MinMint),
                    Setting(st, c, Staleness), FeedOf(st, c).value))
      else None
  {
  }

  lemma PriceIs(st: Store, env: Env, c: string)
    requires IsSetUp(st, c)
    ensures ReadParams(st, c).Some?
    ensures PriceOf(env, ReadParams(st, c).value) == if IsPriced(st, env, c) then Some(PointOf(st, env, c)) else None
  {
    ReadParamsIs(st, c);
    hide ReadParams;
  }

  lemma HealthyIs(collateral: nat, debt: nat, ratio: nat, point: Point)
    ensures Collateralised(collateral, debt, ratio, point) == Healthy(collateral, debt, ratio, point)
  {
  }

  lemma PayInIs(w: World, caller: string, c: string, amount: u64, storage: seq<Change>)
    ensures PayIn(w.accounts, caller, c, amount).Some? <==> CanPay(w.accounts, caller, VaultId(c), amount)
    ensures CanPay(w.accounts, caller, VaultId(c), amount) ==>
      After(w, Done(PayIn(w.accounts, caller, c, amount).value, storage)).accounts ==
        Paid(w.accounts, caller, VaultId(c), amount)
  {
    hide ApplyAll, Executor.ApplyChanges, VaultId;
    if CanPay(w.accounts, caller, VaultId(c), amount) {
      var changes := PayIn(w.accounts, caller, c, amount).value;
      StableTheorems.TwoAccounts(w.accounts, changes[0], changes[1]);
    }
  }

  lemma PayOutIs(w: World, caller: string, c: string, amount: u64, storage: seq<Change>)
    ensures PayOut(w.accounts, caller, c, amount).Some? <==>
      caller in w.accounts && CanPay(w.accounts, VaultId(c), caller, amount)
    ensures PayOut(w.accounts, caller, c, amount).Some? ==>
      After(w, Done(PayOut(w.accounts, caller, c, amount).value, storage)).accounts ==
        Paid(w.accounts, VaultId(c), caller, amount)
  {
    hide ApplyAll, Executor.ApplyChanges, VaultId;
    if PayOut(w.accounts, caller, c, amount).Some? {
      var changes := PayOut(w.accounts, caller, c, amount).value;
      StableTheorems.TwoAccounts(w.accounts, changes[0], changes[1]);
    }
  }

  /** A note, the numbers and an event. */
  lemma ThreeStages(st: Store, note: seq<Change>, main: seq<Change>, event: Value, c: string)
    requires CanRecord(st, c)
    ensures EventChanges(st, c, event).Some?
    ensures ApplyAll(st, note + main + EventChanges(st, c, event).value) ==
      Recorded(ApplyAll(ApplyAll(st, note), main), st, c, event)
  {
    hide ApplyAll, EventChanges, Recorded;
    EventIsRecorded(ApplyAll(ApplyAll(st, note), main), st, c, event);
    ApplyConcat(st, note + main, EventChanges(st, c, event).value);
    ApplyConcat(st, note, main);
  }

  lemma NineWritten(st: Store, x: seq<Change>)
    requires |x| == 9
    ensures ApplyAll(st, x) ==
      st[x[0].slot := x[0].value][x[1].slot := x[1].value][x[2].slot := x[2].value][x[3].slot := x[3].value]
        [x[4].slot := x[4].value][x[5].slot := x[5].value][x[6].slot := x[6].value][x[7].slot := x[7].value]
        [x[8].slot := x[8].value]
  {
    hide ApplyAll;
    assert x == x[..4] + x[4..8] + [x[8]];
    ApplyConcat(st, x[..4] + x[4..8], [x[8]]);
    ApplyConcat(st, x[..4], x[4..8]);
    assert x[..4] == [x[0], x[1], x[2], x[3]] && x[4..8] == [x[4], x[5], x[6], x[7]];
    Four(st, x[0], x[1], x[2], x[3]);
    Four(ApplyAll(st, x[..4]), x[4], x[5], x[6], x[7]);
    One(ApplyAll(ApplyAll(st, x[..4]), x[4..8]), x[8]);
  }

  lemma RegisterAgrees(w: World, env: Env, caller: string, c: string, p: Params)
    ensures Agrees(w, env, caller, c, RegisterParams(p))
  {
    hide ApplyAll, EventChanges;
    ReadParamsIs(w.store, c);
    hide ReadParams;
    var st, event := w.store, RegisterEvent(caller, p);
    EventIsRecorded(st, st, c, event);
    if Admits(w, env, caller, c, RegisterParams(p)) {
      ThreeStages(st, [], ParamChanges(c, p), event, c);
      assert [] + ParamChanges(c, p) == ParamChanges(c, p);
      NineWritten(st, ParamChanges(c, p));
      Nothing(st);
      StableTheorems.NothingPaid(w.accounts);
    }
  }

  lemma Nothing(st: Store)
    ensures ApplyAll(st, []) == st
  {
  }

  lemma CollateralPut(st: Store, c: string, user: string, have: u64, total: u64)
    ensures ApplyAll(st, CollateralChanges(c, user, have, total)) ==
      Put(Put(st, At(c, Held(Collateral, user)), have), At(c, TotalCollateral), total)
  {
    hide ApplyAll;
    Two(st, CollateralChanges(c, user, have, total)[0], CollateralChanges(c, user, have, total)[1]);
  }

  lemma MintPut(st: Store, c: string, user: string, debt: u64, total: u64, coins: u64)
    ensures ApplyAll(st, MintChanges(c, user, debt, total, coins)) ==
      Put(Put(Put(st, At(c, Held(Debt, user)), debt), At(c, TotalDebt), total), At(c, Held(Coin, user)), coins)
  {
    hide ApplyAll;
    var x := MintChanges(c, user, debt, total, coins);
    StableTheorems.Three(st, x[0], x[1], x[2]);
  }

  lemma BurnPut(st: Store, c: string, payer: string, coins: u64, debtor: string, debt: u64, total: u64)
    ensures ApplyAll(st, BurnChanges(c, payer, coins, debtor, debt, total)) ==
      Put(Put(Put(st, At(c, Held(Coin, payer)), coins), At(c, Held(Debt, debtor)), debt), At(c, TotalDebt), total)
  {
    hide ApplyAll;
    var x := BurnChanges(c, payer, coins, debtor, debt, total);
    StableTheorems.Three(st, x[0], x[1], x[2]);
  }

  lemma NotePut(st: Store, c: string, point: Point)
    requires point.height <= U64_MAX
    ensures ApplyAll(st, Noted(c, point)) == Put(st, At(c, OracleHeight), point.height)
  {
    hide ApplyAll;
    One(st, Noted(c, point)[0]);
  }

  lemma DepositAgrees(w: World, env: Env, caller: string, c: string, amount: u64)
    ensures Agrees(w, env, caller, c, Deposit(amount))
  {
    hide ApplyAll, EventChanges, Recorded, Put, PayIn, CanPay, Paid, VaultId, Executor.ApplyChanges;
    var st, out := w.store, Apply(w, env, caller, c, Deposit(amount));
    ReadParamsIs(st, c);
    hide ReadParams;
    if IsSetUp(st, c) {
      var event := Event(0x11, AddressOf(caller), [], [amount]);
      EventIsRecorded(st, st, c, event);
      PayInIs(w, caller, c, amount, if out.Done? then out.storage else []);
      if Admits(w, env, caller, c, Deposit(amount)) {
        var have, all := Collat(st, c, caller) + amount, AllCollateral(st, c) + amount;
        ThreeStages(st, [], CollateralChanges(c, caller, have, all), event, c);
        assert [] + CollateralChanges(c, caller, have, all) == CollateralChanges(c, caller, have, all);
        Nothing(st);
        CollateralPut(st, c, caller, have, all);
      }
    }
  }

  lemma WithdrawAgrees(w: World, env: Env, caller: string, c: string, amount: u64)
    ensures Agrees(w, env, caller, c, Withdraw(amount))
  {
    hide ApplyAll, EventChanges, Recorded, Put, PayOut, CanPay, Paid, VaultId, Executor.ApplyChanges, Collateralised,
      Healthy, PriceOf,
      IsPriced, PointOf;
    var st, out := w.store, Apply(w, env, caller, c, Withdraw(amount));
    ReadParamsIs(st, c);
    hide ReadParams;
    if IsSetUp(st, c) {
      var event := Event(0x12, AddressOf(caller), [], [amount]);
      EventIsRecorded(st, st, c, event);
      PriceIs(st, env, c);
      PayOutIs(w, caller, c, amount, if out.Done? then out.storage else []);
      if IsPriced(st, env, c) && amount <= Collat(st, c, caller) {
        var point := PointOf(st, env, c);
        HealthyIs(Collat(st, c, caller) - amount, Owes(st, c, caller), Setting(st, c, CollateralRatio), point);
        if Admits(w, env, caller, c, Withdraw(amount)) {
          var have, all := Collat(st, c, caller) - amount, AllCollateral(st, c) - amount;
          ThreeStages(st, Noted(c, point), CollateralChanges(c, caller, have, all), event, c);
          NotePut(st, c, point);
          CollateralPut(Put(st, At(c, OracleHeight), point.height), c, caller, have, all);
        }
      }
    }
  }

  lemma MintAgrees(w: World, env: Env, caller: string, c: string, amount: u64)
    ensures Agrees(w, env, caller, c, Mint(amount))
  {
    hide ApplyAll, EventChanges, Recorded, Put, Executor.ApplyChanges, Collateralised, Healthy, PriceOf, IsPriced,
      PointOf;
    var st, out := w.store, Apply(w, env, caller, c, Mint(amount));
    ReadParamsIs(st, c);
    hide ReadParams;
    if IsSetUp(st, c) {
      var event := Event(0x13, AddressOf(caller), [], [amount]);
      EventIsRecorded(st, st, c, event);
      PriceIs(st, env, c);
      if IsPriced(st, env, c) {
        var point := PointOf(st, env, c);
        HealthyIs(Collat(st, c, caller), Owes(st, c, caller) + amount, Setting(st, c, CollateralRatio), point);
        if Admits(w, env, caller, c, Mint(amount)) {
          var debt, all, coins := Owes(st, c, caller) + amount, AllDebt(st, c) + amount, Coins(st, c, caller) + amount;
          ThreeStages(st, Noted(c, point), MintChanges(c, caller, debt, all, coins), event, c);
          NotePut(st, c, point);
          MintPut(Put(st, At(c, OracleHeight), point.height), c, caller, debt, all, coins);
          StableTheorems.NothingPaid(w.accounts);
        }
      }
    }
  }

  lemma BurnAgrees(w: World, env: Env, caller: string, c: string, amount: u64)
    ensures Agrees(w, env, caller, c, Burn(amount))
  {
    hide ApplyAll, EventChanges, Recorded, Put, Executor.ApplyChanges;
    var st := w.store;
    ReadParamsIs(st, c);
    hide ReadParams;
    if IsSetUp(st, c) {
      var event := Event(0x14, AddressOf(caller), [], [amount]);
      EventIsRecorded(st, st, c, event);
      if Admits(w, env, caller, c, Burn(amount)) {
        var coins, debt, all := Coins(st, c, caller) - amount, Owes(st, c, caller) - amount, AllDebt(st, c) - amount;
        var x := BurnChanges(c, caller, coins, caller, debt, all);
        ThreeStages(st, [], x, event, c);
        assert [] + x == x;
        Nothing(st);
        BurnPut(st, c, caller, coins, caller, debt, all);
        StableTheorems.NothingPaid(w.accounts);
      }
    }
  }

  lemma QuoteIs(st: Store, c: string, burned: nat, point: Point)
    requires point.num > 0
    ensures Quote(st, c, burned, point) == RewardQuote(burned, Setting(st, c, Penalty), point)
  {
  }

  lemma LiquidateAgrees(w: World, env: Env, caller: string, c: string, target: string, amount: u64)
    ensures Agrees(w, env, caller, c, Liquidate(target, amount))
    ensures Apply(w, env, caller, c, Liquidate(target, amount)).Undefined? <==>
      && IsSetUp(w.store, c) && Readable(w.store, Slot(c, EventSeq))
      && Seizable(w.store, env, caller, c, target, amount) && PointOf(w.store, env, c).num == 0
  {
    hide ApplyAll, EventChanges, Recorded, Put, PayOut, CanPay, Paid, VaultId, Executor.ApplyChanges, Collateralised,
      Healthy, PriceOf,
      IsPriced, PointOf, RewardQuote, Quote;
    var st, out := w.store, Apply(w, env, caller, c, Liquidate(target, amount));
    ReadParamsIs(st, c);
    hide ReadParams;
    if IsSetUp(st, c) {
      PriceIs(st, env, c);
      if IsPriced(st, env, c) {
        var point, have, burned := PointOf(st, env, c), Collat(st, c, target), Min(amount, Owes(st, c, target));
        assert burned == Least(amount, Owes(st, c, target));
        HealthyIs(have, Owes(st, c, target), Setting(st, c, LiquidationRatio), point);
        if point.num > 0 {
          QuoteIs(st, c, burned, point);
          var reward := Least(Quote(st, c, burned, point), have);
          var event := Event(0x15, AddressOf(caller), [target], [burned, reward]);
          EventIsRecorded(st, st, c, event);
          PayOutIs(w, caller, c, reward, if out.Done? then out.storage else []);
          if Admits(w, env, caller, c, Liquidate(target, amount)) {
            var coins, debt := Coins(st, c, caller) - burned, Owes(st, c, target) - burned;
            var all := AllDebt(st, c) - burned;
            var left, backing := have - reward, AllCollateral(st, c) - reward;
            var x, y := BurnChanges(c, caller, coins, target, debt, all), CollateralChanges(c, target, left, backing);
            ThreeStages(st, Noted(c, point), x + y, event, c);
            NotePut(st, c, point);
            var noted := Put(st, At(c, OracleHeight), point.height);
            ApplyConcat(noted, x, y);
            BurnPut(noted, c, caller, coins, target, debt, all);
            CollateralPut(ApplyAll(noted, x), c, target, left, backing);
          }
        }
      }
    }
  }

  /** Every call, on any storage, accounts, height and prices: when it is accepted, and the whole world it leaves. */
  lemma CallAgrees(w: World, env: Env, caller: string, c: string, call: Call)
    ensures Agrees(w, env, caller, c, call)
  {
    hide Agrees, Apply;
    match call
    case RegisterParams(p) => RegisterAgrees(w, env, caller, c, p);
    case Deposit(amount) => DepositAgrees(w, env, caller, c, amount);
    case Withdraw(amount) => WithdrawAgrees(w, env, caller, c, amount);
    case Mint(amount) => MintAgrees(w, env, caller, c, amount);
    case Burn(amount) => BurnAgrees(w, env, caller, c, amount);
    case Liquidate(target, amount) => LiquidateAgrees(w, env, caller, c, target, amount);
  }
}
