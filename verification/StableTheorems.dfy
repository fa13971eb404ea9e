/** What every run of the stablecoin keeps: coins equal debts, collateral adds up, and the vault holds all of it. */
module StableTheorems {
  import opened Common
  import opened ContractStore
  import opened Stable
  import opened Sums
  import U256
  import Executor
  import ExecutorTheorems

  // -------- the books --------

  function Weigh(c: string, h: Holding): Weight {
    (s: Slot, v: Value) =>
      if s.contract == c && s.key.Stable? && s.key.field.Held? && s.key.field.holding == h && v.Word? then v.n else 0
  }

  function HeldBy(st: Store, c: string, h: Holding, user: string): u64 {
    Num(st, At(c, Held(h, user)))
  }

  /** Stored totals, then true sums. */
  datatype Books = Books(totCollateral: int, totDebt: int, collateral: int, debt: int, coins: int)

  ghost function BooksOf(st: Store, c: string): Books {
    Books(
      Num(st, At(c, TotalCollateral)),
      Num(st, At(c, TotalDebt)),
      Total(st, Weigh(c, Collateral)),
      Total(st, Weigh(c, Debt)),
      Total(st, Weigh(c, Coin)))
  }

  /** Both totals are true, and there are as many coins as there is debt. */
  predicate Sound(b: Books) {
    b.collateral == b.totCollateral && b.debt == b.totDebt && b.coins == b.debt
  }

  /** What the vault holds beyond the collateral it owes. */
  function Surplus(w: World, c: string): int {
    ExecutorTheorems.BalanceOf(w.accounts, VaultId(c)) - Num(w.store, At(c, TotalCollateral))
  }

  ghost function Money(w: World): nat {
    Sum(Executor.Balances(w.accounts))
  }

  // -------- single entries --------

  lemma SetHeld(st: Store, c: string, h: Holding, user: string, v: u64)
    ensures var b, next := BooksOf(st, c), st[At(c, Held(h, user)) := Word(v)];
      var gain := v - HeldBy(st, c, h, user);
      && BooksOf(next, c) == b.(
        collateral := b.collateral + if h == Collateral then gain else 0,
        debt := b.debt + if h == Debt then gain else 0,
        coins := b.coins + if h == Coin then gain else 0)
      && forall k, u | k != h :: HeldBy(next, c, k, u) == HeldBy(st, c, k, u)
  {
    hide Total;
    var s := At(c, Held(h, user));
    TotalUpdate(st, s, Word(v), Weigh(c, Collateral));
    TotalUpdate(st, s, Word(v), Weigh(c, Debt));
    TotalUpdate(st, s, Word(v), Weigh(c, Coin));
  }

  lemma SetTotals(st: Store, c: string, v: u64)
    ensures BooksOf(st[At(c, TotalCollateral) := Word(v)], c) == BooksOf(st, c).(totCollateral := v)
    ensures BooksOf(st[At(c, TotalDebt) := Word(v)], c) == BooksOf(st, c).(totDebt := v)
    ensures forall h, u :: HeldBy(st[At(c, TotalCollateral) := Word(v)], c, h, u) == HeldBy(st, c, h, u)
    ensures forall h, u :: HeldBy(st[At(c, TotalDebt) := Word(v)], c, h, u) == HeldBy(st, c, h, u)
  {
    hide Total;
    var s, t := At(c, TotalCollateral), At(c, TotalDebt);
    TotalUpdate(st, s, Word(v), Weigh(c, Collateral));
    TotalUpdate(st, s, Word(v), Weigh(c, Debt));
    TotalUpdate(st, s, Word(v), Weigh(c, Coin));
    TotalUpdate(st, t, Word(v), Weigh(c, Collateral));
    TotalUpdate(st, t, Word(v), Weigh(c, Debt));
    TotalUpdate(st, t, Word(v), Weigh(c, Coin));
  }

  // -------- stages of a call --------

  /** Neither a holding nor a total. */
  predicate Quiet(s: Slot) {
    s.key.Stable? ==> !s.key.field.Held? && !s.key.field.TotalCollateral? && !s.key.field.TotalDebt?
  }

  lemma QuietStage(st: Store, changes: seq<Change>, c: string)
    requires Within(changes, Quiet)
    ensures var next := ApplyAll(st, changes);
      BooksOf(next, c) == BooksOf(st, c) && forall h, u :: HeldBy(next, c, h, u) == HeldBy(st, c, h, u)
  {
    hide Total, ApplyAll;
    forall i | 0 <= i < |changes|
      ensures Weightless(Weigh(c, Collateral), changes[i].slot) && Weightless(Weigh(c, Debt), changes[i].slot)
      ensures Weightless(Weigh(c, Coin), changes[i].slot)
    {
      assert Quiet(changes[i].slot);
    }
    WeightlessChanges(st, changes, Weigh(c, Collateral));
    WeightlessChanges(st, changes, Weigh(c, Debt));
    WeightlessChanges(st, changes, Weigh(c, Coin));
    StageUntouched(st, changes);
  }

  lemma StageUntouched(st: Store, changes: seq<Change>)
    requires Within(changes, Quiet)
    ensures forall s | !Quiet(s) :: Num(ApplyAll(st, changes), s) == Num(st, s)
  {
    StageKeeps(st, changes, Quiet);
    forall s | !Quiet(s) ensures Num(ApplyAll(st, changes), s) == Num(st, s) {
      assert s in ApplyAll(st, changes) <==> s in st;
    }
  }

  lemma CollateralWritten(st: Store, c: string, user: string, v: u64, total: u64)
    ensures var b := BooksOf(st, c);
      BooksOf(ApplyAll(st, CollateralChanges(c, user, v, total)), c)
        == b.(collateral := b.collateral - HeldBy(st, c, Collateral, user) + v, totCollateral := total)
  {
    hide BooksOf, ApplyAll, HeldBy;
    var changes := CollateralChanges(c, user, v, total);
    Two(st, changes[0], changes[1]);
    SetHeld(st, c, Collateral, user, v);
    SetTotals(st[At(c, Held(Collateral, user)) := Word(v)], c, total);
  }

  lemma Three(st: Store, x: Change, y: Change, z: Change)
    ensures ApplyAll(st, [x, y, z]) == st[x.slot := x.value][y.slot := y.value][z.slot := z.value]
  {
    hide ApplyAll;
    assert [x, y, z] == [x, y] + [z];
    ApplyConcat(st, [x, y], [z]);
    Two(st, x, y);
    Two(st[x.slot := x.value][y.slot := y.value], z, z);
    One(st[x.slot := x.value][y.slot := y.value], z);
  }

  lemma DebtMinted(st: Store, c: string, user: string, debt: u64, total: u64, coins: u64)
    ensures var b := BooksOf(st, c);
      BooksOf(ApplyAll(st, MintChanges(c, user, debt, total, coins)), c) == b.(
        debt := b.debt - HeldBy(st, c, Debt, user) + debt, totDebt := total,
        coins := b.coins - HeldBy(st, c, Coin, user) + coins)
  {
    hide BooksOf, ApplyAll, HeldBy;
    var changes := MintChanges(c, user, debt, total, coins);
    Three(st, changes[0], changes[1], changes[2]);
    var st1 := st[At(c, Held(Debt, user)) := Word(debt)];
    SetHeld(st, c, Debt, user, debt);
    SetTotals(st1, c, total);
    SetHeld(st1[At(c, TotalDebt) := Word(total)], c, Coin, user, coins);
  }

  lemma CoinsBurned(st: Store, c: string, payer: string, coins: u64, debtor: string, debt: u64, total: u64)
    ensures var b, next := BooksOf(st, c), ApplyAll(st, BurnChanges(c, payer, coins, debtor, debt, total));
      && BooksOf(next, c) == b.(
        coins := b.coins - HeldBy(st, c, Coin, payer) + coins,
        debt := b.debt - HeldBy(st, c, Debt, debtor) + debt, totDebt := total)
      && forall u :: HeldBy(next, c, Collateral, u) == HeldBy(st, c, Collateral, u)
  {
    hide BooksOf, ApplyAll, HeldBy;
    var changes := BurnChanges(c, payer, coins, debtor, debt, total);
    Three(st, changes[0], changes[1], changes[2]);
    var st1 := st[At(c, Held(Coin, payer)) := Word(coins)];
    SetHeld(st, c, Coin, payer, coins);
    SetHeld(st1, c, Debt, debtor, debt);
    SetTotals(st1[At(c, Held(Debt, debtor)) := Word(debt)], c, total);
  }

  /** A call's stages: a quiet one, one that moves the books, and the event. */
  lemma ThreeStages(st: Store, c: string, note: seq<Change>, main: seq<Change>, event: seq<Change>)
    requires Within(note, Quiet) && Within(event, Quiet)
    ensures BooksOf(ApplyAll(st, note + main + event), c) == BooksOf(ApplyAll(ApplyAll(st, note), main), c)
    ensures BooksOf(ApplyAll(st, note), c) == BooksOf(st, c)
    ensures forall h, u :: HeldBy(ApplyAll(st, note), c, h, u) == HeldBy(st, c, h, u)
  {
    hide BooksOf, ApplyAll, HeldBy;
    ApplyConcat(st, note + main, event);
    ApplyConcat(st, note, main);
    QuietStage(st, note, c);
    QuietStage(ApplyAll(ApplyAll(st, note), main), event, c);
  }

  // -------- the books after a call --------

  /** A call's net effect on the books. */
  ghost predicate Moves(st: Store, out: Outcome, c: string, collateral: int, debt: int) {
    var b := BooksOf(st, c);
    out.Done? && BooksOf(ApplyAll(st, out.storage), c) == Books(
      b.totCollateral + collateral, b.totDebt + debt, b.collateral + collateral, b.debt + debt, b.coins + debt)
  }

  function Minus(x: int): int {
    -x
  }

  lemma EventIsQuiet(st: Store, c: string, event: Value)
    requires EventChanges(st, c, event).Some?
    ensures Within(EventChanges(st, c, event).value, Quiet)
  {
  }

  lemma TotalsAre(st: Store, c: string)
    ensures BooksOf(st, c).totCollateral == Num(st, At(c, TotalCollateral))
    ensures BooksOf(st, c).totDebt == Num(st, At(c, TotalDebt))
  {
  }

  lemma RegisterBooks(w: World, caller: string, c: string, p: Params)
    requires RegisterCall(w, caller, c, p).Done?
    ensures Moves(w.store, RegisterCall(w, caller, c, p), c, 0, 0)
  {
    hide BooksOf, ApplyAll, EventChanges;
    EventIsQuiet(w.store, c, RegisterEvent(caller, p));
    QuietStage(w.store, RegisterCall(w, caller, c, p).storage, c);
  }

  lemma DepositBooks(w: World, caller: string, c: string, p: Params, amount: u64)
    requires DepositCall(w, caller, c, p, amount).Done?
    ensures Moves(w.store, DepositCall(w, caller, c, p, amount), c, amount, 0)
  {
    hide BooksOf, ApplyAll, EventChanges, PayIn;
    var st := w.store;
    var next, tot := HeldBy(st, c, Collateral, caller) + amount, Num(st, At(c, TotalCollateral)) + amount;
    var main := CollateralChanges(c, caller, next, tot);
    var event := Event(0x11, AddressOf(caller), [], [amount]);
    EventIsQuiet(st, c, event);
    assert [] + main == main;
    ThreeStages(st, c, [], main, EventChanges(st, c, event).value);
    CollateralWritten(ApplyAll(st, []), c, caller, next, tot);
    TotalsAre(st, c);
  }

  lemma WithdrawBooks(w: World, env: Env, caller: string, c: string, p: Params, amount: u64)
    requires WithdrawCall(w, env, caller, c, p, amount).Done?
    ensures Moves(w.store, WithdrawCall(w, env, caller, c, p, amount), c, Minus(amount), 0)
  {
    hide BooksOf, ApplyAll, EventChanges, PayOut, Collateralised;
    var st := w.store;
    var left, tot := HeldBy(st, c, Collateral, caller) - amount, Num(st, At(c, TotalCollateral)) - amount;
    var note, event := Noted(c, PriceOf(env, p).value), Event(0x12, AddressOf(caller), [], [amount]);
    EventIsQuiet(st, c, event);
    ThreeStages(st, c, note, CollateralChanges(c, caller, left, tot), EventChanges(st, c, event).value);
    CollateralWritten(ApplyAll(st, note), c, caller, left, tot);
    TotalsAre(st, c);
  }

  lemma MintBooks(w: World, env: Env, caller: string, c: string, p: Params, amount: u64)
    requires MintCall(w, env, caller, c, p, amount).Done?
    ensures Moves(w.store, MintCall(w, env, caller, c, p, amount), c, 0, amount)
    ensures Num(w.store, At(c, TotalDebt)) + amount <= p.debtCeiling
  {
    hide BooksOf, ApplyAll, EventChanges, Collateralised;
    var st := w.store;
    var debt, tot := HeldBy(st, c, Debt, caller) + amount, Num(st, At(c, TotalDebt)) + amount;
    var coins := HeldBy(st, c, Coin, caller) + amount;
    var note, event := Noted(c, PriceOf(env, p).value), Event(0x13, AddressOf(caller), [], [amount]);
    EventIsQuiet(st, c, event);
    ThreeStages(st, c, note, MintChanges(c, caller, debt, tot, coins), EventChanges(st, c, event).value);
    DebtMinted(ApplyAll(st, note), c, caller, debt, tot, coins);
    TotalsAre(st, c);
  }

  lemma BurnBooks(w: World, caller: string, c: string, amount: u64)
    requires BurnCall(w, caller, c, amount).Done?
    ensures Moves(w.store, BurnCall(w, caller, c, amount), c, 0, Minus(amount))
  {
    hide BooksOf, ApplyAll, EventChanges;
    var st := w.store;
    var debt, tot := HeldBy(st, c, Debt, caller) - amount, Num(st, At(c, TotalDebt)) - amount;
    var coins := HeldBy(st, c, Coin, caller) - amount;
    var main, event := BurnChanges(c, caller, coins, caller, debt, tot), Event(0x14, AddressOf(caller), [], [amount]);
    EventIsQuiet(st, c, event);
    assert [] + main == main;
    ThreeStages(st, c, [], main, EventChanges(st, c, event).value);
    CoinsBurned(ApplyAll(st, []), c, caller, coins, caller, debt, tot);
    TotalsAre(st, c);
  }

  /** What a liquidation burns and what it pays for it. */
  predicate Liquidates(w: World, out: Outcome, caller: string, c: string, burned: u64, reward: u64) {
    out.Done? && PayOut(w.accounts, caller, c, reward) == Some(out.accounts) && 0 < burned && 0 < reward
  }

  lemma LiquidateBooks(w: World, env: Env, caller: string, c: string, p: Params, target: string, amount: u64)
    returns (burned: u64, reward: u64)
    requires LiquidateCall(w, env, caller, c, p, target, amount).Done?
    ensures Liquidates(w, LiquidateCall(w, env, caller, c, p, target, amount), caller, c, burned, reward)
    ensures Moves(w.store, LiquidateCall(w, env, caller, c, p, target, amount), c, Minus(reward), Minus(burned))
  {
    hide BooksOf, ApplyAll, EventChanges, PayOut, Collateralised, RewardQuote;
    var st, price := w.store, PriceOf(env, p).value;
    burned := Min(amount, HeldBy(st, c, Debt, target));
    reward := Min(RewardQuote(burned, p.penalty, price), HeldBy(st, c, Collateral, target));
    var coins, debt := HeldBy(st, c, Coin, caller) - burned, HeldBy(st, c, Debt, target) - burned;
    var tot, left := Num(st, At(c, TotalDebt)) - burned, HeldBy(st, c, Collateral, target) - reward;
    var burn := BurnChanges(c, caller, coins, target, debt, tot);
    var seize := CollateralChanges(c, target, left, Num(st, At(c, TotalCollateral)) - reward);
    var event := Event(0x15, AddressOf(caller), [target], [burned, reward]);
    EventIsQuiet(st, c, event);
    ThreeStages(st, c, Noted(c, price), burn + seize, EventChanges(st, c, event).value);
    var st1 := ApplyAll(st, Noted(c, price));
    ApplyConcat(st1, burn, seize);
    CoinsBurned(st1, c, caller, coins, target, debt, tot);
    CollateralWritten(ApplyAll(st1, burn), c, target, left, Num(st, At(c, TotalCollateral)) - reward);
    TotalsAre(st, c);
  }

  // -------- native balance --------

  lemma TwoAccounts(accounts: Executor.Accounts, a: Executor.AccountChange, b: Executor.AccountChange)
    ensures Executor.ApplyChanges(accounts, [a, b]) == accounts[a.id := a.next][b.id := b.next]
  {
    assert [a, b][..1] == [a] && [a][..0] == [];
    assert Executor.ApplyChanges(accounts, [a]) == Executor.ApplyChanges(accounts, [])[a.id := a.next];
  }

  /** When the caller is the vault itself the amount is created: the second change wins. */
  lemma PaidIn(accounts: Executor.Accounts, caller: string, c: string, amount: u64)
    requires PayIn(accounts, caller, c, amount).Some?
    ensures var next := Executor.ApplyChanges(accounts, PayIn(accounts, caller, c, amount).value);
      && ExecutorTheorems.BalanceOf(next, VaultId(c)) == ExecutorTheorems.BalanceOf(accounts, VaultId(c)) + amount
      && Sum(Executor.Balances(next)) == Sum(Executor.Balances(accounts)) + (if caller == VaultId(c) then amount else 0)
  {
    hide Sum, Executor.Balances, Executor.ApplyChanges, VaultId;
    var changes := PayIn(accounts, caller, c, amount).value;
    TwoAccounts(accounts, changes[0], changes[1]);
    ExecutorTheorems.SetBalance(accounts, caller, changes[0].next);
    ExecutorTheorems.SetBalance(accounts[caller := changes[0].next], VaultId(c), changes[1].next);
  }

  lemma PaidOut(accounts: Executor.Accounts, caller: string, c: string, amount: u64)
    requires PayOut(accounts, caller, c, amount).Some?
    ensures var next := Executor.ApplyChanges(accounts, PayOut(accounts, caller, c, amount).value);
      && ExecutorTheorems.BalanceOf(next, VaultId(c))
         == ExecutorTheorems.BalanceOf(accounts, VaultId(c)) + (if caller == VaultId(c) then amount else Minus(amount))
      && Sum(Executor.Balances(next)) == Sum(Executor.Balances(accounts)) + (if caller == VaultId(c) then amount else 0)
  {
    hide Sum, Executor.Balances, Executor.ApplyChanges, VaultId;
    var changes := PayOut(accounts, caller, c, amount).value;
    TwoAccounts(accounts, changes[0], changes[1]);
    ExecutorTheorems.SetBalance(accounts, VaultId(c), changes[0].next);
    ExecutorTheorems.SetBalance(accounts[VaultId(c) := changes[0].next], caller, changes[1].next);
  }

  // -------- one call --------

  /** Calls that move native balance. */
  predicate Pays(call: Call) {
    call.Deposit? || call.Withdraw? || call.Liquidate?
  }

  /**
   * Every call keeps the books sound. It keeps the native balances' sum exactly unless the vault itself is the caller
   * of one that moves balance, and then the vault's surplus survives only a deposit.
   */
  lemma CallKeeps(w: World, env: Env, caller: string, c: string, call: Call)
    requires Apply(w, env, caller, c, call).Done?
    ensures var next := After(w, Apply(w, env, caller, c, call));
      && (Sound(BooksOf(w.store, c)) ==> Sound(BooksOf(next.store, c)))
      && (Money(next) == Money(w) <==> caller != VaultId(c) || !Pays(call))
      && (Surplus(next, c) == Surplus(w, c) <==> caller != VaultId(c) || !Pays(call) || call.Deposit?)
  {
    hide ApplyAll, BooksOf, ReadParams, ParamsBroken, RegisterCall, DepositCall, WithdrawCall, MintCall, BurnCall,
      LiquidateCall, PayIn, PayOut, VaultId, Sum, Executor.Balances, ExecutorTheorems.BalanceOf, PriceOf;
    TotalsAre(w.store, c);
    TotalsAre(After(w, Apply(w, env, caller, c, call)).store, c);
    NothingPaid(w.accounts);
    match call {
      case RegisterParams(p) =>
        RegisterBooks(w, caller, c, p);
        WhatIsPaid(w, env, caller, c, p, call);
      case Deposit(amount) =>
        DepositBooks(w, caller, c, ReadParams(w.store, c).value, amount);
        WhatIsPaid(w, env, caller, c, ReadParams(w.store, c).value, call);
        PaidIn(w.accounts, caller, c, amount);
      case Withdraw(amount) =>
        WithdrawBooks(w, env, caller, c, ReadParams(w.store, c).value, amount);
        WhatIsPaid(w, env, caller, c, ReadParams(w.store, c).value, call);
        PaidOut(w.accounts, caller, c, amount);
      case Mint(amount) =>
        MintBooks(w, env, caller, c, ReadParams(w.store, c).value, amount);
        WhatIsPaid(w, env, caller, c, ReadParams(w.store, c).value, call);
      case Burn(amount) =>
        BurnBooks(w, caller, c, amount);
        WhatIsPaid(w, env, caller, c, ReadParams(w.store, c).value, call);
      case Liquidate(target, amount) =>
        var burned, reward := LiquidateBooks(w, env, caller, c, ReadParams(w.store, c).value, target, amount);
        PaidOut(w.accounts, caller, c, reward);
    }
  }

  lemma NothingPaid(accounts: Executor.Accounts)
    ensures Executor.ApplyChanges(accounts, []) == accounts
  {
  }

  /** The native balances a call changes. */
  lemma WhatIsPaid(w: World, env: Env, caller: string, c: string, p: Params, call: Call)
    ensures RegisterCall(w, caller, c, p).Done? ==> RegisterCall(w, caller, c, p).accounts == []
    ensures call.Deposit? && DepositCall(w, caller, c, p, call.amount).Done? ==>
      call.amount > 0 && PayIn(w.accounts, caller, c, call.amount) ==
        Some(DepositCall(w, caller, c, p, call.amount).accounts)
    ensures call.Withdraw? && WithdrawCall(w, env, caller, c, p, call.amount).Done? ==>
      call.amount > 0
      && PayOut(w.accounts, caller, c, call.amount) == Some(WithdrawCall(w, env, caller, c, p, call.amount).accounts)
    ensures call.Mint? && MintCall(w, env, caller, c, p, call.amount).Done? ==>
      MintCall(w, env, caller, c, p, call.amount).accounts == []
    ensures call.Burn? && BurnCall(w, caller, c, call.amount).Done? ==>
      BurnCall(w, caller, c, call.amount).accounts == []
  {
    hide PayIn, PayOut, EventChanges, Collateralised, PriceOf;
  }

  // -------- every word readable --------

  predicate NumberSlot(s: Slot) {
    s.key.EventSeq? || (s.key.Stable? && !s.key.field.Owner? && !s.key.field.Feed?)
  }

  /** What the contract reads as a number is one. */
  ghost predicate Readable(st: Store, c: string) {
    forall s: Slot | s.contract == c && NumberSlot(s) :: ReadWord(st, s).Some?
  }

  lemma {:induction false} NumbersStay(st: Store, changes: seq<Change>, c: string)
    requires Readable(st, c)
    requires forall i | 0 <= i < |changes| :: NumberSlot(changes[i].slot) ==> changes[i].value.Word?
    ensures Readable(ApplyAll(st, changes), c)
    decreases |changes|
  {
    if changes != [] {
      assert NumberSlot(changes[0].slot) ==> changes[0].value.Word?;
      NumbersStay(st[changes[0].slot := changes[0].value], changes[1..], c);
    }
  }

  lemma CallStaysReadable(w: World, env: Env, caller: string, c: string, call: Call)
    requires Readable(w.store, c)
    ensures Readable(After(w, Apply(w, env, caller, c, call)).store, c)
  {
    hide ApplyAll, Readable, ReadParams, ParamsBroken, Collateralised, PayIn, PayOut, PriceOf, RewardQuote;
    var out := Apply(w, env, caller, c, call);
    if out.Done? {
      NumbersStay(w.store, out.storage, c);
    }
  }

  // -------- the guards on the totals --------

  lemma EntryAtMostTotal(st: Store, c: string, h: Holding, user: string)
    ensures HeldBy(st, c, h, user) <= Total(st, Weigh(c, h))
  {
    hide Total;
    var s := At(c, Held(h, user));
    if s in st {
      TotalRemove(st, s, Weigh(c, h));
    }
  }

  /** In sound books nobody holds more than a total: the tests against going below zero never refuse. */
  lemma GuardsNeverFire(st: Store, c: string, user: string)
    requires Sound(BooksOf(st, c))
    ensures HeldBy(st, c, Collateral, user) <= Num(st, At(c, TotalCollateral))
    ensures HeldBy(st, c, Debt, user) <= Num(st, At(c, TotalDebt))
    ensures HeldBy(st, c, Coin, user) <= Num(st, At(c, TotalDebt))
  {
    hide Total;
    EntryAtMostTotal(st, c, Collateral, user);
    EntryAtMostTotal(st, c, Debt, user);
    EntryAtMostTotal(st, c, Coin, user);
  }

  /** Sound books, a solvent vault, readable numbers and an event counter with room. */
  ghost predicate Healthy(w: World, c: string) {
    && Sound(BooksOf(w.store, c)) && Surplus(w, c) >= 0 && Readable(w.store, c)
    && Num(w.store, Slot(c, EventSeq)) < U64_MAX
    && ReadParams(w.store, c).Some?
  }

  lemma HealthyReads(w: World, c: string, field: StableField)
    requires Healthy(w, c) && !field.Owner? && !field.Feed?
    ensures Read(w.store, c, field) == Some(Num(w.store, At(c, field)))
  {
    hide BooksOf, Sound, Surplus, ReadParams;
    assert NumberSlot(At(c, field));
  }

  lemma HealthyEvents(w: World, c: string, event: Value)
    requires Healthy(w, c)
    ensures EventChanges(w.store, c, event).Some? && ReadWord(w.store, Slot(c, EventSeq)).Some?
      && !ParamsBroken(w.store, c)
  {
    hide BooksOf, Sound, Surplus;
    assert NumberSlot(Slot(c, EventSeq)) && NumberSlot(At(c, Param(ParamsSet)));
  }

  /** A withdrawal that leaves a covered position is always paid: the vault is never short. */
  lemma WithdrawSucceedsIff(w: World, env: Env, caller: string, c: string, amount: u64)
    requires Healthy(w, c) && caller != VaultId(c)
    ensures var p := ReadParams(w.store, c).value;
      var have, debt := HeldBy(w.store, c, Collateral, caller), HeldBy(w.store, c, Debt, caller);
      Apply(w, env, caller, c, Withdraw(amount)).Done? <==>
        && 0 < amount <= have
        && PriceOf(env, p).Some? && Collateralised(have - amount, debt, p.collateralRatio, PriceOf(env, p).value)
        && caller in w.accounts && w.accounts[caller].balance + amount <= U64_MAX
  {
    hide BooksOf, Sound, ReadParams, EventChanges, PriceOf, Collateralised, VaultId, ParamsBroken, Healthy;
    HealthyReads(w, c, Held(Collateral, caller));
    HealthyReads(w, c, Held(Debt, caller));
    HealthyReads(w, c, TotalCollateral);
    HealthyEvents(w, c, Event(0x12, AddressOf(caller), [], [amount]));
    SolventVault(w, c, caller);
  }

  lemma SolventVault(w: World, c: string, user: string)
    requires Healthy(w, c)
    ensures HeldBy(w.store, c, Collateral, user) <= Num(w.store, At(c, TotalCollateral))
    ensures var v := VaultId(c); HeldBy(w.store, c, Collateral, user) > 0 ==>
      v in w.accounts && w.accounts[v].balance >= HeldBy(w.store, c, Collateral, user)
    ensures HeldBy(w.store, c, Debt, user) <= Num(w.store, At(c, TotalDebt))
    ensures ReadParams(w.store, c).Some?
  {
    hide BooksOf, Sound, ReadParams, Readable;
    GuardsNeverFire(w.store, c, user);
  }

  /** A burn succeeds exactly when the caller has the coins and owes as much. */
  lemma BurnSucceedsIff(w: World, env: Env, caller: string, c: string, amount: u64)
    requires Healthy(w, c)
    ensures Apply(w, env, caller, c, Burn(amount)).Done? <==>
      0 < amount <= HeldBy(w.store, c, Coin, caller) && amount <= HeldBy(w.store, c, Debt, caller)
  {
    hide BooksOf, Sound, ReadParams, EventChanges, ParamsBroken, Healthy;
    HealthyReads(w, c, Held(Coin, caller));
    HealthyReads(w, c, Held(Debt, caller));
    HealthyReads(w, c, TotalDebt);
    HealthyEvents(w, c, Event(0x14, AddressOf(caller), [], [amount]));
    SolventVault(w, c, caller);
  }

  /**
   * Liquidation divides by the price without asking whether it is zero: the call is undefined exactly when a position
   * that counts as weak is liquidated, by a caller with the coins, while the feed says zero.
   */
  lemma UndefinedIff(w: World, env: Env, caller: string, c: string, call: Call)
    requires Healthy(w, c)
    ensures Apply(w, env, caller, c, call).Undefined? <==>
      && call.Liquidate? && call.amount > 0
      && var p := ReadParams(w.store, c).value;
      && PriceOf(env, p).Some? && PriceOf(env, p).value.num == 0
      && var debt := HeldBy(w.store, c, Debt, call.target);
      && debt > 0 && p.liquidationRatio > 0 && HeldBy(w.store, c, Coin, caller) >= Min(call.amount, debt)
  {
    hide BooksOf, Sound, ReadParams, EventChanges, ParamsBroken, Healthy, PayIn, PayOut, RewardQuote, PriceOf,
      Collateralised;
    if call.Liquidate? {
      var target := call.target;
      HealthyReads(w, c, Held(Collateral, target));
      HealthyReads(w, c, Held(Debt, target));
      HealthyReads(w, c, Held(Coin, caller));
      HealthyReads(w, c, TotalDebt);
      HealthyEvents(w, c, Event(0x15, AddressOf(caller), [target], []));
      SolventVault(w, c, target);
      var p := ReadParams(w.store, c).value;
      if PriceOf(env, p).Some? {
        var price := PriceOf(env, p).value;
        PricesHaveDenominators(env, p);
        if price.num == 0 {
          WorthNothing(HeldBy(w.store, c, Collateral, target), HeldBy(w.store, c, Debt, target), p.liquidationRatio,
            price);
        }
      }
    } else {
      HealthyEvents(w, c, Event(0x15, AddressOf(caller), [], []));
      SolventVault(w, c, caller);
    }
  }

  lemma PricesHaveDenominators(env: Env, p: Params)
    requires PriceOf(env, p).Some?
    ensures PriceOf(env, p).value.den > 0
  {
  }

  /** At price zero no collateral covers a debt. */
  lemma WorthNothing(collateral: nat, debt: nat, ratio: nat, price: Point)
    requires price.num == 0 && price.den > 0
    ensures Collateralised(collateral, debt, ratio, price) <==> debt == 0 || ratio == 0
  {
    hide U256.Quotient;
    U256.QuotientUnique(0, price.den, 0, 0);
    assert collateral * price.num == 0;
    if debt > 0 && ratio > 0 {
      assert debt * ratio > 0;
    }
  }

  // -------- what a call leaves alone --------

  predicate NotParam(s: Slot) {
    s.key.Stable? ==> !s.key.field.Param? && !s.key.field.Feed? && !s.key.field.Owner?
  }

  lemma ParamsStay(st: Store, changes: seq<Change>, c: string)
    requires Within(changes, NotParam)
    ensures ReadParams(ApplyAll(st, changes), c) == ReadParams(st, c)
  {
    hide ApplyAll;
    StageKeeps(st, changes, NotParam);
    assert forall name :: !NotParam(At(c, Param(name)));
    assert !NotParam(At(c, Feed));
  }

  lemma CallKeepsParams(w: World, env: Env, caller: string, c: string, call: Call)
    requires !call.RegisterParams?
    ensures ReadParams(After(w, Apply(w, env, caller, c, call)).store, c) == ReadParams(w.store, c)
  {
    hide ApplyAll, ReadParams, ParamsBroken, Collateralised, PayIn, PayOut, PriceOf, RewardQuote;
    var out := Apply(w, env, caller, c, call);
    if out.Done? {
      ParamsStay(w.store, out.storage, c);
    }
  }

  // -------- leaving --------

  lemma BurnLeaves(w: World, caller: string, c: string, amount: u64)
    requires BurnCall(w, caller, c, amount).Done?
    ensures var next := After(w, BurnCall(w, caller, c, amount));
      && next.accounts == w.accounts
      && HeldBy(next.store, c, Debt, caller) == HeldBy(w.store, c, Debt, caller) - amount
      && HeldBy(next.store, c, Collateral, caller) == HeldBy(w.store, c, Collateral, caller)
      && Num(next.store, Slot(c, EventSeq)) == Num(w.store, Slot(c, EventSeq)) + 1
  {
    hide ApplyAll;
    var st, out := w.store, BurnCall(w, caller, c, amount);
    var main, event := out.storage[..3], out.storage[3..];
    assert out.storage == main + event;
    assert main == [main[0], main[1], main[2]] && event == [event[0], event[1]];
    ApplyConcat(st, main, event);
    Three(st, main[0], main[1], main[2]);
    Two(ApplyAll(st, main), event[0], event[1]);
    NothingPaid(w.accounts);
  }

  /** Whoever has the coins for its debt can burn them and take all its collateral back, whatever the price. */
  lemma EveryoneCanLeave(w: World, env: Env, caller: string, c: string) returns (w1: World, w2: World)
    requires Healthy(w, c) && caller != VaultId(c) && Num(w.store, Slot(c, EventSeq)) + 1 < U64_MAX
    requires 0 < HeldBy(w.store, c, Debt, caller) <= HeldBy(w.store, c, Coin, caller)
    requires var owed := HeldBy(w.store, c, Collateral, caller);
      0 < owed && caller in w.accounts && w.accounts[caller].balance + owed <= U64_MAX
    requires PriceOf(env, ReadParams(w.store, c).value).Some?
    ensures var burn := Apply(w, env, caller, c, Burn(HeldBy(w.store, c, Debt, caller)));
      burn.Done? && w1 == After(w, burn)
    ensures var take := Apply(w1, env, caller, c, Withdraw(HeldBy(w.store, c, Collateral, caller)));
      take.Done? && w2 == After(w1, take)
    ensures caller in w2.accounts
    ensures w2.accounts[caller].balance == w.accounts[caller].balance + HeldBy(w.store, c, Collateral, caller)
  {
    hide ApplyAll, BooksOf, Sound, ReadParams, PriceOf, VaultId, BurnCall, Readable;
    var debt, owed := HeldBy(w.store, c, Debt, caller), HeldBy(w.store, c, Collateral, caller);
    BurnSucceedsIff(w, env, caller, c, debt);
    w1 := After(w, Apply(w, env, caller, c, Burn(debt)));
    BurnLeaves(w, caller, c, debt);
    CallKeeps(w, env, caller, c, Burn(debt));
    CallKeepsParams(w, env, caller, c, Burn(debt));
    CallStaysReadable(w, env, caller, c, Burn(debt));
    WithdrawSucceedsIff(w1, env, caller, c, owed);
    w2 := After(w1, Apply(w1, env, caller, c, Withdraw(owed)));
    WithdrawPays(w1, env, caller, c, owed);
  }

  lemma WithdrawPays(w: World, env: Env, caller: string, c: string, amount: u64)
    requires Apply(w, env, caller, c, Withdraw(amount)).Done? && caller != VaultId(c)
    ensures caller in w.accounts
    ensures var next := After(w, Apply(w, env, caller, c, Withdraw(amount)));
      caller in next.accounts && next.accounts[caller].balance == w.accounts[caller].balance + amount
  {
    hide ApplyAll, ReadParams, ParamsBroken, PriceOf, Collateralised, VaultId, Executor.ApplyChanges, EventChanges;
    var changes := Apply(w, env, caller, c, Withdraw(amount)).accounts;
    assert changes == [changes[0], changes[1]];
    TwoAccounts(w.accounts, changes[0], changes[1]);
  }

  // -------- the liquidator's reward --------

  /** The collateral that `burned` coins are worth, rounded up. */
  function Worth(burned: nat, price: Point): nat
    requires price.num > 0
  {
    U256.Quotient(burned * price.den + price.num - 1, price.num)
  }

  /** Where the 128-bit product does not wrap, a quote is worth at least the coins burned. */
  lemma RewardCoversCoins(burned: nat, penalty: u64, price: Point)
    requires price.num > 0 && 10000 + penalty <= U64_MAX && Worth(burned, price) * (10000 + penalty) < TWO_128
    ensures RewardQuote(burned, penalty, price) * price.num >= burned * price.den
  {
    hide U256.Quotient, Wrap128, Wrap64;
    var base, reward := Worth(burned, price), RewardQuote(burned, penalty, price);
    AtLeastBase(base, penalty, reward);
    Scale(base, reward, price.num);
  }

  /**
   A quote that the contract goes on with covers the coins burned exactly when the 128-bit product does not wrap. The
   contract takes no penalty above 20000 and no quote beyond 64 bits.
   */
  lemma RewardCoversCoinsIff(burned: nat, penalty: u64, price: Point)
    requires price.num > 0 && penalty <= 20000 && RewardQuote(burned, penalty, price) <= U64_MAX
    ensures RewardQuote(burned, penalty, price) * price.num >= burned * price.den <==>
      Worth(burned, price) * (10000 + penalty) < TWO_128
  {
    hide U256.Quotient, Wrap128;
    var base, reward := Worth(burned, price), RewardQuote(burned, penalty, price);
    var product := base * (10000 + penalty);
    assert reward == U256.Quotient(Wrap128(product), 10000);
    if product < TWO_128 {
      RewardCoversCoins(burned, penalty, price);
    } else {
      assert base > U64_MAX by {
        if base <= U64_MAX {
          Scale(base, U64_MAX, 10000 + penalty);
          Scale(10000 + penalty, 30000, U64_MAX);
        }
      }
      Scale(reward, base - 1, price.num);
      assert (base - 1) * price.num == base * price.num - price.num;
    }
  }

  /** A price of one over ten to the nineteenth at which a burn is quoted less than its worth. */
  lemma RewardCanFallShort()
    ensures var price, burned := Point(1, 10_000_000_000_000_000_000, 0), 3_402_823_669_209_385;
      && burned <= U64_MAX && RewardQuote(burned, 0, price) <= U64_MAX
      && RewardQuote(burned, 0, price) * price.num < burned * price.den
  {
    hide U256.Quotient;
    var price, burned := Point(1, 10_000_000_000_000_000_000, 0), 3_402_823_669_209_385;
    U256.QuotientUnique(burned * price.den, 1, burned * price.den, 0);
    assert Wrap128(burned * price.den * 10000) / 10000 <= U64_MAX;
    QuotientIsDivision(Wrap128(burned * price.den * 10000), 10000);
  }

  lemma QuotientIsDivision(x: nat, d: nat)
    requires d > 0
    ensures U256.Quotient(x, d) == x / d
  {
  }

  lemma AtLeastBase(base: nat, penalty: nat, reward: nat)
    requires reward == U256.Quotient(base * (10000 + penalty), 10000)
    ensures base <= reward
  {
    hide U256.Quotient;
    assert base * (10000 + penalty) == base * 10000 + base * penalty;
    assert base * penalty >= 0;
  }

  lemma Scale(a: nat, b: nat, p: nat)
    requires a <= b
    ensures a * p <= b * p
  {
  }

  // -------- runs --------

  datatype Step = Step(env: Env, caller: string, call: Call)

  /** The world after a run, unless a call in it was undefined. */
  function RunAll(w: World, c: string, steps: seq<Step>): Option<World> {
    if steps == [] then Some(w)
    else
      var before := RunAll(w, c, steps[..|steps| - 1]);
      var s := steps[|steps| - 1];
      if before.None? || Apply(before.value, s.env, s.caller, c, s.call).Undefined? then None
      else Some(After(before.value, Apply(before.value, s.env, s.caller, c, s.call)))
  }

  predicate OthersOnly(c: string, steps: seq<Step>) {
    forall i | 0 <= i < |steps| :: steps[i].caller != VaultId(c)
  }

  /** Every run of calls by others than the vault keeps the books sound, the vault's surplus and all native balance. */
  lemma {:induction false} RunKeepsBooks(w: World, c: string, steps: seq<Step>)
    requires OthersOnly(c, steps) && Sound(BooksOf(w.store, c)) && RunAll(w, c, steps).Some?
    ensures var next := RunAll(w, c, steps).value;
      Sound(BooksOf(next.store, c)) && Surplus(next, c) == Surplus(w, c) && Money(next) == Money(w)
  {
    if steps != [] {
      hide Apply, ApplyAll, BooksOf, Sound, Surplus, Money;
      var front, last := steps[..|steps| - 1], steps[|steps| - 1];
      RunKeepsBooks(w, c, front);
      var before := RunAll(w, c, front).value;
      if Apply(before, last.env, last.caller, c, last.call).Done? {
        CallKeeps(before, last.env, last.caller, c, last.call);
      }
    }
  }

  predicate NoRegistration(steps: seq<Step>) {
    forall i | 0 <= i < |steps| :: !steps[i].call.RegisterParams?
  }

  /** Under unchanged parameters the debt stays within the ceiling. */
  lemma {:induction false} RunKeepsCeiling(w: World, c: string, p: Params, steps: seq<Step>)
    requires NoRegistration(steps) && RunAll(w, c, steps).Some? && ReadParams(w.store, c) == Some(p)
    requires Num(w.store, At(c, TotalDebt)) <= p.debtCeiling
    ensures var next := RunAll(w, c, steps).value.store;
      ReadParams(next, c) == Some(p) && Num(next, At(c, TotalDebt)) <= p.debtCeiling
  {
    if steps != [] {
      hide Apply, ApplyAll, ReadParams;
      var front, last := steps[..|steps| - 1], steps[|steps| - 1];
      RunKeepsCeiling(w, c, p, front);
      var before := RunAll(w, c, front).value;
      if Apply(before, last.env, last.caller, c, last.call).Done? {
        CallKeepsParams(before, last.env, last.caller, c, last.call);
        CallKeepsCeiling(before, last.env, last.caller, c, p, last.call);
      }
    }
  }

  lemma CallKeepsCeiling(w: World, env: Env, caller: string, c: string, p: Params, call: Call)
    requires Apply(w, env, caller, c, call).Done? && !call.RegisterParams? && ReadParams(w.store, c) == Some(p)
    requires Num(w.store, At(c, TotalDebt)) <= p.debtCeiling
    ensures Num(After(w, Apply(w, env, caller, c, call)).store, At(c, TotalDebt)) <= p.debtCeiling
  {
    hide ApplyAll, BooksOf, ReadParams, ParamsBroken, DepositCall, WithdrawCall, MintCall, BurnCall, LiquidateCall;
    TotalsAre(w.store, c);
    TotalsAre(After(w, Apply(w, env, caller, c, call)).store, c);
    match call
    case Deposit(amount) => DepositBooks(w, caller, c, p, amount);
    case Withdraw(amount) => WithdrawBooks(w, env, caller, c, p, amount);
    case Mint(amount) => MintBooks(w, env, caller, c, p, amount);
    case Burn(amount) => BurnBooks(w, caller, c, amount);
    case Liquidate(target, amount) => var burned, reward := LiquidateBooks(w, env, caller, c, p, target, amount);
  }

  /** A contract nobody has used is sound. */
  lemma FreshBooksAreSound(st: Store, c: string)
    requires forall s | s in st :: Quiet(s)
    ensures Sound(BooksOf(st, c))
  {
    hide Total;
    ZeroWeights(st, Weigh(c, Collateral));
    ZeroWeights(st, Weigh(c, Debt));
    ZeroWeights(st, Weigh(c, Coin));
    assert At(c, TotalCollateral) !in st by { assert !Quiet(At(c, TotalCollateral)); }
    assert At(c, TotalDebt) !in st by { assert !Quiet(At(c, TotalDebt)); }
  }
}
