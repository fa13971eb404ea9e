/** What every run of the lending contract keeps: shares add up, debts are covered, and the vault backs both. */
module LendTheorems {
  import opened Common
  import opened ContractStore
  import opened Lend
  import U256

  // -------- the books --------

  function SharesWeight(c: string): Weight {
    (s: Slot, v: Value) => if s.contract == c && s.key.LendShares? && v.Word? then v.n else 0
  }

  function DebtWeight(c: string): Weight {
    (s: Slot, v: Value) => if s.contract == c && s.key.LendDebt? && v.Word? then v.n else 0
  }

  function SharesOf(st: Store, c: string, user: string): u64 { Num(st, Slot(c, LendShares(user))) }
  function DebtOf(st: Store, c: string, user: string): u64 { Num(st, Slot(c, LendDebt(user))) }

  /** Stored totals, true sums, and the vault's balance of the asset. */
  datatype Books = Books(totShares: int, totDebt: int, sumShares: int, sumDebt: int, vault: int)

  ghost function BooksOf(st: Store, c: string, asset: string): Books {
    Books(
      Num(st, Slot(c, LendTotalShares)),
      Num(st, Slot(c, LendTotalDebt)),
      Total(st, SharesWeight(c)),
      Total(st, DebtWeight(c)),
      Balance(st, asset, Vault(c)))
  }

  /** Shares add up to their total, and the debts of users are within theirs; interest only widens the gap. */
  predicate Sound(b: Books) {
    b.sumShares == b.totShares && b.sumDebt <= b.totDebt
  }

  /** Total debt that is nobody's: interest is added to the total and to no user. */
  function Unowned(b: Books): int {
    b.totDebt - b.sumDebt
  }

  /** What the vault holds beyond what it owes, counting what it has lent. */
  function Surplus(b: Books): int {
    b.vault + b.sumDebt - b.sumShares
  }

  function Minus(x: int): int {
    -x
  }

  // -------- the stages of a call --------

  predicate AccrueSlot(c: string, s: Slot) {
    s.contract == c && (s.key.LendAccrueHeight? || s.key.LendTotalDebt?)
  }

  predicate EventSlot(s: Slot) {
    s.key.EventSeq? || s.key.EventAt?
  }

  /** The slots of users' shares and debts, and the configuration. */
  predicate Core(s: Slot) {
    s.key.LendShares? || s.key.LendDebt? || s.key.LendAsset? || s.key.LendTotalShares?
  }

  ghost predicate SameCore(st: Store, next: Store) {
    forall s: Slot | Core(s) :: (s in next <==> s in st) && (s in st ==> next[s] == st[s])
  }

  /** Accruing interest touches only the total debt, which does not fall. */
  lemma AccrueDoes(st: Store, c: string, cfg: Cfg, height: u64, asset: string)
    requires Accrue(st, c, cfg, height).Some?
    ensures var acc := Accrue(st, c, cfg, height).value;
      var next := ApplyAll(st, acc.changes);
      && SameCore(st, next)
      && (forall s: Slot | s.key.TokenBalance? :: (s in next <==> s in st) && (s in st ==> next[s] == st[s]))
      && BooksOf(next, c, asset) == BooksOf(st, c, asset).(totDebt := BooksOf(next, c, asset).totDebt)
      && BooksOf(st, c, asset).totDebt <= BooksOf(next, c, asset).totDebt
      && (DebtNow(st, c, acc).Some? ==> BooksOf(next, c, asset).totDebt == DebtNow(st, c, acc).value)
  {
    hide Interest, Total;
    var acc := Accrue(st, c, cfg, height).value;
    var touched := (s: Slot) => AccrueSlot(c, s);
    AccrueWithin(st, c, cfg, height);
    StageKeeps(st, acc.changes, touched);
    WeightlessChanges(st, acc.changes, SharesWeight(c));
    WeightlessChanges(st, acc.changes, DebtWeight(c));
    if |acc.changes| == 2 {
      assert acc.changes == [acc.changes[0], acc.changes[1]];
      Two(st, acc.changes[0], acc.changes[1]);
    } else {
      assert acc.changes[1..] == [];
    }
  }

  /** Interest as it is owed: without the 128-bit wrap. */
  function Owed(debt: nat, rate: nat, epochs: nat): nat {
    U256.Quotient(debt * rate * epochs, 10000)
  }

  /** What an accrual adds is what is owed exactly when the product stays within 128 bits. */
  lemma InterestIsOwedIff(debt: nat, rate: nat, epochs: nat)
    ensures Interest(debt, rate, epochs) == Owed(debt, rate, epochs) <==> debt * rate * epochs < TWO_128
  {
    var product := debt * rate * epochs;
    if product >= TWO_128 {
      LowerQuotient(product);
    }
  }

  lemma LowerQuotient(x: nat)
    requires x >= TWO_128
    ensures U256.Quotient(Wrap128(x), 10000) < U256.Quotient(x, 10000)
  {
  }

  /** An accrual that goes through adds its interest to the total debt, and nothing where none is due. */
  lemma AccrueAdds(st: Store, c: string, cfg: Cfg, height: u64)
    requires ReadCfg(st, c) == Some(cfg)
    requires Accrue(st, c, cfg, height).Some? && Accrue(st, c, cfg, height).value.debt.Some?
    ensures var debt, last := Num(st, Slot(c, LendTotalDebt)), Num(st, Slot(c, LendAccrueHeight));
      var rate := Num(st, Slot(c, LendInterestRate));
      last <= height && Accrue(st, c, cfg, height).value.debt.value == debt + Interest(debt, rate, height - last)
  {
    hide Interest;
    NoDebtNoInterest(cfg.interest, height - Num(st, Slot(c, LendAccrueHeight)));
  }

  lemma NoDebtNoInterest(rate: nat, epochs: nat)
    ensures Interest(0, rate, epochs) == 0
  {
    assert 0 * rate * epochs == 0;
  }

  lemma AccrueWithin(st: Store, c: string, cfg: Cfg, height: u64)
    requires Accrue(st, c, cfg, height).Some?
    ensures forall i | 0 <= i < |Accrue(st, c, cfg, height).value.changes| ::
      AccrueSlot(c, Accrue(st, c, cfg, height).value.changes[i].slot)
  {
    hide Interest;
  }

  lemma TransferDoes(st: Store, c: string, asset: string, from: Address, to: Address, amount: u64)
    requires TransferChanges(st, asset, from, to, amount).Some? && from != to
    requires from == Vault(c) || to == Vault(c)
    ensures var next := ApplyAll(st, TransferChanges(st, asset, from, to, amount).value);
      && SameCore(st, next)
      && BooksOf(next, c, asset) == BooksOf(st, c, asset).(
        vault := BooksOf(st, c, asset).vault + if to == Vault(c) then amount else Minus(amount))
  {
    hide Total, ApplyAll;
    var changes := TransferChanges(st, asset, from, to, amount).value;
    TransferMoves(st, asset, from, to, amount);
    WeightlessChanges(st, changes, SharesWeight(c));
    WeightlessChanges(st, changes, DebtWeight(c));
  }

  lemma EventDoes(before: Store, st: Store, c: string, asset: string, event: Value)
    requires EventChanges(before, c, event).Some?
    ensures var next := ApplyAll(st, EventChanges(before, c, event).value);
      SameCore(st, next) && BooksOf(next, c, asset) == BooksOf(st, c, asset)
  {
    hide Total, ApplyAll;
    var changes := EventChanges(before, c, event).value;
    StageKeeps(st, changes, EventSlot);
    WeightlessChanges(st, changes, SharesWeight(c));
    WeightlessChanges(st, changes, DebtWeight(c));
  }

  // -------- single entries --------

  lemma SetShares(st: Store, c: string, asset: string, user: string, v: u64)
    ensures var b, next := BooksOf(st, c, asset), st[Slot(c, LendShares(user)) := Word(v)];
      BooksOf(next, c, asset) == b.(sumShares := b.sumShares - SharesOf(st, c, user) + v)
  {
    hide Total;
    TotalUpdate(st, Slot(c, LendShares(user)), Word(v), SharesWeight(c));
    TotalUpdate(st, Slot(c, LendShares(user)), Word(v), DebtWeight(c));
  }

  lemma SetDebt(st: Store, c: string, asset: string, user: string, v: u64)
    ensures var b, next := BooksOf(st, c, asset), st[Slot(c, LendDebt(user)) := Word(v)];
      BooksOf(next, c, asset) == b.(sumDebt := b.sumDebt - DebtOf(st, c, user) + v)
  {
    hide Total;
    TotalUpdate(st, Slot(c, LendDebt(user)), Word(v), SharesWeight(c));
    TotalUpdate(st, Slot(c, LendDebt(user)), Word(v), DebtWeight(c));
  }

  lemma SetTotals(st: Store, c: string, asset: string, v: u64)
    ensures BooksOf(st[Slot(c, LendTotalShares) := Word(v)], c, asset) == BooksOf(st, c, asset).(totShares := v)
    ensures BooksOf(st[Slot(c, LendTotalDebt) := Word(v)], c, asset) == BooksOf(st, c, asset).(totDebt := v)
  {
    hide Total;
    TotalUpdate(st, Slot(c, LendTotalShares), Word(v), SharesWeight(c));
    TotalUpdate(st, Slot(c, LendTotalShares), Word(v), DebtWeight(c));
    TotalUpdate(st, Slot(c, LendTotalDebt), Word(v), SharesWeight(c));
    TotalUpdate(st, Slot(c, LendTotalDebt), Word(v), DebtWeight(c));
  }

  lemma SharesWritten(st: Store, c: string, asset: string, user: string, v: u64, total: u64)
    ensures var b := BooksOf(st, c, asset);
      BooksOf(ApplyAll(st, ShareChanges(c, user, v, total)), c, asset)
        == b.(sumShares := b.sumShares - SharesOf(st, c, user) + v, totShares := total)
  {
    hide BooksOf, ApplyAll;
    Two(st, ShareChanges(c, user, v, total)[0], ShareChanges(c, user, v, total)[1]);
    SetShares(st, c, asset, user, v);
    SetTotals(st[Slot(c, LendShares(user)) := Word(v)], c, asset, total);
  }

  lemma DebtWritten(st: Store, c: string, asset: string, user: string, v: u64, total: u64)
    ensures var b, next := BooksOf(st, c, asset), ApplyAll(st, DebtChanges(c, user, v, total));
      && BooksOf(next, c, asset) == b.(sumDebt := b.sumDebt - DebtOf(st, c, user) + v, totDebt := total)
      && forall u :: SharesOf(next, c, u) == SharesOf(st, c, u)
  {
    hide BooksOf, ApplyAll;
    Two(st, DebtChanges(c, user, v, total)[0], DebtChanges(c, user, v, total)[1]);
    SetDebt(st, c, asset, user, v);
    SetTotals(st[Slot(c, LendDebt(user)) := Word(v)], c, asset, total);
  }

  // -------- the books after a call --------

  /** After interest and the transfer: the total debt is current, the vault has moved, and the users have not. */
  ghost predicate Prepared(st: Store, st2: Store, c: string, asset: string, debt: Option<u64>, moved: int) {
    var b, b2 := BooksOf(st, c, asset), BooksOf(st2, c, asset);
    && SameCore(st, st2)
    && b2 == b.(totDebt := b2.totDebt, vault := b.vault + moved)
    && b.totDebt <= b2.totDebt && (debt.Some? ==> b2.totDebt == debt.value)
  }

  lemma Prepare(st: Store, c: string, cfg: Cfg, height: u64, from: Address, to: Address, amount: u64)
    requires Accrue(st, c, cfg, height).Some? && TransferChanges(st, cfg.asset, from, to, amount).Some?
    requires from != to && (from == Vault(c) || to == Vault(c))
    ensures var acc := Accrue(st, c, cfg, height).value;
      var st2 := ApplyAll(ApplyAll(st, acc.changes), TransferChanges(st, cfg.asset, from, to, amount).value);
      Prepared(st, st2, c, cfg.asset, DebtNow(st, c, acc), if to == Vault(c) then amount else Minus(amount))
  {
    hide ApplyAll, BooksOf, Accrue, TransferChanges;
    var acc := Accrue(st, c, cfg, height).value;
    var st1 := ApplyAll(st, acc.changes);
    AccrueDoes(st, c, cfg, height, cfg.asset);
    SameTransfer(st, st1, cfg.asset, from, to, amount);
    TransferDoes(st1, c, cfg.asset, from, to, amount);
  }

  lemma SameUsers(st: Store, st2: Store, c: string)
    requires SameCore(st, st2)
    ensures forall u :: SharesOf(st2, c, u) == SharesOf(st, c, u) && DebtOf(st2, c, u) == DebtOf(st, c, u)
    ensures ReadId(st2, Slot(c, LendAsset)) == ReadId(st, Slot(c, LendAsset))
  {
    forall u ensures SharesOf(st2, c, u) == SharesOf(st, c, u) && DebtOf(st2, c, u) == DebtOf(st, c, u) {
      assert Core(Slot(c, LendShares(u))) && Core(Slot(c, LendDebt(u)));
    }
    assert Core(Slot(c, LendAsset));
  }

  /** A call's net effect on the books. */
  ghost predicate Moves(st: Store, next: Store, c: string, asset: string, shares: int, debt: int, tokens: int,
                        accrued: nat) {
    var b := BooksOf(st, c, asset);
    BooksOf(next, c, asset) == Books(
      b.totShares + shares, b.totDebt + accrued + debt, b.sumShares + shares, b.sumDebt + debt, b.vault + tokens)
  }

  lemma DepositBooks(st: Store, caller: string, c: string, cfg: Cfg, height: u64, amount: u64)
    requires Accrue(st, c, cfg, height).Some? && AddressOf(caller) != Vault(c)
    requires DepositCall(st, caller, c, cfg, Accrue(st, c, cfg, height).value, amount).Some?
    ensures var next := ApplyAll(st, DepositCall(st, caller, c, cfg, Accrue(st, c, cfg, height).value, amount).value);
      exists accrued: nat :: Moves(st, next, c, cfg.asset, amount, 0, amount, accrued)
  {
    hide ApplyAll, BooksOf, Accrue, TransferChanges, EventChanges;
    var acc := Accrue(st, c, cfg, height).value;
    var t := TransferChanges(st, cfg.asset, AddressOf(caller), Vault(c), amount).value;
    var e := Event(2, AddressOf(caller), [], [amount]);
    var shares, tot := SharesOf(st, c, caller) + amount, Num(st, Slot(c, LendTotalShares)) + amount;
    Stages(st, acc.changes, t, ShareChanges(c, caller, shares, tot), EventChanges(st, c, e).value);
    Prepare(st, c, cfg, height, AddressOf(caller), Vault(c), amount);
    var st2 := ApplyAll(ApplyAll(st, acc.changes), t);
    SameUsers(st, st2, c);
    SharesWritten(st2, c, cfg.asset, caller, shares, tot);
    EventDoes(st, ApplyAll(st2, ShareChanges(c, caller, shares, tot)), c, cfg.asset, e);
    TotalsAre(st, c, cfg.asset);
    var next := ApplyAll(st, DepositCall(st, caller, c, cfg, acc, amount).value);
    assert Moves(st, next, c, cfg.asset, amount, 0, amount,
      BooksOf(st2, c, cfg.asset).totDebt - BooksOf(st, c, cfg.asset).totDebt);
  }

  lemma TotalsAre(st: Store, c: string, asset: string)
    ensures BooksOf(st, c, asset).totShares == Num(st, Slot(c, LendTotalShares))
    ensures BooksOf(st, c, asset).totDebt == Num(st, Slot(c, LendTotalDebt))
  {
  }

  lemma WithdrawBooks(st: Store, env: Env, caller: string, c: string, cfg: Cfg, shares: u64)
    requires Accrue(st, c, cfg, env.height).Some? && AddressOf(caller) != Vault(c)
    requires WithdrawCall(st, env, caller, c, cfg, Accrue(st, c, cfg, env.height).value, shares).Some?
    ensures var next := ApplyAll(st,
      WithdrawCall(st, env, caller, c, cfg, Accrue(st, c, cfg, env.height).value, shares).value);
      exists accrued: nat :: Moves(st, next, c, cfg.asset, Minus(shares), 0, Minus(shares), accrued)
  {
    hide ApplyAll, BooksOf, Accrue, TransferChanges, EventChanges, HealthOk;
    var acc := Accrue(st, c, cfg, env.height).value;
    var t := TransferChanges(st, cfg.asset, Vault(c), AddressOf(caller), shares).value;
    var e := Event(3, AddressOf(caller), [], [shares]);
    var left, tot := SharesOf(st, c, caller) - shares, Num(st, Slot(c, LendTotalShares)) - shares;
    Stages(st, acc.changes, t, ShareChanges(c, caller, left, tot), EventChanges(st, c, e).value);
    Prepare(st, c, cfg, env.height, Vault(c), AddressOf(caller), shares);
    var st2 := ApplyAll(ApplyAll(st, acc.changes), t);
    SameUsers(st, st2, c);
    SharesWritten(st2, c, cfg.asset, caller, left, tot);
    EventDoes(st, ApplyAll(st2, ShareChanges(c, caller, left, tot)), c, cfg.asset, e);
    TotalsAre(st, c, cfg.asset);
    var next := ApplyAll(st, WithdrawCall(st, env, caller, c, cfg, acc, shares).value);
    assert Moves(st, next, c, cfg.asset, Minus(shares), 0, Minus(shares),
      BooksOf(st2, c, cfg.asset).totDebt - BooksOf(st, c, cfg.asset).totDebt);
  }

  lemma BorrowBooks(st: Store, env: Env, caller: string, c: string, cfg: Cfg, amount: u64)
    requires Accrue(st, c, cfg, env.height).Some? && AddressOf(caller) != Vault(c)
    requires BorrowCall(st, env, caller, c, cfg, Accrue(st, c, cfg, env.height).value, amount).Some?
    ensures var next := ApplyAll(st,
      BorrowCall(st, env, caller, c, cfg, Accrue(st, c, cfg, env.height).value, amount).value);
      exists accrued: nat :: Moves(st, next, c, cfg.asset, 0, amount, Minus(amount), accrued)
  {
    hide ApplyAll, BooksOf, Accrue, TransferChanges, EventChanges, HealthOk, DebtNow;
    var acc := Accrue(st, c, cfg, env.height).value;
    var t := TransferChanges(st, cfg.asset, Vault(c), AddressOf(caller), amount).value;
    var e := Event(4, AddressOf(caller), [], [amount]);
    var debt, tot := DebtOf(st, c, caller) + amount, DebtNow(st, c, acc).value + amount;
    Stages(st, acc.changes, t, DebtChanges(c, caller, debt, tot), EventChanges(st, c, e).value);
    Prepare(st, c, cfg, env.height, Vault(c), AddressOf(caller), amount);
    var st2 := ApplyAll(ApplyAll(st, acc.changes), t);
    SameUsers(st, st2, c);
    DebtWritten(st2, c, cfg.asset, caller, debt, tot);
    EventDoes(st, ApplyAll(st2, DebtChanges(c, caller, debt, tot)), c, cfg.asset, e);
    var next := ApplyAll(st, BorrowCall(st, env, caller, c, cfg, acc, amount).value);
    assert Moves(st, next, c, cfg.asset, 0, amount, Minus(amount),
      BooksOf(st2, c, cfg.asset).totDebt - BooksOf(st, c, cfg.asset).totDebt);
  }

  lemma RepayBooks(st: Store, caller: string, c: string, cfg: Cfg, height: u64, amount: u64)
    requires Accrue(st, c, cfg, height).Some? && AddressOf(caller) != Vault(c)
    requires RepayCall(st, caller, c, cfg, Accrue(st, c, cfg, height).value, amount).Some?
    ensures var next := ApplyAll(st, RepayCall(st, caller, c, cfg, Accrue(st, c, cfg, height).value, amount).value);
      var pay := Min(amount, DebtOf(st, c, caller));
      exists accrued: nat :: Moves(st, next, c, cfg.asset, 0, Minus(pay), pay, accrued)
  {
    hide ApplyAll, BooksOf, Accrue, TransferChanges, EventChanges, DebtNow;
    var acc := Accrue(st, c, cfg, height).value;
    var pay := Min(amount, DebtOf(st, c, caller));
    var t := TransferChanges(st, cfg.asset, AddressOf(caller), Vault(c), pay).value;
    var e := Event(5, AddressOf(caller), [], [pay]);
    var debt, tot := DebtOf(st, c, caller) - pay, DebtNow(st, c, acc).value - pay;
    Stages(st, acc.changes, t, DebtChanges(c, caller, debt, tot), EventChanges(st, c, e).value);
    Prepare(st, c, cfg, height, AddressOf(caller), Vault(c), pay);
    var st2 := ApplyAll(ApplyAll(st, acc.changes), t);
    SameUsers(st, st2, c);
    DebtWritten(st2, c, cfg.asset, caller, debt, tot);
    EventDoes(st, ApplyAll(st2, DebtChanges(c, caller, debt, tot)), c, cfg.asset, e);
    var next := ApplyAll(st, RepayCall(st, caller, c, cfg, acc, amount).value);
    assert Moves(st, next, c, cfg.asset, 0, Minus(pay), pay,
      BooksOf(st2, c, cfg.asset).totDebt - BooksOf(st, c, cfg.asset).totDebt);
  }

  /** Two share entries written one after the other, from values read before either. */
  lemma SeizedShares(st: Store, c: string, asset: string, victim: string, vLeft: u64, caller: string, next: u64)
    ensures var changes :=
      [Change(Slot(c, LendShares(victim)), Word(vLeft)), Change(Slot(c, LendShares(caller)), Word(next))];
      var b := BooksOf(st, c, asset);
      BooksOf(ApplyAll(st, changes), c, asset) == b.(sumShares :=
        if victim == caller then b.sumShares - SharesOf(st, c, caller) + next
        else b.sumShares - SharesOf(st, c, victim) + vLeft - SharesOf(st, c, caller) + next)
  {
    hide BooksOf, ApplyAll;
    var a, b := Change(Slot(c, LendShares(victim)), Word(vLeft)), Change(Slot(c, LendShares(caller)), Word(next));
    Two(st, a, b);
    SetShares(st, c, asset, victim, vLeft);
    SetShares(st[a.slot := a.value], c, asset, caller, next);
  }

  predicate Liquidated(b: Books, next: Books, victim: string, caller: string, pay: nat, seized: nat, accrued: nat) {
    next == Books(
      b.totShares, b.totDebt + accrued - pay, if victim == caller then b.sumShares + seized else b.sumShares,
      b.sumDebt - pay, b.vault + pay)
  }

  /** A liquidation pays debt and moves shares; when the victim is the caller the seized shares are created. */
  lemma LiquidateBooks(st: Store, env: Env, caller: string, c: string, cfg: Cfg, victim: string, amount: u64)
    requires Accrue(st, c, cfg, env.height).Some? && AddressOf(caller) != Vault(c)
    requires LiquidateCall(st, env, caller, c, cfg, Accrue(st, c, cfg, env.height).value, victim, amount).Some?
    ensures var next := ApplyAll(st,
      LiquidateCall(st, env, caller, c, cfg, Accrue(st, c, cfg, env.height).value, victim, amount).value);
      var b := BooksOf(st, c, cfg.asset);
      var pay := Min(amount, DebtOf(st, c, victim));
      var seized := Seized(cfg, pay, SharesOf(st, c, victim));
      && seized.Some? && seized.value > 0
      && exists accrued: nat :: Liquidated(b, BooksOf(next, c, cfg.asset), victim, caller, pay, seized.value, accrued)
  {
    hide ApplyAll, BooksOf, Accrue, TransferChanges, EventChanges, HealthOk, DebtNow, Seized;
    var acc := Accrue(st, c, cfg, env.height).value;
    var me := AddressOf(caller);
    var pay := Min(amount, DebtOf(st, c, victim));
    var seize := Seized(cfg, pay, SharesOf(st, c, victim)).value;
    var t := TransferChanges(st, cfg.asset, me, Vault(c), pay).value;
    var e := Event(6, me, [victim], [pay, seize]);
    var debt, tot := DebtOf(st, c, victim) - pay, DebtNow(st, c, acc).value - pay;
    var vLeft, mine := SharesOf(st, c, victim) - seize, SharesOf(st, c, caller) + seize;
    var d := DebtChanges(c, victim, debt, tot);
    var s := [Change(Slot(c, LendShares(victim)), Word(vLeft)), Change(Slot(c, LendShares(caller)), Word(mine))];
    Stages(st, acc.changes, t, d + s, EventChanges(st, c, e).value);
    Prepare(st, c, cfg, env.height, me, Vault(c), pay);
    var st2 := ApplyAll(ApplyAll(st, acc.changes), t);
    SameUsers(st, st2, c);
    ApplyConcat(st2, d, s);
    DebtWritten(st2, c, cfg.asset, victim, debt, tot);
    SeizedShares(ApplyAll(st2, d), c, cfg.asset, victim, vLeft, caller, mine);
    EventDoes(st, ApplyAll(st2, d + s), c, cfg.asset, e);
    var accrued: nat := BooksOf(st2, c, cfg.asset).totDebt - BooksOf(st, c, cfg.asset).totDebt;
    var next := ApplyAll(st, LiquidateCall(st, env, caller, c, cfg, acc, victim, amount).value);
    assert Liquidated(BooksOf(st, c, cfg.asset), BooksOf(next, c, cfg.asset), victim, caller, pay, seize, accrued);
  }

  // -------- one call --------

  /** Neither a call in the vault's own name nor a liquidation of oneself. */
  predicate Ordinary(caller: string, c: string, call: Call) {
    AddressOf(caller) != Vault(c) && (call.Liquidate? ==> call.victim != caller)
  }

  /** Every call but a configuration keeps the books sound and what the vault has to spare. */
  lemma CallKeepsBooks(st: Store, env: Env, caller: string, c: string, call: Call)
    requires Apply(st, env, caller, c, call).Some? && !call.Configure? && Ordinary(caller, c, call)
    ensures ReadCfg(st, c).Some?
    ensures var asset := ReadCfg(st, c).value.asset;
      var b, b' := BooksOf(st, c, asset), BooksOf(ApplyAll(st, Apply(st, env, caller, c, call).value), c, asset);
      (Sound(b) ==> Sound(b')) && Surplus(b') == Surplus(b) && Unowned(b') >= Unowned(b)
  {
    hide ApplyAll, BooksOf, Accrue, CfgBroken, ReadCfg, DepositCall, WithdrawCall, BorrowCall, RepayCall, LiquidateCall,
      AccrueCall, Seized;
    var cfg := ReadCfg(st, c).value;
    match call
    case AccrueInterest => AccrueBooks(st, caller, c, cfg, env.height);
    case Deposit(amount) => DepositBooks(st, caller, c, cfg, env.height, amount);
    case Withdraw(shares) => WithdrawBooks(st, env, caller, c, cfg, shares);
    case Borrow(amount) => BorrowBooks(st, env, caller, c, cfg, amount);
    case Repay(amount) => RepayBooks(st, caller, c, cfg, env.height, amount);
    case Liquidate(victim, amount) => LiquidateBooks(st, env, caller, c, cfg, victim, amount);
  }

  lemma AccrueBooks(st: Store, caller: string, c: string, cfg: Cfg, height: u64)
    requires Accrue(st, c, cfg, height).Some?
    requires AccrueCall(st, caller, c, Accrue(st, c, cfg, height).value).Some?
    ensures var next := ApplyAll(st, AccrueCall(st, caller, c, Accrue(st, c, cfg, height).value).value);
      exists accrued: nat :: Moves(st, next, c, cfg.asset, 0, 0, 0, accrued)
  {
    hide ApplyAll, BooksOf, Accrue, EventChanges;
    var acc := Accrue(st, c, cfg, height).value;
    var e := Event(7, AddressOf(caller), [], []);
    ApplyConcat(st, acc.changes, EventChanges(st, c, e).value);
    AccrueDoes(st, c, cfg, height, cfg.asset);
    var st1 := ApplyAll(st, acc.changes);
    EventDoes(st, st1, c, cfg.asset, e);
    var next := ApplyAll(st, AccrueCall(st, caller, c, acc).value);
    assert Moves(st, next, c, cfg.asset, 0, 0, 0,
      BooksOf(st1, c, cfg.asset).totDebt - BooksOf(st, c, cfg.asset).totDebt);
  }

  /** A liquidation keeps the books sound exactly when the victim is somebody else. */
  lemma LiquidationKeepsIff(st: Store, env: Env, caller: string, c: string, victim: string, amount: u64)
    requires Apply(st, env, caller, c, Liquidate(victim, amount)).Some? && AddressOf(caller) != Vault(c)
    requires ReadCfg(st, c).Some? && Sound(BooksOf(st, c, ReadCfg(st, c).value.asset))
    ensures var next := ApplyAll(st, Apply(st, env, caller, c, Liquidate(victim, amount)).value);
      Sound(BooksOf(next, c, ReadCfg(st, c).value.asset)) <==> victim != caller
  {
    hide ApplyAll, BooksOf, Accrue, CfgBroken, ReadCfg, LiquidateCall, Seized;
    LiquidateBooks(st, env, caller, c, ReadCfg(st, c).value, victim, amount);
  }

  lemma {:induction false} EntryAtMostTotal(st: Store, s: Slot, w: Weight)
    ensures WeightAt(st, s, w) <= Total(st, w)
  {
    if s in st {
      TotalRemove(st, s, w);
    }
  }

  /** In sound books nobody has more shares or debt than the totals: the tests for going below zero never refuse. */
  lemma GuardsNeverFire(st: Store, c: string, cfg: Cfg, height: u64, user: string)
    requires Sound(BooksOf(st, c, cfg.asset)) && Accrue(st, c, cfg, height).Some?
    ensures SharesOf(st, c, user) <= Num(st, Slot(c, LendTotalShares))
    ensures var acc := Accrue(st, c, cfg, height).value;
      DebtNow(st, c, acc).Some? ==> DebtOf(st, c, user) <= DebtNow(st, c, acc).value
  {
    hide Accrue, ApplyAll, Total;
    EntryAtMostTotal(st, Slot(c, LendShares(user)), SharesWeight(c));
    EntryAtMostTotal(st, Slot(c, LendDebt(user)), DebtWeight(c));
    AccrueDoes(st, c, cfg, height, cfg.asset);
  }

  // -------- configuration --------

  lemma {:induction false} ConfigDoes(st: Store, c: string, changes: seq<Change>, w: Weight)
    requires forall i | 0 <= i < |changes| :: !changes[i].slot.key.LendShares? && !changes[i].slot.key.LendDebt?
    requires w == SharesWeight(c) || w == DebtWeight(c)
    ensures Total(ApplyAll(st, changes), w) == Total(st, w)
  {
    WeightlessChanges(st, changes, w);
  }

  /** Anyone may configure again; totals restart at zero, which is sound exactly when nobody has shares or debt. */
  lemma ConfiguringKeepsIff(st: Store, env: Env, caller: string, c: string, call: Call)
    requires call.Configure? && Apply(st, env, caller, c, call).Some?
    ensures var next := ApplyAll(st, Apply(st, env, caller, c, call).value);
      Sound(BooksOf(next, c, call.asset)) <==> Total(st, SharesWeight(c)) == 0 && Total(st, DebtWeight(c)) == 0
  {
    hide Total, ReadCfg;
    var changes := ConfigureCall(st, caller, c, env.height, call).value;
    ConfigDoes(st, c, changes, SharesWeight(c));
    ConfigDoes(st, c, changes, DebtWeight(c));
    ZeroedTotals(st, c, changes);
  }

  lemma ZeroedTotals(st: Store, c: string, changes: seq<Change>)
    requires |changes| == 11 && !changes[8].slot.key.LendTotalShares? && !changes[8].slot.key.LendTotalDebt?
    requires changes[6] == Change(Slot(c, LendTotalShares), Word(0))
      && changes[7] == Change(Slot(c, LendTotalDebt), Word(0))
    requires EventSlot(changes[9].slot) && EventSlot(changes[10].slot)
    ensures Num(ApplyAll(st, changes), Slot(c, LendTotalShares)) == 0
    ensures Num(ApplyAll(st, changes), Slot(c, LendTotalDebt)) == 0
  {
    hide ApplyAll;
    var early, totals, late := changes[..6], changes[6..8], changes[8..];
    assert changes == early + totals + late;
    ApplyConcat(st, early + totals, late);
    ApplyConcat(st, early, totals);
    assert totals == [changes[6], changes[7]];
    Two(ApplyAll(st, early), changes[6], changes[7]);
    StageKeeps(ApplyAll(ApplyAll(st, early), totals), late, NotATotal);
  }

  predicate NotATotal(s: Slot) {
    !s.key.LendTotalShares? && !s.key.LendTotalDebt?
  }

  // -------- runs --------

  datatype Step = Step(env: Env, caller: string, call: Call)

  /** A refused call changes nothing. */
  function Perform(st: Store, c: string, step: Step): Store {
    var changes := Apply(st, step.env, step.caller, c, step.call);
    if changes.None? then st else ApplyAll(st, changes.value)
  }

  function RunAll(st: Store, c: string, steps: seq<Step>): Store {
    if steps == [] then st else Perform(RunAll(st, c, steps[..|steps| - 1]), c, steps[|steps| - 1])
  }

  predicate OrdinaryRun(c: string, steps: seq<Step>) {
    forall i | 0 <= i < |steps| :: !steps[i].call.Configure? && Ordinary(steps[i].caller, c, steps[i].call)
  }

  predicate NotConfig(s: Slot) {
    !s.key.LendAsset? && !s.key.LendInitialized? && !s.key.LendCollateralFactor? && !s.key.LendLiquidationThreshold?
    && !s.key.LendInterestRate? && !s.key.LendReserveFactor?
  }

  lemma CallKeepsConfig(st: Store, env: Env, caller: string, c: string, call: Call)
    requires Apply(st, env, caller, c, call).Some? && !call.Configure?
    ensures SameOutside(st, ApplyAll(st, Apply(st, env, caller, c, call).value), NotConfig)
  {
    hide ApplyAll, Accrue, TransferChanges, EventChanges, HealthOk, Seized, ReadCfg, CfgBroken;
    var changes := Apply(st, env, caller, c, call).value;
    PartsLeaveConfig(st, c, ReadCfg(st, c).value, env.height);
    assert Within(changes, NotConfig);
    StageKeeps(st, changes, NotConfig);
  }

  /** Interest, transfers and events leave the configuration alone. */
  lemma PartsLeaveConfig(st: Store, c: string, cfg: Cfg, height: u64)
    ensures Accrue(st, c, cfg, height).Some? ==> Within(Accrue(st, c, cfg, height).value.changes, NotConfig)
    ensures forall from, to, amount | TransferChanges(st, cfg.asset, from, to, amount).Some? ::
      Within(TransferChanges(st, cfg.asset, from, to, amount).value, NotConfig)
    ensures forall e | EventChanges(st, c, e).Some? :: Within(EventChanges(st, c, e).value, NotConfig)
  {
    hide Interest;
  }

  /** The asset, both ratios and both rates are those last configured, in every run of other calls. */
  lemma {:induction false} RunKeepsConfig(st: Store, c: string, steps: seq<Step>)
    requires forall i | 0 <= i < |steps| :: !steps[i].call.Configure?
    ensures SameOutside(st, RunAll(st, c, steps), NotConfig)
  {
    if steps != [] {
      hide Apply, ApplyAll;
      var front, last := steps[..|steps| - 1], steps[|steps| - 1];
      RunKeepsConfig(st, c, front);
      var before := RunAll(st, c, front);
      if Apply(before, last.env, last.caller, c, last.call).Some? {
        CallKeepsConfig(before, last.env, last.caller, c, last.call);
      }
    }
  }

  /** Over every run after a configuration: the asset stays, the books stay sound, and the surplus never changes. */
  lemma {:induction false} RunKeepsBooks(st: Store, c: string, asset: string, steps: seq<Step>)
    requires OrdinaryRun(c, steps) && ReadId(st, Slot(c, LendAsset)) == Some(asset)
    requires Sound(BooksOf(st, c, asset))
    ensures var next := RunAll(st, c, steps);
      && ReadId(next, Slot(c, LendAsset)) == Some(asset)
      && Sound(BooksOf(next, c, asset)) && Surplus(BooksOf(next, c, asset)) == Surplus(BooksOf(st, c, asset))
      && Unowned(BooksOf(next, c, asset)) >= Unowned(BooksOf(st, c, asset))
  {
    if steps != [] {
      hide Apply, ApplyAll, BooksOf, Sound, Surplus, Unowned;
      var front, last := steps[..|steps| - 1], steps[|steps| - 1];
      RunKeepsBooks(st, c, asset, front);
      var before := RunAll(st, c, front);
      if Apply(before, last.env, last.caller, c, last.call).Some? {
        CallKeepsBooks(before, last.env, last.caller, c, last.call);
        CallKeepsConfig(before, last.env, last.caller, c, last.call);
        assert !NotConfig(Slot(c, LendAsset));
      }
    }
  }

  /** Interest once added can never be repaid: the total debt never falls below what was nobody's before. */
  lemma InterestStaysOwed(st: Store, c: string, asset: string, steps: seq<Step>)
    requires OrdinaryRun(c, steps) && ReadId(st, Slot(c, LendAsset)) == Some(asset)
    requires Sound(BooksOf(st, c, asset))
    ensures Num(RunAll(st, c, steps), Slot(c, LendTotalDebt)) >= Unowned(BooksOf(st, c, asset))
  {
    hide Total;
    RunKeepsBooks(st, c, asset, steps);
  }
}
