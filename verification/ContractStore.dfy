/**
 Contract storage as the native contracts see it: a last-write-wins map from hashed keys to values, the token ledger
 kept in it, and sums over its entries. A SHA-256 key or address is represented by the text it is the hash of.
 */
module ContractStore {
  import opened Common

  datatype Address = Sha(preimage: string)

  datatype Key =
    | TokenBalance(owner: Address)
    | PoolToken0 | PoolToken1 | PoolReserve0 | PoolReserve1 | PoolSupply | PoolFee | PoolShare(account: string)
    | LendInitialized | LendAsset | LendCollateralFactor | LendLiquidationThreshold | LendInterestRate
    | LendReserveFactor | LendTotalShares | LendTotalDebt | LendAccrueHeight
    | LendShares(account: string) | LendDebt(account: string)
    | Stable(field: StableField)
    | EventSeq | EventAt(seq_: nat)

  /** What the stablecoin keeps: accounts' collateral, debt and coins, their totals, and its parameters. */
  datatype StableField =
    | Held(holding: Holding, account: string) | TotalCollateral | TotalDebt
    | Owner | Feed | OracleHeight | Param(name: ParamName)

  datatype Holding = Collateral | Debt | Coin

  datatype ParamName =
    | ParamsSet | CollateralRatio | LiquidationRatio | Penalty | DebtCeiling | MinDeposit | MinMint | Staleness

  datatype Slot = Slot(contract: string, key: Key)

  /** An 8-byte integer, a 32-byte identifier, or an event record. */
  datatype Value = Word(n: u64) | Id(hex: string) | Event(op: nat, who: Address, ids: seq<string>, words: seq<u64>)

  type Store = map<Slot, Value>

  datatype Change = Change(slot: Slot, value: Value)

  /** Missing reads as 0; a value that is not 8 bytes long is an error. */
  function ReadWord(st: Store, slot: Slot): Option<u64> {
    if slot !in st then Some(0) else if st[slot].Word? then Some(st[slot].n) else None
  }

  function ReadId(st: Store, slot: Slot): Option<string> {
    if slot in st && st[slot].Id? then Some(st[slot].hex) else None
  }

  /** The number a well-formed slot stands for. */
  function Num(st: Store, slot: Slot): u64 {
    if slot in st && st[slot].Word? then st[slot].n else 0
  }

  function ApplyAll(st: Store, changes: seq<Change>): Store
    decreases |changes|
  {
    if changes == [] then st else ApplyAll(st[changes[0].slot := changes[0].value], changes[1..])
  }

  /** 64-bit addition with the wrap-around test `sum < a`. */
  function CheckedAdd(a: u64, b: u64): (r: Option<u64>)
    ensures r == if a + b <= U64_MAX then Some(a + b) else None
  {
    var sum := Wrap64(a + b);
    if sum < a then None else Some(sum)
  }

  const TWO_128: nat := 0x1_0000_0000_0000_0000_0000_0000_0000_0000

  /** A product kept on 128 bits. */
  function Wrap128(x: nat): (r: nat)
    ensures x < TWO_128 ==> r == x
  {
    x % TWO_128
  }

  /** A wrapped product never makes more of it, and exactly when less than the bound it really reaches. */
  lemma WrappedReachesIff(x: nat, bound: nat)
    requires bound < TWO_128
    ensures Wrap128(x) >= bound <==> x >= bound && !(x >= TWO_128 && x % TWO_128 < bound)
  {
  }

  /** 64-bit subtraction. */
  function WrapSub(a: u64, b: u64): (r: u64)
    ensures b <= a ==> r == a - b
  {
    if b <= a then a - b else a + U64_MAX + 1 - b
  }

  /** Both balances are read before either is written. */
  function TransferChanges(st: Store, token: string, from: Address, to: Address, amount: u64): Option<seq<Change>> {
    var fromSlot, toSlot := Slot(token, TokenBalance(from)), Slot(token, TokenBalance(to));
    var fromBalance, toBalance := ReadWord(st, fromSlot), ReadWord(st, toSlot);
    if amount == 0 || fromBalance.None? || fromBalance.value < amount || toBalance.None? then None
    else
      match CheckedAdd(toBalance.value, amount)
      case None => None
      case Some(next) => Some([Change(fromSlot, Word(fromBalance.value - amount)), Change(toSlot, Word(next))])
  }

  function AddressOf(account: string): Address {
    Sha(account)
  }

  /** The changes of one event, or None when the event counter is exhausted. */
  function EventChanges(st: Store, contract: string, event: Value): Option<seq<Change>> {
    match ReadWord(st, Slot(contract, EventSeq))
    case None => None
    case Some(n) =>
      if n == U64_MAX then None
      else Some([Change(Slot(contract, EventSeq), Word(n + 1)), Change(Slot(contract, EventAt(n + 1)), event)])
  }

  lemma {:induction false} ApplyConcat(st: Store, a: seq<Change>, b: seq<Change>)
    ensures ApplyAll(st, a + b) == ApplyAll(ApplyAll(st, a), b)
    decreases |a|
  {
    if a == [] {
      assert a + b == b;
    } else {
      assert (a + b)[1..] == a[1..] + b;
      ApplyConcat(st[a[0].slot := a[0].value], a[1..], b);
    }
  }

  // -------- sums over entries --------

  type Weight = (Slot, Value) -> nat

  ghost function Total(st: Store, w: Weight): nat {
    if st == map[] then 0
    else
      var s :| s in st;
      w(s, st[s]) + Total(st - {s}, w)
  }

  /** The sum does not depend on the order in which entries are taken. */
  lemma {:induction false} TotalRemove(st: Store, s: Slot, w: Weight)
    requires s in st
    ensures Total(st, w) == w(s, st[s]) + Total(st - {s}, w)
    decreases |st|
  {
    var t :| t in st && Total(st, w) == w(t, st[t]) + Total(st - {t}, w);
    if s != t {
      TotalRemove(st - {t}, s, w);
      TotalRemove(st - {s}, t, w);
      assert st - {t} - {s} == st - {s} - {t};
    }
  }

  ghost function WeightAt(st: Store, s: Slot, w: Weight): nat {
    if s in st then w(s, st[s]) else 0
  }

  lemma TotalUpdate(st: Store, s: Slot, v: Value, w: Weight)
    ensures Total(st[s := v], w) + WeightAt(st, s, w) == Total(st, w) + w(s, v)
  {
    var next := st[s := v];
    TotalRemove(next, s, w);
    assert next - {s} == st - {s};
    if s in st {
      TotalRemove(st, s, w);
    } else {
      assert st - {s} == st;
    }
  }

  lemma {:induction false} ZeroWeights(st: Store, w: Weight)
    requires forall s :: s in st ==> w(s, st[s]) == 0
    ensures Total(st, w) == 0
    decreases |st|
  {
    if st != map[] {
      var s :| s in st;
      TotalRemove(st, s, w);
      ZeroWeights(st - {s}, w);
    }
  }

  // -------- applying change lists --------

  lemma One(st: Store, x: Change)
    ensures ApplyAll(st, [x]) == st[x.slot := x.value]
  {
    assert [x][1..] == [];
    assert ApplyAll(st, [x]) == ApplyAll(st[x.slot := x.value], []);
  }

  lemma Two(st: Store, a: Change, b: Change)
    ensures ApplyAll(st, [a, b]) == st[a.slot := a.value][b.slot := b.value]
  {
    var one := st[a.slot := a.value];
    assert [a, b][1..] == [b] && [b][1..] == [];
    assert ApplyAll(st, [a, b]) == ApplyAll(one, [b]) == ApplyAll(one[b.slot := b.value], []);
  }

  lemma Four(st: Store, a: Change, b: Change, c: Change, d: Change)
    ensures ApplyAll(st, [a, b, c, d]) == st[a.slot := a.value][b.slot := b.value][c.slot := c.value][d.slot := d.value]
  {
    assert [a, b, c, d] == [a, b] + [c, d];
    ApplyConcat(st, [a, b], [c, d]);
    Two(st, a, b);
    Two(st[a.slot := a.value][b.slot := b.value], c, d);
  }

  lemma Stages(st: Store, a: seq<Change>, b: seq<Change>, c: seq<Change>, d: seq<Change>)
    ensures ApplyAll(st, a + b + c + d) == ApplyAll(ApplyAll(ApplyAll(ApplyAll(st, a), b), c), d)
  {
    ApplyConcat(st, a + b + c, d);
    ApplyConcat(st, a + b, c);
    ApplyConcat(st, a, b);
  }

  /** Slots that a weight ignores do not move its sum. */
  ghost predicate Weightless(w: Weight, s: Slot) {
    forall v :: w(s, v) == 0
  }

  lemma {:induction false} WeightlessChanges(st: Store, changes: seq<Change>, w: Weight)
    requires forall i | 0 <= i < |changes| :: Weightless(w, changes[i].slot)
    ensures Total(ApplyAll(st, changes), w) == Total(st, w)
    decreases |changes|
  {
    if changes != [] {
      var c := changes[0];
      assert w(c.slot, c.value) == 0 && WeightAt(st, c.slot, w) == 0;
      TotalUpdate(st, c.slot, c.value, w);
      WeightlessChanges(st[c.slot := c.value], changes[1..], w);
    }
  }

  /** A slot holds what the last change to it says. */
  lemma {:induction false} Written(st: Store, changes: seq<Change>, i: nat)
    requires i < |changes| && forall j | i < j < |changes| :: changes[j].slot != changes[i].slot
    ensures changes[i].slot in ApplyAll(st, changes) && ApplyAll(st, changes)[changes[i].slot] == changes[i].value
    decreases |changes|
  {
    var rest, st1 := changes[1..], st[changes[0].slot := changes[0].value];
    if i == 0 {
      Unwritten(st1, rest, changes[0].slot);
    } else {
      assert rest[i - 1] == changes[i];
      Written(st1, rest, i - 1);
    }
  }

  lemma {:induction false} Unwritten(st: Store, changes: seq<Change>, s: Slot)
    requires forall i | 0 <= i < |changes| :: changes[i].slot != s
    ensures (s in ApplyAll(st, changes) <==> s in st) && (s in st ==> ApplyAll(st, changes)[s] == st[s])
    decreases |changes|
  {
    if changes != [] {
      Unwritten(st[changes[0].slot := changes[0].value], changes[1..], s);
    }
  }

  // -------- token balances --------

  function Balance(st: Store, token: string, owner: Address): u64 { Num(st, Slot(token, TokenBalance(owner))) }

  /** Weighs each holder's balance of a token. */
  function TokenWeight(token: string): Weight {
    (s: Slot, v: Value) => if s.contract == token && s.key.TokenBalance? && v.Word? then v.n else 0
  }

  /** A token transfer between different holders moves `amount` and keeps the token's total supply. */
  lemma TransferMoves(st: Store, token: string, from: Address, to: Address, amount: u64)
    requires TransferChanges(st, token, from, to, amount).Some?
    ensures var next := ApplyAll(st, TransferChanges(st, token, from, to, amount).value);
            && (forall s :: s != Slot(token, TokenBalance(from)) && s != Slot(token, TokenBalance(to)) ==>
                  (s in next <==> s in st) && (s in st ==> next[s] == st[s]))
            && Balance(next, token, to) == Balance(st, token, to) + amount
            && (from != to ==> Balance(next, token, from) == Balance(st, token, from) - amount)
            && (from != to ==> Total(next, TokenWeight(token)) == Total(st, TokenWeight(token)))
  {
    var changes := TransferChanges(st, token, from, to, amount).value;
    var fromSlot, toSlot := Slot(token, TokenBalance(from)), Slot(token, TokenBalance(to));
    var a, b := changes[0], changes[1];
    assert changes == [a, b];
    Two(st, a, b);
    if from != to {
      var w := TokenWeight(token);
      TotalUpdate(st, fromSlot, a.value, w);
      TotalUpdate(st[fromSlot := a.value], toSlot, b.value, w);
    }
  }

  lemma SameTransfer(st: Store, other: Store, token: string, from: Address, to: Address, amount: u64)
    requires forall s: Slot :: s.contract == token && s.key.TokenBalance? ==>
               (s in other <==> s in st) && (s in st ==> other[s] == st[s])
    ensures TransferChanges(other, token, from, to, amount) == TransferChanges(st, token, from, to, amount)
  {
  }

  // -------- stages of a call --------

  /** Every change of the list is to a slot that `touched` allows. */
  predicate Within(changes: seq<Change>, touched: Slot -> bool) {
    forall i | 0 <= i < |changes| :: touched(changes[i].slot)
  }

  ghost predicate SameOutside(st: Store, next: Store, touched: Slot -> bool) {
    forall s | !touched(s) :: (s in next <==> s in st) && (s in st ==> next[s] == st[s])
  }

  /** A list of changes leaves the other slots alone, and every sum that ignores its slots. */
  lemma {:induction false} StageKeeps(st: Store, changes: seq<Change>, touched: Slot -> bool)
    requires Within(changes, touched)
    ensures SameOutside(st, ApplyAll(st, changes), touched)
    decreases |changes|
  {
    if changes != [] {
      var c := changes[0];
      assert touched(c.slot);
      StageKeeps(st[c.slot := c.value], changes[1..], touched);
    }
  }

  /** Where only the middle of a list of changes writes, the rest can be forgotten. */
  lemma MiddleOnly(st: Store, a: seq<Change>, b: seq<Change>, d: seq<Change>, touched: Slot -> bool)
    requires Within(a, touched) && Within(d, touched)
    ensures forall s | !touched(s) ::
      Num(ApplyAll(st, a + b + d), s) == Num(ApplyAll(ApplyAll(st, a), b), s) && Num(ApplyAll(st, a), s) == Num(st, s)
  {
    hide ApplyAll;
    ApplyConcat(st, a + b, d);
    ApplyConcat(st, a, b);
    StageKeeps(st, a, touched);
    StageKeeps(ApplyAll(ApplyAll(st, a), b), d, touched);
  }
}
