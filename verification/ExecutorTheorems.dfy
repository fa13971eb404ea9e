/** Executing a plan of transfers: serial equivalence, conservation, and each transaction's one fate. */
module ExecutorTheorems {
  import opened Common
  import opened Sums
  import opened Executor

  // -------- planning --------

  lemma Symmetric(a: Scheduled, b: Scheduled)
    ensures Conflicts(a, b) <==> Conflicts(b, a)
  {
    assert Touches(a) * Touches(b) == Touches(b) * Touches(a);
  }

  lemma JoinIsConflictFree(group: seq<Scheduled>, s: Scheduled)
    requires ConflictFree(group) && Accepts(group, s)
    ensures ConflictFree(group + [s])
  {
    hide Conflicts;
    forall i | 0 <= i < |group| ensures !Conflicts(group[i], s) {
      Symmetric(group[i], s);
    }
  }

  lemma {:induction false} PlaceKeepsGroups(groups: seq<seq<Scheduled>>, s: Scheduled)
    requires forall g | g in groups :: ConflictFree(g)
    ensures forall g | g in Place(groups, s) :: ConflictFree(g)
    ensures multiset(Flatten(Place(groups, s))) == multiset(Flatten(groups)) + multiset{s}
  {
    if groups == [] {
      assert Place(groups, s) == [[s]] && Flatten([[s]]) == [s] + Flatten([]);
    } else if Accepts(groups[0], s) {
      var g := groups[0] + [s];
      JoinIsConflictFree(groups[0], s);
      assert ([g] + groups[1..])[1..] == groups[1..];
    } else {
      PlaceKeepsGroups(groups[1..], s);
      assert ([groups[0]] + Place(groups[1..], s))[1..] == Place(groups[1..], s);
    }
  }

  /** A plan puts every transaction of the batch in exactly one group, and no group holds two that conflict. */
  lemma {:induction false} PlanPartitionsBatch(batch: seq<Scheduled>)
    ensures forall g | g in Plan(batch) :: ConflictFree(g)
    ensures multiset(Flatten(Plan(batch))) == multiset(batch)
  {
    if batch != [] {
      PlanPartitionsBatch(batch[..|batch| - 1]);
      PlaceKeepsGroups(Plan(batch[..|batch| - 1]), batch[|batch| - 1]);
      assert batch == batch[..|batch| - 1] + [batch[|batch| - 1]];
    }
  }

  // -------- sorting --------

  lemma LastOf(txs: seq<Scheduled>)
    requires txs != []
    ensures multiset(txs) == multiset(txs[..|txs| - 1]) + multiset{txs[|txs| - 1]}
  {
    assert txs == txs[..|txs| - 1] + [txs[|txs| - 1]];
  }

  lemma Without(txs: seq<Scheduled>, i: nat)
    requires i < |txs|
    ensures multiset(txs) == multiset(txs[..i] + txs[i + 1..]) + multiset{txs[i]}
  {
    assert txs == txs[..i] + [txs[i]] + txs[i + 1..];
  }

  lemma SameLength(a: seq<Scheduled>, b: seq<Scheduled>)
    requires multiset(a) == multiset(b)
    ensures |a| == |b|
  {
    assert |multiset(a)| == |a| && |multiset(b)| == |b|;
  }

  lemma {:induction false} InsertByIdKeeps(sorted: seq<Scheduled>, s: Scheduled)
    ensures multiset(InsertById(sorted, s)) == multiset(sorted) + multiset{s}
  {
    if sorted != [] && sorted[|sorted| - 1].id > s.id {
      InsertByIdKeeps(sorted[..|sorted| - 1], s);
      LastOf(sorted);
    }
  }

  lemma {:induction false} SortByIdKeeps(txs: seq<Scheduled>)
    ensures multiset(SortById(txs)) == multiset(txs) && |SortById(txs)| == |txs|
  {
    if txs != [] {
      SortByIdKeeps(txs[..|txs| - 1]);
      InsertByIdKeeps(SortById(txs[..|txs| - 1]), txs[|txs| - 1]);
      LastOf(txs);
    }
    SameLength(SortById(txs), txs);
  }

  // -------- passes, one at a time --------

  /** What is done already and what the remaining passes will do make up the whole. */
  predicate Follows(whole: PassResult, applied: seq<Scheduled>, aborted: seq<Scheduled>, rest: PassResult) {
    whole.world == rest.world && whole.applied == applied + rest.applied && whole.aborted == aborted + rest.aborted
  }

  lemma PassesStep(chain: Chain, w: World, txs: seq<Scheduled>, left: nat)
    ensures left == 0 || txs == [] ==> Passes(chain, w, txs, left) == PassResult(w, [], txs, [])
    ensures left > 0 && txs != [] ==>
      var r := Pass(chain, w.accounts, w, txs);
      if |r.retry| == |txs| then Passes(chain, w, txs, left) == PassResult(r.world, r.applied, r.aborted + r.retry, [])
      else Follows(Passes(chain, w, txs, left), r.applied, r.aborted,
        Passes(chain, r.world, SortById(r.retry), left - 1))
  {
  }

  // -------- every transaction has one fate --------

  /** What a pass makes of one more transaction. */
  function PassOn(chain: Chain, snap: Accounts, r: PassResult, s: Scheduled): PassResult {
    match Commit(chain, snap, r.world, s)
    case Applied(w') => r.(world := w', applied := r.applied + [s])
    case Aborted => r.(aborted := r.aborted + [s])
    case Retried => r.(retry := r.retry + [s])
  }

  lemma PassOneMore(chain: Chain, snap: Accounts, w: World, txs: seq<Scheduled>)
    ensures Pass(chain, snap, w, txs) == if txs == [] then PassResult(w, [], [], [])
      else PassOn(chain, snap, Pass(chain, snap, w, txs[..|txs| - 1]), txs[|txs| - 1])
  {
    hide Commit;
  }

  lemma PassOnHasOneFate(chain: Chain, snap: Accounts, r: PassResult, s: Scheduled)
    ensures var next := PassOn(chain, snap, r, s);
      && multiset(next.applied) + multiset(next.aborted) + multiset(next.retry) ==
         multiset(r.applied) + multiset(r.aborted) + multiset(r.retry) + multiset{s}
      && |next.retry| <= |r.retry| + 1
  {
    hide Commit;
  }

  lemma {:induction false} PassPartitions(chain: Chain, snap: Accounts, w: World, txs: seq<Scheduled>)
    ensures var r := Pass(chain, snap, w, txs);
      multiset(r.applied) + multiset(r.aborted) + multiset(r.retry) == multiset(txs) && |r.retry| <= |txs|
  {
    hide Pass, PassOn;
    PassOneMore(chain, snap, w, txs);
    if txs != [] {
      var front, s := txs[..|txs| - 1], txs[|txs| - 1];
      PassPartitions(chain, snap, w, front);
      PassOnHasOneFate(chain, snap, Pass(chain, snap, w, front), s);
      assert txs == front + [s];
    }
  }

  predicate Accounted(r: PassResult, txs: seq<Scheduled>) {
    multiset(r.applied) + multiset(r.aborted) == multiset(txs)
  }

  lemma JoinRetries(a: seq<Scheduled>, b: seq<Scheduled>, retry: seq<Scheduled>, txs: seq<Scheduled>)
    requires multiset(a) + multiset(b) + multiset(retry) == multiset(txs)
    ensures multiset(a) + multiset(b + retry) == multiset(txs)
  {
    assert multiset(b + retry) == multiset(b) + multiset(retry);
  }

  lemma JoinFates(a: seq<Scheduled>, a': seq<Scheduled>, b: seq<Scheduled>, b': seq<Scheduled>,
    retry: seq<Scheduled>, txs: seq<Scheduled>)
    requires multiset(a) + multiset(b) + multiset(retry) == multiset(txs)
    requires multiset(a') + multiset(b') == multiset(retry)
    ensures multiset(a + a') + multiset(b + b') == multiset(txs)
  {
    assert multiset(a + a') + multiset(b + b') == multiset(a) + multiset(b) + (multiset(a') + multiset(b'));
  }

  lemma {:induction false} PassesPartition(chain: Chain, w: World, txs: seq<Scheduled>, left: nat)
    ensures Accounted(Passes(chain, w, txs, left), txs)
    decreases left
  {
    hide Pass, SortById, Passes;
    PassesStep(chain, w, txs, left);
    if left > 0 && txs != [] {
      var r := Pass(chain, w.accounts, w, txs);
      PassPartitions(chain, w.accounts, w, txs);
      if |r.retry| == |txs| {
        JoinRetries(r.applied, r.aborted, r.retry, txs);
      } else {
        SortByIdKeeps(r.retry);
        PassesPartition(chain, r.world, SortById(r.retry), left - 1);
        var rest := Passes(chain, r.world, SortById(r.retry), left - 1);
        JoinFates(r.applied, rest.applied, r.aborted, rest.aborted, r.retry, txs);
      }
    }
  }

  lemma {:induction false} FlattenLast(groups: seq<seq<Scheduled>>)
    requires groups != []
    ensures Flatten(groups) == Flatten(groups[..|groups| - 1]) + groups[|groups| - 1]
  {
    if |groups| > 1 {
      FlattenLast(groups[1..]);
      assert groups[1..][..|groups| - 2] == groups[..|groups| - 1][1..];
    }
  }

  /** Each transaction of the groups is applied or aborted, once. */
  lemma {:induction false} EveryTransactionHasOneFate(chain: Chain, w: World, groups: seq<seq<Scheduled>>)
    ensures Accounted(RunGroups(chain, w, groups), Flatten(groups))
  {
    if groups != [] {
      hide Passes, SortById;
      EveryTransactionHasOneFate(chain, w, groups[..|groups| - 1]);
      var before := RunGroups(chain, w, groups[..|groups| - 1]);
      FlattenLast(groups);
      SortByIdKeeps(groups[|groups| - 1]);
      PassesPartition(chain, before.world, SortById(groups[|groups| - 1]), PASSES);
    }
  }

  // -------- serial equivalence of any group --------

  /** With its accounts as in the snapshot, a transfer meets the fate that it would meet alone. */
  lemma SameAccountsSameFate(chain: Chain, snap: Accounts, w: World, s: Scheduled)
    requires Get(w.accounts, s.transfer.from) == Get(snap, s.transfer.from)
    requires Get(w.accounts, s.transfer.to) == Get(snap, s.transfer.to)
    ensures Attempt(chain, snap, s) == Attempt(chain, w.accounts, s)
    ensures Commit(chain, snap, w, s) == Commit(chain, w.accounts, w, s)
  {
    hide SplitFee;
  }

  lemma {:induction false} SerialConcat(chain: Chain, w: World, a: seq<Scheduled>, b: seq<Scheduled>)
    ensures RunSerially(chain, w, a + b) == RunSerially(chain, RunSerially(chain, w, a), b)
  {
    if b == [] {
      assert a + b == a;
    } else {
      hide RunOne;
      SerialConcat(chain, w, a, b[..|b| - 1]);
      assert (a + b)[..|a + b| - 1] == a + b[..|b| - 1];
    }
  }

  predicate AppliesAt(chain: Chain, w: World, txs: seq<Scheduled>, i: nat)
    requires i < |txs|
  {
    var before := RunSerially(chain, w, txs[..i]);
    Commit(chain, before.accounts, before, txs[i]).Applied?
  }

  /** Executed one after another, each of `txs` succeeds in its turn. */
  predicate AllApply(chain: Chain, w: World, txs: seq<Scheduled>) {
    forall i | 0 <= i < |txs| :: AppliesAt(chain, w, txs, i)
  }

  lemma AllApplyConcat(chain: Chain, w: World, a: seq<Scheduled>, b: seq<Scheduled>)
    requires AllApply(chain, w, a) && AllApply(chain, RunSerially(chain, w, a), b)
    ensures AllApply(chain, w, a + b)
  {
    hide RunSerially, Commit;
    forall i | 0 <= i < |a + b| ensures AppliesAt(chain, w, a + b, i) {
      if i < |a| {
        assert AppliesAt(chain, w, a, i);
        assert (a + b)[..i] == a[..i];
      } else {
        assert AppliesAt(chain, RunSerially(chain, w, a), b, i - |a|);
        assert (a + b)[..i] == a + b[..i - |a|];
        SerialConcat(chain, w, a, b[..i - |a|]);
      }
    }
  }

  predicate SerialAs(chain: Chain, w: World, r: PassResult) {
    r.world == RunSerially(chain, w, r.applied) && AllApply(chain, w, r.applied)
  }

  lemma {:induction false} PassIsSerial(chain: Chain, snap: Accounts, w: World, txs: seq<Scheduled>)
    ensures SerialAs(chain, w, Pass(chain, snap, w, txs))
  {
    hide Pass, Commit;
    PassOneMore(chain, snap, w, txs);
    if txs == [] {
      assert AllApply(chain, w, []);
    } else {
      var before := Pass(chain, snap, w, txs[..|txs| - 1]);
      var s := txs[|txs| - 1];
      PassIsSerial(chain, snap, w, txs[..|txs| - 1]);
      var fate := Commit(chain, snap, before.world, s);
      if fate.Applied? {
        AppliedFromSnapshot(chain, snap, before.world, s);
        AppendApplied(chain, w, before.applied, s);
      }
    }
  }

  lemma AppliedFromSnapshot(chain: Chain, snap: Accounts, w: World, s: Scheduled)
    requires Commit(chain, snap, w, s).Applied?
    ensures Commit(chain, w.accounts, w, s) == Commit(chain, snap, w, s)
  {
    hide Attempt;
    SameAccountsSameFate(chain, snap, w, s);
  }

  lemma AppendApplied(chain: Chain, w: World, applied: seq<Scheduled>, s: Scheduled)
    requires AllApply(chain, w, applied)
    requires var now := RunSerially(chain, w, applied); Commit(chain, now.accounts, now, s).Applied?
    ensures AllApply(chain, w, applied + [s])
    ensures RunSerially(chain, w, applied + [s]) == RunOne(chain, RunSerially(chain, w, applied), s)
  {
    hide Commit, RunOne;
    assert (applied + [s])[..|applied|] == applied;
    forall i | 0 <= i < |applied + [s]| ensures AppliesAt(chain, w, applied + [s], i) {
      if i < |applied| {
        assert AppliesAt(chain, w, applied, i);
        assert (applied + [s])[..i] == applied[..i];
      }
    }
  }

  lemma {:induction false} PassesAreSerial(chain: Chain, w: World, txs: seq<Scheduled>, left: nat)
    ensures SerialAs(chain, w, Passes(chain, w, txs, left))
    decreases left
  {
    if left > 0 && txs != [] {
      hide Pass, RunSerially, AllApply, SortById;
      var r := Pass(chain, w.accounts, w, txs);
      PassIsSerial(chain, w.accounts, w, txs);
      if |r.retry| != |txs| {
        var rest := Passes(chain, r.world, SortById(r.retry), left - 1);
        PassesAreSerial(chain, r.world, SortById(r.retry), left - 1);
        SerialConcat(chain, w, r.applied, rest.applied);
        AllApplyConcat(chain, w, r.applied, rest.applied);
      }
    }
  }

  /**
   * Whatever the groups, conflicting or not, the accounts that the executor leaves are those of executing the applied
   * transfers one after another, in the order of their commits, and each of them succeeds in its turn.
   */
  lemma {:induction false} ExecutionIsSerial(chain: Chain, w: World, groups: seq<seq<Scheduled>>)
    ensures SerialAs(chain, w, RunGroups(chain, w, groups))
  {
    if groups != [] {
      hide Passes, RunSerially, AllApply, SortById;
      ExecutionIsSerial(chain, w, groups[..|groups| - 1]);
      var before := RunGroups(chain, w, groups[..|groups| - 1]);
      PassesAreSerial(chain, before.world, SortById(groups[|groups| - 1]), PASSES);
      var last := RunGroup(chain, before.world, groups[|groups| - 1]);
      SerialConcat(chain, w, before.applied, last.applied);
      AllApplyConcat(chain, w, before.applied, last.applied);
    } else {
      assert RunGroups(chain, w, groups).applied == [];
    }
  }

  // -------- conservation --------

  lemma BalancesUpdate(accounts: Accounts, id: AccountId, a: Account)
    ensures Balances(accounts[id := a]) == Balances(accounts)[id := a.balance]
  {
  }

  function BalanceOf(accounts: Accounts, id: AccountId): nat {
    if id in accounts then accounts[id].balance else 0
  }

  lemma SetBalance(accounts: Accounts, id: AccountId, a: Account)
    ensures Sum(Balances(accounts[id := a])) + BalanceOf(accounts, id) == Sum(Balances(accounts)) + a.balance
  {
    BalancesUpdate(accounts, id, a);
    SumUpdate(Balances(accounts), id, a.balance);
  }

  /**
   * An applied transfer keeps balances plus burned fees plus tips, unless it pays its own sender: both changes are
   * computed from the snapshot and the second one wins, so that transfer adds its amount and its fee to the money.
   */
  lemma TransferKeepsMoneyIff(chain: Chain, w: World, s: Scheduled)
    requires Commit(chain, w.accounts, w, s).Applied?
    ensures SplitFee(chain, s).Some?
    ensures var paid := s.transfer.amount + SplitFee(chain, s).value.total;
      Money(RunOne(chain, w, s)) == if s.transfer.from == s.transfer.to then Money(w) + paid else Money(w)
    ensures Money(RunOne(chain, w, s)) == Money(w) <==>
      s.transfer.from != s.transfer.to || s.transfer.amount + SplitFee(chain, s).value.total == 0
  {
    hide Sum, SplitFee;
    var t := s.transfer;
    var e := Attempt(chain, w.accounts, s);
    SetBalance(w.accounts, t.from, e.fromNext);
    SetBalance(w.accounts[t.from := e.fromNext], t.to, e.toNext);
  }

  /** The nonce of an applied transfer stays exactly when it pays its own sender, which can then apply it again. */
  lemma NonceStaysIff(chain: Chain, w: World, s: Scheduled)
    requires Commit(chain, w.accounts, w, s).Applied?
    ensures var from, next := s.transfer.from, RunOne(chain, w, s).accounts;
      && from in next && from in w.accounts
      && (next[from].nonce == s.transfer.expectedNonce <==> from == s.transfer.to)
      && (from == s.transfer.to ==> next[from].balance == w.accounts[from].balance + s.transfer.amount)
  {
    hide SplitFee;
  }

  /** What an applied transfer to its own sender adds to the money. */
  function SelfPaid(chain: Chain, s: Scheduled): nat {
    var fees := SplitFee(chain, s);
    if s.transfer.from == s.transfer.to && fees.Some? then s.transfer.amount + fees.value.total else 0
  }

  function AllSelfPaid(chain: Chain, txs: seq<Scheduled>): nat {
    if txs == [] then 0 else AllSelfPaid(chain, txs[..|txs| - 1]) + SelfPaid(chain, txs[|txs| - 1])
  }

  lemma {:induction false} AppliedMoney(chain: Chain, w: World, txs: seq<Scheduled>)
    requires AllApply(chain, w, txs)
    ensures Money(RunSerially(chain, w, txs)) == Money(w) + AllSelfPaid(chain, txs)
  {
    if txs != [] {
      hide Money, Commit, SplitFee, RunOne;
      var front, s := txs[..|txs| - 1], txs[|txs| - 1];
      forall i | 0 <= i < |front| ensures AppliesAt(chain, w, front, i) {
        assert AppliesAt(chain, w, txs, i) && front[..i] == txs[..i];
      }
      AppliedMoney(chain, w, front);
      assert AppliesAt(chain, w, txs, |txs| - 1);
      TransferKeepsMoneyIff(chain, RunSerially(chain, w, front), s);
    }
  }

  /** Over any plan, conflicting or not, the money grows by exactly what applied transfers to their own senders add. */
  lemma ExecutionKeepsMoneyIff(chain: Chain, w: World, groups: seq<seq<Scheduled>>)
    ensures var r := RunGroups(chain, w, groups);
      && Money(r.world) == Money(w) + AllSelfPaid(chain, r.applied)
      && (Money(r.world) == Money(w) <==> AllSelfPaid(chain, r.applied) == 0)
  {
    hide RunGroups, Money, RunSerially, AllApply;
    ExecutionIsSerial(chain, w, groups);
    AppliedMoney(chain, w, RunGroups(chain, w, groups).applied);
  }

  predicate NoSelf(txs: seq<Scheduled>) {
    forall s | s in txs :: s.transfer.from != s.transfer.to
  }

  lemma {:induction false} SerialKeepsMoney(chain: Chain, w: World, txs: seq<Scheduled>)
    requires NoSelf(txs)
    ensures Money(RunSerially(chain, w, txs)) == Money(w)
  {
    if txs != [] {
      hide Money, Commit;
      SerialKeepsMoney(chain, w, txs[..|txs| - 1]);
      var before := RunSerially(chain, w, txs[..|txs| - 1]);
      var s := txs[|txs| - 1];
      if Commit(chain, before.accounts, before, s).Applied? {
        TransferKeepsMoneyIff(chain, before, s);
      }
    }
  }

  /** Executing any groups without self-transfers keeps balances plus burned fees plus tips. */
  lemma ExecutionKeepsMoney(chain: Chain, w: World, groups: seq<seq<Scheduled>>)
    requires NoSelf(Flatten(groups))
    ensures Money(RunGroups(chain, w, groups).world) == Money(w)
  {
    hide RunGroups, Money;
    ExecutionIsSerial(chain, w, groups);
    EveryTransactionHasOneFate(chain, w, groups);
    var r := RunGroups(chain, w, groups);
    forall s | s in r.applied ensures s.transfer.from != s.transfer.to {
      assert s in multiset(r.applied) + multiset(r.aborted);
      assert s in Flatten(groups);
    }
    SerialKeepsMoney(chain, w, r.applied);
  }

  // -------- conflict-free groups: any order --------

  lemma FeesFit(chain: Chain, w: World, s: Scheduled)
    requires Money(w) <= U64_MAX && Attempt(chain, w.accounts, s).Changes?
    ensures Commit(chain, w.accounts, w, s).Applied?
  {
    hide SplitFee, Sum;
    ValueAtMostSum(Balances(w.accounts), s.transfer.from);
  }

  /** Transfers over different accounts can be exchanged. */
  lemma Exchange(chain: Chain, w: World, a: Scheduled, b: Scheduled)
    requires !Conflicts(a, b) && NoSelf([a, b]) && Money(w) <= U64_MAX
    ensures RunOne(chain, RunOne(chain, w, a), b) == RunOne(chain, RunOne(chain, w, b), a)
  {
    hide Attempt, Money;
    assert a in [a, b] && b in [a, b];
    Apart(a, b);
    OneStep(chain, w, a);
    OneStep(chain, w, b);
    OneStep(chain, RunOne(chain, w, a), b);
    OneStep(chain, RunOne(chain, w, b), a);
    OthersUntouched(chain, w, a, b);
    OthersUntouched(chain, w, b, a);
    assert RunOne(chain, RunOne(chain, w, a), b).accounts == RunOne(chain, RunOne(chain, w, b), a).accounts;
  }

  lemma Apart(a: Scheduled, b: Scheduled)
    requires !Conflicts(a, b)
    ensures a.transfer.from != b.transfer.from && a.transfer.from != b.transfer.to
    ensures a.transfer.to != b.transfer.from && a.transfer.to != b.transfer.to
  {
    assert a.transfer.from in Touches(a) && a.transfer.to in Touches(a);
    assert b.transfer.from in Touches(b) && b.transfer.to in Touches(b);
    forall id ensures !(id in Touches(a) && id in Touches(b)) {
      assert id in Touches(a) * Touches(b) <==> id in Touches(a) && id in Touches(b);
    }
  }

  lemma OneStep(chain: Chain, w: World, s: Scheduled)
    requires Money(w) <= U64_MAX && s.transfer.from != s.transfer.to
    ensures Money(RunOne(chain, w, s)) == Money(w)
    ensures var e := Attempt(chain, w.accounts, s);
      var r := RunOne(chain, w, s);
      if e.Changes? then
        && r.accounts == w.accounts[s.transfer.from := e.fromNext][s.transfer.to := e.toNext]
        && r.burned == w.burned + e.fees.burn && r.tips == w.tips + e.fees.tip
      else r == w
  {
    hide Attempt, Money;
    if Attempt(chain, w.accounts, s).Changes? {
      FeesFit(chain, w, s);
      TransferKeepsMoneyIff(chain, w, s);
    }
  }

  lemma OthersUntouched(chain: Chain, w: World, a: Scheduled, b: Scheduled)
    requires !Conflicts(a, b)
    ensures Get(RunOne(chain, w, a).accounts, b.transfer.from) == Get(w.accounts, b.transfer.from)
    ensures Get(RunOne(chain, w, a).accounts, b.transfer.to) == Get(w.accounts, b.transfer.to)
    ensures Attempt(chain, RunOne(chain, w, a).accounts, b) == Attempt(chain, w.accounts, b)
  {
    hide Attempt;
    Apart(a, b);
    SameAccountsSameFate(chain, w.accounts, RunOne(chain, w, a), b);
  }

  lemma {:induction false} MoveToEnd(chain: Chain, w: World, s: Scheduled, txs: seq<Scheduled>)
    requires forall t | t in txs :: !Conflicts(s, t) && t.transfer.from != t.transfer.to
    requires s.transfer.from != s.transfer.to && Money(w) <= U64_MAX
    ensures RunSerially(chain, RunOne(chain, w, s), txs) == RunOne(chain, RunSerially(chain, w, txs), s)
  {
    if txs != [] {
      hide RunOne, Money, Conflicts;
      var front, last := txs[..|txs| - 1], txs[|txs| - 1];
      MoveToEnd(chain, w, s, front);
      SerialKeepsMoney(chain, w, front);
      Exchange(chain, RunSerially(chain, w, front), s, last);
    }
  }

  /** The last of a conflict-free list conflicts with nothing among the others, however these are arranged. */
  lemma OthersApart(txs: seq<Scheduled>, others: seq<Scheduled>)
    requires txs != [] && ConflictFree(txs) && NoSelf(txs)
    requires multiset(others) == multiset(txs[..|txs| - 1])
    ensures txs[|txs| - 1].transfer.from != txs[|txs| - 1].transfer.to
    ensures forall t | t in others :: !Conflicts(txs[|txs| - 1], t) && t.transfer.from != t.transfer.to
  {
    hide Conflicts;
    var n := |txs| - 1;
    assert txs[n] in txs;
    forall t | t in others ensures !Conflicts(txs[n], t) && t.transfer.from != t.transfer.to {
      assert t in multiset(others);
      var j :| 0 <= j < n && txs[j] == t;
      assert t in txs;
      Symmetric(txs[j], txs[n]);
    }
  }

  lemma FrontIsConflictFree(txs: seq<Scheduled>)
    requires txs != [] && ConflictFree(txs) && NoSelf(txs)
    ensures ConflictFree(txs[..|txs| - 1]) && NoSelf(txs[..|txs| - 1])
  {
  }

  /** Any two orders of a conflict-free list of transfers leave the same accounts, burned fees and tips. */
  lemma {:induction false} OrderDoesNotMatter(chain: Chain, w: World, a: seq<Scheduled>, b: seq<Scheduled>)
    requires multiset(a) == multiset(b) && ConflictFree(a) && NoSelf(a) && Money(w) <= U64_MAX
    ensures RunSerially(chain, w, a) == RunSerially(chain, w, b)
    decreases |a|
  {
    hide RunOne, Money, Conflicts, ConflictFree;
    if a == [] {
      assert |multiset(b)| == 0;
    } else {
      var front, s := a[..|a| - 1], a[|a| - 1];
      LastOf(a);
      assert s in multiset(b);
      var i :| 0 <= i < |b| && b[i] == s;
      var left, right := b[..i], b[i + 1..];
      assert b == left + [s] + right;
      Without(b, i);
      CancelOne(multiset(front), multiset(left + right), s);
      FrontIsConflictFree(a);
      OthersApart(a, left + right);
      forall t | t in right ensures !Conflicts(s, t) && t.transfer.from != t.transfer.to {
        assert t in left + right;
      }
      forall t | t in left ensures t.transfer.from != t.transfer.to {
        assert t in left + right;
      }
      OrderDoesNotMatter(chain, w, front, left + right);
      MoveFromMiddle(chain, w, left, s, right);
    }
  }

  lemma MoveFromMiddle(chain: Chain, w: World, left: seq<Scheduled>, s: Scheduled, right: seq<Scheduled>)
    requires NoSelf(left) && s.transfer.from != s.transfer.to && Money(w) <= U64_MAX
    requires forall t | t in right :: !Conflicts(s, t) && t.transfer.from != t.transfer.to
    ensures RunSerially(chain, w, left + [s] + right) == RunOne(chain, RunSerially(chain, w, left + right), s)
  {
    hide RunOne, Money, Conflicts, RunSerially;
    SerialConcat(chain, w, left + [s], right);
    SerialConcat(chain, w, left, [s]);
    OneElement(chain, RunSerially(chain, w, left), s);
    SerialKeepsMoney(chain, w, left);
    MoveToEnd(chain, RunSerially(chain, w, left), s, right);
    SerialConcat(chain, w, left, right);
  }

  lemma OneElement(chain: Chain, w: World, s: Scheduled)
    ensures RunSerially(chain, w, [s]) == RunOne(chain, w, s)
  {
    assert [s][..0] == [];
  }

  lemma CancelOne(a: multiset<Scheduled>, b: multiset<Scheduled>, s: Scheduled)
    requires a + multiset{s} == b + multiset{s}
    ensures a == b
  {
    assert a == (a + multiset{s}) - multiset{s};
    assert b == (b + multiset{s}) - multiset{s};
  }

  lemma SublistIsConflictFree(a: seq<Scheduled>, i: nat)
    requires ConflictFree(a) && i < |a|
    ensures ConflictFree(a[..i] + a[i + 1..])
  {
    hide Conflicts;
    var rest := a[..i] + a[i + 1..];
    forall j, k | 0 <= j < k < |rest| ensures !Conflicts(rest[j], rest[k]) {
      assert rest[j] == a[if j < i then j else j + 1] && rest[k] == a[if k < i then k else k + 1];
    }
  }

  lemma {:induction false} StaysConflictFree(a: seq<Scheduled>, b: seq<Scheduled>)
    requires multiset(a) == multiset(b) && ConflictFree(a)
    ensures ConflictFree(b)
    decreases |b|
  {
    hide Conflicts;
    if b != [] {
      var front, s := b[..|b| - 1], b[|b| - 1];
      assert b == front + [s];
      assert s in multiset(a);
      var i :| 0 <= i < |a| && a[i] == s;
      var rest := a[..i] + a[i + 1..];
      LastOf(b);
      Without(a, i);
      CancelOne(multiset(rest), multiset(front), s);
      SublistIsConflictFree(a, i);
      StaysConflictFree(rest, front);
      forall j | 0 <= j < |front| ensures !Conflicts(front[j], s) {
        assert front[j] in multiset(rest);
        var k :| 0 <= k < |rest| && rest[k] == front[j];
        var k' := if k < i then k else k + 1;
        assert a[k'] == front[j];
        Symmetric(a[k'], a[i]);
      }
    }
  }

  /** One pass over a conflict-free list from the current accounts is serial execution of all of it. */
  lemma {:induction false} PassOverConflictFree(chain: Chain, w: World, txs: seq<Scheduled>)
    requires ConflictFree(txs)
    ensures Pass(chain, w.accounts, w, txs).world == RunSerially(chain, w, txs)
    ensures forall s | (forall t | t in txs :: !Conflicts(t, s)) ::
      && Get(RunSerially(chain, w, txs).accounts, s.transfer.from) == Get(w.accounts, s.transfer.from)
      && Get(RunSerially(chain, w, txs).accounts, s.transfer.to) == Get(w.accounts, s.transfer.to)
  {
    if txs != [] {
      hide Conflicts, Commit, Get;
      var front, last := txs[..|txs| - 1], txs[|txs| - 1];
      PassOverConflictFree(chain, w, front);
      assert forall t | t in front :: !Conflicts(t, last);
      SameAccountsSameFate(chain, w.accounts, RunSerially(chain, w, front), last);
      forall s | (forall t | t in txs :: !Conflicts(t, s))
        ensures Get(RunSerially(chain, w, txs).accounts, s.transfer.from) == Get(w.accounts, s.transfer.from)
        ensures Get(RunSerially(chain, w, txs).accounts, s.transfer.to) == Get(w.accounts, s.transfer.to)
      {
        assert last in txs && forall t | t in front :: t in txs;
        OthersUntouched(chain, RunSerially(chain, w, front), last, s);
      }
    }
  }

  /** Whoever has to wait in a pass over a conflict-free list would also have to wait after it. */
  lemma {:induction false} WaitersKeepWaiting(chain: Chain, w: World, txs: seq<Scheduled>)
    requires ConflictFree(txs)
    ensures forall s | s in Pass(chain, w.accounts, w, txs).retry :: s in txs && Attempt(chain, w.accounts, s).Waits?
    ensures ConflictFree(Pass(chain, w.accounts, w, txs).retry)
  {
    hide Pass, Conflicts, Attempt;
    PassOneMore(chain, w.accounts, w, txs);
    if txs != [] {
      var front, last := txs[..|txs| - 1], txs[|txs| - 1];
      WaitersKeepWaiting(chain, w, front);
      PassOverConflictFree(chain, w, front);
      assert forall t | t in front :: !Conflicts(t, last);
    }
  }

  lemma {:induction false} WaitersChangeNothing(chain: Chain, w: World, txs: seq<Scheduled>)
    requires forall s | s in txs :: Attempt(chain, w.accounts, s).Waits?
    ensures Pass(chain, w.accounts, w, txs) == PassResult(w, [], [], txs)
  {
    hide Pass, Attempt, AttemptOn;
    PassOneMore(chain, w.accounts, w, txs);
    if txs != [] {
      var front, s := txs[..|txs| - 1], txs[|txs| - 1];
      assert s in txs && forall t | t in front :: t in txs;
      WaitersChangeNothing(chain, w, front);
      assert txs == front + [s];
    }
  }

  /** A waiter's accounts are untouched by the whole pass, since every transaction that waits changes nothing. */
  lemma {:induction false} WaiterUntouched(chain: Chain, w: World, txs: seq<Scheduled>, s: Scheduled)
    requires ConflictFree(txs) && s in txs && Attempt(chain, w.accounts, s).Waits?
    ensures Attempt(chain, RunSerially(chain, w, txs).accounts, s).Waits?
    ensures Get(RunSerially(chain, w, txs).accounts, s.transfer.from) == Get(w.accounts, s.transfer.from)
    ensures Get(RunSerially(chain, w, txs).accounts, s.transfer.to) == Get(w.accounts, s.transfer.to)
  {
    hide Conflicts, Attempt, Get;
    var front, last := txs[..|txs| - 1], txs[|txs| - 1];
    PassOverConflictFree(chain, w, front);
    var before := RunSerially(chain, w, front);
    if s == last {
      assert forall t | t in front :: !Conflicts(t, s);
    } else {
      WaiterUntouched(chain, w, front, s);
      Symmetric(s, last);
      OthersUntouched(chain, before, last, s);
    }
    SameAccountsSameFate(chain, w.accounts, before, s);
    SameAccountsSameFate(chain, w.accounts, RunSerially(chain, w, txs), s);
  }

  lemma PassesOverConflictFree(chain: Chain, w: World, txs: seq<Scheduled>, left: nat)
    requires ConflictFree(txs) && left >= 2
    ensures Passes(chain, w, txs, left).world == RunSerially(chain, w, txs)
  {
    hide Attempt, Conflicts, SortById, Pass, RunSerially;
    if txs == [] {
      NothingToRun(chain, w);
    } else {
      var r := Pass(chain, w.accounts, w, txs);
      PassOverConflictFree(chain, w, txs);
      WaitersKeepWaiting(chain, w, txs);
      var again := SortById(r.retry);
      SortByIdKeeps(r.retry);
      forall s | s in again ensures Attempt(chain, r.world.accounts, s).Waits? {
        assert s in multiset(r.retry);
        WaiterUntouched(chain, w, txs, s);
      }
      WaitersChangeNothing(chain, r.world, again);
    }
  }

  lemma NothingToRun(chain: Chain, w: World)
    ensures RunSerially(chain, w, []) == w
  {
  }

  /**
   * A group from a plan, executed from one snapshot with its retries, leaves what executing its transfers one at a
   * time leaves, in any order.
   */
  lemma GroupEqualsAnyOrder(chain: Chain, w: World, group: seq<Scheduled>, order: seq<Scheduled>)
    requires ConflictFree(group) && NoSelf(group) && Money(w) <= U64_MAX
    requires multiset(order) == multiset(group)
    ensures RunGroup(chain, w, group).world == RunSerially(chain, w, order)
  {
    hide Passes, RunSerially, Money, Conflicts, SortById;
    SortByIdKeeps(group);
    StaysConflictFree(group, SortById(group));
    PassesOverConflictFree(chain, w, SortById(group), PASSES);
    OrderDoesNotMatter(chain, w, group, SortById(group));
    OrderDoesNotMatter(chain, w, group, order);
  }

  /** The whole plan of a batch, group after group, is serial execution of the plan in the order of its groups. */
  lemma {:induction false} PlanEqualsSerial(chain: Chain, w: World, groups: seq<seq<Scheduled>>)
    requires forall g | g in groups :: ConflictFree(g) && NoSelf(g)
    requires Money(w) <= U64_MAX
    ensures RunGroups(chain, w, groups).world == RunSerially(chain, w, Flatten(groups))
    ensures Money(RunGroups(chain, w, groups).world) == Money(w)
  {
    hide RunSerially, Money, ConflictFree, RunGroup, NoSelf;
    if groups == [] {
      NothingToRun(chain, w);
    } else {
      var front, last := groups[..|groups| - 1], groups[|groups| - 1];
      PlanEqualsSerial(chain, w, front);
      FlattenLast(groups);
      SerialConcat(chain, w, Flatten(front), last);
      var before := RunGroups(chain, w, front).world;
      GroupEqualsAnyOrder(chain, before, last, last);
      SerialKeepsMoney(chain, before, last);
    }
  }
}
