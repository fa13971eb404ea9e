/** The planner and the executor as they update their groups, lists and the global state in place. */
module ExecutorProcedure {
  import opened Common
  import opened Executor
  import opened ExecutorTheorems
  import opened BaseFee
  import opened Settlement

  // -------- planning --------

  method DoConflict(a: Scheduled, b: Scheduled) returns (yes: bool)
    ensures yes == Conflicts(a, b)
  {
    var x, y := [a.transfer.from, a.transfer.to], [b.transfer.from, b.transfer.to];
    ConflictsOnLists(a, b);
    for i := 0 to |x|
      invariant forall k | 0 <= k < i :: x[k] !in y
    {
      if x[i] in y {
        return true;
      }
    }
    assert x[0] !in y && x[1] !in y;
    return false;
  }

  lemma ConflictsOnLists(a: Scheduled, b: Scheduled)
    ensures Conflicts(a, b) <==>
      a.transfer.from in [b.transfer.from, b.transfer.to] || a.transfer.to in [b.transfer.from, b.transfer.to]
  {
    assert forall id :: id in Touches(a) * Touches(b) <==> id in Touches(a) && id in Touches(b);
    assert a.transfer.from in Touches(a) && a.transfer.to in Touches(a);
    assert Conflicts(a, b) <==> exists id :: id in Touches(a) * Touches(b);
  }

  lemma {:induction false} PlaceAt(groups: seq<seq<Scheduled>>, s: Scheduled, i: nat)
    requires i <= |groups| && forall j | 0 <= j < i :: !Accepts(groups[j], s)
    requires i < |groups| ==> Accepts(groups[i], s)
    ensures Place(groups, s) == if i < |groups| then groups[i := groups[i] + [s]] else groups + [[s]]
  {
    if i > 0 {
      PlaceAt(groups[1..], s, i - 1);
    }
  }

  method MakePlan(batch: seq<Scheduled>) returns (groups: seq<seq<Scheduled>>)
    ensures groups == Plan(batch)
  {
    hide Conflicts;
    groups := [];
    for n := 0 to |batch|
      invariant groups == Plan(batch[..n])
    {
      var s := batch[n];
      assert batch[..n + 1][..n] == batch[..n];
      var at := 0;
      var placed := false;
      while at < |groups| && !placed
        invariant 0 <= at <= |groups|
        invariant forall j | 0 <= j < at :: !Accepts(groups[j], s)
        invariant placed ==> at < |groups| && Accepts(groups[at], s)
        decreases |groups| - at, !placed
      {
        var ok := true;
        for k := 0 to |groups[at]|
          invariant ok ==> forall j | 0 <= j < k :: !Conflicts(s, groups[at][j])
          invariant !ok ==> !Accepts(groups[at], s)
        {
          var clash := DoConflict(s, groups[at][k]);
          if clash {
            ok := false;
            break;
          }
        }
        if ok {
          placed := true;
        } else {
          at := at + 1;
        }
      }
      PlaceAt(groups, s, at);
      if placed {
        groups := groups[at := groups[at] + [s]];
      } else {
        groups := groups + [[s]];
      }
    }
    assert batch[..|batch|] == batch;
  }

  // -------- global state --------

  /** What some keys held before a change. */
  type Prior<K, V> = map<K, Option<V>>

  function Found<K, V>(m: map<K, V>, key: K): Option<V> {
    if key in m then Some(m[key]) else None
  }

  /** Puts back what `prior` recorded. */
  function Restored<K, V>(m: map<K, V>, prior: Prior<K, V>): map<K, V> {
    map key | key in m.Keys + prior.Keys && (key in prior ==> prior[key].Some?) ::
      if key in prior then prior[key].value else m[key]
  }

  /** Puts back one recorded change after another, the latest first. */
  function RestoredAll(accounts: Accounts, deltas: seq<Prior<AccountId, Account>>): Accounts
    decreases |deltas|
  {
    if deltas == [] then accounts
    else RestoredAll(Restored(accounts, deltas[|deltas| - 1]), deltas[..|deltas| - 1])
  }

  class GlobalState {
    var accounts: Accounts
    var meta: Meta

    ghost function Now(): ChainState
      reads this
    {
      ChainState(accounts, meta)
    }

    method GetAccount(id: AccountId) returns (a: Option<Account>)
      ensures a == Found(accounts, id) == Get(accounts, id)
    {
      a := if id in accounts then Some(accounts[id]) else None;
    }

    /** Applies changes in order, the last one to an account winning, and remembers how to undo them. */
    method ApplyBatch(changes: seq<AccountChange>) returns (prior: Prior<AccountId, Account>)
      modifies this`accounts
      ensures accounts == ApplyChanges(old(accounts), changes)
      ensures Restored(accounts, prior) == old(accounts)
    {
      prior := map[];
      for i := 0 to |changes|
        invariant accounts == ApplyChanges(old(accounts), changes[..i])
        invariant Restored(accounts, prior) == old(accounts)
      {
        var c := changes[i];
        assert changes[..i + 1][..i] == changes[..i];
        RestoredStep(accounts, prior, c.id, c.next);
        if c.id !in prior {
          prior := prior[c.id := if c.id in accounts then Some(accounts[c.id]) else None];
        }
        accounts := accounts[c.id := c.next];
      }
      assert changes[..|changes|] == changes;
    }

    method Revert(prior: Prior<AccountId, Account>)
      modifies this`accounts
      ensures accounts == Restored(old(accounts), prior)
    {
      accounts := Restored(accounts, prior);
    }

    /** Stores one number and remembers how to undo that. */
    method PutMeta(key: MetaKey, value: u64) returns (prior: Prior<MetaKey, Raw>)
      modifies this`meta
      ensures meta == old(meta)[key := Number(value)]
      ensures Restored(meta, prior) == old(meta)
    {
      prior := map[key := if key in meta then Some(meta[key]) else None];
      RestoredStep(meta, map[], key, Number(value));
      meta := meta[key := Number(value)];
    }

    method RevertMeta(prior: Prior<MetaKey, Raw>)
      modifies this`meta
      ensures meta == Restored(old(meta), prior)
    {
      meta := Restored(meta, prior);
    }

    method UpdateBaseFee(gas: u64) returns (prior: Prior<MetaKey, Raw>)
      modifies this`meta
      ensures meta == FeeUpdated(old(meta), gas) && Restored(meta, prior) == old(meta)
    {
      var market := MarketOf(meta);
      prior := PutMeta(BaseFeePerGas, NextFee(market, FeeNow(meta), gas));
    }

    method CollectTips(amount: u64) returns (ok: bool, prior: Prior<MetaKey, Raw>)
      modifies this`meta
      ensures match TipsCollected(old(meta), amount)
        case None => !ok && meta == old(meta)
        case Some(next) => ok && meta == next && Restored(meta, prior) == old(meta)
    {
      prior := map[];
      if amount == 0 {
        return true, prior;
      }
      var pool := ReadOr(meta, TipPool, 0);
      var next := Wrap64(pool + amount);
      if next < pool {
        return false, prior;
      }
      prior := PutMeta(TipPool, next);
      return true, prior;
    }

    method BurnFees(rules: Rules, amount: u64) returns (ok: bool)
      modifies this`meta
      ensures match FeesBurned(rules, old(meta), amount)
        case None => !ok && meta == old(meta)
        case Some(next) => ok && meta == next
    {
      if amount == 0 {
        return true;
      }
      var minted, burned := ReadNumber(meta, MintedTotal), ReadNumber(meta, BurnedTotal);
      if minted.None? || burned.None? {
        return false;
      }
      var next := Wrap64(burned.value + amount);
      if next < burned.value || next > minted.value || minted.value > rules.maxSupply {
        return false;
      }
      var _ := PutMeta(BurnedTotal, next);
      return true;
    }

    /** Books the three totals of a block, or none of them. */
    method Settle(rules: Rules, gas: u64, tips: u64, burned: u64) returns (ok: bool)
      modifies this`meta
      ensures match Settled(rules, old(meta), gas, tips, burned)
        case None => !ok && meta == old(meta)
        case Some(next) => ok && meta == next
    {
      hide FeeUpdated, TipsCollected, FeesBurned, Restored;
      var feePrior := UpdateBaseFee(gas);
      var collected, tipPrior := CollectTips(tips);
      if !collected {
        RevertMeta(feePrior);
        return false;
      }
      ok := BurnFees(rules, burned);
      if !ok {
        RevertMeta(tipPrior);
        RevertMeta(feePrior);
      }
    }
  }

  lemma RestoredStep<K, V>(m: map<K, V>, prior: Prior<K, V>, key: K, next: V)
    ensures var prior' := if key in prior then prior else prior[key := Found(m, key)];
      Restored(m[key := next], prior') == Restored(m, prior)
    ensures Restored(m, map[]) == m
  {
  }

  // -------- execution --------

  class Execution {
    const chain: Chain
    const state: GlobalState
    var applied: seq<Scheduled>
    var aborted: seq<Scheduled>
    var burned: u64
    var tips: u64
    var gasUsed: u64
    var deltas: seq<Prior<AccountId, Account>>
    ghost const origin: Accounts

    /** The recorded changes lead back to the accounts before the block; the gas is that of what was applied. */
    ghost predicate Valid()
      reads this, state
    {
      RestoredAll(state.accounts, deltas) == origin && gasUsed == GasUsed(applied)
    }

    ghost function Now(): World
      reads this, state
    {
      World(state.accounts, burned, tips)
    }

    constructor (chain: Chain, state: GlobalState)
      ensures this.chain == chain && this.state == state
      ensures applied == [] && aborted == [] && Now() == World(state.accounts, 0, 0)
      ensures Valid() && origin == state.accounts
    {
      this.chain, this.state, origin := chain, state, state.accounts;
      applied, aborted, burned, tips, gasUsed, deltas := [], [], 0, 0, 0, [];
    }

    /** The accounts that a pass reads, as they are before it. */
    method Snapshot(txs: seq<Scheduled>) returns (snap: map<AccountId, Option<Account>>)
      ensures forall s | s in txs :: s.transfer.from in snap && s.transfer.to in snap
      ensures forall id | id in snap :: snap[id] == Get(state.accounts, id)
    {
      snap := map[];
      for i := 0 to |txs|
        invariant forall k | 0 <= k < i :: txs[k].transfer.from in snap && txs[k].transfer.to in snap
        invariant forall id | id in snap :: snap[id] == Get(state.accounts, id)
      {
        var from := state.GetAccount(txs[i].transfer.from);
        var to := state.GetAccount(txs[i].transfer.to);
        snap := snap[txs[i].transfer.from := from][txs[i].transfer.to := to];
      }
    }

    /** Notes an applied transaction, its fees and gas, and how to take it back. */
    method Book(s: Scheduled, fees: FeeSplit, prior: Prior<AccountId, Account>)
      requires RestoredAll(Restored(state.accounts, prior), deltas) == origin && gasUsed == GasUsed(applied)
      requires burned + fees.burn <= U64_MAX && tips + fees.tip <= U64_MAX
      modifies this
      ensures Valid() && applied == old(applied) + [s] && aborted == old(aborted)
      ensures burned == old(burned) + fees.burn && tips == old(tips) + fees.tip
    {
      assert (deltas + [prior])[..|deltas|] == deltas && (applied + [s])[..|applied|] == applied;
      hide Restored;
      applied := applied + [s];
      deltas := deltas + [prior];
      burned := burned + fees.burn;
      tips := tips + fees.tip;
      if Wrap64(gasUsed + s.gas) >= gasUsed {
        gasUsed := Wrap64(gasUsed + s.gas);
      }
    }

    /** One transaction's commit; the result says whether it has to be tried again. */
    method CommitOne(snap: map<AccountId, Option<Account>>, s: Scheduled, e: Effect, ghost was: Accounts)
      returns (again: bool)
      requires s.transfer.from in snap && s.transfer.to in snap
      requires snap[s.transfer.from] == Get(was, s.transfer.from) && snap[s.transfer.to] == Get(was, s.transfer.to)
      requires e == Attempt(chain, was, s)
      requires Valid()
      modifies this, state`accounts
      ensures Valid()
      ensures match Commit(chain, was, old(Now()), s)
        case Applied(w) => !again && Now() == w && applied == old(applied) + [s] && aborted == old(aborted)
        case Aborted => !again && Now() == old(Now()) && applied == old(applied) && aborted == old(aborted) + [s]
        case Retried => again && Now() == old(Now()) && applied == old(applied) && aborted == old(aborted)
    {
      hide AttemptOn, SplitFee, GasUsed, Restored, RestoredAll;
      if e.Waits? {
        return true;
      }
      if e.Fails? {
        aborted := aborted + [s];
        return false;
      }
      var t := s.transfer;
      var from := state.GetAccount(t.from);
      var to := state.GetAccount(t.to);
      if from != snap[t.from] || to != snap[t.to] {
        return true;
      }
      TwoChanges(state.accounts, t, e.fromNext, e.toNext);
      var prior := state.ApplyBatch([AccountChange(t.from, e.fromNext), AccountChange(t.to, e.toNext)]);
      if Wrap64(burned + e.fees.burn) < burned || Wrap64(tips + e.fees.tip) < tips {
        state.Revert(prior);
        aborted := aborted + [s];
        return false;
      }
      Book(s, e.fees, prior);
      return false;
    }

    /** All effects from one snapshot, then their commits in turn. */
    method RunPass(txs: seq<Scheduled>) returns (retry: seq<Scheduled>)
      requires Valid()
      modifies this, state`accounts
      ensures Valid()
      ensures var r := Pass(chain, old(state.accounts), old(Now()), txs);
        && Now() == r.world && retry == r.retry
        && applied == old(applied) + r.applied && aborted == old(aborted) + r.aborted
    {
      hide AttemptOn, Commit, Pass, GasUsed, RestoredAll;
      ghost var was := state.accounts;
      var snap := Snapshot(txs);
      var effects: seq<Effect> := [];
      for i := 0 to |txs|
        invariant |effects| == i
        invariant forall k | 0 <= k < i :: effects[k] == Attempt(chain, was, txs[k])
      {
        var s := txs[i];
        effects := effects + [AttemptOn(chain, snap[s.transfer.from], snap[s.transfer.to], s)];
      }
      retry := [];
      PassOneMore(chain, was, Now(), []);
      for i := 0 to |txs|
        invariant Valid()
        invariant var r := Pass(chain, was, old(Now()), txs[..i]);
          && Now() == r.world && retry == r.retry
          && applied == old(applied) + r.applied && aborted == old(aborted) + r.aborted
      {
        assert txs[..i + 1][..i] == txs[..i];
        PassOneMore(chain, was, old(Now()), txs[..i + 1]);
        var again := CommitOne(snap, txs[i], effects[i], was);
        if again {
          retry := retry + [txs[i]];
        }
      }
      assert txs[..|txs|] == txs;
    }

    method RunOneGroup(group: seq<Scheduled>)
      requires Valid()
      modifies this, state`accounts
      ensures Valid()
      ensures var r := RunGroup(chain, old(Now()), group);
        Now() == r.world && applied == old(applied) + r.applied && Alike(aborted, old(aborted) + r.aborted)
    {
      hide Pass, SortById, Passes, Follows;
      var remaining := SortById(group);
      var pass := 0;
      ghost var whole := RunGroup(chain, Now(), group);
      ghost var target := PassResult(whole.world, applied + whole.applied, aborted + whole.aborted, []);
      FollowsStart(target, applied, aborted, whole);
      ghost var stuck := false;
      while pass < PASSES && remaining != []
        invariant 0 <= pass <= PASSES && Valid()
        invariant !stuck && Follows(target, applied, aborted, Passes(chain, Now(), remaining, PASSES - pass))
        decreases PASSES - pass
      {
        ghost var current := Passes(chain, Now(), remaining, PASSES - pass);
        ghost var r := Pass(chain, state.accounts, Now(), remaining);
        PassesStep(chain, Now(), remaining, PASSES - pass);
        ghost var before, now := state.accounts, Now();
        ghost var applied0, aborted0 := applied, aborted;
        var retry := RunPass(remaining);
        if |retry| == |remaining| {
          aborted := aborted + retry;
          FollowsEnd(target, applied0, aborted0, current, r);
          AllRetried(chain, before, now, remaining);
          stuck := true;
          break;
        }
        remaining := SortById(retry);
        pass := pass + 1;
        FollowsOn(target, applied0, aborted0, current, r.applied, r.aborted,
          Passes(chain, Now(), remaining, PASSES - pass));
      }
      if !stuck {
        PassesStep(chain, Now(), remaining, PASSES - pass);
        FollowsEnd(target, applied, aborted, PassResult(Now(), [], remaining, []),
                   PassResult(Now(), [], [], remaining));
      }
      if remaining != [] {
        aborted := aborted + remaining;
      }
    }

    /** Executes the groups of a plan one after another. */
    method Execute(groups: seq<seq<Scheduled>>)
      requires Valid()
      modifies this, state`accounts
      ensures Valid()
      ensures var r := RunGroups(chain, old(Now()), groups);
        Now() == r.world && applied == old(applied) + r.applied && Alike(aborted, old(aborted) + r.aborted)
    {
      hide RunGroup;
      for i := 0 to |groups|
        invariant Valid()
        invariant var r := RunGroups(chain, old(Now()), groups[..i]);
          Now() == r.world && applied == old(applied) + r.applied && Alike(aborted, old(aborted) + r.aborted)
      {
        assert groups[..i + 1][..i] == groups[..i];
        RunOneGroup(groups[i]);
      }
      assert groups[..|groups|] == groups;
    }

    /** Takes back everything applied, the latest first. */
    method RevertAll()
      requires Valid()
      modifies state`accounts
      ensures state.accounts == origin
    {
      assert deltas[..|deltas|] == deltas;
      for i := |deltas| downto 0
        invariant RestoredAll(state.accounts, deltas[..i]) == origin
      {
        assert deltas[..i + 1][..i] == deltas[..i];
        state.Revert(deltas[i]);
      }
    }
  }

  /** A pass that retries as many transactions as it was given retries those. */
  lemma AllRetried(chain: Chain, snap: Accounts, w: World, txs: seq<Scheduled>)
    requires |Pass(chain, snap, w, txs).retry| == |txs|
    ensures forall s | s in txs :: s in Pass(chain, snap, w, txs).retry
  {
    PassPartitions(chain, snap, w, txs);
    var r := Pass(chain, snap, w, txs);
    assert |multiset(r.applied)| + |multiset(r.aborted)| + |multiset(r.retry)| == |multiset(txs)|;
    assert multiset(r.retry) == multiset(txs);
    assert forall s | s in txs :: s in multiset(r.retry);
  }

  ghost predicate Alike(a: seq<Scheduled>, b: seq<Scheduled>) {
    forall s :: s in a <==> s in b
  }

  /** Executes a block: everything it settles to, or nothing. */
  method ExecutePlan(rules: Rules, halted: bool, state: GlobalState, block: Block) returns (report: Report)
    modifies state
    ensures var outcome := ExecuteBlock(rules, halted, old(state.Now()), block);
      state.Now() == outcome.state && report == outcome.report
  {
    hide RunGroups, Settled, FeeNow, GasUsed, RestoredAll, SortUnique, Ids;
    if halted {
      return Report([], SortUnique(Ids(Flatten(block.groups))), SortUnique(block.rejected));
    }
    var run := new Execution(ChainOf(rules, ChainState(state.accounts, state.meta)), state);
    run.Execute(block.groups);
    ghost var r := Run(rules, old(state.Now()), block);
    assert run.applied == r.applied;
    SameIds(run.aborted, r.aborted);
    var settled := state.Settle(rules, run.gasUsed, run.tips, run.burned);
    if !settled {
      run.RevertAll();
      return Report([], [], []);
    }
    return Report(SortUnique(Ids(run.applied)), SortUnique(Ids(run.aborted)), SortUnique(block.rejected));
  }

  lemma SameIds(a: seq<Scheduled>, b: seq<Scheduled>)
    requires Alike(a, b)
    ensures SortUnique(Ids(a)) == SortUnique(Ids(b))
  {
    forall id
      ensures id in Ids(a) <==> id in Ids(b)
    {
      InIds(a, id);
      InIds(b, id);
    }
    SameMembersSortAlike(SortUnique(Ids(a)), SortUnique(Ids(b)));
  }

  lemma FollowsStart(target: PassResult, applied: seq<Scheduled>, aborted: seq<Scheduled>, whole: PassResult)
    requires target == PassResult(whole.world, applied + whole.applied, aborted + whole.aborted, [])
    ensures Follows(target, applied, aborted, whole)
  {
  }

  lemma FollowsOn(target: PassResult, applied: seq<Scheduled>, aborted: seq<Scheduled>, current: PassResult,
    a: seq<Scheduled>, b: seq<Scheduled>, rest: PassResult)
    requires Follows(target, applied, aborted, current) && Follows(current, a, b, rest)
    ensures Follows(target, applied + a, aborted + b, rest)
  {
    assert applied + (a + rest.applied) == applied + a + rest.applied;
    assert aborted + (b + rest.aborted) == aborted + b + rest.aborted;
  }

  lemma FollowsEnd(target: PassResult, applied: seq<Scheduled>, aborted: seq<Scheduled>, current: PassResult,
                   r: PassResult)
    requires Follows(target, applied, aborted, current)
    requires current == PassResult(r.world, r.applied, r.aborted + r.retry, [])
    ensures target.world == r.world && target.applied == applied + r.applied
    ensures target.aborted == aborted + r.aborted + r.retry
  {
    assert aborted + (r.aborted + r.retry) == aborted + r.aborted + r.retry;
  }

  lemma TwoChanges(accounts: Accounts, t: Transfer, from: Account, to: Account)
    ensures ApplyChanges(accounts, [AccountChange(t.from, from), AccountChange(t.to, to)])
         == accounts[t.from := from][t.to := to]
  {
    var changes := [AccountChange(t.from, from), AccountChange(t.to, to)];
    assert changes[..1][..0] == [];
    assert ApplyChanges(accounts, changes[..1]) == ApplyChanges(accounts, [])[t.from := from];
    assert ApplyChanges(accounts, changes) == ApplyChanges(accounts, changes[..1])[t.to := to];
  }
}
