/** What transfers cost, whom the fees go to, and what a run takes from and gives to each account. */
module ExecutorFees {
  import opened Common
  import opened Executor
  import opened ExecutorTheorems
  import opened BaseFee
  import opened Settlement

  // -------- one transfer --------

  /** The most a transaction offers per unit of gas. */
  function Offer(s: Scheduled): u64 {
    if s.maxFeePerGas != 0 then s.maxFeePerGas else s.fee
  }

  /** Burned: the whole fee of an old transaction, the base fee of a new one. */
  function BurnDue(chain: Chain, s: Scheduled): nat {
    if s.version < 2 then s.fee else chain.baseFeePerGas * s.gas
  }

  /** For the proposer and voters: what is offered beyond the base fee, up to the priority fee. */
  function TipDue(chain: Chain, s: Scheduled): nat {
    if s.version < 2 || Offer(s) < chain.baseFeePerGas then 0
    else if s.priorityFeePerGas < Offer(s) - chain.baseFeePerGas then s.priorityFeePerGas * s.gas
    else (Offer(s) - chain.baseFeePerGas) * s.gas
  }

  function Cost(chain: Chain, s: Scheduled): nat {
    s.transfer.amount + BurnDue(chain, s) + TipDue(chain, s)
  }

  /** A transfer that no state can make go through. */
  predicate Hopeless(chain: Chain, s: Scheduled) {
    || s.version > chain.protocolVersion
    || (s.version >= 2 && Offer(s) < chain.baseFeePerGas)
    || Cost(chain, s) > U64_MAX
  }

  lemma FeesAre(chain: Chain, s: Scheduled)
    ensures SplitFee(chain, s) ==
      if (s.version >= 2 && Offer(s) < chain.baseFeePerGas) || BurnDue(chain, s) + TipDue(chain, s) > U64_MAX then None
      else Some(FeeSplit(BurnDue(chain, s) + TipDue(chain, s), BurnDue(chain, s), TipDue(chain, s)))
  {
  }

  function Balance(accounts: Accounts, id: AccountId): nat {
    if id in accounts then accounts[id].balance else 0
  }

  function NonceOf(accounts: Accounts, id: AccountId): nat {
    if id in accounts then accounts[id].nonce else 0
  }

  /** The sender is there with the expected nonce. */
  predicate IsNext(w: World, s: Scheduled) {
    s.transfer.from in w.accounts && w.accounts[s.transfer.from].nonce == s.transfer.expectedNonce
  }

  /** The exact fate of a transfer tried on the current accounts, whatever they are. */
  lemma FateIff(chain: Chain, w: World, s: Scheduled)
    ensures var t, fate := s.transfer, Commit(chain, w.accounts, w, s);
      && (fate.Retried? <==>
            && s.version <= chain.protocolVersion
            && (!IsNext(w, s) || (!Hopeless(chain, s) && Balance(w.accounts, t.from) < Cost(chain, s))))
      && (fate.Applied? <==>
            && !Hopeless(chain, s) && IsNext(w, s) && Balance(w.accounts, t.from) >= Cost(chain, s)
            && Balance(w.accounts, t.to) + t.amount <= U64_MAX
            && w.burned + BurnDue(chain, s) <= U64_MAX && w.tips + TipDue(chain, s) <= U64_MAX)
  {
    hide SplitFee, BurnDue, TipDue;
    FeesAre(chain, s);
  }

  /** What an applied transfer does to every account and to both totals. */
  lemma AppliedDoes(chain: Chain, w: World, s: Scheduled, id: AccountId)
    requires Commit(chain, w.accounts, w, s).Applied?
    ensures var next := RunOne(chain, w, s);
      && Balance(next.accounts, id) + Spent(chain, s, id) == Balance(w.accounts, id) + Received(s, id)
      && NonceOf(next.accounts, id) == (NonceOf(w.accounts, id) + Sends(s, id)) % (U64_MAX + 1)
      && next.burned == w.burned + BurnDue(chain, s) && next.tips == w.tips + TipDue(chain, s)
      && (id in next.accounts <==> id in w.accounts || id == s.transfer.to)
  {
    hide SplitFee, BurnDue, TipDue;
    FeesAre(chain, s);
  }

  /** A transfer to oneself costs nothing and moves no nonce: its second change wins. */
  function Spent(chain: Chain, s: Scheduled, id: AccountId): nat {
    if s.transfer.from == id && s.transfer.to != id then Cost(chain, s) else 0
  }

  function Sends(s: Scheduled, id: AccountId): nat {
    if s.transfer.from == id && s.transfer.to != id then 1 else 0
  }

  function Received(s: Scheduled, id: AccountId): nat {
    if s.transfer.to == id then s.transfer.amount else 0
  }

  // -------- runs --------

  function AllBurned(chain: Chain, txs: seq<Scheduled>): nat {
    if txs == [] then 0 else AllBurned(chain, txs[..|txs| - 1]) + BurnDue(chain, txs[|txs| - 1])
  }

  function AllTips(chain: Chain, txs: seq<Scheduled>): nat {
    if txs == [] then 0 else AllTips(chain, txs[..|txs| - 1]) + TipDue(chain, txs[|txs| - 1])
  }

  function AllSpent(chain: Chain, txs: seq<Scheduled>, id: AccountId): nat {
    if txs == [] then 0 else AllSpent(chain, txs[..|txs| - 1], id) + Spent(chain, txs[|txs| - 1], id)
  }

  function AllReceived(txs: seq<Scheduled>, id: AccountId): nat {
    if txs == [] then 0 else AllReceived(txs[..|txs| - 1], id) + Received(txs[|txs| - 1], id)
  }

  function AllSends(txs: seq<Scheduled>, id: AccountId): nat {
    if txs == [] then 0 else AllSends(txs[..|txs| - 1], id) + Sends(txs[|txs| - 1], id)
  }

  ghost predicate AccountAdds(chain: Chain, w: World, next: World, txs: seq<Scheduled>, id: AccountId) {
    && Balance(next.accounts, id) + AllSpent(chain, txs, id) == Balance(w.accounts, id) + AllReceived(txs, id)
    && NonceOf(next.accounts, id) == (NonceOf(w.accounts, id) + AllSends(txs, id)) % (U64_MAX + 1)
  }

  lemma {:induction false} SerialAccounts(chain: Chain, w: World, txs: seq<Scheduled>, id: AccountId)
    requires AllApply(chain, w, txs)
    ensures AccountAdds(chain, w, RunSerially(chain, w, txs), txs, id)
    ensures RunSerially(chain, w, txs).burned == w.burned + AllBurned(chain, txs)
    ensures RunSerially(chain, w, txs).tips == w.tips + AllTips(chain, txs)
  {
    if txs != [] {
      hide Commit, BurnDue, TipDue, RunOne, Spent, Received, Sends;
      var front, s := txs[..|txs| - 1], txs[|txs| - 1];
      forall i | 0 <= i < |front| ensures AppliesAt(chain, w, front, i) {
        assert AppliesAt(chain, w, txs, i) && front[..i] == txs[..i];
      }
      SerialAccounts(chain, w, front, id);
      assert AppliesAt(chain, w, txs, |txs| - 1);
      hide AppliesAt, AllApply;
      AppliedDoes(chain, RunSerially(chain, w, front), s, id);
      NoncesAdd(NonceOf(w.accounts, id), AllSends(front, id), Sends(s, id));
      hide Balance, NonceOf;
    }
  }

  lemma NoncesAdd(a: nat, b: nat, c: nat)
    ensures ((a + b) % (U64_MAX + 1) + c) % (U64_MAX + 1) == (a + (b + c)) % (U64_MAX + 1)
  {
  }

  /**
   Over any plan: the fees burned and the tips are exactly those due from the applied transfers, and each account ends
   with what it had, plus what it was sent, less what its own transfers cost, its nonce having counted them.
   */
  lemma RunAccounts(chain: Chain, w: World, groups: seq<seq<Scheduled>>, id: AccountId)
    ensures var r := RunGroups(chain, w, groups);
      && r.world.burned == w.burned + AllBurned(chain, r.applied)
      && r.world.tips == w.tips + AllTips(chain, r.applied)
      && AccountAdds(chain, w, r.world, r.applied, id)
  {
    hide RunGroups, RunSerially, AllApply, AllBurned, AllTips, AccountAdds;
    ExecutionIsSerial(chain, w, groups);
    SerialAccounts(chain, w, RunGroups(chain, w, groups).applied, id);
  }

  /** A settled block burns what is due and pools the tips, at the base fee it began with. */
  lemma BlockFees(rules: Rules, st: ChainState, block: Block, id: AccountId)
    requires MetaAfter(rules, st, block).Some?
    ensures var chain, next := ChainOf(rules, st), ExecuteBlock(rules, false, st, block).state;
      var applied := Run(rules, st, block).applied;
      && ReadOr(next.meta, BurnedTotal, 0) == ReadOr(st.meta, BurnedTotal, 0) + AllBurned(chain, applied)
      && ReadOr(next.meta, TipPool, 0) == ReadOr(st.meta, TipPool, 0) + AllTips(chain, applied)
      && Balance(next.accounts, id) + AllSpent(chain, applied, id) ==
           Balance(st.accounts, id) + AllReceived(applied, id)
  {
    hide RunGroups, Settled, SortUnique, Ids, GasUsed, FeeNow, AllBurned, AllTips, AllSpent, AllReceived;
    var r := Run(rules, st, block);
    RunAccounts(ChainOf(rules, st), World(st.accounts, 0, 0), block.groups, id);
    SettledTotals(rules, st.meta, GasUsed(r.applied), r.world.tips, r.world.burned);
  }
}
