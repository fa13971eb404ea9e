/** What executing a block leaves: its groups' transfers, the new base fee, the tips and the burned fees, or nothing. */
module Settlement {
  import opened Common
  import opened Sums
  import opened Executor
  import opened ExecutorTheorems
  import opened BaseFee

  datatype ChainState = ChainState(accounts: Accounts, meta: Meta)

  datatype Rules = Rules(protocolVersion: nat, maxSupply: u64)

  datatype Block = Block(groups: seq<seq<Scheduled>>, rejected: seq<TxId>)

  datatype Report = Report(applied: seq<TxId>, aborted: seq<TxId>, rejected: seq<TxId>)

  datatype Outcome = Outcome(state: ChainState, report: Report)

  function ChainOf(rules: Rules, st: ChainState): Chain {
    Chain(FeeNow(st.meta), rules.protocolVersion)
  }

  function Run(rules: Rules, st: ChainState, block: Block): PassResult {
    RunGroups(ChainOf(rules, st), World(st.accounts, 0, 0), block.groups)
  }

  /** The gas of applied transactions; one that does not fit 64 bits beside those before it is not counted. */
  function GasUsed(txs: seq<Scheduled>): u64 {
    if txs == [] then 0
    else
      var before, s := GasUsed(txs[..|txs| - 1]), txs[|txs| - 1];
      if before + s.gas > U64_MAX then before else before + s.gas
  }

  // -------- the three totals --------

  function FeeUpdated(meta: Meta, gas: u64): Meta {
    meta[BaseFeePerGas := Number(NextFee(MarketOf(meta), FeeNow(meta), gas))]
  }

  function TipsCollected(meta: Meta, amount: u64): Option<Meta> {
    var pool := ReadOr(meta, TipPool, 0);
    if amount == 0 then Some(meta)
    else if pool + amount > U64_MAX then None
    else Some(meta[TipPool := Number(pool + amount)])
  }

  function FeesBurned(rules: Rules, meta: Meta, amount: u64): Option<Meta> {
    if amount == 0 then Some(meta)
    else
      match (ReadNumber(meta, MintedTotal), ReadNumber(meta, BurnedTotal))
      case (Some(minted), Some(burned)) =>
        if burned + amount > U64_MAX || burned + amount > minted || minted > rules.maxSupply then None
        else Some(meta[BurnedTotal := Number(burned + amount)])
      case _ => None
  }

  function Settled(rules: Rules, meta: Meta, gas: u64, tips: u64, burned: u64): Option<Meta> {
    match TipsCollected(FeeUpdated(meta, gas), tips)
    case None => None
    case Some(collected) => FeesBurned(rules, collected, burned)
  }

  function MetaAfter(rules: Rules, st: ChainState, block: Block): Option<Meta> {
    var r := Run(rules, st, block);
    Settled(rules, st.meta, GasUsed(r.applied), r.world.tips, r.world.burned)
  }

  function Ids(txs: seq<Scheduled>): (ids: seq<TxId>)
    ensures |ids| == |txs| && forall i | 0 <= i < |txs| :: ids[i] == txs[i].id
  {
    seq(|txs|, i requires 0 <= i < |txs| => txs[i].id)
  }

  function ExecuteBlock(rules: Rules, halted: bool, st: ChainState, block: Block): Outcome {
    if halted then Outcome(st, Report([], SortUnique(Ids(Flatten(block.groups))), SortUnique(block.rejected)))
    else
      var r := Run(rules, st, block);
      match MetaAfter(rules, st, block)
      case None => Outcome(st, Report([], [], []))
      case Some(meta) =>
        Outcome(ChainState(r.world.accounts, meta),
                Report(SortUnique(Ids(r.applied)), SortUnique(Ids(r.aborted)), SortUnique(block.rejected)))
  }

  // -------- when a block settles --------

  /** The tips have to fit the pool, and the burned fees the minted supply; the base fee never stands in the way. */
  lemma SettlesIff(rules: Rules, meta: Meta, gas: u64, tips: u64, burned: u64)
    ensures Settled(rules, meta, gas, tips, burned).Some? <==>
      && (tips == 0 || ReadOr(meta, TipPool, 0) + tips <= U64_MAX)
      && (burned == 0 ||
          (ReadNumber(meta, MintedTotal).Some? && ReadNumber(meta, BurnedTotal).Some? &&
           ReadNumber(meta, BurnedTotal).value + burned <= ReadNumber(meta, MintedTotal).value <= rules.maxSupply))
  {
    hide NextFee, MarketOf, FeeNow;
  }

  /** What settling does to the totals. */
  lemma SettledTotals(rules: Rules, meta: Meta, gas: u64, tips: u64, burned: u64)
    requires Settled(rules, meta, gas, tips, burned).Some?
    ensures var next := Settled(rules, meta, gas, tips, burned).value;
      && ReadOr(next, TipPool, 0) == ReadOr(meta, TipPool, 0) + tips
      && ReadOr(next, BurnedTotal, 0) == ReadOr(meta, BurnedTotal, 0) + burned
      && ReadNumber(next, MintedTotal) == ReadNumber(meta, MintedTotal)
      && (ReadNumber(meta, BurnedTotal).Some? ==> ReadNumber(next, BurnedTotal).Some?)
      && MarketOf(next) == MarketOf(meta) && FeeNow(next) == NextFee(MarketOf(meta), FeeNow(meta), gas)
  {
    hide NextFee, Repaired;
  }

  /** Settling writes the base fee, and the two totals where there is something to add; nothing else. */
  lemma SettledLeavesRest(rules: Rules, meta: Meta, gas: u64, tips: u64, burned: u64)
    requires Settled(rules, meta, gas, tips, burned).Some?
    ensures var next := Settled(rules, meta, gas, tips, burned).value;
      forall key | key != BaseFeePerGas && (key == TipPool ==> tips == 0) && (key == BurnedTotal ==> burned == 0) ::
        (key in next <==> key in meta) && (key in meta ==> next[key] == meta[key])
  {
    hide NextFee, MarketOf, FeeNow;
  }

  // -------- supply --------

  /** All coins there are: in accounts, in the tip pool, and burned. */
  ghost function Supply(st: ChainState): nat {
    Sum(Balances(st.accounts)) + ReadOr(st.meta, TipPool, 0) + ReadOr(st.meta, BurnedTotal, 0)
  }

  /** What a block creates: what its applied transfers to their own senders add, if it settles. */
  function Created(rules: Rules, halted: bool, st: ChainState, block: Block): nat {
    if halted || MetaAfter(rules, st, block).None? then 0
    else AllSelfPaid(ChainOf(rules, st), Run(rules, st, block).applied)
  }

  lemma BlockSupply(rules: Rules, halted: bool, st: ChainState, block: Block)
    ensures Supply(ExecuteBlock(rules, halted, st, block).state) == Supply(st) + Created(rules, halted, st, block)
  {
    if !halted && MetaAfter(rules, st, block).Some? {
      hide RunGroups, Settled, SortUnique, Ids, GasUsed, FeeNow;
      var r := Run(rules, st, block);
      ExecutionKeepsMoneyIff(ChainOf(rules, st), World(st.accounts, 0, 0), block.groups);
      SettledTotals(rules, st.meta, GasUsed(r.applied), r.world.tips, r.world.burned);
    }
  }

  /** Everything minted is somewhere, and the totals can be read. */
  ghost predicate Sound(rules: Rules, st: ChainState) {
    && ReadNumber(st.meta, MintedTotal).Some? && ReadNumber(st.meta, BurnedTotal).Some?
    && Supply(st) == ReadNumber(st.meta, MintedTotal).value <= rules.maxSupply
  }

  /** In sound books a block keeps them sound exactly when it creates nothing. */
  lemma BlockKeepsSoundIff(rules: Rules, halted: bool, st: ChainState, block: Block)
    requires Sound(rules, st)
    ensures Sound(rules, ExecuteBlock(rules, halted, st, block).state) <==> Created(rules, halted, st, block) == 0
  {
    BlockSupply(rules, halted, st, block);
    if !halted && MetaAfter(rules, st, block).Some? {
      hide RunGroups, Settled, SortUnique, Ids, GasUsed, FeeNow, Supply, Created;
      var r := Run(rules, st, block);
      SettledTotals(rules, st.meta, GasUsed(r.applied), r.world.tips, r.world.burned);
    }
  }

  /** In sound books every block without self-transfers settles. */
  lemma SoundBlockSettles(rules: Rules, st: ChainState, block: Block)
    requires Sound(rules, st) && NoSelf(Flatten(block.groups))
    ensures MetaAfter(rules, st, block).Some? && Created(rules, false, st, block) == 0
  {
    hide RunGroups, Settled, GasUsed, FeeNow;
    var chain, w, r := ChainOf(rules, st), World(st.accounts, 0, 0), Run(rules, st, block);
    ExecutionKeepsMoneyIff(chain, w, block.groups);
    ExecutionKeepsMoney(chain, w, block.groups);
    SettlesIff(rules, st.meta, GasUsed(r.applied), r.world.tips, r.world.burned);
  }

  // -------- runs of blocks --------

  datatype Turn = Turn(halted: bool, block: Block)

  function RunBlocks(rules: Rules, st: ChainState, turns: seq<Turn>): ChainState {
    if turns == [] then st
    else
      var before, last := RunBlocks(rules, st, turns[..|turns| - 1]), turns[|turns| - 1];
      ExecuteBlock(rules, last.halted, before, last.block).state
  }

  function AllCreated(rules: Rules, st: ChainState, turns: seq<Turn>): nat {
    if turns == [] then 0
    else
      var front, last := turns[..|turns| - 1], turns[|turns| - 1];
      AllCreated(rules, st, front) + Created(rules, last.halted, RunBlocks(rules, st, front), last.block)
  }

  /** Over any run of blocks the books stay sound exactly when no settled block creates anything. */
  lemma {:induction false} RunKeepsSoundIff(rules: Rules, st: ChainState, turns: seq<Turn>)
    requires Sound(rules, st)
    ensures Supply(RunBlocks(rules, st, turns)) == Supply(st) + AllCreated(rules, st, turns)
    ensures ReadNumber(RunBlocks(rules, st, turns).meta, MintedTotal) == ReadNumber(st.meta, MintedTotal)
    ensures ReadNumber(RunBlocks(rules, st, turns).meta, BurnedTotal).Some?
    ensures Sound(rules, RunBlocks(rules, st, turns)) <==> AllCreated(rules, st, turns) == 0
  {
    if turns != [] {
      hide ExecuteBlock, Supply, Created;
      var front, last := turns[..|turns| - 1], turns[|turns| - 1];
      var before := RunBlocks(rules, st, front);
      RunKeepsSoundIff(rules, st, front);
      BlockSupply(rules, last.halted, before, last.block);
      BlockKeepsTotals(rules, last.halted, before, last.block);
    }
  }

  lemma BlockKeepsTotals(rules: Rules, halted: bool, st: ChainState, block: Block)
    requires ReadNumber(st.meta, BurnedTotal).Some?
    ensures var next := ExecuteBlock(rules, halted, st, block).state.meta;
      ReadNumber(next, MintedTotal) == ReadNumber(st.meta, MintedTotal) && ReadNumber(next, BurnedTotal).Some?
  {
    if !halted && MetaAfter(rules, st, block).Some? {
      hide Run, Settled, SortUnique, Ids, GasUsed, FeeNow;
      var r := Run(rules, st, block);
      SettledTotals(rules, st.meta, GasUsed(r.applied), r.world.tips, r.world.burned);
    }
  }

  predicate Ordinary(turns: seq<Turn>) {
    forall t | t in turns :: NoSelf(Flatten(t.block.groups))
  }

  lemma {:induction false} OrdinaryRunIsSound(rules: Rules, st: ChainState, turns: seq<Turn>)
    requires Sound(rules, st) && Ordinary(turns)
    ensures Sound(rules, RunBlocks(rules, st, turns))
  {
    if turns != [] {
      hide ExecuteBlock, Sound, MetaAfter, NoSelf;
      var front, last := turns[..|turns| - 1], turns[|turns| - 1];
      OrdinaryRunIsSound(rules, st, front);
      OrdinaryTurn(rules, RunBlocks(rules, st, front), last);
    }
  }

  /** In any run of blocks without self-transfers from sound books, every block settles. */
  lemma OrdinaryRunSettles(rules: Rules, st: ChainState, turns: seq<Turn>, n: nat)
    requires Sound(rules, st) && Ordinary(turns) && n < |turns|
    ensures MetaAfter(rules, RunBlocks(rules, st, turns[..n]), turns[n].block).Some?
  {
    hide Sound, MetaAfter, NoSelf, RunBlocks;
    OrdinaryRunIsSound(rules, st, turns[..n]);
    SoundBlockSettles(rules, RunBlocks(rules, st, turns[..n]), turns[n].block);
  }

  lemma OrdinaryTurn(rules: Rules, st: ChainState, turn: Turn)
    requires Sound(rules, st) && NoSelf(Flatten(turn.block.groups))
    ensures MetaAfter(rules, st, turn.block).Some?
    ensures Sound(rules, ExecuteBlock(rules, turn.halted, st, turn.block).state)
  {
    hide Sound, MetaAfter, NoSelf, ExecuteBlock;
    SoundBlockSettles(rules, st, turn.block);
    BlockKeepsSoundIff(rules, turn.halted, st, turn.block);
  }

  // -------- the report --------

  /** A settled block reports every planned transaction, and in one list only when planned ids are distinct. */
  lemma ReportIsComplete(rules: Rules, st: ChainState, block: Block)
    requires MetaAfter(rules, st, block).Some?
    ensures var planned, report := Ids(Flatten(block.groups)), ExecuteBlock(rules, false, st, block).report;
      && (forall id :: id in planned <==> id in report.applied || id in report.aborted)
      && (forall id :: id in report.applied <==> id in Ids(Run(rules, st, block).applied))
      && (forall id :: id in report.aborted <==> id in Ids(Run(rules, st, block).aborted))
      && (forall id :: id in report.rejected <==> id in block.rejected)
      && Increasing(report.applied) && Increasing(report.aborted) && Increasing(report.rejected)
      && (Distinct(planned) ==> forall id :: id in report.applied ==> id !in report.aborted)
  {
    hide Run, MetaAfter, SortUnique;
    var r, txs := Run(rules, st, block), Flatten(block.groups);
    RunAccounts(rules, st, block);
    IdsOfParts(txs, r.applied, r.aborted);
  }

  /** A halted chain changes nothing and reports every planned transaction as aborted. */
  lemma HaltedReports(rules: Rules, st: ChainState, block: Block)
    ensures var out := ExecuteBlock(rules, true, st, block);
      && out.state == st && out.report.applied == []
      && (forall id :: id in out.report.aborted <==> id in Ids(Flatten(block.groups)))
      && (forall id :: id in out.report.rejected <==> id in block.rejected)
  {
    hide SortUnique, Ids;
  }

  function GasSum(txs: seq<Scheduled>): nat {
    if txs == [] then 0 else GasSum(txs[..|txs| - 1]) + txs[|txs| - 1].gas
  }

  /** The gas counted is the applied transactions' gas, exactly while their sum fits 64 bits, and never more. */
  lemma {:induction false} GasIsSumIff(txs: seq<Scheduled>)
    ensures GasUsed(txs) == GasSum(txs) <==> GasSum(txs) <= U64_MAX
    ensures GasUsed(txs) <= GasSum(txs)
  {
    if txs != [] {
      GasIsSumIff(txs[..|txs| - 1]);
    }
  }

  /** A block that does not settle leaves the accounts and totals it found, and reports nothing. */
  lemma UnsettledChangesNothing(rules: Rules, st: ChainState, block: Block)
    requires MetaAfter(rules, st, block).None?
    ensures ExecuteBlock(rules, false, st, block) == Outcome(st, Report([], [], []))
  {
  }

  predicate Distinct(ids: seq<TxId>) {
    forall i, j | 0 <= i < j < |ids| :: ids[i] != ids[j]
  }

  lemma RunAccounts(rules: Rules, st: ChainState, block: Block)
    ensures var r := Run(rules, st, block);
      multiset(r.applied) + multiset(r.aborted) == multiset(Flatten(block.groups))
  {
    EveryTransactionHasOneFate(ChainOf(rules, st), World(st.accounts, 0, 0), block.groups);
  }

  lemma IdsOfParts(txs: seq<Scheduled>, a: seq<Scheduled>, b: seq<Scheduled>)
    requires multiset(a) + multiset(b) == multiset(txs)
    ensures forall id :: id in Ids(txs) <==> id in Ids(a) || id in Ids(b)
    ensures Distinct(Ids(txs)) ==> forall id :: id in Ids(a) ==> id !in Ids(b)
  {
    forall id
      ensures id in Ids(txs) <==> id in Ids(a) || id in Ids(b)
      ensures Distinct(Ids(txs)) && id in Ids(a) ==> id !in Ids(b)
    {
      InIds(txs, id);
      InIds(a, id);
      InIds(b, id);
      assert forall s :: s in txs <==> s in multiset(a) + multiset(b);
      if Distinct(Ids(txs)) && id in Ids(a) && id in Ids(b) {
        var s :| s in a && s.id == id;
        var t :| t in b && t.id == id;
        TwiceIsNotDistinct(txs, a, b, s, t);
      }
    }
  }

  lemma InIds(txs: seq<Scheduled>, id: TxId)
    ensures id in Ids(txs) <==> exists s :: s in txs && s.id == id
  {
    if id in Ids(txs) {
      var i :| 0 <= i < |txs| && Ids(txs)[i] == id;
      assert txs[i] in txs;
    }
    if exists s :: s in txs && s.id == id {
      var s :| s in txs && s.id == id;
      var i :| 0 <= i < |txs| && txs[i] == s;
      assert Ids(txs)[i] == id;
    }
  }

  lemma TwiceIsNotDistinct(txs: seq<Scheduled>, a: seq<Scheduled>, b: seq<Scheduled>, s: Scheduled, t: Scheduled)
    requires multiset(a) + multiset(b) == multiset(txs) && s in a && t in b && s.id == t.id
    ensures !Distinct(Ids(txs))
  {
    assert s in multiset(a) && t in multiset(b);
    assert s in multiset(txs) && t in multiset(txs);
    var i :| 0 <= i < |txs| && txs[i] == s;
    var j :| 0 <= j < |txs| && txs[j] == t;
    if i == j {
      assert multiset(txs)[s] == multiset(a)[s] + multiset(b)[s];
      j := OtherPlace(txs, i);
    }
    assert Ids(txs)[i] == Ids(txs)[j];
  }

  lemma OtherPlace(txs: seq<Scheduled>, i: nat) returns (j: nat)
    requires i < |txs| && multiset(txs)[txs[i]] >= 2
    ensures j < |txs| && j != i && txs[j] == txs[i]
  {
    Without(txs, i);
    var rest := txs[..i] + txs[i + 1..];
    assert txs[i] in multiset(rest);
    var k :| 0 <= k < |rest| && rest[k] == txs[i];
    j := if k < i then k else k + 1;
  }
}
