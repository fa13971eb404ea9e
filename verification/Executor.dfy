/** Transfers, the groups they are planned into, and the passes that execute a group from one snapshot. */
module Executor {
  import opened Common
  import opened Sums

  type AccountId = string
  type TxId = nat

  datatype Account = Account(nonce: u64, balance: u64)

  type Accounts = map<AccountId, Account>

  datatype Transfer = Transfer(from: AccountId, to: AccountId, amount: u64, expectedNonce: u64)

  datatype Scheduled = Scheduled(
    id: TxId,
    version: nat,
    fee: u64,
    maxFeePerGas: u64,
    priorityFeePerGas: u64,
    gas: u64,
    transfer: Transfer)

  datatype Chain = Chain(baseFeePerGas: u64, protocolVersion: nat)

  // -------- conflicts and planning --------

  /** A transfer reads and writes its two accounts. */
  function Touches(s: Scheduled): set<AccountId> {
    {s.transfer.from, s.transfer.to}
  }

  predicate Conflicts(a: Scheduled, b: Scheduled) {
    Touches(a) * Touches(b) != {}
  }

  predicate ConflictFree(txs: seq<Scheduled>) {
    forall i, j | 0 <= i < j < |txs| :: !Conflicts(txs[i], txs[j])
  }

  predicate Accepts(group: seq<Scheduled>, s: Scheduled) {
    forall i | 0 <= i < |group| :: !Conflicts(s, group[i])
  }

  /** The transaction joins the first group with which it does not conflict, or opens a new one. */
  function Place(groups: seq<seq<Scheduled>>, s: Scheduled): seq<seq<Scheduled>> {
    if groups == [] then [[s]]
    else if Accepts(groups[0], s) then [groups[0] + [s]] + groups[1..]
    else [groups[0]] + Place(groups[1..], s)
  }

  function Plan(batch: seq<Scheduled>): seq<seq<Scheduled>> {
    if batch == [] then [] else Place(Plan(batch[..|batch| - 1]), batch[|batch| - 1])
  }

  function Flatten(groups: seq<seq<Scheduled>>): seq<Scheduled> {
    if groups == [] then [] else groups[0] + Flatten(groups[1..])
  }

  // -------- fees --------

  function Times(a: nat, b: nat): nat {
    a * b
  }

  datatype FeeSplit = FeeSplit(total: u64, burn: u64, tip: u64)

  function SplitFee(chain: Chain, s: Scheduled): (r: Option<FeeSplit>)
    ensures r.Some? ==> r.value.total == r.value.burn + r.value.tip
  {
    hide Times;
    if s.version < 2 then Some(FeeSplit(s.fee, s.fee, 0))
    else
      var maxFee := if s.maxFeePerGas != 0 then s.maxFeePerGas else s.fee;
      if maxFee < chain.baseFeePerGas then None
      else
        var burn := Times(chain.baseFeePerGas, s.gas);
        var room := maxFee - chain.baseFeePerGas;
        var tip := Times(if s.priorityFeePerGas < room then s.priorityFeePerGas else room, s.gas);
        if burn > U64_MAX || tip > U64_MAX || burn + tip > U64_MAX then None
        else Some(FeeSplit(burn + tip, burn, tip))
  }

  // -------- one transfer --------

  function Get(accounts: Accounts, id: AccountId): Option<Account> {
    if id in accounts then Some(accounts[id]) else None
  }

  datatype Effect = Fails | Waits | Changes(fromNext: Account, toNext: Account, fees: FeeSplit)

  /** What a transfer would do to its two accounts. `Waits` is a failure that a later pass may cure. */
  function AttemptOn(chain: Chain, sender: Option<Account>, receiver: Option<Account>, s: Scheduled): Effect {
    var t := s.transfer;
    if s.version > chain.protocolVersion then Fails
    else if sender.None? || sender.value.nonce != t.expectedNonce then Waits
    else
      var fees := SplitFee(chain, s);
      if fees.None? || t.amount + fees.value.total > U64_MAX then Fails
      else
        var total := t.amount + fees.value.total;
        var from := sender.value;
        var to := if receiver.Some? then receiver.value else Account(0, 0);
        if from.balance < total then Waits
        else if to.balance + t.amount > U64_MAX then Fails
        else Changes(
          Account(Wrap64(from.nonce + 1), from.balance - total),
          to.(balance := to.balance + t.amount),
          fees.value)
  }

  function Attempt(chain: Chain, snap: Accounts, s: Scheduled): Effect {
    AttemptOn(chain, Get(snap, s.transfer.from), Get(snap, s.transfer.to), s)
  }

  datatype AccountChange = AccountChange(id: AccountId, next: Account)

  function ApplyChanges(accounts: Accounts, changes: seq<AccountChange>): Accounts {
    if changes == [] then accounts
    else
      var c := changes[|changes| - 1];
      ApplyChanges(accounts, changes[..|changes| - 1])[c.id := c.next]
  }

  datatype World = World(accounts: Accounts, burned: u64, tips: u64)

  datatype Fate = Applied(world: World) | Aborted | Retried

  /** Commits what a transfer would do to `snap`, if its accounts are still as they were there. */
  function Commit(chain: Chain, snap: Accounts, w: World, s: Scheduled): Fate {
    var t := s.transfer;
    match Attempt(chain, snap, s)
    case Fails => Aborted
    case Waits => Retried
    case Changes(fromNext, toNext, fees) =>
      if Get(w.accounts, t.from) != Get(snap, t.from) || Get(w.accounts, t.to) != Get(snap, t.to) then Retried
      else if w.burned + fees.burn > U64_MAX || w.tips + fees.tip > U64_MAX then Aborted
      else Applied(World(w.accounts[t.from := fromNext][t.to := toNext], w.burned + fees.burn, w.tips + fees.tip))
  }

  // -------- passes over a group --------

  datatype PassResult = PassResult(world: World, applied: seq<Scheduled>, aborted: seq<Scheduled>,
    retry: seq<Scheduled>)

  /** All effects are computed from `snap` and committed in turn. */
  function Pass(chain: Chain, snap: Accounts, w: World, txs: seq<Scheduled>): PassResult {
    if txs == [] then PassResult(w, [], [], [])
    else
      var r := Pass(chain, snap, w, txs[..|txs| - 1]);
      var s := txs[|txs| - 1];
      match Commit(chain, snap, r.world, s)
      case Applied(w') => r.(world := w', applied := r.applied + [s])
      case Aborted => r.(aborted := r.aborted + [s])
      case Retried => r.(retry := r.retry + [s])
  }

  function InsertById(sorted: seq<Scheduled>, s: Scheduled): seq<Scheduled> {
    if sorted == [] then [s]
    else if sorted[|sorted| - 1].id <= s.id then sorted + [s]
    else InsertById(sorted[..|sorted| - 1], s) + [sorted[|sorted| - 1]]
  }

  function SortById(txs: seq<Scheduled>): seq<Scheduled> {
    if txs == [] then [] else InsertById(SortById(txs[..|txs| - 1]), txs[|txs| - 1])
  }

  const PASSES: nat := 3

  /** At most three passes; a pass in which every transaction has to wait is the last. */
  function Passes(chain: Chain, w: World, txs: seq<Scheduled>, left: nat): PassResult
    decreases left
  {
    if left == 0 || txs == [] then PassResult(w, [], txs, [])
    else
      var r := Pass(chain, w.accounts, w, txs);
      if |r.retry| == |txs| then PassResult(r.world, r.applied, r.aborted + r.retry, [])
      else
        var rest := Passes(chain, r.world, SortById(r.retry), left - 1);
        PassResult(rest.world, r.applied + rest.applied, r.aborted + rest.aborted, [])
  }

  function RunGroup(chain: Chain, w: World, group: seq<Scheduled>): PassResult {
    Passes(chain, w, SortById(group), PASSES)
  }

  function RunGroups(chain: Chain, w: World, groups: seq<seq<Scheduled>>): PassResult {
    if groups == [] then PassResult(w, [], [], [])
    else
      var r := RunGroups(chain, w, groups[..|groups| - 1]);
      var last := RunGroup(chain, r.world, groups[|groups| - 1]);
      PassResult(last.world, r.applied + last.applied, r.aborted + last.aborted, [])
  }

  // -------- the reference: one transfer at a time --------

  function RunOne(chain: Chain, w: World, s: Scheduled): World {
    var fate := Commit(chain, w.accounts, w, s);
    if fate.Applied? then fate.world else w
  }

  function RunSerially(chain: Chain, w: World, txs: seq<Scheduled>): World {
    if txs == [] then w else RunOne(chain, RunSerially(chain, w, txs[..|txs| - 1]), txs[|txs| - 1])
  }

  // -------- money --------

  function Balances(accounts: Accounts): map<AccountId, nat> {
    map id | id in accounts :: accounts[id].balance
  }

  ghost function Money(w: World): nat {
    Sum(Balances(w.accounts)) + w.burned + w.tips
  }
}
