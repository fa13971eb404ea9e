/** Storage effects told as updates of slots: numbers put, tokens sent, events recorded. */
module Ledger {
  import opened Common
  import opened ContractStore

  /** A slot is empty or holds a number. */
  predicate Readable(st: Store, slot: Slot) {
    slot in st ==> st[slot].Word?
  }

  function Put(st: Store, slot: Slot, n: nat): Store
    requires n <= U64_MAX
  {
    st[slot := Word(n)]
  }

  // -------- tokens --------

  predicate CanSend(st: Store, token: string, from: Address, to: Address, amount: nat) {
    var a, b := Slot(token, TokenBalance(from)), Slot(token, TokenBalance(to));
    && amount > 0 && Readable(st, a) && Readable(st, b)
    && amount <= Num(st, a) && Num(st, b) + amount <= U64_MAX
  }

  /** `into` with `amount` sent, by the balances that `st` has; the receiver's is written last. */
  function Sent(into: Store, st: Store, token: string, from: Address, to: Address, amount: nat): Store
    requires CanSend(st, token, from, to, amount)
  {
    var a, b := Slot(token, TokenBalance(from)), Slot(token, TokenBalance(to));
    Put(Put(into, a, Num(st, a) - amount), b, Num(st, b) + amount)
  }

  lemma TransferIsSent(into: Store, st: Store, token: string, from: Address, to: Address, amount: u64)
    ensures TransferChanges(st, token, from, to, amount).Some? <==> CanSend(st, token, from, to, amount)
    ensures CanSend(st, token, from, to, amount) ==>
      ApplyAll(into, TransferChanges(st, token, from, to, amount).value) == Sent(into, st, token, from, to, amount)
  {
    hide ApplyAll;
    if CanSend(st, token, from, to, amount) {
      var changes := TransferChanges(st, token, from, to, amount).value;
      Two(into, changes[0], changes[1]);
    }
  }

  lemma NothingSent(st: Store, token: string, from: Address, to: Address)
    ensures !CanSend(st, token, from, to, 0)
  {
  }

  lemma SentElsewhere(into: Store, st: Store, token: string, from: Address, to: Address, amount: nat)
    requires CanSend(st, token, from, to, amount)
    ensures SameOutside(into, Sent(into, st, token, from, to, amount), (s: Slot) => s.key.TokenBalance?)
  {
  }

  // -------- events --------

  predicate CanRecord(st: Store, c: string) {
    Readable(st, Slot(c, EventSeq)) && Num(st, Slot(c, EventSeq)) < U64_MAX
  }

  /** `into` with the event under the next number after the one `st` has. */
  function Recorded(into: Store, st: Store, c: string, event: Value): Store
    requires CanRecord(st, c)
  {
    var n := Num(st, Slot(c, EventSeq)) + 1;
    Put(into, Slot(c, EventSeq), n)[Slot(c, EventAt(n)) := event]
  }

  lemma EventIsRecorded(into: Store, st: Store, c: string, event: Value)
    ensures EventChanges(st, c, event).Some? <==> CanRecord(st, c)
    ensures CanRecord(st, c) ==> ApplyAll(into, EventChanges(st, c, event).value) == Recorded(into, st, c, event)
  {
    hide ApplyAll;
    if CanRecord(st, c) {
      var changes := EventChanges(st, c, event).value;
      Two(into, changes[0], changes[1]);
    }
  }

  lemma RecordedElsewhere(into: Store, st: Store, c: string, event: Value)
    requires CanRecord(st, c)
    ensures SameOutside(into, Recorded(into, st, c, event), (s: Slot) => s.key.EventSeq? || s.key.EventAt?)
  {
  }
}
