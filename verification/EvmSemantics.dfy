/** What each instruction does, told opcode by opcode in integer arithmetic on the stack and byte by byte in memory. */
module EvmSemantics {
  import opened Common
  import opened U256
  import opened WordBits
  import opened AbiWords
  import opened EvmMachine
  import opened EvmTheorems

  const TWO_256: nat := 0x1_0000_0000_0000_0000_0000_0000_0000_0000_0000_0000_0000_0000_0000_0000_0000_0000

  // -------- words --------

  predicate BitSet(x: nat, k: nat) {
    x / Pow2(k) % 2 == 1
  }

  predicate IsBinary(op: byte) {
    op in {0x01, 0x02, 0x03, 0x04, 0x06, 0x10, 0x11, 0x14, 0x16, 0x17, 0x18}
  }

  /** `w` is what the binary instruction `op` makes of the entry below the top and the top. */
  ghost predicate Answers(op: byte, below: nat, top: nat, w: nat) {
    match op
    case 0x01 => w == (below + top) % TWO_256
    case 0x02 => w == (below * top) % TWO_256
    case 0x03 => w == (below - top) % TWO_256
    case 0x04 => w == if top == 0 then 0 else below / top
    case 0x06 => w == if top == 0 then 0 else below % top
    case 0x10 => w == if below < top then 1 else 0
    case 0x11 => w == if below > top then 1 else 0
    case 0x14 => w == if below == top then 1 else 0
    case 0x16 => w < TWO_256 && forall k: nat | k < 256 :: BitSet(w, k) <==> BitSet(below, k) && BitSet(top, k)
    case 0x17 => w < TWO_256 && forall k: nat | k < 256 :: BitSet(w, k) <==> BitSet(below, k) || BitSet(top, k)
    case 0x18 => w < TWO_256 && forall k: nat | k < 256 :: BitSet(w, k) <==> BitSet(below, k) != BitSet(top, k)
    case _ => false
  }

  // -------- stack, memory, input --------

  /** Entry `k` below the top. */
  function Entry(m: Machine, k: nat): nat
    requires k < |m.stack|
  {
    m.stack[|m.stack| - 1 - k]
  }

  /** Takes `pops` entries off, puts `pushed` on, pays `price`, and goes on at `to`. */
  predicate Leaves(m: Machine, next: Machine, pops: nat, pushed: seq<nat>, price: nat, to: nat) {
    && pops <= |m.stack|
    && next.stack == m.stack[..|m.stack| - pops] + pushed
    && next.gas == m.gas + price
    && next.pc == to
  }

  predicate WritesNothing(m: Machine, next: Machine) {
    next.writes == m.writes && next.overlay == m.overlay
  }

  /** Memory reads as zero where there is none yet. */
  function MemByte(mem: seq<byte>, i: nat): byte {
    if i < |mem| then mem[i] else 0
  }

  function MemBytes(mem: seq<byte>, off: nat, n: nat): (r: seq<byte>)
    ensures |r| == n
    ensures forall i | 0 <= i < n :: r[i] == MemByte(mem, off + i)
  {
    seq<byte>(n, i requires 0 <= i < n => MemByte(mem, off + i))
  }

  /** `after` is `mem` grown to at least `want` bytes, with `bytes` at `off`. */
  predicate Memory(mem: seq<byte>, after: seq<byte>, want: nat, off: nat, bytes: seq<byte>) {
    && |after| == (if |mem| < want then want else |mem|)
    && forall i | 0 <= i < |after| ::
         after[i] == if off <= i < off + |bytes| then bytes[i - off] else MemByte(mem, i)
  }

  /** Call data reads as zero past its end; the index is a 64-bit sum. */
  function InputBytes(data: seq<byte>, off: nat, n: nat): (r: seq<byte>)
    ensures |r| == n
    ensures forall i | 0 <= i < n :: r[i] == MemByte(data, (off + i) % 0x1_0000_0000_0000_0000)
  {
    seq<byte>(n, i requires 0 <= i < n => MemByte(data, (off + i) % 0x1_0000_0000_0000_0000))
  }

  /** Words charged for a size; the sum is on 64 bits. */
  function Words(size: nat): nat {
    (size + 31) % 0x1_0000_0000_0000_0000 / 32
  }

  /** A JUMPDEST that the linear reading of the code comes upon as an instruction. */
  predicate Target(code: seq<byte>, dst: nat) {
    dst < |code| && dst <= U64_MAX && Boundary(code, dst) && code[dst] == 0x5b
  }

  // -------- what an instruction that goes on has done --------

  ghost predicate PushDupSwap(env: Env, m: Machine, next: Machine)
    requires m.pc < |env.code| && 0x60 <= env.code[m.pc] <= 0x9f
  {
    var op, n := env.code[m.pc], |m.stack|;
    && next.mem == m.mem && WritesNothing(m, next)
    && if op <= 0x7f then
         var end := m.pc + op - 0x5e;
         end <= |env.code| && Leaves(m, next, 0, [FromBigEndian(env.code[m.pc + 1..end])], 3, end)
       else if op <= 0x8f then
         op - 0x80 < n && Leaves(m, next, 0, [Entry(m, op - 0x80)], 3, m.pc + 1)
       else
         var k := op - 0x8f;
         && k < n == |next.stack| && next.gas == m.gas + 3 && next.pc == m.pc + 1
         && forall i | 0 <= i < n :: Entry(next, i) == Entry(m, if i == 0 then k else if i == k then 0 else i)
  }

  ghost predicate OnWords(env: Env, m: Machine, next: Machine)
    requires m.pc < |env.code|
  {
    var op, n := env.code[m.pc], |m.stack|;
    && next.mem == m.mem && WritesNothing(m, next)
    && if IsBinary(op) then
         && n >= 2 && |next.stack| == n - 1 && Answers(op, Entry(m, 1), Entry(m, 0), Entry(next, 0))
         && Leaves(m, next, 2, [Entry(next, 0)], if op in {0x02, 0x04, 0x06} then 5 else 3, m.pc + 1)
       else match op
         case 0x15 => n >= 1 && Leaves(m, next, 1, [if Entry(m, 0) == 0 then 1 else 0], 3, m.pc + 1)
         case 0x35 =>
           n >= 1 && Leaves(m, next, 1,
             [if Entry(m, 0) <= U64_MAX then FromBigEndian(InputBytes(env.calldata, Entry(m, 0), 32)) else 0],
             3, m.pc + 1)
         case 0x36 => Leaves(m, next, 0, [|env.calldata|], 2, m.pc + 1)
         case 0x50 => Leaves(m, next, 1, [], 2, m.pc + 1)
         case 0x56 => n >= 1 && Target(env.code, Entry(m, 0)) && Leaves(m, next, 1, [], 8, Entry(m, 0))
         case 0x57 =>
           && n >= 2 && (Entry(m, 1) != 0 ==> Target(env.code, Entry(m, 0)))
           && Leaves(m, next, 2, [], 10, if Entry(m, 1) == 0 then m.pc + 1 else Entry(m, 0))
         case 0x5b => Leaves(m, next, 0, [], 1, m.pc + 1)
         case _ => false
  }

  ghost predicate OnMemory(env: Env, m: Machine, next: Machine)
    requires m.pc < |env.code|
  {
    var op, n := env.code[m.pc], |m.stack|;
    && WritesNothing(m, next)
    && match op
       case 0x20 =>
         && n >= 2
         && Leaves(m, next, 2, [FromBigEndian(env.keccak(MemBytes(m.mem, Entry(m, 0), Entry(m, 1))))],
                   30 + 6 * Words(Entry(m, 1)), m.pc + 1)
         && Memory(m.mem, next.mem, Entry(m, 0) + Entry(m, 1), 0, [])
       case 0x37 =>
         && n >= 3 && Leaves(m, next, 3, [], 3 + 3 * Words(Entry(m, 2)), m.pc + 1)
         && Memory(m.mem, next.mem, Entry(m, 0) + Entry(m, 2), Entry(m, 0),
                   InputBytes(env.calldata, Entry(m, 1), Entry(m, 2)))
       case 0x51 =>
         && n >= 1 && Leaves(m, next, 1, [FromBigEndian(MemBytes(m.mem, Entry(m, 0), 32))], 3, m.pc + 1)
         && Memory(m.mem, next.mem, Entry(m, 0) + 32, 0, [])
       case 0x52 =>
         && n >= 2 && Leaves(m, next, 2, [], 3, m.pc + 1)
         && exists word: Bytes32 | FromBigEndian(word) == Entry(m, 1) ::
              Memory(m.mem, next.mem, Entry(m, 0) + 32, Entry(m, 0), word)
       case 0x53 =>
         && n >= 2 && Leaves(m, next, 2, [], 3, m.pc + 1)
         && Memory(m.mem, next.mem, Entry(m, 0) + 1, Entry(m, 0), [Entry(m, 1) % 256])
       case _ => false
  }

  /** Storage is addressed by the 32 bytes of a word. */
  ghost predicate OnStorage(env: Env, m: Machine, next: Machine)
    requires m.pc < |env.code|
  {
    var op, n := env.code[m.pc], |m.stack|;
    && next.mem == m.mem
    && match op
       case 0x54 =>
         && n >= 1 && WritesNothing(m, next)
         && exists key: Bytes32 | FromBigEndian(key) == Entry(m, 0) ::
              Leaves(m, next, 1,
                [if key in m.overlay then FromBigEndian(m.overlay[key])
                 else if key in env.storage then FromBigEndian(env.storage[key])
                 else 0], 50, m.pc + 1)
       case 0x55 =>
         && n >= 2 && Leaves(m, next, 2, [], 20000, m.pc + 1)
         && exists key: Bytes32, value: Bytes32
              | FromBigEndian(key) == Entry(m, 0) && FromBigEndian(value) == Entry(m, 1) ::
              next.writes == m.writes + [Write(key, value)] && next.overlay == m.overlay[key := value]
       case _ => false
  }

  ghost predicate Does(env: Env, m: Machine, next: Machine) {
    && m.pc < |env.code| && next.steps == m.steps + 1
    && var op := env.code[m.pc];
       if 0x60 <= op <= 0x9f then PushDupSwap(env, m, next)
       else if op in {0x20, 0x37, 0x51, 0x52, 0x53} then OnMemory(env, m, next)
       else if op in {0x54, 0x55} then OnStorage(env, m, next)
       else OnWords(env, m, next)
  }

  // -------- why a run stops --------

  datatype Verdict = GoesOn | Stops(status: Status, gas: nat)

  /** The price is asked first, and what comes after it only if it was paid. */
  function Priced(env: Env, m: Machine, price: nat, ok: bool): Verdict {
    if m.gas + price > env.gasLimit then Stops(OutOfGas, m.gas)
    else if ok then GoesOn
    else Stops(Trap, m.gas + price)
  }

  /** The same with memory up to `end` in between. */
  function PricedMemory(env: Env, m: Machine, price: nat, ok: bool, end: nat, room: bool): Verdict {
    if m.gas + price > env.gasLimit then Stops(OutOfGas, m.gas)
    else if !ok || end > U64_MAX then Stops(Trap, m.gas + price)
    else if end > env.limits.maxMemoryBytes then Stops(OutOfGas, m.gas + price)
    else if room then GoesOn
    else Stops(Trap, m.gas + price)
  }

  function Judge(env: Env, m: Machine): Verdict {
    var n, cap := |m.stack|, env.limits.maxStackItems;
    if m.pc >= |env.code| then Stops(Success, m.gas)
    else if m.steps >= env.limits.maxSteps then Stops(OutOfGas, m.gas)
    else
      var op := env.code[m.pc];
      if 0x60 <= op <= 0x7f then
        if m.pc + op - 0x5e > |env.code| then Stops(InvalidCode, m.gas) else Priced(env, m, 3, n < cap)
      else if 0x80 <= op <= 0x8f then Priced(env, m, 3, op - 0x7f <= n < cap)
      else if 0x90 <= op <= 0x9f then Priced(env, m, 3, op - 0x8f < n)
      else if IsBinary(op) then Priced(env, m, if op in {0x02, 0x04, 0x06} then 5 else 3, 2 <= n <= cap + 1)
      else match op
        case 0x00 => Stops(Success, m.gas)
        case 0x15 => Priced(env, m, 3, 1 <= n <= cap)
        case 0x20 =>
          if n < 2 || Entry(m, 0) + Entry(m, 1) > U64_MAX then Stops(Trap, m.gas)
          else PricedMemory(env, m, 30 + 6 * Words(Entry(m, 1)), true, Entry(m, 0) + Entry(m, 1), n <= cap + 1)
        case 0x35 => Priced(env, m, 3, 1 <= n <= cap)
        case 0x36 => Priced(env, m, 2, n < cap)
        case 0x37 =>
          if n < 3 || Entry(m, 0) + Entry(m, 2) > U64_MAX || Entry(m, 1) > U64_MAX then Stops(Trap, m.gas)
          else PricedMemory(env, m, 3 + 3 * Words(Entry(m, 2)), true, Entry(m, 0) + Entry(m, 2), true)
        case 0x50 => Priced(env, m, 2, n >= 1)
        case 0x51 => PricedMemory(env, m, 3, n >= 1, if n >= 1 then Entry(m, 0) + 32 else 0, n <= cap)
        case 0x52 => PricedMemory(env, m, 3, n >= 2, if n >= 2 then Entry(m, 0) + 32 else 0, true)
        case 0x53 => PricedMemory(env, m, 3, n >= 2, if n >= 2 then Entry(m, 0) + 1 else 0, true)
        case 0x54 => Priced(env, m, 50, n >= 1 && env.canLoad && n <= cap)
        case 0x55 => Priced(env, m, 20000, n >= 2)
        case 0x56 => Priced(env, m, 8, n >= 1 && Target(env.code, Entry(m, 0)))
        case 0x57 => Priced(env, m, 10, n >= 2 && (Entry(m, 1) == 0 || Target(env.code, Entry(m, 0))))
        case 0x5b => Priced(env, m, 1, true)
        case 0xf3 => Returned(env, m, Success)
        case 0xfd => Returned(env, m, Reverted)
        case _ => Stops(Trap, m.gas)
  }

  function Returned(env: Env, m: Machine, status: Status): Verdict {
    if |m.stack| < 2 || Entry(m, 0) + Entry(m, 1) > U64_MAX then Stops(Trap, m.gas)
    else if Entry(m, 0) + Entry(m, 1) > env.limits.maxMemoryBytes then Stops(OutOfGas, m.gas)
    else Stops(status, m.gas)
  }

  /** Only RETURN and REVERT hand data back: the memory that they name. */
  function Data(env: Env, m: Machine): seq<byte> {
    if m.pc < |env.code| && env.code[m.pc] in {0xf3, 0xfd} && |m.stack| >= 2 && Judge(env, m).Stops? &&
       Judge(env, m).status in {Success, Reverted}
    then MemBytes(m.mem, Entry(m, 0), Entry(m, 1))
    else []
  }

  // -------- the interpreter agrees --------

  lemma {:induction false} BitwiseDigits(op: BitOp, x: nat, y: nat, n: nat, k: nat)
    requires k < n
    ensures BitSet(Bitwise(op, x, y, n), k) <==>
      match op
      case BitAnd => BitSet(x, k) && BitSet(y, k)
      case BitOr => BitSet(x, k) || BitSet(y, k)
      case BitXor => BitSet(x, k) != BitSet(y, k)
  {
    var r := Bitwise(op, x, y, n);
    if k > 0 {
      BitwiseDigits(op, x / 2, y / 2, n - 1, k - 1);
      UpperBits(x, k);
      UpperBits(y, k);
      UpperBits(r, k);
      assert r / 2 == Bitwise(op, x / 2, y / 2, n - 1);
    } else {
      assert Pow2(0) == 1;
    }
  }

  lemma UpperBits(x: nat, k: nat)
    requires k > 0
    ensures BitSet(x, k) == BitSet(x / 2, k - 1)
  {
    DivHalf(x, Pow2(k - 1));
  }

  lemma DivHalf(x: nat, p: nat)
    requires p > 0
    ensures x / (2 * p) == x / 2 / p
  {
    hide Quotient, Remainder;
    var q, r := Quotient(x, 2), Remainder(x, 2);
    var q', r' := Quotient(q, p), Remainder(q, p);
    Assoc(q', p, 2);
    Assoc(2, q', p);
    QuotientUnique(x, 2 * p, q', r' * 2 + r);
    QuotientMeaning(x, 2);
    QuotientMeaning(q, p);
    QuotientMeaning(x, 2 * p);
  }

  lemma Word256IsWide()
    ensures Weight(4) == TWO_256
  {
  }

  lemma EvalAnswers(op: byte, below: Word256, top: Word256)
    requires IsBinary(op) && Decode(op).Binary?
    ensures Answers(op, below, top, Eval(Decode(op).op, below, top))
  {
    hide Weight, Bitwise, BitSet;
    Word256IsWide();
    forall o: BitOp, k: nat | k < 256 {
      BitwiseDigits(o, below, top, 256, k);
    }
  }

  lemma LeadingZeros(s: seq<byte>, n: nat)
    ensures FromBigEndian(Repeat(n, 0) + s) == FromBigEndian(s)
  {
    FromBigEndianConcat(Repeat(n, 0), s);
    ExtremeBytes(Repeat(n, 0));
  }

  predicate Ready(env: Env, m: Machine) {
    && m.gas <= env.gasLimit && |env.calldata| <= U64_MAX && Scan(env.code).Some?
    && m.pc < |env.code| && m.steps < env.limits.maxSteps
  }

  /** A step goes on or stops as judged. */
  ghost predicate Agrees(env: Env, m: Machine, v: Verdict, r: Outcome<Machine>) {
    match v
    case GoesOn => r.Go? && Does(env, m, r.value)
    case Stops(status, gas) => r == Halt(status, gas, Data(env, m), m.writes)
  }

  lemma PushAgrees(env: Env, m: Machine)
    requires Ready(env, m) && 0x60 <= env.code[m.pc] <= 0x7f
    ensures Agrees(env, m, Judge(env, m), StepPush(env, m.(steps := m.steps + 1), env.code[m.pc] - 0x5f))
  {
    hide FromBigEndian, Weight, Scan, OnWords, OnMemory, OnStorage;
    var n := env.code[m.pc] - 0x5f;
    if m.pc + 1 + n <= |env.code| {
      LeadingZeros(env.code[m.pc + 1..m.pc + 1 + n], 32 - n);
    }
  }

  lemma DupAgrees(env: Env, m: Machine)
    requires Ready(env, m) && 0x80 <= env.code[m.pc] <= 0x8f
    ensures Agrees(env, m, Judge(env, m), StepDup(env, m.(steps := m.steps + 1), env.code[m.pc] - 0x7f))
  {
    hide FromBigEndian, Weight, Scan, OnWords, OnMemory, OnStorage;
  }

  lemma SwapAgrees(env: Env, m: Machine)
    requires Ready(env, m) && 0x90 <= env.code[m.pc] <= 0x9f
    ensures Agrees(env, m, Judge(env, m), StepSwap(env, m.(steps := m.steps + 1), env.code[m.pc] - 0x8f))
  {
    hide FromBigEndian, Weight, Scan, OnWords, OnMemory, OnStorage;
  }

  lemma SameWindow(data: seq<byte>, off: nat, n: nat)
    ensures CallDataWindow(data, off, n) == InputBytes(data, off, n)
  {
    assert forall i | 0 <= i < n :: InputBytes(data, off, n)[i] == CallDataByte(data, off, i);
  }

  lemma BinaryIsPriced(op: byte)
    requires IsBinary(op)
    ensures Decode(op).Binary? && MinCost(Decode(op)) == if op in {0x02, 0x04, 0x06} then 5 else 3
  {
  }

  lemma BinaryVerdict(env: Env, m: Machine)
    requires Ready(env, m) && IsBinary(env.code[m.pc])
    ensures Data(env, m) == []
    ensures Judge(env, m) == Priced(env, m, if env.code[m.pc] in {0x02, 0x04, 0x06} then 5 else 3,
                                    2 <= |m.stack| <= env.limits.maxStackItems + 1)
  {
    hide Scan, Boundary, Decode;
  }

  lemma BinaryAgrees(env: Env, m: Machine)
    requires Ready(env, m) && IsBinary(env.code[m.pc])
    ensures Decode(env.code[m.pc]).Binary?
    ensures Agrees(env, m, Judge(env, m), StepBinary(env, m.(steps := m.steps + 1), Decode(env.code[m.pc]).op))
  {
    hide FromBigEndian, Weight, Scan, PushDupSwap, OnMemory, OnStorage, Boundary, Eval, Answers, Decode, MinCost, Judge,
      Data;
    BinaryVerdict(env, m);
    var op, n := env.code[m.pc], |m.stack|;
    BinaryIsPriced(op);
    if n >= 2 {
      EvalAnswers(op, m.stack[n - 2], m.stack[n - 1]);
    }
  }

  lemma IsZeroAgrees(env: Env, m: Machine)
    requires Ready(env, m) && env.code[m.pc] == 0x15
    ensures Agrees(env, m, Judge(env, m), StepIsZero(env, m.(steps := m.steps + 1)))
  {
    hide FromBigEndian, Weight, Scan, PushDupSwap, OnMemory, OnStorage, IsJumpDest, Boundary;
  }

  lemma CallDataSizeAgrees(env: Env, m: Machine)
    requires Ready(env, m) && env.code[m.pc] == 0x36
    ensures Agrees(env, m, Judge(env, m), StepCallDataSize(env, m.(steps := m.steps + 1)))
  {
    hide FromBigEndian, Weight, Scan, PushDupSwap, OnMemory, OnStorage, IsJumpDest, Boundary;
  }

  lemma PopAgrees(env: Env, m: Machine)
    requires Ready(env, m) && env.code[m.pc] == 0x50
    ensures Agrees(env, m, Judge(env, m), StepPop(env, m.(steps := m.steps + 1)))
  {
    hide FromBigEndian, Weight, Scan, PushDupSwap, OnMemory, OnStorage, IsJumpDest, Boundary;
  }

  lemma JumpDestAgrees(env: Env, m: Machine)
    requires Ready(env, m) && env.code[m.pc] == 0x5b
    ensures Agrees(env, m, Judge(env, m), StepJumpDest(env, m.(steps := m.steps + 1)))
  {
    hide FromBigEndian, Weight, Scan, PushDupSwap, OnMemory, OnStorage, IsJumpDest, Boundary;
  }

  lemma CallDataLoadAgrees(env: Env, m: Machine)
    requires Ready(env, m) && env.code[m.pc] == 0x35
    ensures Agrees(env, m, Judge(env, m), StepCallDataLoad(env, m.(steps := m.steps + 1)))
  {
    hide CallDataWindow, InputBytes;
    hide FromBigEndian, Weight, Scan, PushDupSwap, OnMemory, OnStorage, IsJumpDest, Boundary;
    if m.stack != [] && Entry(m, 0) <= U64_MAX {
      SameWindow(env.calldata, Entry(m, 0), 32);
    }
    ZeroWord();
  }

  lemma JumpAgrees(env: Env, m: Machine)
    requires Ready(env, m) && env.code[m.pc] == 0x56
    ensures Agrees(env, m, Judge(env, m), StepJump(env, m.(steps := m.steps + 1)))
  {
    hide FromBigEndian, Weight, Scan, PushDupSwap, OnMemory, OnStorage, IsJumpDest, Boundary;
    if m.stack != [] {
      TargetIsJumpDest(env.code, Entry(m, 0));
    }
  }

  lemma JumpIAgrees(env: Env, m: Machine)
    requires Ready(env, m) && env.code[m.pc] == 0x57
    ensures Agrees(env, m, Judge(env, m), StepJumpI(env, m.(steps := m.steps + 1)))
  {
    hide FromBigEndian, Weight, Scan, PushDupSwap, OnMemory, OnStorage, IsJumpDest, Boundary;
    if m.stack != [] {
      TargetIsJumpDest(env.code, Entry(m, 0));
    }
  }

  lemma TargetIsJumpDest(code: seq<byte>, dst: nat)
    requires Scan(code).Some?
    ensures Target(code, dst) <==> dst <= U64_MAX && IsJumpDest(code, dst)
  {
    hide ScanFrom, OnPath;
    ScanMeaning(code, 0);
  }

  // -------- memory and storage --------

  lemma GrownBytes(mem: seq<byte>, want: nat)
    ensures Memory(mem, Grown(mem, want), want, 0, [])
    ensures forall off: nat, n: nat | off + n <= |Grown(mem, want)| ::
              Grown(mem, want)[off..off + n] == MemBytes(mem, off, n)
  {
  }

  lemma OverwrittenBytes(mem: seq<byte>, want: nat, off: nat, bytes: seq<byte>)
    requires off + |bytes| <= want
    ensures Memory(mem, Overwrite(Grown(mem, want), off, bytes), want, off, bytes)
  {
  }

  /** Hashing, after the two operands are found to fit. */
  lemma HashAgrees(env: Env, m: Machine, now: Machine, off: nat, size: nat)
    requires Ready(env, m) && env.code[m.pc] == 0x20 && |m.stack| >= 2
    requires off == Entry(m, 0) && size == Entry(m, 1) && off + size <= U64_MAX
    requires now == m.(steps := m.steps + 1, stack := m.stack[..|m.stack| - 2])
    ensures Agrees(env, m, Judge(env, m), HashMemory(env, now, off, size))
  {
    hide FromBigEndian, Weight, Scan, PushDupSwap, OnWords, OnStorage, Boundary, Grown, Memory;
    GrownBytes(m.mem, off + size);
  }

  lemma Sha3Agrees(env: Env, m: Machine)
    requires Ready(env, m) && env.code[m.pc] == 0x20
    ensures Agrees(env, m, Judge(env, m), StepSha3(env, m.(steps := m.steps + 1)))
  {
    hide Weight, Scan, PushDupSwap, OnWords, OnMemory, OnStorage, Boundary, HashMemory;
    var n, now := |m.stack|, m.(steps := m.steps + 1);
    if n >= 2 && Entry(m, 0) + Entry(m, 1) <= U64_MAX {
      assert m.stack[..n - 1][..n - 2] == m.stack[..n - 2];
      HashAgrees(env, m, now.(stack := m.stack[..n - 2]), Entry(m, 0), Entry(m, 1));
    }
  }

  lemma CopyAgrees(env: Env, m: Machine, now: Machine, dst: nat, src: nat, size: nat)
    requires Ready(env, m) && env.code[m.pc] == 0x37 && |m.stack| >= 3
    requires dst == Entry(m, 0) && src == Entry(m, 1) <= U64_MAX && size == Entry(m, 2) && dst + size <= U64_MAX
    requires now == m.(steps := m.steps + 1, stack := m.stack[..|m.stack| - 3])
    ensures Agrees(env, m, Judge(env, m), CopyCallData(env, now, dst, src, size))
  {
    hide Weight, Scan, PushDupSwap, OnWords, OnStorage, Boundary, Grown, Memory, Overwrite;
    SameWindow(env.calldata, src, size);
    OverwrittenBytes(m.mem, dst + size, dst, InputBytes(env.calldata, src, size));
  }

  lemma CallDataCopyAgrees(env: Env, m: Machine)
    requires Ready(env, m) && env.code[m.pc] == 0x37
    ensures Agrees(env, m, Judge(env, m), StepCallDataCopy(env, m.(steps := m.steps + 1)))
  {
    hide Weight, Scan, PushDupSwap, OnWords, OnMemory, OnStorage, Boundary, CopyCallData;
    var n, now := |m.stack|, m.(steps := m.steps + 1);
    if n >= 3 && Entry(m, 0) + Entry(m, 2) <= U64_MAX && Entry(m, 1) <= U64_MAX {
      assert m.stack[..n - 1][..n - 2] == m.stack[..n - 2] && m.stack[..n - 2][..n - 3] == m.stack[..n - 3];
      CopyAgrees(env, m, now.(stack := m.stack[..n - 3]), Entry(m, 0), Entry(m, 1), Entry(m, 2));
    }
  }

  lemma MLoadAgrees(env: Env, m: Machine)
    requires Ready(env, m) && env.code[m.pc] == 0x51
    ensures Agrees(env, m, Judge(env, m), StepMLoad(env, m.(steps := m.steps + 1)))
  {
    hide FromBigEndian, Weight, Scan, PushDupSwap, OnWords, OnStorage, Boundary, Grown, Memory;
    if m.stack != [] {
      GrownBytes(m.mem, Entry(m, 0) + 32);
    }
  }

  lemma MStoreAgrees(env: Env, m: Machine)
    requires Ready(env, m) && env.code[m.pc] == 0x52
    ensures Agrees(env, m, Judge(env, m), StepMStore(env, m.(steps := m.steps + 1)))
  {
    hide BigEndian, FromBigEndian, Weight, Scan, PushDupSwap, OnWords, OnStorage, Boundary, Grown, Memory, Overwrite;
    var n := |m.stack|;
    if n >= 2 {
      var word := ToBytes32(m.stack[n - 2]);
      WordRoundTrip(m.stack[n - 2]);
      OverwrittenBytes(m.mem, Entry(m, 0) + 32, Entry(m, 0), word);
      assert m.stack[..n - 1][n - 2] == m.stack[n - 2];
    }
  }

  lemma MStore8Agrees(env: Env, m: Machine)
    requires Ready(env, m) && env.code[m.pc] == 0x53
    ensures Agrees(env, m, Judge(env, m), StepMStore8(env, m.(steps := m.steps + 1)))
  {
    hide BigEndian, FromBigEndian, Weight, Scan, PushDupSwap, OnWords, OnStorage, Boundary, Grown, Memory, Overwrite;
    if |m.stack| >= 2 {
      OverwrittenBytes(m.mem, Entry(m, 0) + 1, Entry(m, 0), [Entry(m, 1) % 256]);
    }
  }

  lemma SLoadAgrees(env: Env, m: Machine)
    requires Ready(env, m) && env.code[m.pc] == 0x54
    ensures Agrees(env, m, Judge(env, m), StepSLoad(env, m.(steps := m.steps + 1)))
  {
    hide BigEndian, FromBigEndian, Weight, Scan, PushDupSwap, OnWords, OnMemory, Boundary;
    ZeroWord();
    if m.stack != [] {
      WordRoundTrip(m.stack[|m.stack| - 1]);
    }
  }

  lemma SStoreAgrees(env: Env, m: Machine)
    requires Ready(env, m) && env.code[m.pc] == 0x55
    ensures Agrees(env, m, Judge(env, m), StepSStore(env, m.(steps := m.steps + 1)))
  {
    hide BigEndian, FromBigEndian, Weight, Scan, PushDupSwap, OnWords, OnMemory, Boundary;
    if |m.stack| >= 2 {
      WordRoundTrip(m.stack[|m.stack| - 1]);
      WordRoundTrip(m.stack[|m.stack| - 2]);
    }
  }

  lemma ReturnAgrees(env: Env, m: Machine, status: Status)
    requires Ready(env, m) && status in {Success, Reverted}
    requires env.code[m.pc] == if status == Success then 0xf3 else 0xfd
    ensures Agrees(env, m, Judge(env, m), StepReturn(env, m.(steps := m.steps + 1), status))
  {
    hide Weight, Scan, PushDupSwap, OnWords, OnMemory, OnStorage, Boundary, Grown, Memory;
    if |m.stack| >= 2 {
      GrownBytes(m.mem, Entry(m, 0) + Entry(m, 1));
    }
  }

  // -------- turns and runs --------

  lemma StackTurn(env: Env, m: Machine)
    requires Ready(env, m)
    ensures var op, now, r := env.code[m.pc], m.(steps := m.steps + 1), Turn(env, m);
      && (0x60 <= op <= 0x7f ==> r == StepPush(env, now, op - 0x5f))
      && (0x80 <= op <= 0x8f ==> r == StepDup(env, now, op - 0x7f))
      && (0x90 <= op <= 0x9f ==> r == StepSwap(env, now, op - 0x8f))
      && (IsBinary(op) ==> Decode(op).Binary? && r == StepBinary(env, now, Decode(op).op))
      && (op == 0x15 ==> r == StepIsZero(env, now))
      && (op == 0x35 ==> r == StepCallDataLoad(env, now))
      && (op == 0x36 ==> r == StepCallDataSize(env, now))
      && (op == 0x50 ==> r == StepPop(env, now))
      && (op == 0x56 ==> r == StepJump(env, now))
      && (op == 0x57 ==> r == StepJumpI(env, now))
      && (op == 0x5b ==> r == StepJumpDest(env, now))
  {
    hide StepPush, StepDup, StepSwap, StepBinary, StepIsZero, StepCallDataLoad, StepCallDataSize, StepPop, StepJump,
      StepJumpI, StepJumpDest, Scan, MinCost, Weight;
  }

  lemma MemoryTurn(env: Env, m: Machine)
    requires Ready(env, m)
    ensures var op, now, r := env.code[m.pc], m.(steps := m.steps + 1), Turn(env, m);
      && (op == 0x20 ==> r == StepSha3(env, now))
      && (op == 0x37 ==> r == StepCallDataCopy(env, now))
      && (op == 0x51 ==> r == StepMLoad(env, now))
      && (op == 0x52 ==> r == StepMStore(env, now))
      && (op == 0x53 ==> r == StepMStore8(env, now))
      && (op == 0x54 ==> r == StepSLoad(env, now))
      && (op == 0x55 ==> r == StepSStore(env, now))
      && (op == 0xf3 ==> r == StepReturn(env, now, Success))
      && (op == 0xfd ==> r == StepReturn(env, now, Reverted))
  {
    hide StepSha3, StepCallDataCopy, StepMLoad, StepMStore, StepMStore8, StepSLoad, StepSStore, StepReturn, Scan,
      MinCost, Weight, IsBinary;
  }

  lemma StepAgrees(env: Env, m: Machine)
    requires Ready(env, m)
    ensures Agrees(env, m, Judge(env, m), Turn(env, m))
  {
    hide Turn, Decode, Agrees, Judge, Scan;
    StackTurn(env, m);
    MemoryTurn(env, m);
    hide StepPush, StepDup, StepSwap, StepBinary, StepIsZero, StepSha3, StepCallDataLoad, StepCallDataSize,
      StepCallDataCopy, StepPop, StepMLoad, StepMStore, StepMStore8, StepSLoad, StepSStore, StepJump, StepJumpI,
      StepJumpDest, StepReturn;
    var op := env.code[m.pc];
    if 0x60 <= op <= 0x7f {
      PushAgrees(env, m);
    } else if 0x80 <= op <= 0x8f {
      DupAgrees(env, m);
    } else if 0x90 <= op <= 0x9f {
      SwapAgrees(env, m);
    } else if IsBinary(op) {
      BinaryAgrees(env, m);
    } else {
      match op
      case 0x15 => IsZeroAgrees(env, m);
      case 0x20 => Sha3Agrees(env, m);
      case 0x35 => CallDataLoadAgrees(env, m);
      case 0x36 => CallDataSizeAgrees(env, m);
      case 0x37 => CallDataCopyAgrees(env, m);
      case 0x50 => PopAgrees(env, m);
      case 0x51 => MLoadAgrees(env, m);
      case 0x52 => MStoreAgrees(env, m);
      case 0x53 => MStore8Agrees(env, m);
      case 0x54 => SLoadAgrees(env, m);
      case 0x55 => SStoreAgrees(env, m);
      case 0x56 => JumpAgrees(env, m);
      case 0x57 => JumpIAgrees(env, m);
      case 0x5b => JumpDestAgrees(env, m);
      case 0xf3 => ReturnAgrees(env, m, Success);
      case 0xfd => ReturnAgrees(env, m, Reverted);
      case _ => EndsAtOnce(env, m);
    }
  }

  /** Every turn, for every code, stack and memory: it does what its opcode says, or stops for the reason judged. */
  lemma TurnAgrees(env: Env, m: Machine)
    requires Loadable(env) && m.gas <= env.gasLimit
    ensures Agrees(env, m, Judge(env, m), Turn(env, m))
  {
    hide Step, Scan;
    if m.pc < |env.code| && m.steps < env.limits.maxSteps {
      StepAgrees(env, m);
    }
  }

  lemma EndsAtOnce(env: Env, m: Machine)
    requires Ready(env, m) && !(0x60 <= env.code[m.pc] <= 0x9f) && !IsBinary(env.code[m.pc])
    requires env.code[m.pc] !in {0x15, 0x20, 0x35, 0x36, 0x37, 0x50, 0x51, 0x52, 0x53, 0x54, 0x55, 0x56, 0x57, 0x5b}
    requires env.code[m.pc] !in {0xf3, 0xfd}
    ensures Agrees(env, m, Judge(env, m), Turn(env, m))
  {
    hide Scan, Boundary;
  }

  /** In every run each state is what the opcode at the one before makes of it. */
  lemma RunDoesItsOpcodes(env: Env, t: seq<Machine>, i: nat)
    requires Loadable(env) && IsRun(env, t) && i + 1 < |t|
    ensures Judge(env, t[i]) == GoesOn && Does(env, t[i], t[i + 1])
  {
    hide Turn, Judge, Does;
    assert Follows(env, t[i], t[i + 1]);
    TurnAgrees(env, t[i]);
  }

  /** A run ends where its last state is judged to stop, and the receipt says why. */
  lemma RunEndsAsJudged(env: Env, t: seq<Machine>)
    requires Loadable(env) && IsRun(env, t) && |env.code| <= env.limits.maxCodeBytes
    requires t[|t| - 1].gas <= env.gasLimit && Turn(env, t[|t| - 1]).Halt?
    ensures var last, receipt := t[|t| - 1], Execute(env);
      && Judge(env, last).Stops? && receipt.gasUsed == Judge(env, last).gas
      && receipt.status == (if Judge(env, last).status == Success && !env.canStore && last.writes != [] then Trap
                            else Judge(env, last).status)
      && (receipt.status in {Success, Reverted} ==> receipt.returnData == Data(env, last))
  {
    hide Turn, Judge, Does, Data;
    FullRun(env, t, |t| - 1);
    TurnAgrees(env, t[|t| - 1]);
  }
}
