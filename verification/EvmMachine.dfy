/** The EVM interpreter as a function from one machine state to the next. */
module EvmMachine {
  import opened Common
  import opened U256
  import opened WordBits
  import opened AbiWords

  type Word256 = x: nat | x < Weight(4)
  type Bytes32 = b: seq<byte> | |b| == 32 witness Repeat(32, 0)

  type Storage = map<Bytes32, Bytes32>

  const MAX_SCANNED: nat := 1024 * 1024

  // -------- instructions --------

  datatype BinOp = Add | Mul | Sub | Div | Mod | Lt | Gt | Eq | Bits(op: BitOp)

  datatype Instr =
    | Push(n: nat)
    | Dup(n: nat)
    | Swap(n: nat)
    | Binary(op: BinOp)
    | IsZero
    | Sha3
    | CallDataLoad | CallDataSize | CallDataCopy
    | Pop
    | MLoad | MStore | MStore8
    | SLoad | SStore
    | Jump | JumpI | JumpDest
    | Stop | Return | Revert
    | Unknown

  function Decode(op: byte): Instr {
    if 0x60 <= op <= 0x7f then Push(op - 0x5f)
    else if 0x80 <= op <= 0x8f then Dup(op - 0x7f)
    else if 0x90 <= op <= 0x9f then Swap(op - 0x8f)
    else match op
      case 0x00 => Stop
      case 0x01 => Binary(Add)
      case 0x02 => Binary(Mul)
      case 0x03 => Binary(Sub)
      case 0x04 => Binary(Div)
      case 0x06 => Binary(Mod)
      case 0x10 => Binary(Lt)
      case 0x11 => Binary(Gt)
      case 0x14 => Binary(Eq)
      case 0x15 => IsZero
      case 0x16 => Binary(Bits(BitAnd))
      case 0x17 => Binary(Bits(BitOr))
      case 0x18 => Binary(Bits(BitXor))
      case 0x20 => Sha3
      case 0x35 => CallDataLoad
      case 0x36 => CallDataSize
      case 0x37 => CallDataCopy
      case 0x50 => Pop
      case 0x51 => MLoad
      case 0x52 => MStore
      case 0x53 => MStore8
      case 0x54 => SLoad
      case 0x55 => SStore
      case 0x56 => Jump
      case 0x57 => JumpI
      case 0x5b => JumpDest
      case 0xf3 => Return
      case 0xfd => Revert
      case _ => Unknown
  }

  /** What an instruction costs at least; SHA3 and CALLDATACOPY add a price per word. */
  function MinCost(i: Instr): nat {
    match i
    case Push(_) | Dup(_) | Swap(_) => 3
    case Binary(Mul) | Binary(Div) | Binary(Mod) => 5
    case Binary(_) => 3
    case IsZero | CallDataLoad | MLoad | MStore | MStore8 => 3
    case CallDataSize | Pop => 2
    case SLoad => 50
    case SStore => 20000
    case Jump => 8
    case JumpI => 10
    case JumpDest => 1
    case Sha3 => 30
    case CallDataCopy => 3
    case Stop | Return | Revert | Unknown => 0
  }

  function Bool(b: bool): Word256 {
    if b then 1 else 0
  }

  function Modulo(x: int): Word256 {
    x % Weight(4)
  }

  function DivWord(x: Word256, y: Word256): Word256 {
    if y == 0 then 0
    else
      QuotientAtMost(x, y);
      Quotient(x, y)
  }

  function ModWord(x: Word256, y: Word256): Word256 {
    if y == 0 then 0 else Remainder(x, y)
  }

  function BitsWord(op: BitOp, x: Word256, y: Word256): Word256 {
    WeightIsPow(4);
    Bitwise(op, x, y, 256)
  }

  /** A binary operator takes the second stack entry on its left and the top on its right. */
  function Eval(op: BinOp, second: Word256, top: Word256): Word256 {
    match op
    case Add => Modulo(second + top)
    case Mul => Modulo(second * top)
    case Sub => Modulo(second - top)
    case Div => DivWord(second, top)
    case Mod => ModWord(second, top)
    case Lt => Bool(second < top)
    case Gt => Bool(second > top)
    case Eq => Bool(second == top)
    case Bits(o) => BitsWord(o, second, top)
  }

  // -------- jump destinations --------

  function InstrLength(code: seq<byte>, pc: nat): (n: nat)
    requires pc < |code|
    ensures n > 0
  {
    var i := Decode(code[pc]);
    if i.Push? then 1 + i.n else 1
  }

  /** Linear scan from `pc`: the jump destinations found, or nothing if a PUSH runs past the end. */
  function ScanFrom(code: seq<byte>, pc: nat): Option<set<nat>>
    requires pc <= |code|
    decreases |code| - pc
  {
    if pc == |code| then Some({})
    else
      var next := pc + InstrLength(code, pc);
      if next > |code| then None
      else
        var rest := ScanFrom(code, next);
        if rest.Some? && Decode(code[pc]).JumpDest? then Some({pc} + rest.value) else rest
  }

  function Scan(code: seq<byte>): Option<set<nat>> {
    if |code| > MAX_SCANNED then None else ScanFrom(code, 0)
  }

  // -------- machine --------

  datatype Limits = Limits(maxCodeBytes: u64, maxStackItems: u64, maxMemoryBytes: u64, maxSteps: u64)

  /** What one run is given. The host's storage is the executing account's; its two callbacks may be absent. */
  datatype Env = Env(
    code: seq<byte>,
    calldata: seq<byte>,
    gasLimit: u64,
    limits: Limits,
    canLoad: bool,
    canStore: bool,
    storage: Storage,
    keccak: seq<byte> -> Bytes32)

  datatype Write = Write(key: Bytes32, value: Bytes32)

  datatype Machine = Machine(
    pc: nat,
    stack: seq<Word256>,
    mem: seq<byte>,
    gas: nat,
    steps: nat,
    overlay: Storage,
    writes: seq<Write>)

  datatype Status = Success | Reverted | OutOfGas | InvalidCode | Trap

  /** A stage of an instruction either goes on with a value or stops the run. */
  datatype Outcome<+T> =
    | Go(value: T)
    | Halt(status: Status, gas: nat, data: seq<byte>, writes: seq<Write>)
  {
    predicate IsFailure() {
      Halt?
    }

    function PropagateFailure<U>(): Outcome<U>
      requires Halt?
    {
      Halt(status, gas, data, writes)
    }

    function Extract(): T
      requires Go?
    {
      value
    }
  }

  datatype Popped = Popped(word: Word256, rest: Machine)

  function Stopped(m: Machine, status: Status, data: seq<byte>): Outcome<Machine> {
    Halt(status, m.gas, data, m.writes)
  }

  function TrapAt<T>(m: Machine): Outcome<T> {
    Halt(Trap, m.gas, [], m.writes)
  }

  function OutOfGasAt<T>(m: Machine): Outcome<T> {
    Halt(OutOfGas, m.gas, [], m.writes)
  }

  function ChargeGas(env: Env, m: Machine, cost: nat): Outcome<Machine>
    requires m.gas <= env.gasLimit
  {
    if cost > env.gasLimit - m.gas then OutOfGasAt(m) else Go(m.(gas := m.gas + cost))
  }

  /** The top of the stack is the last entry. */
  function PopWord(m: Machine): Outcome<Popped> {
    if m.stack == [] then TrapAt(m)
    else Go(Popped(m.stack[|m.stack| - 1], m.(stack := m.stack[..|m.stack| - 1])))
  }

  function PushWord(env: Env, m: Machine, w: Word256): Outcome<Machine> {
    if |m.stack| >= env.limits.maxStackItems then TrapAt(m) else Go(m.(stack := m.stack + [w]))
  }

  /** A word used as an offset or a length must fit 64 bits. */
  function PopSize(m: Machine): Outcome<Popped>
  {
    var p :- PopWord(m);
    if p.word > U64_MAX then TrapAt(m) else Go(p)
  }

  function Grown(mem: seq<byte>, want: nat): (r: seq<byte>)
    ensures |r| >= want && |r| >= |mem|
  {
    if |mem| < want then mem + Repeat(want - |mem|, 0) else mem
  }

  function Touch(env: Env, m: Machine, want: nat): Outcome<Machine> {
    if want > env.limits.maxMemoryBytes then OutOfGasAt(m) else Go(m.(mem := Grown(m.mem, want)))
  }

  function Advance(m: Machine): Outcome<Machine> {
    Go(m.(pc := m.pc + 1))
  }

  function ToBytes32(w: Word256): Bytes32 {
    BigEndian(w, 32)
  }

  function FromBytes32(b: Bytes32): Word256 {
    FromBigEndianBound(b);
    WeightIs256(4);
    FromBigEndian(b)
  }

  /**
   * What every instruction keeps. If it goes on, it has paid at least `cost` within the limit, and stack and memory
   * stay within their caps; if it stops the run, it has lost no gas and no write.
   */
  predicate Behaves(env: Env, m: Machine, cost: nat, r: Outcome<Machine>) {
    match r
    case Go(next) =>
      && m.gas + cost <= next.gas <= env.gasLimit
      && next.steps == m.steps
      && (|m.stack| <= env.limits.maxStackItems ==> |next.stack| <= env.limits.maxStackItems)
      && (|m.mem| <= env.limits.maxMemoryBytes ==> |m.mem| <= |next.mem| <= env.limits.maxMemoryBytes)
    case Halt(status, gas, _, writes) =>
      && m.gas <= gas <= env.gasLimit
      && writes == m.writes
  }

  /** An instruction that goes on with the next one, leaves storage alone, and stops the run only as a failure. */
  predicate Plain(m: Machine, length: nat, r: Outcome<Machine>) {
    match r
    case Go(next) => next.pc == m.pc + length && next.writes == m.writes && next.overlay == m.overlay
    case Halt(status, _, _, _) => status.OutOfGas? || status.Trap?
  }

  // -------- instructions on the stack --------

  function StepPush(env: Env, m: Machine, n: nat): (r: Outcome<Machine>)
    requires m.gas <= env.gasLimit && m.pc < |env.code| && 0 < n <= 32
    ensures Behaves(env, m, 3, r)
    ensures if m.pc + 1 + n <= |env.code| then Plain(m, 1 + n, r) else r == Stopped(m, InvalidCode, [])
  {
    if m.pc + 1 + n > |env.code| then Stopped(m, InvalidCode, [])
    else
      var m1 :- ChargeGas(env, m, 3);
      var be := Repeat(32 - n, 0) + env.code[m.pc + 1..m.pc + 1 + n];
      var m2 :- PushWord(env, m1, FromBytes32(be));
      Go(m2.(pc := m.pc + 1 + n))
  }

  function StepDup(env: Env, m: Machine, n: nat): (r: Outcome<Machine>)
    requires m.gas <= env.gasLimit && n > 0
    ensures Behaves(env, m, 3, r) && Plain(m, 1, r)
  {
    var m1 :- ChargeGas(env, m, 3);
    if |m1.stack| < n then TrapAt(m1)
    else
      var m2 :- PushWord(env, m1, m1.stack[|m1.stack| - n]);
      Advance(m2)
  }

  function StepSwap(env: Env, m: Machine, n: nat): (r: Outcome<Machine>)
    requires m.gas <= env.gasLimit && n > 0
    ensures Behaves(env, m, 3, r) && Plain(m, 1, r)
  {
    var m1 :- ChargeGas(env, m, 3);
    if |m1.stack| < n + 1 then TrapAt(m1)
    else
      var top := |m1.stack| - 1;
      Advance(m1.(stack := m1.stack[top := m1.stack[top - n]][top - n := m1.stack[top]]))
  }

  function StepBinary(env: Env, m: Machine, op: BinOp): (r: Outcome<Machine>)
    requires m.gas <= env.gasLimit
    ensures Behaves(env, m, MinCost(Binary(op)), r) && Plain(m, 1, r)
  {
    var m1 :- ChargeGas(env, m, MinCost(Binary(op)));
    var top :- PopWord(m1);
    var second :- PopWord(top.rest);
    var m2 :- PushWord(env, second.rest, Eval(op, second.word, top.word));
    Advance(m2)
  }

  function StepIsZero(env: Env, m: Machine): (r: Outcome<Machine>)
    requires m.gas <= env.gasLimit
    ensures Behaves(env, m, 3, r) && Plain(m, 1, r)
  {
    var m1 :- ChargeGas(env, m, 3);
    var a :- PopWord(m1);
    var m2 :- PushWord(env, a.rest, Bool(a.word == 0));
    Advance(m2)
  }

  function StepPop(env: Env, m: Machine): (r: Outcome<Machine>)
    requires m.gas <= env.gasLimit
    ensures Behaves(env, m, 2, r) && Plain(m, 1, r)
  {
    var m1 :- ChargeGas(env, m, 2);
    var a :- PopWord(m1);
    Advance(a.rest)
  }

  // -------- instructions on memory and call data --------

  /** Words charged for `size` bytes; the rounding-up addition is on 64 bits. */
  function SizeInWords(size: nat): nat {
    Wrap64(size + 31) / 32
  }

  function StepSha3(env: Env, m: Machine): (r: Outcome<Machine>)
    requires m.gas <= env.gasLimit
    ensures Behaves(env, m, 30, r) && Plain(m, 1, r)
  {
    var off :- PopSize(m);
    var size :- PopSize(off.rest);
    if off.word + size.word > U64_MAX then TrapAt(m) else HashMemory(env, size.rest, off.word, size.word)
  }

  /** SHA3 after its offset and size are popped. */
  function HashMemory(env: Env, m: Machine, off: nat, size: nat): (r: Outcome<Machine>)
    requires m.gas <= env.gasLimit
    ensures Behaves(env, m, 30, r) && Plain(m, 1, r)
  {
    var m1 :- ChargeGas(env, m, 30 + 6 * SizeInWords(size));
    var m2 :- Touch(env, m1, off + size);
    var m3 :- PushWord(env, m2, FromBytes32(env.keccak(m2.mem[off..off + size])));
    Advance(m3)
  }

  /** Byte `i` after `off`; the index is a 64-bit sum, so it wraps. */
  function CallDataByte(data: seq<byte>, off: nat, i: nat): byte {
    var idx := Wrap64(off + i);
    if idx < |data| then data[idx] else 0
  }

  function CallDataWindow(data: seq<byte>, off: nat, n: nat): (r: seq<byte>)
    ensures |r| == n
    ensures forall i | 0 <= i < n :: r[i] == CallDataByte(data, off, i)
  {
    seq(n, i requires 0 <= i < n => CallDataByte(data, off, i))
  }

  function StepCallDataLoad(env: Env, m: Machine): (r: Outcome<Machine>)
    requires m.gas <= env.gasLimit
    ensures Behaves(env, m, 3, r) && Plain(m, 1, r)
  {
    var m1 :- ChargeGas(env, m, 3);
    var off :- PopWord(m1);
    var be: Bytes32 := if off.word <= U64_MAX then CallDataWindow(env.calldata, off.word, 32) else Repeat(32, 0);
    var m2 :- PushWord(env, off.rest, FromBytes32(be));
    Advance(m2)
  }

  function StepCallDataSize(env: Env, m: Machine): (r: Outcome<Machine>)
    requires m.gas <= env.gasLimit && |env.calldata| <= U64_MAX
    ensures Behaves(env, m, 2, r) && Plain(m, 1, r)
  {
    var m1 :- ChargeGas(env, m, 2);
    var m2 :- PushWord(env, m1, |env.calldata|);
    Advance(m2)
  }

  function Overwrite(mem: seq<byte>, off: nat, bytes: seq<byte>): (r: seq<byte>)
    requires off + |bytes| <= |mem|
    ensures |r| == |mem|
  {
    mem[..off] + bytes + mem[off + |bytes|..]
  }

  function StepCallDataCopy(env: Env, m: Machine): (r: Outcome<Machine>)
    requires m.gas <= env.gasLimit
    ensures Behaves(env, m, 3, r) && Plain(m, 1, r)
  {
    var dst :- PopSize(m);
    var src :- PopSize(dst.rest);
    var size :- PopSize(src.rest);
    if dst.word + size.word > U64_MAX then TrapAt(m) else CopyCallData(env, size.rest, dst.word, src.word, size.word)
  }

  /** CALLDATACOPY after its three operands are popped. */
  function CopyCallData(env: Env, m: Machine, dst: nat, src: nat, size: nat): (r: Outcome<Machine>)
    requires m.gas <= env.gasLimit
    ensures Behaves(env, m, 3, r) && Plain(m, 1, r)
  {
    var m1 :- ChargeGas(env, m, 3 + 3 * SizeInWords(size));
    var m2 :- Touch(env, m1, dst + size);
    Advance(m2.(mem := Overwrite(m2.mem, dst, CallDataWindow(env.calldata, src, size))))
  }

  function StepMLoad(env: Env, m: Machine): (r: Outcome<Machine>)
    requires m.gas <= env.gasLimit
    ensures Behaves(env, m, 3, r) && Plain(m, 1, r)
  {
    var m1 :- ChargeGas(env, m, 3);
    var off :- PopSize(m1);
    if off.word + 32 > U64_MAX then TrapAt(m1)
    else
      var m2 :- Touch(env, off.rest, off.word + 32);
      var m3 :- PushWord(env, m2, FromBytes32(m2.mem[off.word..off.word + 32]));
      Advance(m3)
  }

  function StepMStore(env: Env, m: Machine): (r: Outcome<Machine>)
    requires m.gas <= env.gasLimit
    ensures Behaves(env, m, 3, r) && Plain(m, 1, r)
  {
    var m1 :- ChargeGas(env, m, 3);
    var off :- PopSize(m1);
    var val :- PopWord(off.rest);
    if off.word + 32 > U64_MAX then TrapAt(m1)
    else
      var m2 :- Touch(env, val.rest, off.word + 32);
      Advance(m2.(mem := Overwrite(m2.mem, off.word, ToBytes32(val.word))))
  }

  function StepMStore8(env: Env, m: Machine): (r: Outcome<Machine>)
    requires m.gas <= env.gasLimit
    ensures Behaves(env, m, 3, r) && Plain(m, 1, r)
  {
    var m1 :- ChargeGas(env, m, 3);
    var off :- PopSize(m1);
    var val :- PopWord(off.rest);
    if off.word + 1 > U64_MAX then TrapAt(m1)
    else
      var m2 :- Touch(env, val.rest, off.word + 1);
      Advance(m2.(mem := Overwrite(m2.mem, off.word, [val.word % 256])))
  }

  // -------- instructions on storage --------

  function Loaded(env: Env, m: Machine, key: Bytes32): Bytes32 {
    if key in m.overlay then m.overlay[key]
    else if key in env.storage then env.storage[key]
    else Repeat(32, 0)
  }

  function StepSLoad(env: Env, m: Machine): (r: Outcome<Machine>)
    requires m.gas <= env.gasLimit
    ensures Behaves(env, m, 50, r) && Plain(m, 1, r)
  {
    var m1 :- ChargeGas(env, m, 50);
    var key :- PopWord(m1);
    if !env.canLoad then TrapAt(m1)
    else
      var m2 :- PushWord(env, key.rest, FromBytes32(Loaded(env, m, ToBytes32(key.word))));
      Advance(m2)
  }

  function StepSStore(env: Env, m: Machine): (r: Outcome<Machine>)
    requires m.gas <= env.gasLimit
    ensures Behaves(env, m, 20000, r)
    ensures r.Halt? ==> Plain(m, 1, r)
    ensures r.Go? ==> |m.stack| >= 2 && r.value.pc == m.pc + 1
    ensures r.Go? ==> (
      var w := Write(ToBytes32(m.stack[|m.stack| - 1]), ToBytes32(m.stack[|m.stack| - 2]));
      r.value.writes == m.writes + [w] && r.value.overlay == m.overlay[w.key := w.value])
  {
    var m1 :- ChargeGas(env, m, 20000);
    var key :- PopWord(m1);
    var val :- PopWord(key.rest);
    var w := Write(ToBytes32(key.word), ToBytes32(val.word));
    Advance(val.rest.(writes := m.writes + [w], overlay := m.overlay[w.key := w.value]))
  }

  // -------- control --------

  predicate IsJumpDest(code: seq<byte>, dst: nat) {
    dst < |code| && Scan(code).Some? && dst in Scan(code).value
  }

  function JumpTo(env: Env, m: Machine, dst: Word256): Outcome<Machine> {
    if dst > U64_MAX || !IsJumpDest(env.code, dst) then TrapAt(m) else Go(m.(pc := dst))
  }

  function StepJump(env: Env, m: Machine): (r: Outcome<Machine>)
    requires m.gas <= env.gasLimit
    ensures Behaves(env, m, 8, r)
    ensures r.Halt? ==> Plain(m, 1, r)
    ensures r.Go? && r.value.pc != m.pc + 1 ==> IsJumpDest(env.code, r.value.pc)
    ensures r.Go? ==> r.value.writes == m.writes && r.value.overlay == m.overlay
  {
    var m1 :- ChargeGas(env, m, 8);
    var dst :- PopWord(m1);
    JumpTo(env, dst.rest, dst.word)
  }

  function StepJumpI(env: Env, m: Machine): (r: Outcome<Machine>)
    requires m.gas <= env.gasLimit
    ensures Behaves(env, m, 10, r)
    ensures r.Halt? ==> Plain(m, 1, r)
    ensures r.Go? && r.value.pc != m.pc + 1 ==> IsJumpDest(env.code, r.value.pc)
    ensures r.Go? ==> r.value.writes == m.writes && r.value.overlay == m.overlay
  {
    var m1 :- ChargeGas(env, m, 10);
    var dst :- PopWord(m1);
    var cond :- PopWord(dst.rest);
    if cond.word != 0 then JumpTo(env, cond.rest, dst.word) else Advance(cond.rest)
  }

  function StepJumpDest(env: Env, m: Machine): (r: Outcome<Machine>)
    requires m.gas <= env.gasLimit
    ensures Behaves(env, m, 1, r) && Plain(m, 1, r)
  {
    var m1 :- ChargeGas(env, m, 1);
    Advance(m1)
  }

  function StepReturn(env: Env, m: Machine, status: Status): (r: Outcome<Machine>)
    requires m.gas <= env.gasLimit
    ensures r.Halt? && Behaves(env, m, 0, r)
    ensures r.gas == m.gas && (r.status == status || Plain(m, 1, r))
  {
    var off :- PopWord(m);
    var size :- PopWord(off.rest);
    var end := off.word + size.word;
    if off.word > U64_MAX || size.word > U64_MAX || end > U64_MAX then TrapAt(m)
    else
      var m1 :- Touch(env, size.rest, end);
      Stopped(m1, status, m1.mem[off.word..end])
  }

  function Step(env: Env, m: Machine): (r: Outcome<Machine>)
    requires m.gas <= env.gasLimit && m.pc < |env.code| && |env.calldata| <= U64_MAX
    ensures Behaves(env, m, MinCost(Decode(env.code[m.pc])), r)
    ensures r.Go? ==> MinCost(Decode(env.code[m.pc])) > 0
  {
    match Decode(env.code[m.pc])
    case Push(n) => StepPush(env, m, n)
    case Dup(n) => StepDup(env, m, n)
    case Swap(n) => StepSwap(env, m, n)
    case Binary(op) => StepBinary(env, m, op)
    case IsZero => StepIsZero(env, m)
    case Sha3 => StepSha3(env, m)
    case CallDataLoad => StepCallDataLoad(env, m)
    case CallDataSize => StepCallDataSize(env, m)
    case CallDataCopy => StepCallDataCopy(env, m)
    case Pop => StepPop(env, m)
    case MLoad => StepMLoad(env, m)
    case MStore => StepMStore(env, m)
    case MStore8 => StepMStore8(env, m)
    case SLoad => StepSLoad(env, m)
    case SStore => StepSStore(env, m)
    case Jump => StepJump(env, m)
    case JumpI => StepJumpI(env, m)
    case JumpDest => StepJumpDest(env, m)
    case Stop => Stopped(m, Success, [])
    case Return => StepReturn(env, m, Success)
    case Revert => StepReturn(env, m, Reverted)
    case Unknown => TrapAt(m)
  }

  /** One turn of the interpreter's loop. */
  function Turn(env: Env, m: Machine): Outcome<Machine>
    requires m.gas <= env.gasLimit && |env.calldata| <= U64_MAX
  {
    if m.pc >= |env.code| then Stopped(m, Success, [])
    else if m.steps >= env.limits.maxSteps then OutOfGasAt(m)
    else Step(env, m.(steps := m.steps + 1))
  }

  /** A turn that goes on has been paid for, at the price that `Decode` gives. */
  lemma TurnCosts(env: Env, m: Machine)
    requires m.gas <= env.gasLimit && |env.calldata| <= U64_MAX
    requires Turn(env, m).Go?
    ensures m.gas < Turn(env, m).value.gas <= env.gasLimit
    ensures m.gas + MinCost(Decode(env.code[m.pc])) <= Turn(env, m).value.gas
    ensures Turn(env, m).value.steps == m.steps + 1 <= env.limits.maxSteps
  {
  }

  /** The whole loop, run until it stops. */
  function Run(env: Env, m: Machine): (h: Outcome<Machine>)
    requires m.gas <= env.gasLimit && |env.calldata| <= U64_MAX
    ensures h.Halt?
    decreases env.gasLimit - m.gas
  {
    var t := Turn(env, m);
    if t.Halt? then t
    else
      TurnCosts(env, m);
      Run(env, t.value)
  }

  const START := Machine(0, [], [], 0, 0, map[], [])

  datatype Receipt = Receipt(status: Status, gasUsed: nat, returnData: seq<byte>, writes: seq<Write>, storage: Storage)

  function ApplyWrites(storage: Storage, writes: seq<Write>): Storage {
    if writes == [] then storage
    else
      var w := writes[|writes| - 1];
      ApplyWrites(storage, writes[..|writes| - 1])[w.key := w.value]
  }

  /** Only a successful run reaches the host, and only if the host can store what was written. */
  function Finalize(env: Env, h: Outcome<Machine>): Receipt
    requires h.Halt?
  {
    if h.status.Success? then
      if !env.canStore && h.writes != [] then Receipt(Trap, h.gas, h.data, [], env.storage)
      else Receipt(Success, h.gas, h.data, h.writes, ApplyWrites(env.storage, h.writes))
    else
      Receipt(h.status, h.gas, h.data, [], env.storage)
  }

  function Execute(env: Env): Receipt
    requires |env.calldata| <= U64_MAX
  {
    if |env.code| > env.limits.maxCodeBytes || Scan(env.code).None? then
      Receipt(InvalidCode, 0, [], [], env.storage)
    else
      Finalize(env, Run(env, START))
  }
}
