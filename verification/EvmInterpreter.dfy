/** The EVM interpreter as its source has it: a loop over limbs, byte buffers and an overlay, updated in place. */
module EvmInterpreter {
  import opened Common
  import opened U256
  import opened WordBits
  import opened EvmMachine

  class Host {
    const canLoad: bool
    const canStore: bool
    var storage: Storage

    constructor (canLoad: bool, canStore: bool, storage: Storage)
      ensures this.canLoad == canLoad && this.canStore == canStore && this.storage == storage
    {
      this.canLoad := canLoad;
      this.canStore := canStore;
      this.storage := storage;
    }
  }

  // -------- words --------

  function Words(s: seq<Limbs>): (r: seq<Word256>)
    ensures |r| == |s|
    ensures forall i | 0 <= i < |s| :: r[i] == WordOf(s[i])
  {
    seq(|s|, i requires 0 <= i < |s| => WordOf(s[i]))
  }

  function WordOf(w: Limbs): (v: Word256)
    ensures v == Value(w)
  {
    PrefixBound(w, 4);
    Value(w)
  }

  lemma WordsAppend(s: seq<Limbs>, w: Limbs)
    ensures Words(s + [w]) == Words(s) + [WordOf(w)]
  {
  }

  lemma WordsPop(s: seq<Limbs>)
    requires s != []
    ensures Words(s[..|s| - 1]) == Words(s)[..|s| - 1]
  {
  }

  function FromU64(v: u64): Limbs {
    [v, 0, 0, 0]
  }

  lemma FromU64Value(v: u64)
    ensures Value(FromU64(v)) == v
  {
    var w := FromU64(v);
    assert Prefix(w, 1) == v * Weight(0);
    assert Prefix(w, 2) == Prefix(w, 1) && Prefix(w, 3) == Prefix(w, 2) && Prefix(w, 4) == Prefix(w, 3);
  }

  /** A word fits 64 bits exactly when its upper limbs are zero. */
  function ToU64Exact(w: Limbs): (r: Option<u64>)
    ensures r == if WordOf(w) <= U64_MAX then Some(WordOf(w)) else None
  {
    LowLimb(w);
    if w[1] != 0 || w[2] != 0 || w[3] != 0 then None else Some(w[0])
  }

  lemma LowLimb(w: Limbs)
    ensures w[1] == 0 && w[2] == 0 && w[3] == 0 ==> Value(w) == w[0]
    ensures w[1] != 0 || w[2] != 0 || w[3] != 0 ==> Value(w) > U64_MAX
    ensures Value(w) % 256 == w[0] % 256
  {
    hide Prefix;
    PrefixLimbs(w);
    if w[1] != 0 {
      ScaleMonotone(1, w[1], LIMB);
    } else if w[2] != 0 {
      ScaleMonotone(1, w[2], LIMB * LIMB);
    } else if w[3] != 0 {
      ScaleMonotone(1, w[3], LIMB * LIMB * LIMB);
    }
    var upper := w[1] + w[2] * LIMB + w[3] * (LIMB * LIMB);
    assert Value(w) == w[0] + 256 * (upper * 0x100_0000_0000_0000);
  }

  lemma PrefixLimbs(w: Limbs)
    ensures Value(w) == w[0] + w[1] * LIMB + w[2] * (LIMB * LIMB) + w[3] * (LIMB * LIMB * LIMB)
  {
    assert Weight(0) == 1 && Weight(1) == LIMB && Weight(2) == LIMB * LIMB && Weight(3) == LIMB * LIMB * LIMB;
    assert Prefix(w, 1) == w[0];
    assert Prefix(w, 2) == w[0] + w[1] * LIMB;
    assert Prefix(w, 3) == Prefix(w, 2) + w[2] * (LIMB * LIMB);
  }

  method EvalOp(op: BinOp, y: Limbs, x: Limbs) returns (r: Limbs)
    ensures WordOf(r) == Eval(op, WordOf(y), WordOf(x))
  {
    match op
    case Add => r := AddMod(y, x);
    case Mul => r := MulMod(y, x);
    case Sub => r := SubMod(y, x);
    case Div => r := U256.Div(y, x);
    case Mod => r := U256.Mod(y, x);
    case Lt =>
      var less := Less(y, x);
      r := FromBool(less);
    case Gt =>
      var less := Less(x, y);
      r := FromBool(less);
    case Eq =>
      var less := Less(y, x);
      var more := Less(x, y);
      r := FromBool(!less && !more);
    case Bits(o) => r := ApplyBits(o, y, x);
  }

  method FromBytes(b: Bytes32) returns (w: Limbs)
    ensures WordOf(w) == FromBytes32(b)
  {
    w := FromBe32(b);
  }

  method ToBytes(w: Limbs) returns (b: Bytes32)
    ensures b == ToBytes32(WordOf(w))
  {
    b := ToBe32(w);
  }

  method FromBool(b: bool) returns (r: Limbs)
    ensures WordOf(r) == Bool(b)
  {
    FromU64Value(if b then 1 else 0);
    r := FromU64(if b then 1 else 0);
  }

  // -------- jump destinations --------

  function Joined(found: set<nat>, rest: Option<set<nat>>): Option<set<nat>> {
    if rest.None? then None else Some(found + rest.value)
  }

  lemma JoinedTwice(a: set<nat>, b: set<nat>, rest: Option<set<nat>>)
    ensures Joined(a + b, rest) == Joined(a, Joined(b, rest))
  {
    if rest.Some? {
      assert a + b + rest.value == a + (b + rest.value);
    }
  }

  /** One step of the linear scan, by the opcode. */
  lemma ScanOne(code: seq<byte>, pc: nat)
    requires pc < |code|
    ensures var op := code[pc];
      ScanFrom(code, pc) ==
        if op == 0x5b then Joined({pc}, ScanFrom(code, pc + 1))
        else if 0x60 <= op <= 0x7f then
          if pc + 1 + (op - 0x5f) > |code| then None else ScanFrom(code, pc + 1 + (op - 0x5f))
        else ScanFrom(code, pc + 1)
  {
  }

  lemma ScanEnd(code: seq<byte>)
    ensures ScanFrom(code, |code|) == Some({})
  {
  }

  /** The linear scan over the code, collecting JUMPDESTs that are instructions. */
  method BuildJumpDests(code: seq<byte>) returns (found: Option<set<nat>>)
    ensures found == Scan(code)
  {
    if |code| > MAX_SCANNED {
      return None;
    }
    hide ScanFrom;
    var out: set<nat> := {};
    assert ScanFrom(code, 0).Some? ==> {} + ScanFrom(code, 0).value == ScanFrom(code, 0).value;
    ScanEnd(code);
    var pc := 0;
    while pc < |code|
      invariant pc <= |code|
      invariant ScanFrom(code, 0) == Joined(out, ScanFrom(code, pc))
    {
      var op := code[pc];
      ScanOne(code, pc);
      if op == 0x5b {
        JoinedTwice(out, {pc}, ScanFrom(code, pc + 1));
        out := out + {pc};
        pc := pc + 1;
      } else if 0x60 <= op <= 0x7f {
        var n := op - 0x5f;
        if pc + 1 + n > |code| {
          return None;
        }
        pc := pc + 1 + n;
      } else {
        pc := pc + 1;
      }
    }
    return Some(out);
  }

  // -------- one execution --------

  class Execution {
    const env: Env
    const host: Host
    const jumpdests: set<nat>

    var pc: nat
    var stack: seq<Limbs>
    var mem: seq<byte>
    var gasUsed: nat
    var steps: nat
    var overlay: Storage
    var pendingWrites: seq<Write>
    var status: Status
    var returnData: seq<byte>
    var writes: seq<Write>

    /** The machine state that the fields stand for. */
    ghost function Abs(): Machine
      reads this
    {
      Machine(pc, Words(stack), mem, gasUsed, steps, overlay, pendingWrites)
    }

    ghost predicate Valid()
      reads this, host
    {
      && |env.calldata| <= U64_MAX
      && Scan(env.code) == Some(jumpdests)
      && gasUsed <= env.gasLimit
      && host.canLoad == env.canLoad && host.canStore == env.canStore && host.storage == env.storage
    }

    /** After an instruction: either the fields are the next machine state, or they hold how the run ended. */
    ghost predicate Reflects(o: Outcome<Machine>, halted: bool)
      reads this
    {
      match o
      case Go(next) => !halted && Abs() == next && returnData == []
      case Halt(st, gas, data, ws) =>
        halted && status == st && gasUsed == gas && returnData == data && pendingWrites == ws
    }

    constructor (env: Env, host: Host, jumpdests: set<nat>)
      requires |env.calldata| <= U64_MAX && Scan(env.code) == Some(jumpdests)
      requires host.canLoad == env.canLoad && host.canStore == env.canStore && host.storage == env.storage
      ensures Valid() && Abs() == START && returnData == [] && writes == [] && this.env == env && this.host == host
    {
      this.env, this.host, this.jumpdests := env, host, jumpdests;
      pc, stack, mem, gasUsed, steps, overlay, pendingWrites := 0, [], [], 0, 0, map[], [];
      status, returnData, writes := Trap, [], [];
    }

    method Charge(cost: nat) returns (ok: bool)
      requires Valid()
      modifies this`gasUsed
      ensures Valid()
      ensures Abs() == old(Abs()).(gas := gasUsed)
      ensures ChargeGas(env, old(Abs()), cost) == if ok then Go(Abs()) else OutOfGasAt(Abs())
    {
      if cost > env.gasLimit - gasUsed {
        return false;
      }
      gasUsed := gasUsed + cost;
      return true;
    }

    method PopTop() returns (r: Option<Limbs>)
      modifies this`stack
      ensures PopWord(old(Abs())) == if r.Some? then Go(Popped(WordOf(r.value), Abs())) else TrapAt(Abs())
    {
      if stack == [] {
        return None;
      }
      WordsPop(stack);
      r := Some(stack[|stack| - 1]);
      stack := stack[..|stack| - 1];
    }

    method PushTop(w: Limbs) returns (ok: bool)
      modifies this`stack
      ensures PushWord(env, old(Abs()), WordOf(w)) == if ok then Go(Abs()) else TrapAt(Abs())
    {
      if |stack| >= env.limits.maxStackItems {
        return false;
      }
      WordsAppend(stack, w);
      stack := stack + [w];
      return true;
    }

    method EnsureMem(want: nat) returns (ok: bool)
      modifies this`mem
      ensures Touch(env, old(Abs()), want) == if ok then Go(Abs()) else OutOfGasAt(Abs())
      ensures ok ==> |mem| >= want
    {
      if want > env.limits.maxMemoryBytes {
        return false;
      }
      if |mem| < want {
        mem := mem + Repeat(want - |mem|, 0);
      }
      return true;
    }

    /** Copies bytes into memory one at a time. */
    method StoreBytes(off: nat, bytes: seq<byte>)
      requires off + |bytes| <= |mem|
      modifies this`mem
      ensures mem == Overwrite(old(mem), off, bytes)
    {
      for i := 0 to |bytes|
        invariant |mem| == |old(mem)|
        invariant mem == Overwrite(old(mem), off, bytes[..i])
      {
        assert bytes[..i + 1] == bytes[..i] + [bytes[i]];
        mem := mem[off + i := bytes[i]];
      }
      assert bytes[..|bytes|] == bytes;
    }

    method Fail(why: Status) returns (halted: bool)
      modifies this`status
      ensures halted && status == why
    {
      status := why;
      return true;
    }

    // -------- instructions on the stack --------

    method ExecPush(n: nat) returns (halted: bool)
      requires Valid() && returnData == [] && pc < |env.code| && 0 < n <= 32
      modifies this
      ensures Valid() && Reflects(StepPush(env, old(Abs()), n), halted) && writes == old(writes)
    {
      hide Value, FromBytes32, WordOf, Words, Scan, ChargeGas, PopWord, PushWord, Touch, PopSize;
      if pc + 1 + n > |env.code| {
        halted := Fail(InvalidCode);
        return;
      }
      var ok := Charge(3);
      if !ok {
        halted := Fail(OutOfGas);
        return;
      }
      var be: seq<byte> := Repeat(32, 0);
      var start := 32 - n;
      for i := 0 to n
        invariant |be| == 32
        invariant be == Repeat(start, 0) + env.code[pc + 1..pc + 1 + i] + Repeat(n - i, 0)
      {
        be := be[start + i := env.code[pc + 1 + i]];
      }
      assert be == Repeat(start, 0) + env.code[pc + 1..pc + 1 + n];
      var w := FromBytes(be);
      ok := PushTop(w);
      if !ok {
        halted := Fail(Trap);
        return;
      }
      pc := pc + 1 + n;
      return false;
    }

    method ExecDup(n: nat) returns (halted: bool)
      requires Valid() && returnData == [] && n > 0
      modifies this
      ensures Valid() && Reflects(StepDup(env, old(Abs()), n), halted) && writes == old(writes)
    {
      hide Value, Scan, ChargeGas, PushWord;
      var ok := Charge(3);
      if !ok {
        halted := Fail(OutOfGas);
        return;
      }
      if |stack| < n {
        halted := Fail(Trap);
        return;
      }
      ok := PushTop(stack[|stack| - n]);
      if !ok {
        halted := Fail(Trap);
        return;
      }
      pc := pc + 1;
      return false;
    }

    method ExecSwap(n: nat) returns (halted: bool)
      requires Valid() && returnData == [] && n > 0
      modifies this
      ensures Valid() && Reflects(StepSwap(env, old(Abs()), n), halted) && writes == old(writes)
    {
      hide Value, Scan, ChargeGas, PushWord;
      var ok := Charge(3);
      if !ok {
        halted := Fail(OutOfGas);
        return;
      }
      if |stack| < n + 1 {
        halted := Fail(Trap);
        return;
      }
      var top := |stack| - 1;
      ghost var before := Words(stack);
      stack := stack[top := stack[top - n]][top - n := stack[top]];
      assert Words(stack) == before[top := before[top - n]][top - n := before[top]];
      pc := pc + 1;
      return false;
    }

    method ExecBinary(op: BinOp) returns (halted: bool)
      requires Valid() && returnData == []
      modifies this
      ensures Valid() && Reflects(StepBinary(env, old(Abs()), op), halted) && writes == old(writes)
    {
      hide Value, Eval, WordOf, Words, Scan, ChargeGas, PopWord, PushWord, Touch, PopSize;
      var ok := Charge(MinCost(Binary(op)));
      if !ok {
        halted := Fail(OutOfGas);
        return;
      }
      var x := PopTop();
      if x.None? {
        halted := Fail(Trap);
        return;
      }
      var y := PopTop();
      if y.None? {
        halted := Fail(Trap);
        return;
      }
      var r := EvalOp(op, y.value, x.value);
      ok := PushTop(r);
      if !ok {
        halted := Fail(Trap);
        return;
      }
      pc := pc + 1;
      return false;
    }

    method ExecIsZero() returns (halted: bool)
      requires Valid() && returnData == []
      modifies this
      ensures Valid() && Reflects(StepIsZero(env, old(Abs())), halted) && writes == old(writes)
    {
      hide Value, WordOf, Words, Scan, ChargeGas, PopWord, PushWord, Touch, PopSize;
      var ok := Charge(3);
      if !ok {
        halted := Fail(OutOfGas);
        return;
      }
      var a := PopTop();
      if a.None? {
        halted := Fail(Trap);
        return;
      }
      var zero := U256.IsZero(a.value);
      var r := FromBool(zero);
      ok := PushTop(r);
      if !ok {
        halted := Fail(Trap);
        return;
      }
      pc := pc + 1;
      return false;
    }

    method ExecPop() returns (halted: bool)
      requires Valid() && returnData == []
      modifies this
      ensures Valid() && Reflects(StepPop(env, old(Abs())), halted) && writes == old(writes)
    {
      hide Value, WordOf, Words, Scan, ChargeGas, PopWord, PushWord, Touch, PopSize;
      var ok := Charge(2);
      if !ok {
        halted := Fail(OutOfGas);
        return;
      }
      var a := PopTop();
      if a.None? {
        halted := Fail(Trap);
        return;
      }
      pc := pc + 1;
      return false;
    }

    // -------- instructions on memory and call data --------

    method PopSized() returns (r: Option<u64>)
      modifies this`stack
      ensures PopSize(old(Abs())) == if r.Some? then Go(Popped(r.value, Abs())) else TrapAt(Abs())
    {
      hide Value;
      var w := PopTop();
      if w.None? {
        return None;
      }
      return ToU64Exact(w.value);
    }

    method ExecSha3() returns (halted: bool)
      requires Valid() && returnData == []
      modifies this
      ensures Valid() && Reflects(StepSha3(env, old(Abs())), halted) && writes == old(writes)
    {
      hide Value, WordOf, Words, Scan, PopWord, PopSize, HashMemory;
      var off := PopSized();
      if off.None? {
        halted := Fail(Trap);
        return;
      }
      var size := PopSized();
      if size.None? || off.value > U64_MAX - size.value {
        halted := Fail(Trap);
        return;
      }
      halted := HashRange(off.value, size.value);
    }

    method HashRange(off: u64, size: u64) returns (halted: bool)
      requires Valid() && returnData == [] && off + size <= U64_MAX
      modifies this`gasUsed, this`mem, this`stack, this`pc, this`status
      ensures Valid() && Reflects(HashMemory(env, old(Abs()), off, size), halted)
    {
      hide Value, FromBytes32, Grown, SizeInWords, WordOf, Words, Scan, ChargeGas, PopWord, PushWord, Touch;
      var ok := Charge(30 + 6 * SizeInWords(size));
      if !ok {
        halted := Fail(OutOfGas);
        return;
      }
      ok := EnsureMem(off + size);
      if !ok {
        halted := Fail(OutOfGas);
        return;
      }
      var h := env.keccak(mem[off..off + size]);
      var w := FromBytes(h);
      ok := PushTop(w);
      if !ok {
        halted := Fail(Trap);
        return;
      }
      pc := pc + 1;
      return false;
    }

    method CallDataBytes(off: u64, n: nat) returns (bytes: seq<byte>)
      ensures bytes == CallDataWindow(env.calldata, off, n)
    {
      bytes := [];
      for i := 0 to n
        invariant bytes == CallDataWindow(env.calldata, off, i)
      {
        var idx := Wrap64(off + i);
        bytes := bytes + [if idx < |env.calldata| then env.calldata[idx] else 0];
      }
    }

    method ExecCallDataLoad() returns (halted: bool)
      requires Valid() && returnData == []
      modifies this
      ensures Valid() && Reflects(StepCallDataLoad(env, old(Abs())), halted) && writes == old(writes)
    {
      hide Value, FromBytes32, CallDataWindow, WordOf, Words, Scan, ChargeGas, PopWord, PushWord, Touch, PopSize;
      var ok := Charge(3);
      if !ok {
        halted := Fail(OutOfGas);
        return;
      }
      var off := PopTop();
      if off.None? {
        halted := Fail(Trap);
        return;
      }
      var be: seq<byte> := Repeat(32, 0);
      var exact := ToU64Exact(off.value);
      if exact.Some? {
        be := CallDataBytes(exact.value, 32);
      }
      var w := FromBytes(be);
      ok := PushTop(w);
      if !ok {
        halted := Fail(Trap);
        return;
      }
      pc := pc + 1;
      return false;
    }

    method ExecCallDataSize() returns (halted: bool)
      requires Valid() && returnData == []
      modifies this
      ensures Valid() && Reflects(StepCallDataSize(env, old(Abs())), halted) && writes == old(writes)
    {
      hide Value, WordOf, Words, Scan, ChargeGas, PopWord, PushWord, Touch, PopSize;
      var ok := Charge(2);
      if !ok {
        halted := Fail(OutOfGas);
        return;
      }
      FromU64Value(|env.calldata|);
      ok := PushTop(FromU64(|env.calldata|));
      if !ok {
        halted := Fail(Trap);
        return;
      }
      pc := pc + 1;
      return false;
    }

    method ExecCallDataCopy() returns (halted: bool)
      requires Valid() && returnData == []
      modifies this
      ensures Valid() && Reflects(StepCallDataCopy(env, old(Abs())), halted) && writes == old(writes)
    {
      hide Value, WordOf, Words, Scan, PopWord, PopSize, CopyCallData;
      var dst := PopSized();
      if dst.None? {
        halted := Fail(Trap);
        return;
      }
      var src := PopSized();
      if src.None? {
        halted := Fail(Trap);
        return;
      }
      var size := PopSized();
      if size.None? || dst.value > U64_MAX - size.value {
        halted := Fail(Trap);
        return;
      }
      halted := CopyRange(dst.value, src.value, size.value);
    }

    method CopyRange(dst: u64, src: u64, size: u64) returns (halted: bool)
      requires Valid() && returnData == [] && dst + size <= U64_MAX
      modifies this`gasUsed, this`mem, this`pc, this`status
      ensures Valid() && Reflects(CopyCallData(env, old(Abs()), dst, src, size), halted)
    {
      hide Value, Grown, SizeInWords, CallDataWindow, Overwrite, WordOf, Words, Scan, ChargeGas, PopWord, PushWord;
      var ok := Charge(3 + 3 * SizeInWords(size));
      if !ok {
        halted := Fail(OutOfGas);
        return;
      }
      ok := EnsureMem(dst + size);
      if !ok {
        halted := Fail(OutOfGas);
        return;
      }
      var bytes := CallDataBytes(src, size);
      StoreBytes(dst, bytes);
      pc := pc + 1;
      return false;
    }

    method ExecMLoad() returns (halted: bool)
      requires Valid() && returnData == []
      modifies this
      ensures Valid() && Reflects(StepMLoad(env, old(Abs())), halted) && writes == old(writes)
    {
      hide Value, Grown, FromBytes32, WordOf, Words, Scan, ChargeGas, PopWord, PushWord, Touch, PopSize;
      var ok := Charge(3);
      if !ok {
        halted := Fail(OutOfGas);
        return;
      }
      var off := PopSized();
      if off.None? || off.value > U64_MAX - 32 {
        halted := Fail(Trap);
        return;
      }
      ok := EnsureMem(off.value + 32);
      if !ok {
        halted := Fail(OutOfGas);
        return;
      }
      var w := FromBytes(mem[off.value..off.value + 32]);
      ok := PushTop(w);
      if !ok {
        halted := Fail(Trap);
        return;
      }
      pc := pc + 1;
      return false;
    }

    method ExecMStore() returns (halted: bool)
      requires Valid() && returnData == []
      modifies this
      ensures Valid() && Reflects(StepMStore(env, old(Abs())), halted) && writes == old(writes)
    {
      hide Value, Grown, ToBytes32, Overwrite, WordOf, Words, Scan, ChargeGas, PopWord, PushWord, Touch, PopSize;
      var ok := Charge(3);
      if !ok {
        halted := Fail(OutOfGas);
        return;
      }
      var off := PopSized();
      if off.None? {
        halted := Fail(Trap);
        return;
      }
      var val := PopTop();
      if val.None? || off.value > U64_MAX - 32 {
        halted := Fail(Trap);
        return;
      }
      ok := EnsureMem(off.value + 32);
      if !ok {
        halted := Fail(OutOfGas);
        return;
      }
      var be := ToBytes(val.value);
      StoreBytes(off.value, be);
      pc := pc + 1;
      return false;
    }

    method ExecMStore8() returns (halted: bool)
      requires Valid() && returnData == []
      modifies this
      ensures Valid() && Reflects(StepMStore8(env, old(Abs())), halted) && writes == old(writes)
    {
      hide Value, Grown, Overwrite, WordOf, Words, Scan, ChargeGas, PopWord, PushWord, Touch, PopSize;
      var ok := Charge(3);
      if !ok {
        halted := Fail(OutOfGas);
        return;
      }
      var off := PopSized();
      if off.None? {
        halted := Fail(Trap);
        return;
      }
      var val := PopTop();
      if val.None? || off.value > U64_MAX - 1 {
        halted := Fail(Trap);
        return;
      }
      ok := EnsureMem(off.value + 1);
      if !ok {
        halted := Fail(OutOfGas);
        return;
      }
      LowLimb(val.value);
      StoreBytes(off.value, [val.value[0] % 256]);
      pc := pc + 1;
      return false;
    }

    // -------- instructions on storage --------

    method ExecSLoad() returns (halted: bool)
      requires Valid() && returnData == []
      modifies this
      ensures Valid() && Reflects(StepSLoad(env, old(Abs())), halted) && writes == old(writes)
    {
      hide Value, ToBytes32, FromBytes32, WordOf, Words, Scan, ChargeGas, PopWord, PushWord, Touch, PopSize;
      var ok := Charge(50);
      if !ok {
        halted := Fail(OutOfGas);
        return;
      }
      var keyWord := PopTop();
      if keyWord.None? {
        halted := Fail(Trap);
        return;
      }
      if !host.canLoad {
        halted := Fail(Trap);
        return;
      }
      var key := ToBytes(keyWord.value);
      var outv: seq<byte> := Repeat(32, 0);
      if key in overlay {
        outv := overlay[key];
      } else if key in host.storage {
        outv := host.storage[key];
      }
      var w := FromBytes(outv);
      ok := PushTop(w);
      if !ok {
        halted := Fail(Trap);
        return;
      }
      pc := pc + 1;
      return false;
    }

    method ExecSStore() returns (halted: bool)
      requires Valid() && returnData == []
      modifies this`stack, this`gasUsed, this`pendingWrites, this`overlay, this`pc, this`status
      ensures Valid() && Reflects(StepSStore(env, old(Abs())), halted) && writes == old(writes)
    {
      hide Value, ToBytes32, WordOf, Words, Scan, ChargeGas, PopWord, PushWord, Touch, PopSize;
      var ok := Charge(20000);
      if !ok {
        halted := Fail(OutOfGas);
        return;
      }
      var keyWord := PopTop();
      if keyWord.None? {
        halted := Fail(Trap);
        return;
      }
      var valWord := PopTop();
      if valWord.None? {
        halted := Fail(Trap);
        return;
      }
      RecordWrite(keyWord.value, valWord.value);
      return false;
    }

    /** The part of SSTORE after its two words are popped. */
    method RecordWrite(keyWord: Limbs, valWord: Limbs)
      modifies this`pendingWrites, this`overlay, this`pc
      ensures var w := Write(ToBytes32(WordOf(keyWord)), ToBytes32(WordOf(valWord)));
        var m := old(Abs());
        Go(Abs()) == Advance(m.(writes := m.writes + [w], overlay := m.overlay[w.key := w.value]))
    {
      hide ToBytes32, WordOf, Words;
      var key := ToBytes(keyWord);
      var val := ToBytes(valWord);
      pc, pendingWrites, overlay := pc + 1, pendingWrites + [Write(key, val)], overlay[key := val];
    }

    // -------- control --------

    method GoTo(dst: Limbs) returns (halted: bool)
      requires Valid() && returnData == []
      modifies this`pc, this`status
      ensures Valid() && Reflects(JumpTo(env, old(Abs()), WordOf(dst)), halted)
    {
      hide Value, ScanFrom;
      var target := ToU64Exact(dst);
      if target.None? || target.value >= |env.code| || target.value !in jumpdests {
        halted := Fail(Trap);
        return;
      }
      pc := target.value;
      return false;
    }

    method ExecJump() returns (halted: bool)
      requires Valid() && returnData == []
      modifies this
      ensures Valid() && Reflects(StepJump(env, old(Abs())), halted) && writes == old(writes)
    {
      hide Value, WordOf, Words, Scan, ChargeGas, PopWord, PushWord, Touch, PopSize;
      var ok := Charge(8);
      if !ok {
        halted := Fail(OutOfGas);
        return;
      }
      var dst := PopTop();
      if dst.None? {
        halted := Fail(Trap);
        return;
      }
      halted := GoTo(dst.value);
    }

    method ExecJumpI() returns (halted: bool)
      requires Valid() && returnData == []
      modifies this
      ensures Valid() && Reflects(StepJumpI(env, old(Abs())), halted) && writes == old(writes)
    {
      hide Value, WordOf, Words, Scan, ChargeGas, PopWord, PushWord, Touch, PopSize;
      var ok := Charge(10);
      if !ok {
        halted := Fail(OutOfGas);
        return;
      }
      var dst := PopTop();
      if dst.None? {
        halted := Fail(Trap);
        return;
      }
      var cond := PopTop();
      if cond.None? {
        halted := Fail(Trap);
        return;
      }
      var zero := U256.IsZero(cond.value);
      if !zero {
        halted := GoTo(dst.value);
        return;
      }
      pc := pc + 1;
      return false;
    }

    method ExecJumpDest() returns (halted: bool)
      requires Valid() && returnData == []
      modifies this
      ensures Valid() && Reflects(StepJumpDest(env, old(Abs())), halted) && writes == old(writes)
    {
      var ok := Charge(1);
      if !ok {
        halted := Fail(OutOfGas);
        return;
      }
      pc := pc + 1;
      return false;
    }

    method DoReturn(st: Status) returns (halted: bool)
      requires Valid() && returnData == []
      modifies this
      ensures Valid() && Reflects(StepReturn(env, old(Abs()), st), halted) && writes == old(writes)
    {
      hide Value, Grown, WordOf, Words, Scan, ChargeGas, PopWord, PushWord, Touch, PopSize;
      var off := PopTop();
      if off.None? {
        halted := Fail(Trap);
        return;
      }
      var size := PopTop();
      if size.None? {
        halted := Fail(Trap);
        return;
      }
      var o, n := ToU64Exact(off.value), ToU64Exact(size.value);
      if o.None? || n.None? || o.value > U64_MAX - n.value {
        halted := Fail(Trap);
        return;
      }
      var ok := EnsureMem(o.value + n.value);
      if !ok {
        halted := Fail(OutOfGas);
        return;
      }
      returnData := mem[o.value..o.value + n.value];
      halted := Fail(st);
    }

    /** The instruction at the program counter. */
    method Dispatch() returns (halted: bool)
      requires Valid() && returnData == [] && pc < |env.code|
      modifies this
      ensures Valid() && Reflects(Step(env, old(Abs())), halted) && writes == old(writes)
    {
      hide Value, StepPush, StepDup, StepSwap, StepBinary, StepIsZero, StepSha3, StepCallDataLoad, StepCallDataSize,
        StepCallDataCopy, StepPop, StepMLoad, StepMStore, StepMStore8, StepSLoad, StepSStore, StepJump, StepJumpI,
        StepJumpDest, StepReturn, ScanFrom;
      match Decode(env.code[pc])
      case Push(n) => halted := ExecPush(n);
      case Dup(n) => halted := ExecDup(n);
      case Swap(n) => halted := ExecSwap(n);
      case Binary(op) => halted := ExecBinary(op);
      case IsZero => halted := ExecIsZero();
      case Sha3 => halted := ExecSha3();
      case CallDataLoad => halted := ExecCallDataLoad();
      case CallDataSize => halted := ExecCallDataSize();
      case CallDataCopy => halted := ExecCallDataCopy();
      case Pop => halted := ExecPop();
      case MLoad => halted := ExecMLoad();
      case MStore => halted := ExecMStore();
      case MStore8 => halted := ExecMStore8();
      case SLoad => halted := ExecSLoad();
      case SStore => halted := ExecSStore();
      case Jump => halted := ExecJump();
      case JumpI => halted := ExecJumpI();
      case JumpDest => halted := ExecJumpDest();
      case Stop => halted := Fail(Success);
      case Return => halted := DoReturn(Success);
      case Revert => halted := DoReturn(Reverted);
      case Unknown => halted := Fail(Trap);
    }

    /** Runs to the end. Gas alone bounds the loop. */
    method RunLoop()
      requires Valid() && returnData == []
      modifies this
      ensures Valid() && Reflects(Run(env, old(Abs())), true) && writes == old(writes)
    {
      hide Value, Step, ScanFrom, Words;
      ghost var answer := Run(env, Abs());
      while pc < |env.code|
        invariant Valid() && returnData == [] && Run(env, Abs()) == answer && writes == old(writes)
        decreases env.gasLimit - gasUsed
      {
        ghost var m := Abs();
        if steps >= env.limits.maxSteps {
          status := OutOfGas;
          return;
        }
        steps := steps + 1;
        ghost var before := Abs();
        var halted := Dispatch();
        assert Turn(env, m) == Step(env, before);
        if halted {
          return;
        }
        TurnCosts(env, m);
      }
      status := Success;
    }

    /** Hands the writes of a successful run to the host, in order. */
    method Finish()
      requires host.canStore == env.canStore && host.storage == env.storage && writes == []
      modifies this, host
      ensures Receipt(status, gasUsed, returnData, writes, host.storage)
           == Finalize(env, Halt(old(status), old(gasUsed), old(returnData), old(pendingWrites)))
    {
      if status.Success? {
        if !host.canStore && pendingWrites != [] {
          status := Trap;
        } else {
          for i := 0 to |pendingWrites|
            invariant unchanged(this)
            invariant host.storage == ApplyWrites(env.storage, pendingWrites[..i])
          {
            var w := pendingWrites[i];
            assert pendingWrites[..i + 1][..i] == pendingWrites[..i];
            host.storage := host.storage[w.key := w.value];
          }
          assert pendingWrites[..|pendingWrites|] == pendingWrites;
          writes := pendingWrites;
        }
      }
    }
  }

  /** The interpreter's entry point: its answer and the host it leaves are those of `EvmMachine.Execute`. */
  method Evaluate(env: Env, host: Host) returns (status: Status, gasUsed: nat, data: seq<byte>, writes: seq<Write>)
    requires |env.calldata| <= U64_MAX
    requires host.canLoad == env.canLoad && host.canStore == env.canStore && host.storage == env.storage
    modifies host
    ensures Receipt(status, gasUsed, data, writes, host.storage) == Execute(env)
  {
    hide Run, ScanFrom;
    if |env.code| > env.limits.maxCodeBytes {
      return InvalidCode, 0, [], [];
    }
    var jumpdests := BuildJumpDests(env.code);
    if jumpdests.None? {
      return InvalidCode, 0, [], [];
    }
    var e := new Execution(env, host, jumpdests.value);
    e.RunLoop();
    e.Finish();
    return e.status, e.gasUsed, e.returnData, e.writes;
  }
}
