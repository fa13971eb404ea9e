/** What holds in every run of the EVM interpreter. */
module EvmTheorems {
  import opened Common
  import opened U256
  import opened WordBits
  import opened AbiWords
  import opened EvmMachine

  // -------- instruction boundaries --------

  /** `pc` is where some instruction of the linear reading from `from` begins, or where the reading ends. */
  predicate OnPath(code: seq<byte>, from: nat, pc: nat)
    decreases |code| - from
  {
    || from == pc
    || (from < |code| && from + InstrLength(code, from) <= |code| && OnPath(code, from + InstrLength(code, from), pc))
  }

  predicate Boundary(code: seq<byte>, pc: nat) {
    OnPath(code, 0, pc)
  }

  predicate TruncatedPush(code: seq<byte>, from: nat, p: nat) {
    p < |code| && OnPath(code, from, p) && p + InstrLength(code, p) > |code|
  }

  /** The scan fails exactly on a truncated PUSH, and otherwise finds exactly the JUMPDESTs that are instructions. */
  lemma {:induction false} ScanMeaning(code: seq<byte>, from: nat)
    requires from <= |code|
    ensures ScanFrom(code, from).None? <==> exists p :: TruncatedPush(code, from, p)
    ensures ScanFrom(code, from).Some? ==>
      forall p: nat :: p in ScanFrom(code, from).value <==>
        p < |code| && OnPath(code, from, p) && Decode(code[p]).JumpDest?
    decreases |code| - from
  {
    if from < |code| {
      var next := from + InstrLength(code, from);
      if next > |code| {
        assert TruncatedPush(code, from, from);
      } else {
        ScanMeaning(code, next);
        forall p ensures TruncatedPush(code, from, p) <==> TruncatedPush(code, next, p) {
          if TruncatedPush(code, next, p) {
            PathGoesForward(code, next, p);
          }
        }
        if ScanFrom(code, next).Some? {
          forall p ensures OnPath(code, from, p) <==> p == from || OnPath(code, next, p) {
          }
        }
      }
    }
  }

  lemma {:induction false} PathGoesForward(code: seq<byte>, from: nat, p: nat)
    requires OnPath(code, from, p)
    ensures from <= p
    ensures from <= |code| ==> p <= |code|
    decreases |code| - from
  {
    if from != p {
      PathGoesForward(code, from + InstrLength(code, from), p);
    }
  }

  lemma {:induction false} PathContinues(code: seq<byte>, from: nat, p: nat)
    requires OnPath(code, from, p) && p < |code| && p + InstrLength(code, p) <= |code|
    ensures OnPath(code, from, p + InstrLength(code, p))
    decreases |code| - from
  {
    if from != p {
      PathContinues(code, from + InstrLength(code, from), p);
    }
  }

  /** No boundary lies inside an instruction. */
  lemma {:induction false} NothingBeginsInside(code: seq<byte>, from: nat, p: nat, q: nat)
    requires OnPath(code, from, p) && p < |code|
    requires p < q < p + InstrLength(code, p)
    ensures !OnPath(code, from, q)
    decreases |code| - from
  {
    PathGoesForward(code, from, p);
    if from == p {
      if OnPath(code, p, q) {
        PathGoesForward(code, p + InstrLength(code, p), q);
      }
    } else {
      NothingBeginsInside(code, from + InstrLength(code, from), p, q);
    }
  }

  // -------- the invariant --------

  predicate Loadable(env: Env) {
    |env.calldata| <= U64_MAX && Scan(env.code).Some?
  }

  predicate Inv(env: Env, m: Machine) {
    && Boundary(env.code, m.pc)
    && m.gas <= env.gasLimit
    && m.steps <= m.gas
    && |m.stack| <= env.limits.maxStackItems
    && |m.mem| <= env.limits.maxMemoryBytes
    && m.overlay == ApplyWrites(map[], m.writes)
    && 20000 * |m.writes| <= m.gas
  }

  /** Where a turn can lead: the next instruction, or a JUMPDEST. */
  lemma TurnMovesPc(env: Env, m: Machine)
    requires Loadable(env) && m.gas <= env.gasLimit && Boundary(env.code, m.pc)
    requires Turn(env, m).Go?
    ensures m.pc < |env.code| && m.pc + InstrLength(env.code, m.pc) <= |env.code|
    ensures var next := Turn(env, m).value.pc;
      || next == m.pc + InstrLength(env.code, m.pc)
      || (IsJumpDest(env.code, next) && (Decode(env.code[m.pc]).Jump? || Decode(env.code[m.pc]).JumpI?))
  {
    hide StepPush, StepDup, StepSwap, StepBinary, StepIsZero, StepSha3, StepCallDataLoad, StepCallDataSize,
      StepCallDataCopy, StepPop, StepMLoad, StepMStore, StepMStore8, StepSLoad, StepSStore, StepJump, StepJumpI,
      StepJumpDest, StepReturn, ScanFrom, OnPath;
    ScanMeaning(env.code, 0);
    assert !TruncatedPush(env.code, 0, m.pc);
  }

  lemma TurnKeepsBoundary(env: Env, m: Machine)
    requires Loadable(env) && m.gas <= env.gasLimit && Boundary(env.code, m.pc)
    requires Turn(env, m).Go?
    ensures Boundary(env.code, Turn(env, m).value.pc)
  {
    hide Turn, ScanFrom, OnPath;
    TurnMovesPc(env, m);
    ScanMeaning(env.code, 0);
    PathContinues(env.code, 0, m.pc);
  }

  lemma TurnKeepsCaps(env: Env, m: Machine)
    requires Loadable(env) && m.gas <= env.gasLimit
    requires |m.stack| <= env.limits.maxStackItems && |m.mem| <= env.limits.maxMemoryBytes
    requires Turn(env, m).Go?
    ensures |Turn(env, m).value.stack| <= env.limits.maxStackItems
    ensures |m.mem| <= |Turn(env, m).value.mem| <= env.limits.maxMemoryBytes
  {
    hide StepPush, StepDup, StepSwap, StepBinary, StepIsZero, StepSha3, StepCallDataLoad, StepCallDataSize,
      StepCallDataCopy, StepPop, StepMLoad, StepMStore, StepMStore8, StepSLoad, StepSStore, StepJump, StepJumpI,
      StepJumpDest, StepReturn, ScanFrom, OnPath;
  }

  predicate Stores(env: Env, m: Machine) {
    m.pc < |env.code| && Decode(env.code[m.pc]).SStore? && |m.stack| >= 2
  }

  function StoreKey(m: Machine): Word256
    requires |m.stack| >= 2
  {
    m.stack[|m.stack| - 1]
  }

  function StoreValue(m: Machine): Word256
    requires |m.stack| >= 2
  {
    m.stack[|m.stack| - 2]
  }

  /** Only SSTORE touches storage, and it writes the second stack entry under the first. */
  lemma TurnWrites(env: Env, m: Machine)
    requires Loadable(env) && m.gas <= env.gasLimit && Turn(env, m).Go?
    ensures var next := Turn(env, m).value;
      if Stores(env, m) then
        var w := Write(ToBytes32(StoreKey(m)), ToBytes32(StoreValue(m)));
        next.writes == m.writes + [w] && next.overlay == m.overlay[w.key := w.value]
      else
        next.writes == m.writes && next.overlay == m.overlay
  {
    hide StepPush, StepDup, StepSwap, StepBinary, StepIsZero, StepSha3, StepCallDataLoad, StepCallDataSize,
      StepCallDataCopy, StepPop, StepMLoad, StepMStore, StepMStore8, StepSLoad, StepSStore, StepJump, StepJumpI,
      StepJumpDest, StepReturn, ScanFrom, OnPath;
  }

  lemma TurnKeeps(env: Env, m: Machine)
    requires Loadable(env) && Inv(env, m) && Turn(env, m).Go?
    ensures Inv(env, Turn(env, m).value)
  {
    hide Turn, Boundary;
    TurnKeepsBoundary(env, m);
    TurnKeepsCaps(env, m);
    TurnCosts(env, m);
    TurnWrites(env, m);
    var next := Turn(env, m).value;
    if Stores(env, m) {
      assert next.writes[..|next.writes| - 1] == m.writes;
    }
  }

  // -------- runs --------

  predicate IsRun(env: Env, t: seq<Machine>)
    requires Loadable(env)
  {
    && |t| > 0 && t[0] == START
    && forall i | 0 < i < |t| :: Follows(env, t[i - 1], t[i])
  }

  predicate Follows(env: Env, m: Machine, next: Machine)
    requires Loadable(env)
  {
    m.gas <= env.gasLimit && Turn(env, m) == Go(next)
  }

  lemma {:induction false} RunKeepsInvariant(env: Env, t: seq<Machine>, i: nat)
    requires Loadable(env) && IsRun(env, t) && i < |t|
    ensures Inv(env, t[i])
    ensures t[i].steps == i
  {
    hide Turn;
    if i > 0 {
      RunKeepsInvariant(env, t, i - 1);
      assert Follows(env, t[i - 1], t[i]);
      TurnKeeps(env, t[i - 1]);
      TurnCosts(env, t[i - 1]);
    }
  }

  /** What the interpreter answers is the last turn of a run from the start. */
  lemma RunIsATrace(env: Env) returns (t: seq<Machine>)
    requires Loadable(env)
    ensures IsRun(env, t)
    ensures t[|t| - 1].gas <= env.gasLimit && Turn(env, t[|t| - 1]) == Run(env, START)
  {
    hide Turn;
    t := [START];
    while Turn(env, t[|t| - 1]).Go?
      invariant IsRun(env, t)
      invariant t[|t| - 1].gas <= env.gasLimit && Run(env, t[|t| - 1]) == Run(env, START)
      decreases env.gasLimit - t[|t| - 1].gas
    {
      var last := t[|t| - 1];
      TurnCosts(env, last);
      var next := Turn(env, last).value;
      assert Follows(env, last, next);
      t := t + [next];
    }
  }

  /** Push data is never executed: the program counter is never inside an instruction of the linear reading. */
  lemma PushDataIsNeverExecuted(env: Env, t: seq<Machine>, i: nat, p: nat)
    requires Loadable(env) && IsRun(env, t) && i < |t|
    requires p < |env.code| && Boundary(env.code, p)
    ensures !(p < t[i].pc < p + InstrLength(env.code, p))
  {
    hide OnPath, Turn;
    RunKeepsInvariant(env, t, i);
    if p < t[i].pc < p + InstrLength(env.code, p) {
      NothingBeginsInside(env.code, 0, p, t[i].pc);
    }
  }

  /** Control leaves the order of the code only for a JUMPDEST. */
  lemma JumpsLandOnJumpDests(env: Env, t: seq<Machine>, i: nat)
    requires Loadable(env) && IsRun(env, t) && i + 1 < |t|
    ensures t[i].pc < |env.code|
    ensures t[i + 1].pc != t[i].pc + InstrLength(env.code, t[i].pc) ==>
      t[i + 1].pc < |env.code| && env.code[t[i + 1].pc] == 0x5b
  {
    hide Turn, OnPath, ScanFrom;
    RunKeepsInvariant(env, t, i);
    assert Follows(env, t[i], t[i + 1]);
    TurnMovesPc(env, t[i]);
    ScanMeaning(env.code, 0);
  }

  lemma TurnIsNeverInvalid(env: Env, m: Machine)
    requires Loadable(env) && m.gas <= env.gasLimit && Boundary(env.code, m.pc)
    ensures Turn(env, m).Halt? ==> Turn(env, m).status != InvalidCode
  {
    hide StepPush, StepDup, StepSwap, StepBinary, StepIsZero, StepSha3, StepCallDataLoad, StepCallDataSize,
      StepCallDataCopy, StepPop, StepMLoad, StepMStore, StepMStore8, StepSLoad, StepSStore, StepJump, StepJumpI,
      StepJumpDest, StepReturn, ScanFrom, OnPath;
    ScanMeaning(env.code, 0);
    assert !TruncatedPush(env.code, 0, m.pc);
  }

  /** Code is refused for its length or a truncated PUSH in its linear reading, and for nothing met on the way. */
  lemma InvalidCodeIsFoundBeforeRunning(env: Env)
    requires |env.calldata| <= U64_MAX
    ensures Execute(env).status.InvalidCode? <==>
      || |env.code| > env.limits.maxCodeBytes
      || |env.code| > 1_048_576
      || exists p :: TruncatedPush(env.code, 0, p)
  {
    hide Turn, Run, ScanFrom, OnPath;
    ScanMeaning(env.code, 0);
    if Scan(env.code).Some? {
      var t := RunIsATrace(env);
      RunKeepsInvariant(env, t, |t| - 1);
      TurnIsNeverInvalid(env, t[|t| - 1]);
    }
  }

  lemma HaltKeepsGas(env: Env, m: Machine)
    requires Loadable(env) && m.gas <= env.gasLimit
    ensures var h := Turn(env, m); h.Halt? ==> m.gas <= h.gas <= env.gasLimit && h.writes == m.writes
    ensures var h := Turn(env, m); h.Halt? && h.status.Success? ==> h.gas == m.gas
  {
    hide StepPush, StepDup, StepSwap, StepBinary, StepIsZero, StepSha3, StepCallDataLoad, StepCallDataSize,
      StepCallDataCopy, StepPop, StepMLoad, StepMStore, StepMStore8, StepSLoad, StepSStore, StepJump, StepJumpI,
      StepJumpDest, StepReturn, ScanFrom, OnPath;
  }

  /** Gas never exceeds its limit, pays for every step but the last, and pays 20000 for every write. */
  lemma GasBoundsTheRun(env: Env, t: seq<Machine>)
    requires Loadable(env) && IsRun(env, t)
    requires t[|t| - 1].gas <= env.gasLimit && Turn(env, t[|t| - 1]).Halt?
    requires |env.code| <= env.limits.maxCodeBytes
    ensures Execute(env).gasUsed <= env.gasLimit
    ensures |t| <= Execute(env).gasUsed + 1
    ensures 20000 * |Execute(env).writes| <= Execute(env).gasUsed
  {
    hide Turn, Inv;
    FullRun(env, t, |t| - 1);
    RunKeepsInvariant(env, t, |t| - 1);
    HaltKeepsGas(env, t[|t| - 1]);
    InvNumbers(env, t[|t| - 1]);
  }

  lemma InvNumbers(env: Env, m: Machine)
    requires Inv(env, m)
    ensures m.steps <= m.gas <= env.gasLimit && 20000 * |m.writes| <= m.gas
  {
  }

  lemma {:induction false} FullRun(env: Env, t: seq<Machine>, i: nat)
    requires Loadable(env) && IsRun(env, t) && i < |t|
    ensures t[i].gas <= env.gasLimit && Run(env, t[i]) == Run(env, START)
  {
    hide Turn;
    if i > 0 {
      FullRun(env, t, i - 1);
      assert Follows(env, t[i - 1], t[i]);
      TurnCosts(env, t[i - 1]);
    }
  }

  /** With fewer gas units than allowed steps, the step limit is never what stops a run. */
  lemma StepLimitNeedsGas(env: Env, t: seq<Machine>, i: nat)
    requires Loadable(env) && IsRun(env, t) && i < |t|
    requires env.gasLimit < env.limits.maxSteps
    ensures t[i].steps < env.limits.maxSteps
  {
    hide Turn;
    RunKeepsInvariant(env, t, i);
  }

  /** Stack and memory never outgrow their limits, and memory never shrinks. */
  lemma CapsHold(env: Env, t: seq<Machine>, i: nat)
    requires Loadable(env) && IsRun(env, t) && i < |t|
    ensures |t[i].stack| <= env.limits.maxStackItems && |t[i].mem| <= env.limits.maxMemoryBytes
    ensures i > 0 ==> |t[i - 1].mem| <= |t[i].mem|
  {
    hide Turn;
    RunKeepsInvariant(env, t, i);
    if i > 0 {
      RunKeepsInvariant(env, t, i - 1);
      assert Follows(env, t[i - 1], t[i]);
      TurnKeepsCaps(env, t[i - 1]);
    }
  }

  // -------- storage --------

  /** What the first `i` turns of a run last stored under `key`. */
  function LastStore(env: Env, t: seq<Machine>, i: nat, key: Word256): Option<Word256>
    requires i < |t|
  {
    if i == 0 then None
    else if Stores(env, t[i - 1]) && StoreKey(t[i - 1]) == key then Some(StoreValue(t[i - 1]))
    else LastStore(env, t, i - 1, key)
  }

  lemma WordRoundTrip(w: Word256)
    ensures FromBytes32(ToBytes32(w)) == w
  {
    WeightIs256(4);
    BigEndianRoundTrip(w, 32);
  }

  lemma KeysAreDistinct(a: Word256, b: Word256)
    requires a != b
    ensures ToBytes32(a) != ToBytes32(b)
  {
    hide BigEndian, FromBigEndian;
    WordRoundTrip(a);
    WordRoundTrip(b);
  }

  predicate Holds(storage: Storage, key: Word256, value: Option<Word256>) {
    if value.None? then ToBytes32(key) !in storage
    else ToBytes32(key) in storage && storage[ToBytes32(key)] == ToBytes32(value.value)
  }

  lemma {:induction false} OverlayIsLastStore(env: Env, t: seq<Machine>, i: nat, key: Word256)
    requires Loadable(env) && IsRun(env, t) && i < |t|
    ensures Holds(t[i].overlay, key, LastStore(env, t, i, key))
  {
    hide Turn, ToBytes32;
    if i > 0 {
      OverlayIsLastStore(env, t, i - 1, key);
      assert Follows(env, t[i - 1], t[i]);
      RunKeepsInvariant(env, t, i - 1);
      TurnWrites(env, t[i - 1]);
      if Stores(env, t[i - 1]) && StoreKey(t[i - 1]) != key {
        KeysAreDistinct(StoreKey(t[i - 1]), key);
      }
    }
  }

  lemma TurnLoads(env: Env, m: Machine)
    requires Loadable(env) && m.gas <= env.gasLimit && Turn(env, m).Go?
    requires m.pc < |env.code| && Decode(env.code[m.pc]).SLoad?
    ensures |m.stack| > 0
    ensures var key := m.stack[|m.stack| - 1];
      Turn(env, m).value.stack == m.stack[..|m.stack| - 1] + [FromBytes32(Loaded(env, m, ToBytes32(key)))]
  {
    hide FromBytes32, ToBytes32;
  }

  /** SLOAD gives the last value this run stored under the key, else the host's, else zero. */
  lemma LoadSeesLastStore(env: Env, t: seq<Machine>, i: nat)
    requires Loadable(env) && IsRun(env, t) && i + 1 < |t|
    requires t[i].pc < |env.code| && Decode(env.code[t[i].pc]).SLoad?
    ensures |t[i + 1].stack| == |t[i].stack| > 0
    ensures
      var n := |t[i].stack| - 1;
      var key := t[i].stack[n];
      t[i + 1].stack[..n] == t[i].stack[..n] &&
      match LastStore(env, t, i, key)
        case Some(v) => t[i + 1].stack[n] == v
        case None =>
          t[i + 1].stack[n] == if ToBytes32(key) in env.storage then FromBytes32(env.storage[ToBytes32(key)]) else 0
  {
    hide Turn, ToBytes32, FromBytes32, LastStore;
    assert Follows(env, t[i], t[i + 1]);
    TurnLoads(env, t[i]);
    var key := t[i].stack[|t[i].stack| - 1];
    RunKeepsInvariant(env, t, i);
    OverlayIsLastStore(env, t, i, key);
    ZeroWord();
    var last := LastStore(env, t, i, key);
    if last.Some? {
      WordRoundTrip(last.value);
    }
  }

  lemma ZeroWord()
    ensures FromBytes32(Repeat(32, 0)) == 0
  {
    assert AllEqual(Repeat(32, 0 as byte), 0);
    ExtremeBytes(Repeat(32, 0));
  }

  /** Writes applied in order are the overlay laid over the storage. */
  lemma {:induction false} WritesAreOverlay(storage: Storage, writes: seq<Write>)
    ensures ApplyWrites(storage, writes) == storage + ApplyWrites(map[], writes)
  {
    if writes != [] {
      WritesAreOverlay(storage, writes[..|writes| - 1]);
    }
  }

  predicate Changed(before: Storage, after: Storage, key: Bytes32, value: Option<Word256>) {
    match value
    case Some(v) => key in after && after[key] == ToBytes32(v)
    case None => (key in after <==> key in before) && (key in before ==> after[key] == before[key])
  }

  /** A successful run leaves under every key what it last stored there, and the other keys alone. */
  lemma SuccessStoresLast(env: Env, t: seq<Machine>, key: Word256)
    requires Loadable(env) && IsRun(env, t) && |env.code| <= env.limits.maxCodeBytes
    requires t[|t| - 1].gas <= env.gasLimit && Turn(env, t[|t| - 1]).Halt?
    requires Execute(env).status.Success?
    ensures Changed(env.storage, Execute(env).storage, ToBytes32(key), LastStore(env, t, |t| - 1, key))
    ensures Execute(env).storage == env.storage + t[|t| - 1].overlay
  {
    hide Turn, ToBytes32, LastStore, OnPath;
    var n := |t| - 1;
    FullRun(env, t, n);
    HaltKeepsGas(env, t[n]);
    RunKeepsInvariant(env, t, n);
    OverlayIsLastStore(env, t, n, key);
    WritesAreOverlay(env.storage, t[n].writes);
  }

  /** A run that does not succeed leaves the host alone and reports no writes. */
  lemma FailureLeavesHostAlone(env: Env)
    requires |env.calldata| <= U64_MAX
    ensures !Execute(env).status.Success? ==> Execute(env).storage == env.storage && Execute(env).writes == []
    ensures Execute(env).status.Success? && Execute(env).writes != [] ==> env.canStore
  {
  }

  // -------- memory and call data --------

  /** MLOAD gives back what MSTORE put at the same offset, and MSTORE touches no other byte. */
  lemma MemoryRoundTrip(mem: seq<byte>, off: nat, w: Word256)
    ensures var mem' := Overwrite(Grown(mem, off + 32), off, ToBytes32(w));
      && |mem'| == |Grown(mem, off + 32)|
      && FromBytes32(mem'[off..off + 32]) == w
      && forall i | 0 <= i < |mem'| && !(off <= i < off + 32) :: mem'[i] == if i < |mem| then mem[i] else 0
  {
    hide BigEndian, FromBigEndian;
    WordRoundTrip(w);
    var mem' := Overwrite(Grown(mem, off + 32), off, ToBytes32(w));
    assert mem'[off..off + 32] == ToBytes32(w);
  }

  // -------- operand order --------

  /** The operators that take the second entry on the left: exactly when the other order would give something else. */
  lemma OperandOrderShowsIff(op: BinOp, second: Word256, top: Word256)
    requires op.Sub? || op.Div? || op.Mod? || op.Lt? || op.Gt?
    ensures Eval(op, second, top) == Eval(op, top, second) <==>
      || second == top
      || (op.Sub? && (second - top == Weight(4) / 2 || top - second == Weight(4) / 2))
      || ((op.Div? || op.Mod?) && (second == 0 || top == 0))
  {
    hide Weight, Quotient, Remainder;
    if op.Sub? {
      DifferenceShows(second, top);
    } else if second != 0 && top != 0 && second != top {
      SmallerDividend(second, top);
      SmallerDividend(top, second);
    } else {
      if second > 0 {
        ZeroDividend(second);
      }
      if top > 0 {
        ZeroDividend(top);
      }
    }
  }

  lemma DifferenceShows(x: Word256, y: Word256)
    ensures Modulo(x - y) == Modulo(y - x) <==>
      x == y || x - y == Weight(4) / 2 || y - x == Weight(4) / 2
  {
    hide Weight, Modulo;
    ModuloOfDifference(x, y);
    ModuloOfDifference(y, x);
    HalfOfAll();
  }

  lemma ModuloOfDifference(x: Word256, y: Word256)
    ensures Modulo(x - y) == if x >= y then x - y else x - y + Weight(4)
  {
    SmallMod(x - y, Weight(4));
  }

  lemma HalfOfAll()
    ensures Weight(4) == 2 * (Weight(4) / 2)
  {
  }

  lemma SmallerDividend(x: nat, y: nat)
    requires 0 < x < y || 0 < y < x
    ensures x < y ==> Quotient(x, y) == 0 && Remainder(x, y) == x
    ensures x < y ==> Quotient(y, x) > 0 && Remainder(y, x) < x
  {
    hide Quotient, Remainder;
    if x < y {
      QuotientUnique(x, y, 0, x);
      AtLeastOnce(y, x);
    }
  }

  lemma AtLeastOnce(x: nat, d: nat)
    requires 0 < d <= x
    ensures Quotient(x, d) > 0
  {
  }

  lemma ZeroDividend(x: nat)
    requires x > 0
    ensures Quotient(0, x) == 0 && Remainder(0, x) == 0
  {
    hide Quotient, Remainder;
    QuotientUnique(0, x, 0, 0);
  }

  /** Call data as the specification reads it: bytes past the end are zero. */
  function PaddedByte(data: seq<byte>, idx: nat): byte {
    if idx < |data| then data[idx] else 0
  }

  predicate ReadsPadded(data: seq<byte>, off: nat, n: nat) {
    forall i | 0 <= i < n :: CallDataByte(data, off, i) == PaddedByte(data, off + i)
  }

  /** An offset whose window passes 2^64 reads the start of the call data again instead of zeros. */
  lemma WindowWraps(off: u64, n: nat)
    ensures off + n - 1 <= U64_MAX <==> forall data: seq<byte> | |data| <= U64_MAX / 2 :: ReadsPadded(data, off, n)
  {
    if off + n - 1 > U64_MAX {
      var i := U64_MAX + 1 - off;
      assert CallDataByte([1], off, i) == 1;
      assert !ReadsPadded([1], off, n);
    }
  }
}
