/** Instructions, program images and the transition function of the stack machine. */
module Bytecode {
  import opened ConstValues
  import opened Arithmetic

  /** The arithmetic, comparison, bitwise and logic opcodes are named by their operator. */
  datatype OpCode =
    | PUSH_INT | PUSH_INT128 | PUSH_BOOL | POP
    | BINARY(binaryOp: BinaryOp) | UNARY(unaryOp: UnaryOp) | CAST_INT
    | STORE_LOCAL | LOAD_LOCAL
    | JMP | JMP_IF_FALSE | JMP_IF_TRUE
    | CALL | RET | THROW | HALT

  datatype Instruction = Instruction(op: OpCode, operand: nat)

  /** The instruction stream and its constant pools. */
  datatype Code = Code(instructions: seq<Instruction>, intPool: seq<int64>, int128Pool: seq<Int128>,
                       stringPool: seq<string>)

  datatype Entry = InvalidCodeStart | CodeStart(at: nat)

  datatype CompiledFunction = CompiledFunction(name: string, numParams: nat, numLocals: nat, entry: Entry)

  datatype Image = Image(code: Code, functions: seq<CompiledFunction>)

  datatype Config = Config(maxStackSize: nat, maxLocals: nat, maxCallDepth: nat, maxIterations: nat,
                           initialHeapSize: nat)

  datatype CallFrame = CallFrame(returnIP: nat, localsBase: nat, numLocals: nat)

  datatype State = State(ip: nat, stack: seq<ConstValue>, locals: seq<ConstValue>, base: nat,
                         frames: seq<CallFrame>)

  datatype LimitKind = Iterations | StackSize | Locals | CallDepth

  /** How a run ends: with a value, at a limit, with the exception of an empty stack, or outside the
      behaviour C++ defines. */
  datatype Outcome = Value(value: ConstValue) | Limit(kind: LimitKind) | Underflow | Undefined

  datatype StepResult = Next(state: State) | Done(outcome: Outcome)

  function Zeros(n: nat): (s: seq<ConstValue>)
    ensures |s| == n
  {
    seq(n, _ => ZERO)
  }

  /** `vector::resize(n)`: cut off, or extend with default values, whose kind is Error. */
  function Resize(s: seq<ConstValue>, n: nat): (r: seq<ConstValue>)
    ensures |r| == n
  {
    if n <= |s| then s[..n] else s + seq(n - |s|, _ => Error)
  }

  function CastOperand(width: Width, signed: bool): nat {
    width + (if signed then 0x1_0000 else 0)
  }

  function PushValue(cfg: Config, st: State, v: ConstValue): StepResult {
    if |st.stack| >= cfg.maxStackSize then Done(Limit(StackSize))
    else Next(st.(stack := st.stack + [v], ip := st.ip + 1))
  }

  function PushResult(cfg: Config, st: State, r: OpResult): StepResult {
    match r case Push(v) => PushValue(cfg, st, v) case Stop(v) => Done(Value(v))
  }

  function Drop(st: State, n: nat): State
    requires n <= |st.stack|
  {
    st.(stack := st.stack[..|st.stack| - n])
  }

  function Top(st: State, depth: nat): ConstValue
    requires depth < |st.stack|
  {
    st.stack[|st.stack| - 1 - depth]
  }

  function StoreLocal(cfg: Config, st: State, slot: nat): StepResult {
    if |st.stack| == 0 then Done(Underflow)
    else
      var at := st.base + slot;
      if at >= cfg.maxLocals then Done(Limit(Locals))
      else
        var room := if at >= |st.locals| then st.locals + Zeros(at + 64 - |st.locals|) else st.locals;
        Next(Drop(st, 1).(locals := room[at := Top(st, 0)], ip := st.ip + 1))
  }

  function LoadLocal(cfg: Config, st: State, slot: nat): StepResult {
    if st.base + slot >= |st.locals| then Done(Value(Error))
    else PushValue(cfg, st, st.locals[st.base + slot])
  }

  function DoCall(cfg: Config, functions: seq<CompiledFunction>, st: State, index: nat): StepResult {
    if index >= |functions| || functions[index].entry.InvalidCodeStart? then Done(Value(Error))
    else if |st.frames| >= cfg.maxCallDepth then Done(Limit(CallDepth))
    else
      var f := functions[index];
      if f.numLocals < f.numParams then Done(Undefined)
      else if |st.stack| < f.numParams then Done(Underflow)
      else
        var args := st.stack[|st.stack| - f.numParams..];
        Next(State(f.entry.at, Drop(st, f.numParams).stack,
                   st.locals + args + Zeros(f.numLocals - f.numParams), |st.locals|,
                   st.frames + [CallFrame(st.ip + 1, st.base, f.numLocals)]))
  }

  /** RET shrinks the locals to the caller's base plus the number of locals of the callee. */
  function DoReturn(cfg: Config, st: State): StepResult {
    if |st.stack| == 0 then Done(Underflow)
    else if |st.frames| == 0 then Done(Value(Top(st, 0)))
    else
      var f := st.frames[|st.frames| - 1];
      var popped := Drop(st, 1);
      if |popped.stack| >= cfg.maxStackSize then Done(Limit(StackSize))
      else Next(State(f.returnIP, popped.stack + [Top(st, 0)], Resize(st.locals, f.localsBase + f.numLocals),
                      f.localsBase, st.frames[..|st.frames| - 1]))
  }

  function DoJump(st: State, target: nat, onFalse: bool): StepResult {
    if |st.stack| == 0 then Done(Underflow)
    else Next(Drop(st, 1).(ip := if Top(st, 0).ToBool() != onFalse then target else st.ip + 1))
  }

  function Step(cfg: Config, im: Image, st: State): StepResult
    requires st.ip < |im.code.instructions|
  {
    var instr := im.code.instructions[st.ip];
    match instr.op
    case PUSH_INT =>
      if instr.operand < |im.code.intPool| then PushValue(cfg, st, PushedInt(im.code.intPool[instr.operand]))
      else Done(Undefined)
    case PUSH_INT128 =>
      if instr.operand < |im.code.int128Pool| then
        PushValue(cfg, st, Integer128(im.code.int128Pool[instr.operand], true))
      else Done(Undefined)
    case PUSH_BOOL => PushValue(cfg, st, Bool(instr.operand != 0))
    case POP => if |st.stack| == 0 then Done(Underflow) else Next(Drop(st, 1).(ip := st.ip + 1))
    case BINARY(op) =>
      if |st.stack| < 2 then Done(Underflow)
      else PushResult(cfg, Drop(st, 2), ApplyBinary(op, DecodeMode(instr.operand), Top(st, 1), Top(st, 0)))
    case UNARY(op) =>
      if |st.stack| < 1 then Done(Underflow)
      else PushResult(cfg, Drop(st, 1), ApplyUnary(op, DecodeMode(instr.operand), Top(st, 0)))
    case CAST_INT =>
      var bits := instr.operand % 0x1_0000;
      if |st.stack| < 1 then Done(Underflow)
      else if bits == 0 then Done(Undefined)
      else PushValue(cfg, Drop(st, 1), Integer(Top(st, 0).ToInt(), bits, (instr.operand / 0x1_0000) % 2 == 1))
    case STORE_LOCAL => StoreLocal(cfg, st, instr.operand)
    case LOAD_LOCAL => LoadLocal(cfg, st, instr.operand)
    case JMP => Next(st.(ip := instr.operand))
    case JMP_IF_FALSE => DoJump(st, instr.operand, true)
    case JMP_IF_TRUE => DoJump(st, instr.operand, false)
    case CALL => DoCall(cfg, im.functions, st, instr.operand)
    case RET => DoReturn(cfg, st)
    case THROW =>
      Done(Value(Thrown(if instr.operand < |im.code.stringPool| then im.code.stringPool[instr.operand] else "")))
    case HALT => Done(Value(if |st.stack| == 0 then Void else Top(st, 0)))
  }

  /** Behind the last instruction the run ends with what lies on top. */
  function OffTheEnd(st: State): Outcome { Value(if |st.stack| == 0 then Error else Top(st, 0)) }

  /** The run from st when `fuel` more instructions are allowed. */
  function Run(cfg: Config, im: Image, st: State, fuel: nat): Outcome
    decreases fuel
  {
    if st.ip >= |im.code.instructions| then OffTheEnd(st)
    else if fuel == 0 then Limit(Iterations)
    else
      match Step(cfg, im, st)
      case Done(o) => o
      case Next(next) => Run(cfg, im, next, fuel - 1)
  }

  /** The state after n more instructions, or how the machine stopped before. */
  function Steps(cfg: Config, im: Image, st: State, n: nat): StepResult {
    if n == 0 then Next(st)
    else
      match Steps(cfg, im, st, n - 1)
      case Done(o) => Done(o)
      case Next(s) => if s.ip < |im.code.instructions| then Step(cfg, im, s) else Done(OffTheEnd(s))
  }

  lemma {:induction false} StepsAdd(cfg: Config, im: Image, a: State, m: nat, b: State, n: nat)
    requires Steps(cfg, im, a, m) == Next(b)
    ensures Steps(cfg, im, a, m + n) == Steps(cfg, im, b, n)
    decreases n
  {
    hide Step;
    if n > 0 { StepsAdd(cfg, im, a, m, b, n - 1); }
  }

  /** The run from a state is the run from the state some steps later, with as much less fuel. */
  lemma {:induction false} StepsRun(cfg: Config, im: Image, a: State, n: nat, b: State, fuel: nat)
    requires Steps(cfg, im, a, n) == Next(b) && n <= fuel
    ensures Run(cfg, im, a, fuel) == Run(cfg, im, b, fuel - n)
    decreases n
  {
    hide Step;
    if n > 0 { StepsRun(cfg, im, a, n - 1, Steps(cfg, im, a, n - 1).state, fuel); }
  }

  function Min(a: nat, b: nat): nat { if a <= b then a else b }

  function InitialLocals(cfg: Config): seq<ConstValue> {
    Zeros(Min(cfg.initialHeapSize, cfg.maxLocals))
  }

  function InitialState(cfg: Config): State {
    State(0, [], InitialLocals(cfg), 0, [])
  }

  function RunImage(cfg: Config, im: Image): Outcome {
    Run(cfg, im, InitialState(cfg), cfg.maxIterations)
  }

  // ----- limits only cut runs short -----

  /** Every limit of `high` is at least that of `low`, and both start with the same locals. */
  predicate Raises(low: Config, high: Config) {
    low.maxStackSize <= high.maxStackSize && low.maxLocals <= high.maxLocals &&
    low.maxCallDepth <= high.maxCallDepth && low.maxIterations <= high.maxIterations &&
    InitialLocals(low) == InitialLocals(high)
  }

  lemma StepIgnoresLimits(low: Config, high: Config, im: Image, st: State)
    requires Raises(low, high) && st.ip < |im.code.instructions|
    ensures var r := Step(low, im, st); (r.Done? && r.outcome.Limit?) || Step(high, im, st) == r
  {
  }

  lemma {:induction false} RunIgnoresLimits(low: Config, high: Config, im: Image, st: State, fuel: nat, more: nat)
    requires Raises(low, high) && fuel <= more
    requires !Run(low, im, st, fuel).Limit?
    ensures Run(high, im, st, more) == Run(low, im, st, fuel)
    decreases fuel
  {
    if st.ip < |im.code.instructions| && fuel > 0 {
      StepIgnoresLimits(low, high, im, st);
      var r := Step(low, im, st);
      if r.Next? {
        RunIgnoresLimits(low, high, im, r.state, fuel - 1, more - 1);
      }
    }
  }

  /** Any image: a run that hits no limit ends the same way under any larger limits. */
  lemma LimitsOnlyCut(low: Config, high: Config, im: Image)
    requires Raises(low, high) && !RunImage(low, im).Limit?
    ensures RunImage(high, im) == RunImage(low, im)
  {
    RunIgnoresLimits(low, high, im, InitialState(low), low.maxIterations, high.maxIterations);
  }
}
