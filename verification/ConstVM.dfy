/** The stack machine itself: a loop over instructions that updates an operand stack, a locals array and a list
    of call frames in place. */
module ConstVMs {
  import opened ConstValues
  import opened Arithmetic
  import opened Bytecode

  /** Whether the loop goes on, and where. */
  datatype Signal = Continue(ip: nat) | Finish(outcome: Outcome)

  class ConstVM {
    const config: Config
    var stack: seq<ConstValue>
    var locals: seq<ConstValue>
    var callFrames: seq<CallFrame>
    var currentLocalsBase: nat

    constructor (config: Config)
      ensures this.config == config
    {
      this.config := config;
      stack, locals, callFrames, currentLocalsBase := [], [], [], 0;
    }

    ghost function Snapshot(ip: nat): State
      reads this
    {
      State(ip, stack, locals, currentLocalsBase, callFrames)
    }

    /** The signal and the new fields are those of the transition r. */
    ghost predicate Took(r: StepResult, signal: Signal)
      reads this
    {
      match r
      case Done(o) => signal == Finish(o)
      case Next(st) => signal == Continue(st.ip) && Snapshot(st.ip) == st
    }

    method Push(v: ConstValue) returns (ok: bool)
      modifies this`stack
      ensures ok == (|old(stack)| < config.maxStackSize)
      ensures stack == if ok then old(stack) + [v] else old(stack)
    {
      if |stack| >= config.maxStackSize { return false; }
      stack := stack + [v];
      return true;
    }

    method Pop() returns (ok: bool, v: ConstValue)
      modifies this`stack
      ensures ok == (|old(stack)| > 0)
      ensures ok ==> v == old(stack)[|old(stack)| - 1] && stack == old(stack)[..|old(stack)| - 1]
      ensures !ok ==> stack == old(stack)
    {
      if |stack| == 0 { return false, Error; }
      v := stack[|stack| - 1];
      stack := stack[..|stack| - 1];
      ok := true;
    }

    method PushAndAdvance(v: ConstValue, ip: nat) returns (signal: Signal)
      modifies this`stack
      ensures Took(PushValue(config, old(Snapshot(ip)), v), signal)
    {
      var ok := Push(v);
      signal := if ok then Continue(ip + 1) else Finish(Limit(StackSize));
    }

    method PushOutcome(r: OpResult, ip: nat) returns (signal: Signal)
      modifies this`stack
      ensures Took(PushResult(config, old(Snapshot(ip)), r), signal)
    {
      match r
      case Push(v) => signal := PushAndAdvance(v, ip);
      case Stop(v) => signal := Finish(Value(v));
    }

    method Binary(im: Image, ip: nat) returns (signal: Signal)
      requires ip < |im.code.instructions| && im.code.instructions[ip].op.BINARY?
      modifies this`stack
      ensures Took(Step(config, im, old(Snapshot(ip))), signal)
    {
      hide ApplyBinary;
      var instr := im.code.instructions[ip];
      var ok, r := Pop();
      if !ok { return Finish(Underflow); }
      var ok', l := Pop();
      if !ok' { return Finish(Underflow); }
      assert Snapshot(ip) == Drop(old(Snapshot(ip)), 2);
      signal := PushOutcome(ApplyBinary(instr.op.binaryOp, DecodeMode(instr.operand), l, r), ip);
    }

    method Unary(im: Image, ip: nat) returns (signal: Signal)
      requires ip < |im.code.instructions| && (im.code.instructions[ip].op.UNARY? || im.code.instructions[ip].op.CAST_INT?)
      modifies this`stack
      ensures Took(Step(config, im, old(Snapshot(ip))), signal)
    {
      hide ApplyUnary;
      var instr := im.code.instructions[ip];
      var ok, v := Pop();
      if !ok { return Finish(Underflow); }
      assert Snapshot(ip) == Drop(old(Snapshot(ip)), 1);
      if instr.op.UNARY? {
        signal := PushOutcome(ApplyUnary(instr.op.unaryOp, DecodeMode(instr.operand), v), ip);
      } else {
        var bits, sign := instr.operand % 0x1_0000, (instr.operand / 0x1_0000) % 2 == 1;
        if bits == 0 { return Finish(Undefined); }
        signal := PushAndAdvance(Integer(v.ToInt(), bits, sign), ip);
      }
    }

    method Store(im: Image, ip: nat) returns (signal: Signal)
      requires ip < |im.code.instructions| && im.code.instructions[ip].op.STORE_LOCAL?
      modifies this`stack, this`locals
      ensures Took(Step(config, im, old(Snapshot(ip))), signal)
    {
      var ok, v := Pop();
      if !ok { return Finish(Underflow); }
      var absSlot := currentLocalsBase + im.code.instructions[ip].operand;
      if absSlot >= config.maxLocals { return Finish(Limit(Locals)); }
      if absSlot >= |locals| { locals := locals + Zeros(absSlot + 64 - |locals|); }
      locals := locals[absSlot := v];
      signal := Continue(ip + 1);
    }

    method Load(im: Image, ip: nat) returns (signal: Signal)
      requires ip < |im.code.instructions| && im.code.instructions[ip].op.LOAD_LOCAL?
      modifies this`stack
      ensures Took(Step(config, im, old(Snapshot(ip))), signal)
    {
      var absSlot := currentLocalsBase + im.code.instructions[ip].operand;
      if absSlot >= |locals| { return Finish(Value(Error)); }
      signal := PushAndAdvance(locals[absSlot], ip);
    }

    method Branch(im: Image, ip: nat) returns (signal: Signal)
      requires ip < |im.code.instructions|
      requires im.code.instructions[ip].op.JMP? || im.code.instructions[ip].op.JMP_IF_FALSE? ||
               im.code.instructions[ip].op.JMP_IF_TRUE?
      modifies this`stack
      ensures Took(Step(config, im, old(Snapshot(ip))), signal)
    {
      var instr := im.code.instructions[ip];
      if instr.op.JMP? { return Continue(instr.operand); }
      var ok, cond := Pop();
      if !ok { return Finish(Underflow); }
      signal := Continue(if cond.ToBool() == instr.op.JMP_IF_TRUE? then instr.operand else ip + 1);
    }

    method EnterFunction(im: Image, ip: nat) returns (signal: Signal)
      requires ip < |im.code.instructions| && im.code.instructions[ip].op.CALL?
      modifies this
      ensures Took(Step(config, im, old(Snapshot(ip))), signal)
    {
      var index := im.code.instructions[ip].operand;
      if index >= |im.functions| { return Finish(Value(Error)); }
      var func := im.functions[index];
      if func.entry.InvalidCodeStart? { return Finish(Value(Error)); }
      if |callFrames| >= config.maxCallDepth { return Finish(Limit(CallDepth)); }
      if func.numLocals < func.numParams { return Finish(Undefined); }
      callFrames := callFrames + [CallFrame(ip + 1, currentLocalsBase, func.numLocals)];
      currentLocalsBase := |locals|;
      locals := locals + Zeros(func.numLocals);
      ghost var n, base, before := func.numParams, |old(locals)|, old(stack);
      var i := func.numParams;
      while i > 0
        invariant currentLocalsBase == base && |locals| == base + func.numLocals && locals[..base] == old(locals)
        invariant callFrames == old(callFrames) + [CallFrame(ip + 1, old(currentLocalsBase), func.numLocals)]
        invariant 0 <= i <= n && n - i <= |before| && stack == before[..|before| - (n - i)]
        invariant forall k :: base <= k < base + i || base + n <= k < base + func.numLocals ==> locals[k] == ZERO
        invariant forall k :: base + i <= k < base + n ==> locals[k] == before[|before| - n + (k - base)]
      {
        i := i - 1;
        var ok, v := Pop();
        if !ok { return Finish(Underflow); }
        locals := locals[currentLocalsBase + i := v];
      }
      assert locals == old(locals) + before[|before| - n..] + Zeros(func.numLocals - n);
      signal := Continue(func.entry.at);
    }

    method ReturnToCaller(im: Image, ip: nat) returns (signal: Signal)
      requires ip < |im.code.instructions| && im.code.instructions[ip].op.RET?
      modifies this
      ensures Took(Step(config, im, old(Snapshot(ip))), signal)
    {
      var ok, v := Pop();
      if !ok { return Finish(Underflow); }
      if |callFrames| == 0 { return Finish(Value(v)); }
      var frame := callFrames[|callFrames| - 1];
      callFrames := callFrames[..|callFrames| - 1];
      locals := Resize(locals, frame.localsBase + frame.numLocals);
      currentLocalsBase := frame.localsBase;
      var pushed := Push(v);
      signal := if pushed then Continue(frame.returnIP) else Finish(Limit(StackSize));
    }

    method Dispatch(im: Image, ip: nat) returns (signal: Signal)
      requires ip < |im.code.instructions|
      modifies this
      ensures Took(Step(config, im, old(Snapshot(ip))), signal)
    {
      var instr := im.code.instructions[ip];
      match instr.op
      case PUSH_INT =>
        if instr.operand >= |im.code.intPool| { return Finish(Undefined); }
        signal := PushAndAdvance(PushedInt(im.code.intPool[instr.operand]), ip);
      case PUSH_INT128 =>
        if instr.operand >= |im.code.int128Pool| { return Finish(Undefined); }
        signal := PushAndAdvance(Integer128(im.code.int128Pool[instr.operand], true), ip);
      case PUSH_BOOL => signal := PushAndAdvance(Bool(instr.operand != 0), ip);
      case POP =>
        var ok, _ := Pop();
        signal := if ok then Continue(ip + 1) else Finish(Underflow);
      case BINARY(_) => signal := Binary(im, ip);
      case UNARY(_) => signal := Unary(im, ip);
      case CAST_INT => signal := Unary(im, ip);
      case STORE_LOCAL => signal := Store(im, ip);
      case LOAD_LOCAL => signal := Load(im, ip);
      case JMP => signal := Branch(im, ip);
      case JMP_IF_FALSE => signal := Branch(im, ip);
      case JMP_IF_TRUE => signal := Branch(im, ip);
      case CALL => signal := EnterFunction(im, ip);
      case RET => signal := ReturnToCaller(im, ip);
      case THROW =>
        var name := if instr.operand < |im.code.stringPool| then im.code.stringPool[instr.operand] else "";
        signal := Finish(Value(Thrown(name)));
      case HALT => signal := Finish(Value(if |stack| == 0 then Void else stack[|stack| - 1]));
    }

    method Execute(im: Image) returns (outcome: Outcome)
      modifies this
      ensures outcome == RunImage(config, im)
    {
      hide Step, Zeros;
      stack, callFrames, currentLocalsBase := [], [], 0;
      locals := Zeros(Min(config.initialHeapSize, config.maxLocals));
      var ip := 0;
      var iterations := 0;
      while ip < |im.code.instructions|
        invariant iterations <= config.maxIterations
        invariant RunImage(config, im) == Run(config, im, Snapshot(ip), config.maxIterations - iterations)
        decreases config.maxIterations - iterations
      {
        if iterations + 1 > config.maxIterations { return Limit(Iterations); }
        ghost var before := Snapshot(ip);
        iterations := iterations + 1;
        assert Run(config, im, before, config.maxIterations - iterations + 1) ==
          match Step(config, im, before)
          case Done(o) => o
          case Next(next) => Run(config, im, next, config.maxIterations - iterations);
        var signal := Dispatch(im, ip);
        match signal
        case Finish(o) => return o;
        case Continue(next) => ip := next;
      }
      outcome := Value(if |stack| == 0 then Error else stack[|stack| - 1]);
    }
  }
}
