/** What a call leaves alone, told of the states the machine goes through: for any image at all, well-formed or not. */
module FrameIsolation {
  import opened ConstValues
  import opened Arithmetic
  import opened Bytecode

  /** st has the frames of st0 at the bottom, and nothing below the base of st0 has changed or can be reached: the base
      and the bases that a return can restore lie at or above it. */
  ghost predicate Isolated(st0: State, st: State) {
    st0.frames <= st.frames && st0.base <= st.base && st0.base <= |st.locals| && st0.base <= |st0.locals| &&
    st.locals[..st0.base] == st0.locals[..st0.base] &&
    forall i :: |st0.frames| <= i < |st.frames| ==> st0.base <= st.frames[i].localsBase
  }

  /** The machine takes n steps from st0 and has never fewer frames than at the start. */
  ghost predicate StaysAbove(cfg: Config, im: Image, st0: State, n: nat) {
    forall k: nat :: k <= n ==> Steps(cfg, im, st0, k).Next? && |Steps(cfg, im, st0, k).state.frames| >= |st0.frames|
  }

  /** As long as the frames of a state remain, whatever runs above them changes neither them nor a local below the base
      of that state, and its own base never goes below it. */
  lemma {:induction false} FramesAreKept(cfg: Config, im: Image, st0: State, n: nat)
    requires st0.base <= |st0.locals| && StaysAbove(cfg, im, st0, n)
    ensures Isolated(st0, Steps(cfg, im, st0, n).state)
    decreases n
  {
    hide Isolated, Step;
    assert Steps(cfg, im, st0, n).Next? && |Steps(cfg, im, st0, n).state.frames| >= |st0.frames|;
    if n == 0 { IsolatedItself(st0); }
    else {
      FramesAreKept(cfg, im, st0, n - 1);
      StepIsIsolated(cfg, im, st0, Steps(cfg, im, st0, n - 1).state);
    }
  }

  lemma IsolatedItself(st0: State)
    requires st0.base <= |st0.locals|
    ensures Isolated(st0, st0)
  {
  }

  lemma StepIsIsolated(cfg: Config, im: Image, st0: State, st: State)
    requires Isolated(st0, st) && st.ip < |im.code.instructions|
    requires Step(cfg, im, st).Next? && |Step(cfg, im, st).state.frames| >= |st0.frames|
    ensures Isolated(st0, Step(cfg, im, st).state)
  {
    var op := im.code.instructions[st.ip].op;
    hide Step, Zeros, Resize;
    if op == CALL { CallIsIsolated(cfg, im, st0, st); }
    else if op == RET { ReturnIsIsolated(cfg, im, st0, st); }
    else { OthersKeepFrames(cfg, im, st0, st); }
  }

  lemma CallIsIsolated(cfg: Config, im: Image, st0: State, st: State)
    requires Isolated(st0, st) && st.ip < |im.code.instructions| && im.code.instructions[st.ip].op == CALL
    requires Step(cfg, im, st).Next?
    ensures Isolated(st0, Step(cfg, im, st).state)
  {
    hide Zeros;
  }

  lemma ReturnIsIsolated(cfg: Config, im: Image, st0: State, st: State)
    requires Isolated(st0, st) && st.ip < |im.code.instructions| && im.code.instructions[st.ip].op == RET
    requires Step(cfg, im, st).Next? && |Step(cfg, im, st).state.frames| >= |st0.frames|
    ensures Isolated(st0, Step(cfg, im, st).state)
  {
    hide Resize;
    var f := st.frames[|st.frames| - 1];
    ResizeKeeps(st.locals, f.localsBase + f.numLocals, st0.base);
  }

  lemma ResizeKeeps(s: seq<ConstValue>, n: nat, b: nat)
    requires b <= |s| && b <= n
    ensures Resize(s, n)[..b] == s[..b]
  {
  }

  lemma OthersKeepFrames(cfg: Config, im: Image, st0: State, st: State)
    requires Isolated(st0, st) && st.ip < |im.code.instructions|
    requires im.code.instructions[st.ip].op != CALL && im.code.instructions[st.ip].op != RET
    requires Step(cfg, im, st).Next?
    ensures Isolated(st0, Step(cfg, im, st).state)
  {
    hide Zeros;
  }

  /** The base never leaves the locals. */
  lemma {:induction false} BaseIsWithin(cfg: Config, im: Image, st: State, n: nat)
    requires st.base <= |st.locals| && Steps(cfg, im, st, n).Next?
    ensures Steps(cfg, im, st, n).state.base <= |Steps(cfg, im, st, n).state.locals|
    decreases n
  {
    hide Step;
    if n > 0 {
      BaseIsWithin(cfg, im, st, n - 1);
      StepKeepsBaseWithin(cfg, im, Steps(cfg, im, st, n - 1).state);
    }
  }

  lemma StepKeepsBaseWithin(cfg: Config, im: Image, st: State)
    requires st.base <= |st.locals| && st.ip < |im.code.instructions| && Step(cfg, im, st).Next?
    ensures Step(cfg, im, st).state.base <= |Step(cfg, im, st).state.locals|
  {
    hide ApplyBinary, ApplyUnary;
  }

  // ----- a call and its return -----

  ghost predicate AtCall(im: Image, st: State) {
    st.ip < |im.code.instructions| && im.code.instructions[st.ip].op == CALL
  }

  /** From a call at st the machine is back at as many frames, for the first time, after n steps. */
  ghost predicate ReturnsAfter(cfg: Config, im: Image, st: State, n: nat) {
    AtCall(im, st) && n >= 2 && Steps(cfg, im, st, n).Next? && |Steps(cfg, im, st, n).state.frames| == |st.frames| &&
    forall k: nat :: 0 < k < n ==> Steps(cfg, im, st, k).Next? && |Steps(cfg, im, st, k).state.frames| > |st.frames|
  }

  /** When a call returns, whatever its callee did: the machine stands behind the CALL with the frames and the base from
      before it, the locals end where the locals of the callee, counted from the base of the caller, end, and of these
      the ones the caller had are as they were. */
  lemma CallReturns(cfg: Config, im: Image, st: State, n: nat)
    requires st.base <= |st.locals| && ReturnsAfter(cfg, im, st, n)
    ensures var (after, index) := (Steps(cfg, im, st, n).state, im.code.instructions[st.ip].operand);
      index < |im.functions| && after.ip == st.ip + 1 && after.frames == st.frames && after.base == st.base &&
      after.locals == Resize(Steps(cfg, im, st, n - 1).state.locals, st.base + im.functions[index].numLocals) &&
      forall i :: 0 <= i < |st.locals| && i < |after.locals| ==> after.locals[i] == st.locals[i]
  {
    hide Step, Resize, ReturnsAfter, Isolated;
    var inside, last := FirstAndLast(cfg, im, st, n);
    CallEnters(cfg, im, st);
    FramesAreKept(cfg, im, inside, n - 2);
    ReturnLeaves(cfg, im, st, inside, last);
  }

  /** The first state inside the callee, and the last, whose next instruction is the RET back. */
  lemma FirstAndLast(cfg: Config, im: Image, st: State, n: nat) returns (inside: State, last: State)
    requires st.base <= |st.locals| && ReturnsAfter(cfg, im, st, n)
    ensures AtCall(im, st) && n >= 2 && Step(cfg, im, st) == Next(inside) && |inside.frames| == |st.frames| + 1
    ensures StaysAbove(cfg, im, inside, n - 2) && Steps(cfg, im, inside, n - 2) == Next(last)
    ensures Steps(cfg, im, st, n - 1) == Next(last) && |last.frames| == |st.frames| + 1
    ensures last.ip < |im.code.instructions| && im.code.instructions[last.ip].op == RET
    ensures Step(cfg, im, last) == Steps(cfg, im, st, n) && Steps(cfg, im, st, n).Next?
    ensures |Steps(cfg, im, st, n).state.frames| == |st.frames|
  {
    hide Step;
    assert Steps(cfg, im, st, 0) == Next(st);
    inside, last := Steps(cfg, im, st, 1).state, Steps(cfg, im, st, n - 1).state;
    CallEnters(cfg, im, st);
    InsideStaysAbove(cfg, im, st, n);
    StepsAdd(cfg, im, st, 1, inside, n - 2);
    assert |Steps(cfg, im, inside, n - 2).state.frames| >= |inside.frames|;
    OnlyReturnsDropFrames(cfg, im, last);
  }

  lemma CallEnters(cfg: Config, im: Image, st: State)
    requires AtCall(im, st) && Step(cfg, im, st).Next?
    ensures var (inside, index) := (Step(cfg, im, st).state, im.code.instructions[st.ip].operand);
      index < |im.functions| && inside.base == |st.locals| && inside.base <= |inside.locals| &&
      inside.locals[..|st.locals|] == st.locals &&
      inside.frames == st.frames + [CallFrame(st.ip + 1, st.base, im.functions[index].numLocals)]
  {
    hide Zeros;
  }

  lemma InsideStaysAbove(cfg: Config, im: Image, st: State, n: nat)
    requires ReturnsAfter(cfg, im, st, n) && Steps(cfg, im, st, 1).Next?
    requires |Steps(cfg, im, st, 1).state.frames| == |st.frames| + 1
    ensures StaysAbove(cfg, im, Steps(cfg, im, st, 1).state, n - 2)
  {
    hide Step, Steps;
    var inside := Steps(cfg, im, st, 1).state;
    forall k: nat | k <= n - 2
      ensures Steps(cfg, im, inside, k).Next? && |Steps(cfg, im, inside, k).state.frames| >= |inside.frames|
    {
      StepsAdd(cfg, im, st, 1, inside, k);
    }
  }

  /** The instruction that takes the frame of the call away is a RET. */
  lemma ReturnLeaves(cfg: Config, im: Image, st: State, inside: State, last: State)
    requires st.base <= |st.locals| && inside.base == |st.locals| <= |inside.locals| && Isolated(inside, last)
    requires inside.locals[..|st.locals|] == st.locals && |inside.frames| == |st.frames| + 1
    requires inside.frames[..|st.frames|] == st.frames && inside.frames[|st.frames|].localsBase == st.base
    requires last.ip < |im.code.instructions| && Step(cfg, im, last).Next?
    requires |Step(cfg, im, last).state.frames| == |st.frames|
    ensures var (after, f) := (Step(cfg, im, last).state, inside.frames[|st.frames|]);
      after.ip == f.returnIP && after.frames == st.frames && after.base == st.base &&
      after.locals == Resize(last.locals, st.base + f.numLocals) &&
      forall i :: 0 <= i < |st.locals| && i < |after.locals| ==> after.locals[i] == st.locals[i]
  {
    hide Resize, Zeros, ApplyBinary, ApplyUnary;
    OnlyReturnsDropFrames(cfg, im, last);
    assert last.frames == inside.frames;
    var after := Step(cfg, im, last).state;
    assert last.frames[..|last.frames| - 1] == st.frames;
    forall i | 0 <= i < |st.locals| && i < |after.locals| ensures after.locals[i] == st.locals[i] {
      ResizeAt(last.locals, |after.locals|, i);
      assert last.locals[..inside.base][i] == inside.locals[..inside.base][i];
    }
  }

  lemma OnlyReturnsDropFrames(cfg: Config, im: Image, st: State)
    requires st.ip < |im.code.instructions| && Step(cfg, im, st).Next?
    ensures |Step(cfg, im, st).state.frames| < |st.frames| ==> im.code.instructions[st.ip].op == RET
    ensures |Step(cfg, im, st).state.frames| >= |st.frames| - 1
  {
    hide Resize, Zeros, ApplyBinary, ApplyUnary;
  }

  lemma ResizeAt(s: seq<ConstValue>, n: nat, i: nat)
    requires i < n && i < |s|
    ensures Resize(s, n)[i] == s[i]
  {
  }

  /** The first n slots of the caller are in place. */
  predicate SlotsKept(st: State, after: State, n: nat) {
    st.base + n <= |st.locals| && st.base + n <= |after.locals| &&
    after.locals[st.base..st.base + n] == st.locals[st.base..st.base + n]
  }

  /** After a call returned, the first n slots of the caller are in place exactly when the callee has n locals. */
  lemma SlotsKeptIff(cfg: Config, im: Image, st: State, steps: nat, n: nat)
    requires st.base <= |st.locals| && ReturnsAfter(cfg, im, st, steps) && st.base + n <= |st.locals|
    ensures var (after, index) := (Steps(cfg, im, st, steps).state, im.code.instructions[st.ip].operand);
      index < |im.functions| && (SlotsKept(st, after, n) <==> n <= im.functions[index].numLocals)
  {
    hide Steps, Resize;
    CallReturns(cfg, im, st, steps);
    var after := Steps(cfg, im, st, steps).state;
    if st.base + n <= |after.locals| {
      forall i | st.base <= i < st.base + n ensures after.locals[i] == st.locals[i] { }
    }
  }

  /** A slot the caller had reads, once the call returned, as its value exactly when the callee has that many locals;
      otherwise the read ends the run with the error value. */
  lemma ReadAfterReturn(cfg: Config, im: Image, st: State, steps: nat, slot: nat)
    requires st.base <= |st.locals| && ReturnsAfter(cfg, im, st, steps) && st.base + slot < |st.locals|
    ensures var (after, index) := (Steps(cfg, im, st, steps).state, im.code.instructions[st.ip].operand);
      index < |im.functions| &&
      LoadLocal(cfg, after, slot) ==
        if slot < im.functions[index].numLocals then PushValue(cfg, after, st.locals[st.base + slot])
        else Done(Value(Error))
  {
    hide Steps, Resize;
    CallReturns(cfg, im, st, steps);
  }
}
