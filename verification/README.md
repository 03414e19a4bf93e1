# Djinn: compile-time evaluation and its neighbours, verified

This project models the parts of the Djinn compiler whose correctness spans several functions, and proves
properties of the models with Dafny 4.11. `dafny verify dfyconfig.toml` checks everything.

**Compile-time evaluation** (`evaluator/`). `BytecodeCompiler.dfy` compiles trees to a flat stream with constant pools,
slots and back-patched jumps, in place, as the source does; `ConstVM.dfy` is the stack machine with its limits;
`ConstEvaluator.dfy` compiles afresh and runs for each evaluation. The proof goes through three layers:

1. `Bytecode.dfy` is the machine as a transition system, `CodeShape.dfy` says what it means for a stretch of
   instructions to be the code of a tree, and `CodeAssembly.dfy` puts stretches together.
2. `FrameSemantics.dfy` is a big-step semantics of the trees that counts what the machine counts (fuel, operand height,
   call depth, the window of locals) but knows no instructions. `Simulation.dfy` proves the machine equal to it, limits
   included, and that it reaches the states the semantics says; `StackTyping.dfy` types every reachable state;
   `FrameIsolation.dfy` says of any image what a call leaves alone; `ReachableFunctions.dfy` shows that an image runs as
   the part of its program that the driver can reach, whatever the rest is.
3. `Reference.dfy` is an evaluator over named environments without stack, slots or limits. `Agreement.dfy`,
   `LimitIndependence.dfy` and `Adequacy.dfy` relate it to layer 2 in both directions, and `EvaluatorTheorems.dfy`
   states the results, for both kinds of driver: an expression, and a call of a function on constants.
   `EvaluatorLimits.dfy` holds a program for each side condition that shows why it is needed.

`ArithmeticLaws.dfy` compares the bounded operators of `Arithmetic.dfy` with exact integers, for any operands and every
mode; `OperatorLaws.dfy` does so for comparisons, shifts, bits and logic, and `OperatorRuns.dfy` follows both through the
compiler and the machine. `ThrownNames.dfy` separates values from endings; `StackNeeds.dfy` reads off an expression that
calls nothing whether it can overflow the stack.

Side conditions, each forced by the code and asked only of the functions a driver, or the check of a call, can reach:

- Stores push nothing, so they stand only as statements, for-initialisers and for-steps (`Syntax.ValueExpression`,
  `Syntax.WellFormed`); a call has as many arguments as its callee has parameters; parameters are distinct. Trees that
  break these rules compile, and their code pops an empty stack or writes behind its locals (`NestedStoreUnderflows`,
  `TooFewArgumentsUnderflow`, `RepeatedParametersAreUndefined`).
- `RET` cuts the locals to the base of the caller plus the number of locals of the *callee*, so a caller keeps its
  variables only if no callee that compiles has fewer locals than it has (`Agreement.WindowsSurvive`). The exact
  conditions for one call are `SlotsKeptIff` and `ReadAfterReturn`; what is lost reads as an error, or as 0 after a later
  store (`CallerLosesItsVariable`, `CallerReadsZero`), and a program that returns can throw (`CallerThrows`). The
  theorems about the machine alone (simulation, typing, isolation, limits, layout) do not need it.

Behaviour worth knowing, all of it kept by the model: `&&` and `||` evaluate both sides; a declared variable that was
never stored reads as 0; trapped and checked overflow in `+`, `-`, `*` pushes an error *value* and goes on, while
division by zero and trapped negation end the evaluation; constants lose width and sign when they go through the
pools; `likely(x)` and `unlikely(x)` are x.

**Constants and call checks** (`binder/Binder.cpp`). `ConstantResolution.dfy`: the retry loop computes the least fixed
point. The evaluator is marked ready before it is built, so an initialiser that overflows the operand stack leaves the
binder without one for good. `CompileTimeCalls.dfy`: the check of a call reports exactly what its specification says, and
the constants it binds come back exactly under the stated condition; a require clause that overflows leaves the
parameters bound. Both are told of any part of the program that holds what the check can reach: no other function
matters. `CallReports.dfy`: exactly when it reports what, under given limits and in terms of what the program means.
`CallSoundness.dfy`: what a report means, where the part is well-formed and its windows survive. So where it is
well-formed the check can be wrong in three ways, each with a program in `CallLimits.dfy`:

- Pushing an argument changes it: constants lose width and sign on their way to the machine, and the double of a byte no
  longer wraps. `LikeValues.dfy` says which values that leaves alike, and `UnfaithfulArguments.dfy` that, where windows
  survive, reports hold for exactly the arguments that pushing leaves alone.
- A parameter hides a constant from a function that a clause calls.
- A callee has fewer locals than its caller (`Agreement.WindowsSurvive` fails): then a report can be wrong without any
  argument, both that a function always throws and that a clause is violated.

**Expressions and macros** (`parser/Parser.cpp`). `ExpressionParser.dfy` is the precedence chain over a cursor;
`ExpressionGrammar.dfy` the grammar, the printer and the proof that the parser reads exactly the grammar.
`MacroArguments.dfy` splits macro arguments.

**Error types** (`ErrorHierarchy.dfy`), **mangled names** (`Mangler.dfy`), **lines and columns** (`LineIndex.dfy`).
The catch arm `Error` is described in the source as catching everything; that is so exactly when no error type but
the root answers to that name, and the lookup also accepts a qualified name that ends in `::Error`.

## Model

| member | source | states |
|---|---|---|
| EvaluatorTheorems.MachineIffMeaning | evaluator/ConstEvaluator.cpp:828-1358 | for a driver expression and for a call of a function on constants: some configuration of limits lets the compiled driver end with v exactly when the program means v (as its value, or as the error or thrown name that ends it), for every program that keeps the side conditions above |
| EvaluatorTheorems.ImageIffMeaning | evaluator/ConstEvaluator.cpp:1376-1415 | the same of any image that holds the driver, wherever its code lies, with the side conditions asked of the functions alone that the driver can reach |
| EvaluatorTheorems.MachineMeans | evaluator/ConstEvaluator.cpp:1376-1415 | under any limits, a run of either kind of driver that ends with a value ends with what the trees mean |
| EvaluatorTheorems.MeaningIsReached | evaluator/ConstEvaluator.cpp:845-859 | a program that means v ends with v under all limits from some point on; that point is returned |
| EvaluatorTheorems.CallDriverMeans | evaluator/ConstEvaluator.cpp:1394-1415 | a call of a function on constants ends with what its body means on the pushed constants, and with the error value when the body does not compile |
| EvaluatorTheorems.LayoutIsIrrelevant | evaluator/ConstEvaluator.cpp:286-326 | two images of one program with the same driver, an expression or a call, run alike under every limit, wherever function bodies lie, in whatever order constants were pooled, whatever else the streams hold |
| EvaluatorTheorems.NoUnderflow | evaluator/ConstEvaluator.cpp:814-820 | a run of compiled code with either kind of driver ends with a value or at a limit: never on an empty stack, never outside defined behaviour; only what the driver can reach must be well-formed |
| FrameIsolation.FramesAreKept | evaluator/ConstEvaluator.cpp:1275-1337 | for any image at all: as long as the frames of a state remain, every later state has those frames unchanged, every local below the base of that state unchanged, and its base and all bases a return can restore at or above it |
| FrameIsolation.CallReturns | evaluator/ConstEvaluator.cpp:1275-1337 | for any image at all: at the RET that matches a CALL the machine stands behind the CALL with the frames and base from before it; the locals end where the locals of the callee, counted from the base of the caller, end; and those of the caller that are left are as they were |
| FrameIsolation.SlotsKeptIff | evaluator/ConstEvaluator.cpp:1314-1337 | after that RET the first n slots of the caller are in place if and only if the callee has at least n locals |
| FrameIsolation.ReadAfterReturn | evaluator/ConstEvaluator.cpp:1227-1246 | a slot the caller had reads after that RET as its value if and only if the callee has that many locals; otherwise the read ends the run with the error value |
| StackTyping.EveryCallReturns | evaluator/ConstEvaluator.cpp:1275-1337 | every call of every run of either kind of driver, of reached functions that are well-formed: when it returns, frames and base are those from before, the operands below the arguments are kept and one value is added, and the first k slots of the caller are kept if and only if the callee has k locals |
| StackTyping.CallLeavesOneMore | evaluator/ConstEvaluator.cpp:1299-1337 | when a call of well-formed code returns, the operands below its arguments are as they were and there is one value more |
| EvaluatorTheorems.VariableKeptIff | evaluator/ConstEvaluator.cpp:1227-1246 | the first read of a variable by its name after a call gives its value if and only if its slot is below the number of locals of the callee; otherwise it is an error |
| EvaluatorTheorems.StoreRefillsWithZeros | evaluator/ConstEvaluator.cpp:1227-1246 | after such a call, a store behind the cut fills it with zeros, and the variable then reads as 0 without an error |
| EvaluatorLimits.CallerLosesItsVariable | evaluator/ConstEvaluator.cpp:1329-1333 | a program for which the machine gives an error though the program means 1: the callee has fewer locals than its caller |
| EvaluatorLimits.CallerReadsZero | evaluator/ConstEvaluator.cpp:1227-1246 | a program for which it silently gives 0 though the program means 1 |
| EvaluatorLimits.CallerThrows | evaluator/ConstEvaluator.cpp:1227-1246 | a program that returns 0 and for which the machine ends with a thrown name, for the same reason |
| EvaluatorLimits.TooFewArgumentsUnderflow | evaluator/ConstEvaluator.cpp:1303-1307 | a call with too few arguments compiles, and pops an empty stack |
| EvaluatorLimits.RepeatedParametersAreUndefined | evaluator/ConstEvaluator.cpp:1299-1307 | a function with a repeated parameter compiles, and its call stores behind the locals it made room for |
| EvaluatorLimits.NestedStoreUnderflows | evaluator/ConstEvaluator.cpp:628-650 | a store inside a value compiles, and its code pops an empty stack |
| Bytecode.LimitsOnlyCut | evaluator/ConstEvaluator.cpp:804-812 | for any image at all: a run that hits no limit ends the same way under any larger iteration, stack, locals and call-depth limits |
| Bytecode.RunIgnoresLimits | evaluator/ConstEvaluator.cpp:849-855 | the same from any state and with any more fuel |
| StackTyping.EveryStateIsTyped | evaluator/ConstEvaluator.cpp:828-1358 | after any number of steps of either kind of driver the machine stands in the stretch of the driver or of a function that compiled, at the operand height above its frame that the tree fixes for that instruction; it has not run off the code nor popped an empty stack |
| StackTyping.EveryReachedStateIsTyped | evaluator/ConstEvaluator.cpp:828-1358 | the same when only the functions the driver can reach are well-formed; the machine stands in none of the others |
| StackTyping.StepKeepsTyping | evaluator/ConstEvaluator.cpp:1249-1337 | one step keeps that typing of the frames, whatever the instruction |
| StackTyping.ValueTyped | evaluator/ConstEvaluator.cpp:332-369 | code of a value expression is typed: one operand more at its end, every jump inside |
| StackTyping.StatementTyped | evaluator/ConstEvaluator.cpp:656-798 | code of a statement is typed: no operand more at its end, every jump lands in it or right behind it |
| StackTyping.LoopTyped | evaluator/ConstEvaluator.cpp:743-783 | the exit and the back jump of a loop land on instructions of the same body at height 0 |
| StackTyping.OwnedIsTyped | evaluator/ConstEvaluator.cpp:229-284 | the whole stretch of a driver or function body is typed and closed under its jumps |
| ReachableFunctions.UnreachedIsIrrelevant | evaluator/ConstEvaluator.cpp:1364-1415 | images of two programs that agree on what a driver, of either kind, can reach through calls run it alike under every limit; other functions may be missing, differ, fail to compile or be ill-formed |
| ReachableFunctions.ReachIsEnough | evaluator/ConstEvaluator.cpp:1376-1415 | an image runs as the frame semantics says of the reachable part of its program alone, which alone must be well-formed |
| ThrownNames.EvalIsClean | evaluator/ConstEvaluator.cpp:1344-1352 | an expression never yields a thrown name as a value, and what ends an evaluation is the error value or a thrown name |
| Simulation.ExpressionRuns | evaluator/ConstEvaluator.cpp:332-369 | running the code of an expression reaches the state behind it with exactly the value, window and fuel left that the frame semantics gives for the tree, with base, frames and the operands below as they were; or it ends as the frame semantics says |
| Simulation.StatementRuns | evaluator/ConstEvaluator.cpp:656-798 | the same for statements, including return from inside loops |
| Simulation.LoopRuns | evaluator/ConstEvaluator.cpp:743-783 | the same for while and for loops |
| Simulation.CallRuns | evaluator/ConstEvaluator.cpp:1275-1337 | from CALL the machine reaches the state behind it, after the matching RET, with the base and the frames from before, the operands below the arguments, the value, the window and the fuel left that the frame semantics of the call gives; or it ends as that says |
| Simulation.DriverRuns | evaluator/ConstEvaluator.cpp:159-173 | a linked image with a driver runs to the outcome the frame semantics gives the driver expression |
| Simulation.CallDriverRuns | evaluator/ConstEvaluator.cpp:296-326 | the same for a call driver, whatever the name of the function |
| LimitIndependence.EvaluateUncut | evaluator/ConstEvaluator.cpp:804-812 | in the frame semantics, a result that is no limit is the same under larger limits, with the extra fuel left over |
| Adequacy.EvalReached | evaluator/ConstEvaluator.cpp:849-855 | for whatever the reference evaluator answers there is room (stack, locals, depth, fuel) under which the frame semantics is not cut |
| Agreement.EvalAgrees | evaluator/ConstEvaluator.cpp:467-502 | as long as no callee that compiles has fewer locals than its caller, the frame semantics of an expression agrees with the reference evaluator over named environments |
| Agreement.CallAgrees | evaluator/ConstEvaluator.cpp:1275-1337 | the same for calls, whose window mirrors the environment that binds the parameters |
| Agreement.LoopAgrees | evaluator/ConstEvaluator.cpp:743-783 | the same for loops |
| Reference.MeaningIsUnique | evaluator/ConstEvaluator.cpp:828-1358 | a tree has at most one meaning, whatever bound on time it is found with |
| Reference.EvalStands | evaluator/ConstEvaluator.cpp:828-1358 | an answer, once given, stands for every larger bound on time |
| BytecodeCompilers.BytecodeCompiler.CompileExpression | evaluator/ConstEvaluator.cpp:332-369 | appends the code of the tree for the scope in force, grows the scope as the text declares, and succeeds exactly when every name resolves |
| BytecodeCompilers.BytecodeCompiler.CompileBinaryExpression | evaluator/ConstEvaluator.cpp:504-558 | the code of a binary expression: both operands in order, then the operator with its mode |
| BytecodeCompilers.BytecodeCompiler.CompileFunctionCall | evaluator/ConstEvaluator.cpp:599-626 | likely and unlikely compile to their argument; a call pushes the arguments and names the table index of the callee |
| BytecodeCompilers.BytecodeCompiler.CompileStore | evaluator/ConstEvaluator.cpp:628-650 | a declaration takes the next slot after its initial value, an assignment needs a slot that exists |
| BytecodeCompilers.BytecodeCompiler.CompileStatement | evaluator/ConstEvaluator.cpp:656-677 | the code of a statement, jumps patched |
| BytecodeCompilers.BytecodeCompiler.CompileIf | evaluator/ConstEvaluator.cpp:717-741 | both jumps of an if are patched to the branch they skip to |
| BytecodeCompilers.BytecodeCompiler.CompileLoop | evaluator/ConstEvaluator.cpp:743-783 | the exit jump is patched behind the loop and the back jump leads to its condition |
| BytecodeCompilers.BytecodeCompiler.CompileBlock | evaluator/ConstEvaluator.cpp:679-686 | statements in order |
| BytecodeCompilers.BytecodeCompiler.PatchJump | evaluator/ConstEvaluator.cpp:150-153 | only the operand of the patched instruction changes, to the current end |
| BytecodeCompilers.BytecodeCompiler.GetOrCreateLocal | evaluator/ConstEvaluator.cpp:134-141 | a new name gets the next slot, a known one keeps its own |
| BytecodeCompilers.BytecodeCompiler.CompileFunction | evaluator/ConstEvaluator.cpp:229-284 | a function that compiles gets a valid entry whose stretch is its code, any other an invalid one; other entries and earlier code stay |
| BytecodeCompilers.BytecodeCompiler.CompileAllFunctions | evaluator/ConstEvaluator.cpp:286-294 | afterwards the table is linked: every function that compiles is held, every other is rejected, in whatever order they were taken |
| BytecodeCompilers.BytecodeCompiler.CompileDriver | evaluator/ConstEvaluator.cpp:159-173 | succeeds exactly when the expression resolves, and then holds the driver |
| BytecodeCompilers.BytecodeCompiler.CompileCallDriver | evaluator/ConstEvaluator.cpp:296-326 | succeeds exactly for a registered function and constant arguments, and then holds the call driver |
| ConstVMs.ConstVM.Execute | evaluator/ConstEvaluator.cpp:828-1358 | the loop that changes stack, locals and frames in place ends with the outcome of the transition system |
| ConstVMs.ConstVM.Dispatch | evaluator/ConstEvaluator.cpp:857-1352 | each instruction changes the machine as its transition says, or ends the run as it says |
| ConstVMs.ConstVM.EnterFunction | evaluator/ConstEvaluator.cpp:1275-1312 | CALL moves the arguments into a fresh window and pushes the frame |
| ConstVMs.ConstVM.ReturnToCaller | evaluator/ConstEvaluator.cpp:1314-1337 | RET restores base and frames, cuts the locals to the base of the caller plus the locals of the callee, and pushes the value |
| ConstVMs.ConstVM.Push | evaluator/ConstEvaluator.cpp:804-812 | pushes unless the stack is full |
| ConstVMs.ConstVM.Pop | evaluator/ConstEvaluator.cpp:814-820 | pops unless the stack is empty |
| ConstEvaluators.ConstEvaluator.Evaluate | evaluator/ConstEvaluator.cpp:1376-1392 | for a well-formed expression, the outcome the frame semantics gives the tree, independent of map order and layout; and the outcome it gives it in any part of the program that holds all it can reach, when that part is well-formed |
| ConstEvaluators.ConstEvaluator.EvaluateFunction | evaluator/ConstEvaluator.cpp:1394-1415 | the same for a call with as many arguments as parameters; an unknown function or an argument that is no constant is an error |
| ConstEvaluators.ConstEvaluator.SyncToCompiler | evaluator/ConstEvaluator.cpp:1364-1374 | the compiler ends up with the constants and functions of the evaluator |
| ArithmeticLaws.AddOverflowExact | evaluator/ConstEvaluator.cpp:39-47 | the addition and subtraction tests tell exactly whether the exact result leaves 64 bits |
| ArithmeticLaws.MulOverflowExact | evaluator/ConstEvaluator.cpp:49-55 | the wrapped-product test tells the truth for all operands except that it also rejects the minimum times 1 |
| ArithmeticLaws.ResultTypeIs | evaluator/ConstEvaluator.cpp:880-976 | for any operands and modes + - * / % push the error value, or an integer at least as wide as both operands and as wide as one of them, signed if and only if both are |
| ArithmeticLaws.TrappingIsExact | evaluator/ConstEvaluator.cpp:59-90 | + - * trapped or checked, any operands: the exact result, or the error value if and only if the wider width cannot represent it with the sign of the result (or it is the minimum times 1) |
| ArithmeticLaws.SaturatingClampsIff | evaluator/ConstEvaluator.cpp:880-927 | + - * saturating, any operands in range, unsigned ones too: the exact result clamped, except that a sum or difference below the range whose operands do not suggest it becomes the greatest number |
| ArithmeticLaws.SaturatingClamps | evaluator/ConstEvaluator.cpp:880-927 | for signed operands in range that exception never happens |
| ArithmeticLaws.WrappingIsModular | evaluator/ConstEvaluator.cpp:59-90 | + - * without a mode or wrapped, any operands: congruent to the exact result modulo 2^width (2^64 from there on) and in the range of the wider width, unsigned from 0 up if either operand is, even where the 64-bit operation wrapped |
| ArithmeticLaws.DivisionIs | evaluator/ConstEvaluator.cpp:928-976 | quotient and remainder of any operands in every mode: cut off toward zero, then kept, wrapped, refused or saturated; a zero divisor ends the evaluation, and so does the one quotient 64 bits do not hold when trapped or checked |
| ArithmeticLaws.TruncatesOnce | evaluator/ConstEvaluator.cpp:954-973 | two numbers have one quotient cut off toward zero, and one remainder |
| ArithmeticLaws.DivisionClamps | evaluator/ConstEvaluator.cpp:928-961 | signed operands in range, every mode: the only quotient that overflows is the minimum by -1, which wraps to the minimum, saturates to the maximum, and when trapped stops the evaluation at 64 bits and is the error value below |
| ArithmeticLaws.RemainderIsExact | evaluator/ConstEvaluator.cpp:962-976 | signed operands in range: the remainder completes the truncated quotient, has the sign of the dividend and fits in every mode |
| ArithmeticLaws.UnsignedDivides | evaluator/ConstEvaluator.cpp:928-976 | operands in range that are not negative, at least one unsigned, every mode: quotient and remainder of division with remainder, unsigned and of the wider width |
| ArithmeticLaws.WideUnsignedDividesIff | evaluator/ConstEvaluator.cpp:954-958 | unsigned 64-bit operands are divided as signed ones: the quotient read as unsigned is right if and only if both are below 2^63, or the dividend alone and it is below what the divisor lacks to 2^64, or the divisor is 1, or they are equal |
| ArithmeticLaws.NegationIs | evaluator/ConstEvaluator.cpp:977-995 | negation of any operand in every mode: exact where the width and sign can represent the result, except that the unsigned zero below 64 bits is refused; otherwise congruent modulo the width, the greatest number, or the end of the evaluation |
| ArithmeticLaws.NegationClamps | evaluator/ConstEvaluator.cpp:977-995 | a signed operand in range: saturating negation clamps; a trapped one ends the evaluation exactly when the result does not fit |
| OperatorLaws.ComparesExactly | evaluator/ConstEvaluator.cpp:1036-1077 | each of the six comparisons, any operands and modes, pushes a truth value that tells the sign of the exact difference |
| OperatorLaws.ComparisonsAgree | evaluator/ConstEvaluator.cpp:1036-1077 | exactly one of less, equal and greater holds; the other three are what these leave; swapping the operands swaps less and greater |
| OperatorLaws.ComparisonsOrder | evaluator/ConstEvaluator.cpp:1057-1063 | less-or-equal is transitive, and both ways it is equality |
| OperatorLaws.LogicIs | evaluator/ConstEvaluator.cpp:1164-1183 | the truth tables of && || ! on any operands; an integer is true if it is not zero in any of its bits |
| OperatorLaws.ShiftsLeft | evaluator/ConstEvaluator.cpp:1123-1129 | a shift by less than 64 multiplies by a power of two modulo 2^64; the result is called signed with 32 bits |
| OperatorLaws.ShiftsRight | evaluator/ConstEvaluator.cpp:1130-1136 | a shift by less than 64 divides by a power of two, rounding down |
| OperatorLaws.BitsAre | evaluator/ConstEvaluator.cpp:1137-1163 | each of the 64 bits of & | ^ ~ is that function of the bits of the operands there |
| OperatorLaws.KnownByBits | evaluator/ConstEvaluator.cpp:1137-1163 | a 64-bit number is known by its bits, so that says which number it is |
| OperatorRuns.LiteralsCompare | evaluator/ConstEvaluator.cpp:1036-1077 | a driver that compares two integer literals ends with the truth about them, under all limits that suffice, in every mode and in every image that holds it |
| OperatorRuns.LiteralsConnect | evaluator/ConstEvaluator.cpp:1164-1183 | a driver of && || ! on literals ends with the truth table |
| OperatorRuns.LiteralsCalculate | evaluator/ConstEvaluator.cpp:880-927 | a driver of + - * on integer literals without a mode ends with the exact result modulo 32 bits, or 64 if a literal does not fit 32 |
| OperatorRuns.OperationRuns | evaluator/ConstEvaluator.cpp:504-558 | a driver of any binary operator on two constants applies it to the pushed left and the pushed right constant, in this order |
| OperatorRuns.PushedAs | evaluator/ConstEvaluator.cpp:861-877 | an integer is pushed signed, with 32 bits if and only if it fits them, otherwise with 64; truth values and the bits of 128-bit integers stay |
| OperatorRuns.NamesRun | evaluator/ConstEvaluator.cpp:467-502 | a named constant gives its pushed value, under a plain or a dotted name, and an unknown name the error value |
| OperatorRuns.CastRuns | evaluator/ConstEvaluator.cpp:1211-1222 | a cast keeps the number and takes the width and sign it names |
| ConstantResolution.BuildEvaluator | binder/Binder.cpp:383-419 | ends with the least fixed point of the initialisers and all functions registered, whatever the order of declaration; the operand-stack exception escapes if and only if some initialiser overflows the stack in the least fixed point |
| ConstantResolution.EvaluatorCache.Get | binder/Binder.cpp:379-420 | builds the evaluator on the first call and keeps it; it is marked ready before it is built, so when building raises, which is when some initialiser overflows in the least fixed point, every later call returns normally and there is no evaluator |
| CallLimits.AnInitialiserOverflows | evaluator/ConstEvaluator.cpp:804-812 | an initialiser for which that happens, under any limits with more iterations than stack |
| ConstantResolution.ErasePass | binder/Binder.cpp:394-403 | one pass defines each pending constant that evaluates, keeps the others in order, and reports progress truthfully |
| ConstantResolution.LeastIsUnique | binder/Binder.cpp:386-404 | there is one least fixed point, so every permutation of the declarations gives the same constants |
| ConstantResolution.DefinedIffDerivable | binder/Binder.cpp:386-404 | a constant is resolved to v if and only if a finite derivation, each step using only earlier constants, gives it v; all others stay pending |
| ConstantResolution.AttemptGrows | evaluator/ConstEvaluator.cpp:467-502 | evaluation is monotone in the known constants: an outcome other than the error value stays when more become known |
| CompileTimeCalls.CallChecker.Check | binder/Binder.cpp:422-549 | reports exactly the judgement: first a zero for a non-zero parameter, then a certain throw, then the first violated clause; nothing inside `try`, in the bound library or when enforcement is off or at run time; and leaves exactly the constants of the specification, which are those of before unless the clauses were reached; for every part of the program that holds what the arguments, the callee and the clauses can reach and is well-formed, whatever the rest is |
| CompileTimeCalls.LeavesNoTraceIff | binder/Binder.cpp:502-547 | as far as what the check can reach is well-formed, the constants are afterwards as they were if and only if the clauses are not reached, or a clause overflows first and every parameter was bound to its argument already, or none does and every repeated parameter was bound to its argument at the last place but one |
| CompileTimeCalls.VerdictIs | binder/Binder.cpp:522-545 | the clauses raise if and only if some clause overflows and none before it fails or overflows; clause k is reported if and only if it fails and none before it fails or overflows |
| CallLimits.ARequireLeavesItsTrace | binder/Binder.cpp:506-520 | a require clause that raises: the parameter stays bound in the evaluator |
| StackNeeds.HeightsDecide | evaluator/ConstEvaluator.cpp:804-812 | an expression that calls nothing overflows the operand stack only if its largest height passes the limit, and yields a value only if it does not |
| StackNeeds.ShallowNeverRaises | evaluator/ConstEvaluator.cpp:804-812 | if its heights stay within the stack, its evaluation never raises, whatever the other limits and the constants are |
| StackNeeds.ShallowInitialisers | binder/Binder.cpp:394-403 | initialisers whose heights stay within the stack never raise, whatever constants are known |
| StackNeeds.ShallowClauses | binder/Binder.cpp:522-545 | nor do clauses that call nothing and whose heights stay within the stack |
| CallLimits.DeepRaisesIff | evaluator/ConstEvaluator.cpp:804-812 | a sum nested to the right raises if and only if it is nested as deep as the stack |
| CompileTimeCalls.CallChecker.CheckContracts | binder/Binder.cpp:502-547 | binds the parameters, judges the clauses in order, restores the constants; a raised exception leaves the parameters bound |
| CompileTimeCalls.CallChecker.BindParameters | binder/Binder.cpp:506-512 | binds the names in order and saves what each was bound to before |
| CompileTimeCalls.CallChecker.RestoreConstants | binder/Binder.cpp:513-520 | undoes the saved bindings in order |
| CompileTimeCalls.RestoredIff | binder/Binder.cpp:506-520 | restoring undoes the bindings if and only if every repeated parameter name was bound, before the call, to the argument at its last place but one |
| CallReports.ZeroReportIff | binder/Binder.cpp:470-485 | a zero is reported for the k-th parameter if and only if the callee has a body and takes as many arguments, these are known, and that parameter is the first that must not be zero and gets a zero of any integer type, of 128 bits in both halves |
| CallReports.ThrowReportIff | binder/Binder.cpp:487-500 | a throw is reported if and only if no zero is, the callee may be run, and its run on the arguments ends with that thrown name, whatever contracts it has; an empty name is reported as 'error' |
| CallReports.ViolationReportIff | binder/Binder.cpp:502-545 | clause k is reported if and only if no zero is, the callee is not run or its run neither raises nor throws, and with the parameters bound k fails and no clause before it fails or overflows |
| CallReports.RaisesIff | binder/Binder.cpp:459-545 | the operand-stack exception escapes if and only if an argument raises where there is anything to check, or no zero is passed and the run of the callee raises or, if that does not throw either, a clause overflows before any fails |
| CallReports.ArgumentsRaiseIff | binder/Binder.cpp:462-468 | an argument raises if and only if it raises and all before it are constants |
| CallReports.BlockClauses | binder/Binder.cpp:527-533 | a clause written as a block is judged as the expression it returns if it is that one return statement, and as no clause otherwise |
| CallReports.ZeroReportedIff | binder/Binder.cpp:470-485 | in terms of meanings: under some limits a zero is reported for k if and only if the arguments mean values of which k is the first zero that is not allowed |
| CallReports.ZeroIsReported | binder/Binder.cpp:470-485 | and then it is reported under all limits from some point on, which is returned |
| CallReports.ThrowReportedIff | binder/Binder.cpp:487-500 | in terms of meanings: under some limits a throw is reported if and only if the arguments mean values without such a zero on which, as they are pushed, the callee throws |
| CallReports.ThrowIsReported | binder/Binder.cpp:487-500 | and then it is reported under all limits from some point on |
| CallReports.ViolationIsReported | binder/Binder.cpp:502-545 | a clause that means false with constants bound to the arguments is reported under all limits from some point on, if no zero is passed, the callee ends without a throw and the clauses before mean something else |
| CallLimits.AZeroIsReported | binder/Binder.cpp:470-485 | f(n) with one parameter that must not be zero: 0 is reported, and no other literal is |
| CallSoundness.AlwaysThrowsIsSound | binder/Binder.cpp:487-500 | where what the check can reach is well-formed and its windows survive: 'always throws' is reported only of a function that throws that name on the pushed arguments; if pushing changes no argument, it throws it on the arguments themselves, and the call expression means that throw |
| CallSoundness.ViolationIsSound | binder/Binder.cpp:502-545 | where what the check can reach is well-formed and its windows survive with the parameters bound: a violation is reported only of a require clause that means false with constants bound to the arguments; if pushing changes no argument and no function the clause reaches looks up a constant under the name of a parameter, it means false with the parameters bound to the arguments themselves |
| UnfaithfulArguments.ThrowReportsHoldIff | evaluator/ConstEvaluator.cpp:305-317 | under all limits and for every program in which what the function reaches is well-formed and its windows survive, reports of a certain throw hold for these arguments if and only if pushing changes none of them: 32 signed bits for what fits them, at least 64 bits for what does not |
| UnfaithfulArguments.ViolationReportsHoldIff | binder/Binder.cpp:506-512 | the same for reports of violated clauses: what the check reaches is well-formed, its windows survive with the parameters bound, and the functions of the clause look up no constant under the name of a parameter |
| CallLimits.AShortCalleeIsReportedWrongly | evaluator/ConstEvaluator.cpp:1329-1333 | where windows do not survive, no argument is needed: f() that sets x, calls g() without locals, sets y and throws unless x is reported to throw always though it returns 0 |
| CallLimits.AShortCalleeClauseIsReportedWrongly | binder/Binder.cpp:522-545 | require(f() == 1) of such a function f is reported to be violated though it means true, with nothing bound and nothing captured |
| LikeValues.InvokeAlike | evaluator/ConstEvaluator.cpp:1275-1337 | calls on values that no operator tells apart give answers that no operator tells apart, in any two programs that share what the call reaches |
| LikeValues.OperatesAlike | evaluator/ConstEvaluator.cpp:880-1185 | no operator tells apart integers of the same value whose widths are 64 bits or more, nor 128-bit integers of the same value |
| CallLimits.AByteIsReportedWrongly | evaluator/ConstEvaluator.cpp:305-311 | f(x) that throws if x + x > 255, called on (u8)200 under the default limits, is reported to throw always though the call means 0 |
| CallLimits.AByteClauseIsReportedWrongly | binder/Binder.cpp:522-545 | require(x + x < 256) is reported to be violated by the same byte though it holds |
| CallLimits.AConstantIsCaptured | binder/Binder.cpp:506-512 | a clause that calls a function reading a constant x is judged with x replaced by the argument of the parameter x |
| CallSoundness.ViolationIsOfAClause | binder/Binder.cpp:459-545 | a clause reported by the check is one judged on the values of the arguments |
| CallSoundness.ArgumentsMean | binder/Binder.cpp:459-468 | the argument values of every report are what the argument expressions mean, where what they reach is well-formed and its windows survive |
| CallSoundness.ThrowMeans | evaluator/ConstEvaluator.cpp:1344-1352 | an image whose run of a call ends with a thrown name calls a function that throws that name on the pushed arguments, where what the function reaches is well-formed and its windows survive |
| ExpressionParsers.Parser.ParseExpression | parser/Parser.cpp:1926-1937 | what the cursor moves over and what tree comes back are those of the specification of its level |
| ExpressionParsers.Parser.ParseTernary | parser/Parser.cpp:1939-1952 | the same for the conditional, both of whose branches are conditionals |
| ExpressionParsers.Parser.ParseBinary | parser/Parser.cpp:1954-2116 | the same for the ten loops from parse_or to parse_factor, each with its own operators |
| ExpressionParsers.Parser.ParseUnary | parser/Parser.cpp:2118-2201 | the same for prefix operators and await, with the attempt at a cast taken back |
| ExpressionParsers.Parser.ParsePostfix | parser/Parser.cpp:2203-2326 | the same for ++ and -- |
| ExpressionParsers.Parser.ParsePrimary | parser/Parser.cpp:2328-2397 | the same for literals and parentheses |
| ExpressionGrammar.RoundTrip | parser/Parser.cpp:1926-2201 | parsing the minimal-parenthesis printing of any tree gives the tree back and leaves the rest of the input untouched |
| ExpressionGrammar.ParsesIffWritten | parser/Parser.cpp:1926-2201 | the parser reads e and leaves rest if and only if the input is a grammatical writing of e, with any parentheses, followed by a rest that does not continue it; binary operators group to the left |
| ExpressionGrammar.Unambiguous | parser/Parser.cpp:1926-2116 | two grammatical writings with the same tokens mean the same tree |
| ExpressionGrammar.PrintsMinimally | parser/Parser.cpp:2742-2747 | no writing of a tree is shorter than its printing |
| ExpressionGrammar.ParsePrintParse | parser/Parser.cpp:1926-2201 | printing what was parsed parses to the same result and is no longer |
| ExpressionGrammar.OperatorsArePrecedence | parser/Parser.cpp:1954-2116 | the chain takes each operator at the level its precedence says, and at no other |
| ExpressionGrammar.NothingStartsThere | parser/Parser.cpp:2742-2752 | where no expression starts, every level of the chain fails with an expected expression |
| ExpressionGrammar.UnclosedFails | parser/Parser.cpp:2742-2747 | a group that is not closed fails with an unexpected token at every level |
| ExpressionGrammar.ColonMissing | parser/Parser.cpp:1939-1952 | so does a conditional without its colon |
| ExpressionGrammar.LiteralRoundTrip | parser/Parser.cpp:2343-2380 | an integer literal is read from some text if and only if it is readable, and then from its canonical spelling: a mode needs digits and a signed literal, and no hexadecimal one is checked |
| MacroArguments.MacroArguments | parser/Parser.cpp:3718-3725 | joined by commas the arguments are exactly the tokens up to the matching parenthesis; it fails if and only if there is no such parenthesis |
| MacroArguments.CollectMacroArgTokens | parser/Parser.cpp:3682-3707 | takes a stretch with no comma outside brackets, up to the comma, parenthesis or end that stops it |
| MacroArguments.BracketsStayTogether | parser/Parser.cpp:3682-3707 | commas inside parentheses, brackets and braces divide nothing: f((1, 1), [1, 1], {1, 1}) has three arguments |
| MacroArguments.SplitIsUnique | parser/Parser.cpp:3682-3725 | the tokens between the parentheses determine the arguments |
| ErrorHierarchy.Binder.constructor | binder/Binder.cpp:10-26 | seeds the builtin errors with tags 1 to 8 under the root |
| ErrorHierarchy.Binder.CollectStruct | binder/declarations/StructCollector.cpp:156-169 | a declaration keeps the table sound and takes one tag for each listed name that looks up an error type; the last of these is the base: the new type stands right below it, has the tag given last and is caught by every arm that resolves to the base; without such a name it is no error type; a failed declaration changes only the tag counter |
| ErrorHierarchy.NewStructStandsBelow | binder/declarations/StructCollector.cpp:156-169 | the ancestors of the declared type are itself and the ancestors of that base |
| ErrorHierarchy.AnArmCatchesANewError | generator/GeneratorExpression.cpp:311-372 | struct Neg : Overflow has tag 100 and derives from Overflow; the arm Overflow catches it and the arm Generic does not |
| ErrorHierarchy.LookupIff | binder/SymbolTable.h:153-174 | a name looks up the struct of that very name, or else the first defined under it in a namespace |
| ErrorHierarchy.BuiltinTable | binder/ErrorTypes.h:28-41 | the eight builtin error types with their bases and tags |
| ErrorHierarchy.Binder.Define | binder/SymbolTable.h:36-44 | enters a symbol unless its name is taken; one that is no struct keeps the table sound |
| ErrorHierarchy.Binder.DefineAlias | binder/SymbolTable.h:46-53 | an alias keeps the hierarchy sound |
| ErrorHierarchy.NewStructIsSound | binder/declarations/StructCollector.cpp:156-169 | after any declaration tags are unique and strictly decrease from an error type to its base |
| ErrorHierarchy.TagsDecrease | binder/declarations/StructCollector.cpp:161-163 | n steps up the hierarchy the tag is at least n smaller, so every walk ends |
| ErrorHierarchy.NoCycle | binder/Binder.cpp:345-352 | no two error types are above each other |
| ErrorHierarchy.RootIsAbove | binder/ErrorTypes.h:28-41 | every error type derives from Exception |
| ErrorHierarchy.Binder.IsErrorDerivedFrom | binder/Binder.cpp:340-354 | the walk of the binder answers whether the base is an ancestor of the type or the type itself |
| ErrorHierarchy.Binder.ErrorDerivedFrom | generator/GeneratorExpression.cpp:18-29 | the walk of the generator answers whether the base is a proper ancestor |
| ErrorHierarchy.OneStep | generator/GeneratorExpression.cpp:18-29 | the walk of the binder is the reflexive closure of that of the generator |
| ErrorHierarchy.Binder.ErrorArmMatchedTags | generator/GeneratorExpression.cpp:31-47 | an arm compares with the tags of exactly its type and those that derive from it |
| ErrorHierarchy.Binder.RunCascade | generator/GeneratorExpression.cpp:311-372 | the cascade on the tag of an error type picks the first arm in source order that catches it |
| ErrorHierarchy.ErrorArmCatchesAllIff | generator/GeneratorExpression.cpp:320-352 | an arm catches every error type if and only if no error type but the root answers to its name; the arm `Error` is no exception |
| ErrorHierarchy.ErrorArmMisses | binder/SymbolTable.h:153-174 | with io::Error declared, an arm `Error` does not catch an Overflow |
| Mangling.DecodeUndoesMangle | generator/Mangler.h:15-79 | the decoder recovers kind, names and canonical types from the mangled name of every function, method, generic struct, generic enum and generic method |
| Mangling.SameNameIff | generator/Mangler.h:15-119 | two entities share a mangled name if and only if they are the same up to odd widths, missing elements and the arguments of struct arguments |
| Mangling.InstancesHaveTheirOwnKeys | generator/Mangler.h:47-64 | on types that mangling keeps whole, instances of generic structs and enums have equal keys only if name and arguments are equal, and a struct never has the key of an enum |
| Mangling.NestedInstancesCollide | generator/Mangler.h:115-116 | List<Box<i32>> and List<Box<i64>> share a key |
| Mangling.MangleGenericStruct | generator/Mangler.h:47-54 | builds the specified name in a loop |
| Mangling.MangleGenericEnum | generator/Mangler.h:57-64 | builds the specified name in a loop |
| Mangling.MangleGenericMethod | generator/Mangler.h:67-79 | builds the specified name in two loops |
| Mangling.MangleMethod | generator/Mangler.h:36-44 | builds the specified name in a loop |
| Mangling.MangleFunction | generator/Mangler.h:20-27 | builds the specified name in a loop |
| Mangling.TypeRoundTrip | generator/Mangler.h:81-119 | a mangled type is read back as its canonical type, whatever follows it |
| LineIndex.CursorIsOnItsLine | lexer/Lexer.cpp:79-93 | line and column of the cursor agree with the offset table, and the character under it stands there in the line that diagnostics print |
| LineIndex.Cursor.Advance | lexer/Lexer.cpp:79-93 | each step keeps line and column in step with the text seen, also past its end |
| LineIndex.Cursor.SkipWhitespace | lexer/Lexer.cpp:95-112 | moves the cursor to where the specification says the next token starts, and keeps line and column in step |
| LineIndex.SkipIff | lexer/Lexer.cpp:95-112 | that is the one place up to which all is white space and whole comments and where no more of it follows |
| LineIndex.Cursor.ReadString | lexer/Lexer.cpp:125-180 | reads exactly the value the specification gives the literal, plain or block, stops where it says, keeps the cursor in step and reports the place the literal started |
| LineIndex.StringRoundTrip | lexer/Lexer.cpp:153-179 | every string is the value of its escaped text, whatever stands around the literal |
| LineIndex.StringIff | lexer/Lexer.cpp:153-179 | the value of a literal and its end are exactly what is written there: characters as themselves, behind a backslash n and t as newline and tab and every other one as itself, up to the next quote, a NUL or the end |
| LineIndex.BlockIsRaw | lexer/Lexer.cpp:130-151 | a block string is the text itself up to the first three quotes, or to the end of the text if there are none |
| LineIndex.BuildLineIndex | diagnostics/Diagnostic.cpp:12-24 | one offset for the start of every line |
| LineIndex.GetLine | diagnostics/Diagnostic.cpp:35-62 | the text of a line without its newline and exactly one carriage return before it; nothing for a line that does not exist |
| LineIndex.LineIsUnique | diagnostics/Diagnostic.cpp:48-61 | that says which string it is: a line of a text is one string |

## Left out

- Floating-point values, opcodes and literals; the text of integer literals in the evaluator (literals are already decoded to 64 bits, 128 bits, or unrepresentable).
- Shift amounts outside 0 to 63, which C++ leaves undefined: taken modulo 64. Widths are 1 to 65535, because a width of 0 is undefined where the limits are computed.
- Wrap-around of 32-bit indices, counters and error tags; the invalid entry point is a case of its own instead of a reserved 32-bit value.
- Opcodes the compiler never emits (integer and boolean conversions), functions registered without a body, the heap for future use, and logging.
- Exceptions of the operand stack are outcomes of the model and are passed on by every caller; after a failed compilation the code left in the stream is not described.
- ExpressionParsers.Parser.ParsePrimary: strings, floats, names and what they open, array and brace initialisers end in a separate outcome, because they depend on scopes and types; source locations are not kept.
- ExpressionParsers.Parser.ParseUnary: casts to named types, `try` and `new` end in that outcome, too.
- ExpressionParsers.Parser.ParsePostfix: calls, member and index access and `is` end in that outcome, too.
- ExpressionParsers.Parser.ParseBinary: the pending `>` of a split `>>` is zero throughout, since only the type parser sets it.
- MacroArguments.MacroArguments: choosing a rule and substituting the arguments are not modelled; the call is taken from behind its opening parenthesis.
- ErrorHierarchy.Binder.CollectStruct: only the name and the implemented names of a declaration matter here; fields, methods, attributes, interfaces and child scopes are not modelled, and no symbols are imported from libraries.
- ErrorHierarchy.Binder.ErrorArmMatchedTags: the tags form a set, since their order in the emitted comparison does not matter; the cascade is run instead of emitted.
- ConstantResolution.BuildEvaluator: functions arrive as a map; which symbols of the table have constant bodies is not modelled. Using the evaluator that is not there (`ConstantResolution.EvaluatorCache.Get`) is undefined in the source and ends the model.
- CompileTimeCalls.CallChecker.Check: diagnostics are a returned judgement; types are reduced to whether a parameter is a non-zero integer.
- CallSoundness.ViolationIsSound: that no function of the clause looks up a constant under the name of a parameter is enough, but whether such a look-up changes the verdict depends on what is computed, so the condition is not exact; `CallLimits.AConstantIsCaptured` shows that it cannot be dropped.
- Agreement.EvalAgrees: that no callee has fewer locals than its caller is enough, but a caller that reads nothing of what it loses needs less; the exact condition is given for each call and each read (`FrameIsolation.SlotsKeptIff`, `FrameIsolation.ReadAfterReturn`), not for whole programs.
- CallSoundness.AlwaysThrowsIsSound: a function named `likely` or `unlikely` is checked as a function but compiled as a hint, so its report says nothing of the call expression.
- Mangling.DecodeUndoesMangle: names are not empty and do not start with a digit; nullability, read-only and overflow marks are not in a mangled name and not in the model; the display demangler is left out.
- LineIndex.GetLine: choosing the source file by its identifier is not modelled; of the token readers only strings and whitespace are, not read_number, read_identifier and tokenize.
- Constant and alias tables of child scopes, generic instantiation, type checking, LLVM emission, cleanup, coroutines, the language server and the build system.
