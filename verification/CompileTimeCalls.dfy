/** The compile-time check of a call: a zero passed to a non-zero parameter, a function that throws on these arguments,
    a require clause these arguments violate.  Clauses are evaluated with the parameters bound as named constants,
    which are restored afterwards unless a clause raises. */
module CompileTimeCalls {
  import opened Options
  import opened ConstValues
  import opened Syntax
  import opened Bytecode
  import opened FrameSemantics
  import opened ReachableFunctions
  import opened ConstEvaluators
  import opened ConstantResolution

  datatype Enforcement = Off | Runtime | CompileTime | Strict

  datatype Contract = Contract(isRequire: bool, condition: OptionalExpression, block: OptionalBlock) {
    /** The condition, or the returned expression of a block that is one return statement. */
    function Condition(): OptionalExpression {
      if condition.Present? then condition
      else if block.SomeBlock? && block.block.Statements? && block.block.tail.EmptyBlock? &&
              block.block.head.ReturnStatement? then block.block.head.returned
      else Absent
    }

    /** The check evaluates the conditions of require clauses alone. */
    predicate IsClause() { isRequire && Condition().Present? }
  }

  /** nonZero tells of each parameter type whether it is an integer that must not be zero. */
  datatype FunctionSymbol = FunctionSymbol(name: string, hasBody: bool, compileTime: bool, throwing: bool,
                                           paramNames: seq<string>, nonZero: seq<bool>, contracts: seq<Contract>)
  {
    predicate HasRequires() { exists c :: c in contracts && c.isRequire }

    predicate HasNonZero() { exists b :: b in nonZero && b }
  }

  /** What the check reports, if anything; or the exception of the operand stack. */
  datatype Judgement =
    | Silent
    | PassesZero(index: nat)
    | AlwaysThrows(error: string)
    | ViolatesRequire(clause: nat)
    | Raises

  datatype ArgumentOutcome = Known(values: seq<ConstValue>) | NotConstant | ArgumentRaises

  predicate IsZero(v: ConstValue) {
    match v
    case Integer(i, _, _) => i == 0
    case Integer128(w, _) => w.IsZero()
    case _ => false
  }

  // ----- binding and restoring -----

  function Find(m: Constants, x: string): Option<ConstValue> {
    if x in m then Some(m[x]) else None
  }

  function Put(m: Constants, x: string, v: Option<ConstValue>): Constants {
    if v.Some? then m[x := v.value] else m - {x}
  }

  function Bound(m: Constants, names: seq<string>, args: seq<ConstValue>): Constants
    requires |names| == |args|
  {
    if |names| == 0 then m
    else Bound(m, names[..|names| - 1], args[..|args| - 1])[names[|names| - 1] := args[|args| - 1]]
  }

  /** What each name was bound to just before it was bound to its argument. */
  function Saved(m: Constants, names: seq<string>, args: seq<ConstValue>): (r: seq<Option<ConstValue>>)
    requires |names| == |args|
    ensures |r| == |names|
  {
    if |names| == 0 then []
    else
      var n := |names| - 1;
      Saved(m, names[..n], args[..n]) + [Find(Bound(m, names[..n], args[..n]), names[n])]
  }

  function Restored(m: Constants, names: seq<string>, saved: seq<Option<ConstValue>>): Constants
    requires |names| == |saved|
  {
    if |names| == 0 then m
    else Put(Restored(m, names[..|names| - 1], saved[..|saved| - 1]), names[|names| - 1], saved[|saved| - 1])
  }

  /** j is the last place of its name, and i the place of the same name before it. */
  predicate Repeats(names: seq<string>, i: nat, j: nat) {
    i < j < |names| && names[i] == names[j] && names[j] !in names[i + 1..j] && names[j] !in names[j + 1..]
  }

  /** Every repeated name was bound, before all, to the argument it has at its last place but one. */
  predicate RepeatsMatch(m: Constants, names: seq<string>, args: seq<ConstValue>)
    requires |names| == |args|
  {
    forall j: nat, i: nat | i < j < |names| :: Repeats(names, i, j) ==> Find(m, names[j]) == Some(args[i])
  }

  lemma LastInPrefix(names: seq<string>, i: nat)
    requires i < |names| - 1 && names[i] !in names[i + 1..]
    ensures var n := |names| - 1;
      names[n] != names[i] && names[..n][i] == names[i] && names[i] !in names[..n][i + 1..]
  {
    var n := |names| - 1;
    assert names[i + 1..][n - i - 1] == names[n];
    assert names[..n][i + 1..] == names[i + 1..][..n - i - 1];
  }

  lemma {:induction false} BoundMisses(m: Constants, names: seq<string>, args: seq<ConstValue>, x: string)
    requires |names| == |args| && x !in names
    ensures Find(Bound(m, names, args), x) == Find(m, x)
    decreases |names|
  {
    if |names| > 0 { BoundMisses(m, names[..|names| - 1], args[..|names| - 1], x); }
  }

  lemma {:induction false} BoundFinds(m: Constants, names: seq<string>, args: seq<ConstValue>, i: nat)
    requires |names| == |args| && i < |names| && names[i] !in names[i + 1..]
    ensures Find(Bound(m, names, args), names[i]) == Some(args[i])
    decreases |names|
  {
    var n := |names| - 1;
    if i < n {
      LastInPrefix(names, i);
      BoundFinds(m, names[..n], args[..n], i);
    }
  }

  lemma {:induction false} RestoredMisses(m: Constants, names: seq<string>, saved: seq<Option<ConstValue>>, x: string)
    requires |names| == |saved| && x !in names
    ensures Find(Restored(m, names, saved), x) == Find(m, x)
    decreases |names|
  {
    if |names| > 0 { RestoredMisses(m, names[..|names| - 1], saved[..|names| - 1], x); }
  }

  lemma {:induction false} RestoredFinds(m: Constants, names: seq<string>, saved: seq<Option<ConstValue>>, j: nat)
    requires |names| == |saved| && j < |names| && names[j] !in names[j + 1..]
    ensures Find(Restored(m, names, saved), names[j]) == saved[j]
    decreases |names|
  {
    var n := |names| - 1;
    if j < n {
      LastInPrefix(names, j);
      RestoredFinds(m, names[..n], saved[..n], j);
    }
  }

  lemma {:induction false} SavedIs(m: Constants, names: seq<string>, args: seq<ConstValue>, j: nat)
    requires |names| == |args| && j < |names|
    ensures Saved(m, names, args)[j] == Find(Bound(m, names[..j], args[..j]), names[j])
    decreases |names|
  {
    var n := |names| - 1;
    if j < n {
      SavedIs(m, names[..n], args[..n], j);
      assert names[..n][..j] == names[..j] && args[..n][..j] == args[..j];
    }
  }

  function LastPlace(names: seq<string>, x: string): (i: nat)
    requires x in names
    ensures i < |names| && names[i] == x && x !in names[i + 1..]
  {
    var n := |names| - 1;
    if names[n] == x then n
    else
      assert x in names[..n] by {
        var k :| 0 <= k < |names| && names[k] == x;
        assert names[..n][k] == x;
      }
      var i := LastPlace(names[..n], x);
      assert names[i + 1..] == names[..n][i + 1..] + [names[n]];
      i
  }

  /** Restoring undoes the bindings exactly when every repeated parameter name was bound, before the call, to the
      argument it has at its last place but one. */
  lemma RestoredIff(m: Constants, names: seq<string>, args: seq<ConstValue>)
    requires |names| == |args|
    ensures Restored(Bound(m, names, args), names, Saved(m, names, args)) == m <==> RepeatsMatch(m, names, args)
  {
    hide Restored, Bound, Saved, RepeatsMatch;
    if Restored(Bound(m, names, args), names, Saved(m, names, args)) == m { RestoredMatches(m, names, args); }
    if RepeatsMatch(m, names, args) { MatchingIsRestored(m, names, args); }
  }

  lemma RestoredMatches(m: Constants, names: seq<string>, args: seq<ConstValue>)
    requires |names| == |args| && Restored(Bound(m, names, args), names, Saved(m, names, args)) == m
    ensures RepeatsMatch(m, names, args)
  {
    hide Restored, Bound, Saved, Repeats, Find;
    forall j: nat, i: nat | i < j < |names| && Repeats(names, i, j) ensures Find(m, names[j]) == Some(args[i]) {
      RepeatedComesBackAs(m, names, args, i, j);
    }
  }

  lemma MatchingIsRestored(m: Constants, names: seq<string>, args: seq<ConstValue>)
    requires |names| == |args| && RepeatsMatch(m, names, args)
    ensures Restored(Bound(m, names, args), names, Saved(m, names, args)) == m
  {
    hide Restored, Bound, Saved, RepeatsMatch, Find;
    var back := Restored(Bound(m, names, args), names, Saved(m, names, args));
    forall x ensures Find(back, x) == Find(m, x) {
      if x in names { NameComesBack(m, names, args, x); } else { OtherStays(m, names, args, x); }
    }
    SameBindings(back, m);
  }

  lemma OtherStays(m: Constants, names: seq<string>, args: seq<ConstValue>, x: string)
    requires |names| == |args| && x !in names
    ensures Find(Restored(Bound(m, names, args), names, Saved(m, names, args)), x) == Find(m, x)
  {
    BoundMisses(m, names, args, x);
    RestoredMisses(Bound(m, names, args), names, Saved(m, names, args), x);
  }

  lemma SameBindings(m: Constants, n: Constants)
    requires forall x :: Find(m, x) == Find(n, x)
    ensures m == n
  {
    forall x ensures x in m <==> x in n { assert Find(m, x) == Find(n, x); }
    forall x | x in m ensures m[x] == n[x] { assert Find(m, x) == Find(n, x); }
  }

  lemma RepeatedComesBackAs(m: Constants, names: seq<string>, args: seq<ConstValue>, i: nat, j: nat)
    requires |names| == |args| && Repeats(names, i, j)
    ensures Find(Restored(Bound(m, names, args), names, Saved(m, names, args)), names[j]) == Some(args[i])
  {
    RestoredFinds(Bound(m, names, args), names, Saved(m, names, args), j);
    SavedIs(m, names, args, j);
    assert names[..j][i] == names[j] && names[..j][i + 1..] == names[i + 1..j];
    BoundFinds(m, names[..j], args[..j], i);
  }

  lemma NameComesBack(m: Constants, names: seq<string>, args: seq<ConstValue>, x: string)
    requires |names| == |args| && x in names
    requires RepeatsMatch(m, names, args)
    ensures Find(Restored(Bound(m, names, args), names, Saved(m, names, args)), x) == Find(m, x)
  {
    var j := LastPlace(names, x);
    RestoredFinds(Bound(m, names, args), names, Saved(m, names, args), j);
    SavedIs(m, names, args, j);
    if x in names[..j] {
      var i := LastPlace(names[..j], x);
      BoundFinds(m, names[..j], args[..j], i);
      assert names[..j][i + 1..] == names[i + 1..j];
      assert Repeats(names, i, j);
    } else {
      BoundMisses(m, names[..j], args[..j], x);
    }
  }

  lemma DistinctAreRestored(m: Constants, names: seq<string>, args: seq<ConstValue>)
    requires |names| == |args| && Distinct(names)
    ensures Restored(Bound(m, names, args), names, Saved(m, names, args)) == m
  {
    RestoredIff(m, names, args);
  }

  lemma DistinctComeBack(m: Constants, sym: FunctionSymbol, args: seq<ConstValue>, j: Judgement)
    requires |args| == |sym.paramNames|
    ensures Distinct(sym.paramNames) && !j.Raises? ==> AfterContracts(m, sym, args, j) == m
  {
    hide Bound, Saved, Restored;
    if Distinct(sym.paramNames) { DistinctAreRestored(m, sym.paramNames, args); }
  }

  // ----- the judgement, over what the trees evaluate to -----

  /** Whatever constants are known, the functions that compile are well-formed. */
  ghost predicate AlwaysWellFormed(functions: map<string, ConstFunction>) {
    forall m: Constants :: WellFormedSource(Source(m, functions))
  }

  ghost predicate AlwaysValue(functions: map<string, ConstFunction>, e: Expression) {
    forall m: Constants :: ValueExpression(Source(m, functions), e)
  }

  ghost predicate AlwaysValues(functions: map<string, ConstFunction>, args: seq<Expression>) {
    forall e :: e in args ==> AlwaysValue(functions, e)
  }

  /** The side conditions of evaluation, for a call and the contracts of its callee. */
  ghost predicate Checkable(functions: map<string, ConstFunction>, sym: FunctionSymbol, args: seq<Expression>) {
    AlwaysWellFormed(functions) && AlwaysValues(functions, args) &&
    (sym.name in functions ==> |functions[sym.name].paramNames| == |sym.paramNames|) &&
    forall c :: c in sym.contracts && c.IsClause() ==> AlwaysValue(functions, c.Condition().expression)
  }

  /** The side conditions, asked of a part of the program alone that holds all the check can reach: the functions called
      by the arguments and the clauses, the callee if the check may call it, and whatever these call. */
  ghost predicate CheckableWithin(src: Source, reach: set<string>, sym: FunctionSymbol, args: seq<Expression>) {
    Checkable(Restrict(src, reach).functions, sym, args) && ClosedUnderCalls(src, reach) &&
    (sym.compileTime && sym.throwing ==> sym.name in reach) && (forall e :: e in args ==> Calls(e) <= reach) &&
    ClausesReach(sym.contracts, reach)
  }

  ghost predicate ClausesReach(contracts: seq<Contract>, reach: set<string>) {
    forall c :: c in contracts && c.IsClause() ==> Calls(c.Condition().expression) <= reach
  }

  /** The arguments and what they reach are well-formed. */
  ghost predicate ArgumentsFit(src: Source, reach: set<string>, args: seq<Expression>) {
    WellFormedSource(Restrict(src, reach)) && forall e :: e in args ==> FitsPart(src, reach, ForExpression(e))
  }

  ghost predicate ClausesFit(src: Source, reach: set<string>, contracts: seq<Contract>) {
    WellFormedSource(Restrict(src, reach)) &&
    forall c :: c in contracts && c.IsClause() ==> FitsPart(src, reach, ForExpression(c.Condition().expression))
  }

  /** The values of the arguments in order, up to the first that is no constant. */
  function ValuesOf(cfg: Config, src: Source, args: seq<Expression>): (r: ArgumentOutcome)
    requires WellFormedSource(src) && forall e :: e in args ==> ValueExpression(src, e)
    ensures r.Known? ==> |r.values| == |args|
  {
    if |args| == 0 then Known([])
    else
      match ValuesOf(cfg, src, args[..|args| - 1])
      case Known(vs) =>
        (match Observe(RunDriver(cfg, src, args[|args| - 1]))
         case Raised => ArgumentRaises
         case Returned(v) => if v.Error? || v.Thrown? then NotConstant else Known(vs + [v]))
      case other => other
  }

  /** The first non-zero parameter among those before i that gets a zero. */
  function ZeroBefore(nonZero: seq<bool>, args: seq<ConstValue>, i: nat): (r: Option<nat>)
    requires i <= |nonZero| && i <= |args|
    ensures r.Some? ==> r.value < i && nonZero[r.value] && IsZero(args[r.value])
    ensures r.None? ==> forall k :: 0 <= k < i ==> !(nonZero[k] && IsZero(args[k]))
    ensures r.Some? ==> forall k :: 0 <= k < r.value ==> !(nonZero[k] && IsZero(args[k]))
  {
    if i == 0 then None
    else
      var before := ZeroBefore(nonZero, args, i - 1);
      if before.Some? then before else if nonZero[i - 1] && IsZero(args[i - 1]) then Some(i - 1) else None
  }

  predicate ClausesAreValues(src: Source, contracts: seq<Contract>) {
    forall c :: c in contracts && c.IsClause() ==> ValueExpression(src, c.Condition().expression)
  }

  /** The verdict of the require clauses from the k-th on: the first that is false, or raises. */
  function JudgeRequires(cfg: Config, src: Source, contracts: seq<Contract>, k: nat): Judgement
    requires WellFormedSource(src) && k <= |contracts| && ClausesAreValues(src, contracts)
    decreases |contracts| - k
  {
    if k == |contracts| then Silent
    else
      var c := contracts[k];
      if !c.IsClause() then JudgeRequires(cfg, src, contracts, k + 1)
      else
        match Observe(RunDriver(cfg, src, c.Condition().expression))
        case Raised => Raises
        case Returned(v) => if v == Bool(false) then ViolatesRequire(k) else JudgeRequires(cfg, src, contracts, k + 1)
  }

  predicate CanThrow(src: Source, sym: FunctionSymbol) {
    sym.compileTime && sym.throwing && sym.name in src.functions
  }

  function ErrorOf(name: string): string { if name == "" then "error" else name }

  function ZeroArgument(sym: FunctionSymbol, args: seq<ConstValue>): Option<nat> {
    ZeroBefore(sym.nonZero, args, Min(|sym.nonZero|, |args|))
  }

  ghost function JudgeContracts(cfg: Config, src: Source, sym: FunctionSymbol, args: seq<ConstValue>): Judgement
    requires Checkable(src.functions, sym, []) && |args| == |sym.paramNames|
  {
    var bound := Source(Bound(src.constants, sym.paramNames, args), src.functions);
    ClausesAreFine(bound.constants, src.functions, sym);
    JudgeRequires(cfg, bound, sym.contracts, 0)
  }

  /** The constants after the clauses were evaluated. */
  function AfterContracts(m: Constants, sym: FunctionSymbol, args: seq<ConstValue>, j: Judgement): Constants
    requires |args| == |sym.paramNames|
  {
    var bound := Bound(m, sym.paramNames, args);
    if j.Raises? then bound else Restored(bound, sym.paramNames, Saved(m, sym.paramNames, args))
  }

  ghost function JudgeValues(cfg: Config, src: Source, sym: FunctionSymbol, args: seq<ConstValue>): Judgement
    requires Checkable(src.functions, sym, []) && |args| == |sym.paramNames|
  {
    ClausesAreFine(src.constants, src.functions, sym);
    var zero := ZeroArgument(sym, args);
    if zero.Some? then PassesZero(zero.value)
    else
      var thrown := if CanThrow(src, sym) then Observe(RunCallDriver(cfg, src, sym.name, args)) else Returned(Void);
      if thrown.Raised? then Raises
      else if thrown.value.Thrown? then AlwaysThrows(ErrorOf(thrown.value.errorName))
      else if sym.HasRequires() then JudgeContracts(cfg, src, sym, args)
      else Silent
  }

  ghost function Judge(cfg: Config, src: Source, sym: FunctionSymbol, args: seq<Expression>): Judgement
    requires Checkable(src.functions, sym, args)
  {
    ArgumentsAreFine(src.constants, src.functions, sym, args);
    if !sym.hasBody || |args| != |sym.paramNames| then Silent
    else if !CanThrow(src, sym) && !sym.HasRequires() && !sym.HasNonZero() then Silent
    else
      match ValuesOf(cfg, src, args)
      case NotConstant => Silent
      case ArgumentRaises => Raises
      case Known(vs) => JudgeValues(cfg, src, sym, vs)
  }

  /** Whether the check gets as far as the require clauses: no zero was passed, and the call neither raised nor threw. */
  ghost predicate ReachesContracts(cfg: Config, src: Source, sym: FunctionSymbol, args: seq<ConstValue>)
    requires Checkable(src.functions, sym, []) && |args| == |sym.paramNames|
  {
    ClausesAreFine(src.constants, src.functions, sym);
    var thrown := if CanThrow(src, sym) then Observe(RunCallDriver(cfg, src, sym.name, args)) else Returned(Void);
    ZeroArgument(sym, args).None? && thrown.Returned? && !thrown.value.Thrown? && sym.HasRequires()
  }

  /** The clauses are evaluated with the parameters bound to vs. */
  ghost predicate ReachedWith(cfg: Config, src: Source, sym: FunctionSymbol, args: seq<Expression>, vs: seq<ConstValue>)
    requires Checkable(src.functions, sym, args)
  {
    ArgumentsAreFine(src.constants, src.functions, sym, args);
    sym.hasBody && |args| == |sym.paramNames| && ValuesOf(cfg, src, args) == Known(vs) && ReachesContracts(cfg, src, sym, vs)
  }

  /** The constants after the check. */
  ghost function ConstantsAfter(cfg: Config, src: Source, sym: FunctionSymbol, args: seq<Expression>): Constants
    requires Checkable(src.functions, sym, args)
  {
    ArgumentsAreFine(src.constants, src.functions, sym, args);
    var r := ValuesOf(cfg, src, args);
    if r.Known? && ReachedWith(cfg, src, sym, args, r.values) then
      AfterContracts(src.constants, sym, r.values, JudgeContracts(cfg, src, sym, r.values))
    else src.constants
  }

  // ----- the checker -----

  class CallChecker {
    const eval: ConstEvaluator
    const enforcement: Enforcement
    var insideTry: bool
    var bindingLibrary: bool

    constructor (eval: ConstEvaluator, enforcement: Enforcement)
      ensures this.eval == eval && this.enforcement == enforcement && !insideTry && !bindingLibrary
    {
      this.eval, this.enforcement := eval, enforcement;
      insideTry, bindingLibrary := false, false;
    }

    predicate Enabled()
      reads this
    {
      !bindingLibrary && !insideTry && (enforcement.CompileTime? || enforcement.Strict?)
    }

    method EvaluateArguments(ghost reach: set<string>, args: seq<Expression>) returns (r: ArgumentOutcome)
      ensures r.Known? ==> |r.values| == |args|
      ensures ArgumentsFit(eval.Src(), reach, args) ==> r == ValuesOf(eval.config, Restrict(eval.Src(), reach), args)
    {
      hide RunDriver, WellFormedSource, ValueExpression, Calls, ClosedUnderCalls, Restrict;
      var values := [];
      ghost var (part, fit) := (Restrict(eval.Src(), reach), ArgumentsFit(eval.Src(), reach, args));
      if fit { FitArgumentsAreValues(eval.Src(), reach, args); }
      for i := 0 to |args|
        invariant |values| == i
        invariant fit ==> ValuesOf(eval.config, part, args[..i]) == Known(values)
      {
        assert args[..i + 1][..i] == args[..i];
        assert fit ==> FitsPart(eval.Src(), reach, ForExpression(args[i]));
        var o := eval.Evaluate(args[i]);
        if Observe(o).Raised? {
          if fit { PrefixDecides(eval.config, part, args, i + 1); }
          return ArgumentRaises;
        }
        var v := Observe(o).value;
        if v.Error? || v.Thrown? {
          if fit { PrefixDecides(eval.config, part, args, i + 1); }
          return NotConstant;
        }
        values := values + [v];
      }
      assert args[..|args|] == args;
      r := Known(values);
    }

    method BindParameters(names: seq<string>, args: seq<ConstValue>) returns (previous: seq<Option<ConstValue>>)
      requires |names| == |args|
      modifies eval`constants
      ensures eval.constants == Bound(old(eval.constants), names, args)
      ensures previous == Saved(old(eval.constants), names, args)
    {
      previous := [];
      for i := 0 to |names|
        invariant |previous| == i && eval.constants == Bound(old(eval.constants), names[..i], args[..i])
        invariant previous == Saved(old(eval.constants), names[..i], args[..i])
      {
        assert names[..i + 1][..i] == names[..i] && args[..i + 1][..i] == args[..i];
        previous := previous + [eval.LookupConstant(names[i])];
        eval.DefineConstant(names[i], args[i]);
      }
      assert names[..|names|] == names && args[..|names|] == args;
    }

    method RestoreConstants(names: seq<string>, previous: seq<Option<ConstValue>>)
      requires |names| == |previous|
      modifies eval`constants
      ensures eval.constants == Restored(old(eval.constants), names, previous)
    {
      for i := 0 to |names|
        invariant eval.constants == Restored(old(eval.constants), names[..i], previous[..i])
      {
        assert names[..i + 1][..i] == names[..i] && previous[..i + 1][..i] == previous[..i];
        if previous[i].Some? { eval.DefineConstant(names[i], previous[i].value); }
        else { eval.RemoveConstant(names[i]); }
      }
      assert names[..|names|] == names && previous[..|names|] == previous;
    }

    /** Evaluates the require clauses under the bindings in force. */
    method CheckRequires(ghost reach: set<string>, contracts: seq<Contract>) returns (j: Judgement)
      ensures j.Silent? || j.ViolatesRequire? || j.Raises?
      ensures ClausesFit(eval.Src(), reach, contracts) ==>
        j == JudgeRequires(eval.config, Restrict(eval.Src(), reach), contracts, 0)
    {
      hide RunDriver, WellFormedSource, ValueExpression, Calls, ClosedUnderCalls, Restrict;
      ghost var (part, fit) := (Restrict(eval.Src(), reach), ClausesFit(eval.Src(), reach, contracts));
      for k := 0 to |contracts|
        invariant fit ==>
          JudgeRequires(eval.config, part, contracts, 0) == JudgeRequires(eval.config, part, contracts, k)
      {
        var c := contracts[k];
        if !c.isRequire || c.Condition().Absent? { continue; }
        assert fit ==> FitsPart(eval.Src(), reach, ForExpression(c.Condition().expression));
        var o := eval.Evaluate(c.Condition().expression);
        if Observe(o).Raised? { return Raises; }
        if Observe(o).value == Bool(false) { return ViolatesRequire(k); }
      }
      j := Silent;
    }

    /** Binds the parameters, evaluates the clauses and restores, unless a clause raises. */
    method CheckContracts(ghost reach: set<string>, sym: FunctionSymbol, values: seq<ConstValue>) returns (j: Judgement)
      requires |values| == |sym.paramNames|
      modifies eval`constants
      ensures j.Silent? || j.ViolatesRequire? || j.Raises?
      ensures CheckableWithin(old(eval.Src()), reach, sym, []) ==>
        j == JudgeContracts(eval.config, Restrict(old(eval.Src()), reach), sym, values)
      ensures eval.constants == AfterContracts(old(eval.constants), sym, values, j)
    {
      hide WellFormedSource, ValueExpression, JudgeRequires, Bound, Saved, Restored, CheckableWithin, ClausesFit;
      var previous := BindParameters(sym.paramNames, values);
      if CheckableWithin(old(eval.Src()), reach, sym, []) {
        PartIsCheckable(old(eval.Src()), reach, sym, []);
        ClausesFitWhenBound(eval.constants, old(eval.Src()), reach, sym);
      }
      j := CheckRequires(reach, sym.contracts);
      if j.Raises? { return; }
      RestoreConstants(sym.paramNames, previous);
    }

    method CheckValues(ghost reach: set<string>, sym: FunctionSymbol, values: seq<ConstValue>) returns (j: Judgement)
      requires |values| == |sym.paramNames|
      modifies eval`constants
      ensures CheckableWithin(old(eval.Src()), reach, sym, []) ==>
        j == JudgeValues(eval.config, Restrict(old(eval.Src()), reach), sym, values)
      ensures CheckableWithin(old(eval.Src()), reach, sym, []) ==>
        var part := Restrict(old(eval.Src()), reach);
        eval.constants == if ReachesContracts(eval.config, part, sym, values)
                          then AfterContracts(part.constants, sym, values, JudgeContracts(eval.config, part, sym, values))
                          else part.constants
      ensures eval.constants in {old(eval.constants), AfterContracts(old(eval.constants), sym, values, j)}
    {
      hide WellFormedSource, ValueExpression, JudgeContracts, AfterContracts, RunCallDriver, CheckableWithin, Checkable,
        FitsPart, Restrict;
      ghost var (part, fit) := (Restrict(eval.Src(), reach), CheckableWithin(eval.Src(), reach, sym, []));
      if fit { PartIsCheckable(eval.Src(), reach, sym, []); }
      if sym.HasNonZero() {
        for i := 0 to Min(|sym.nonZero|, |values|)
          invariant ZeroBefore(sym.nonZero, values, i).None?
        {
          if sym.nonZero[i] && IsZero(values[i]) {
            ZeroIsFirst(sym.nonZero, values, i, Min(|sym.nonZero|, |values|));
            return PassesZero(i);
          }
        }
      }
      NoneIsZero(sym, values);
      if sym.compileTime && sym.throwing && sym.name in eval.functions {
        var o := eval.EvaluateFunction(sym.name, values);
        if fit { CalleeFits(eval.config, eval.Src(), reach, sym, values); }
        if Observe(o).Raised? { return Raises; }
        if Observe(o).value.Thrown? { return AlwaysThrows(ErrorOf(Observe(o).value.errorName)); }
      }
      if sym.HasRequires() { j := CheckContracts(reach, sym, values); } else { j := Silent; }
    }

    /** Reports exactly what the judgement says, and leaves the constants as the specification says, for each part of
        the program that holds all the check can reach: the rest of the program does not matter. */
    method Check(ghost reach: set<string>, sym: FunctionSymbol, args: seq<Expression>) returns (j: Judgement)
      modifies eval`constants
      ensures bindingLibrary || insideTry || enforcement.Off? || enforcement.Runtime? ==>
        j == Silent && eval.constants == old(eval.constants)
      ensures CheckableWithin(old(eval.Src()), reach, sym, args) && !bindingLibrary && !insideTry &&
              (enforcement.CompileTime? || enforcement.Strict?) ==>
        j == Judge(eval.config, Restrict(old(eval.Src()), reach), sym, args) &&
        eval.constants == ConstantsAfter(eval.config, Restrict(old(eval.Src()), reach), sym, args)
      ensures Distinct(sym.paramNames) && !j.Raises? ==> eval.constants == old(eval.constants)
      ensures eval.constants != old(eval.constants) ==>
        exists values | |values| == |sym.paramNames| ::
          eval.constants == AfterContracts(old(eval.constants), sym, values, j)
    {
      hide WellFormedSource, ValueExpression, JudgeContracts, AfterContracts, JudgeValues, ReachesContracts, ValuesOf,
        CheckableWithin, Checkable, ArgumentsFit, Restrict;
      ghost var (part, fit) := (Restrict(eval.Src(), reach), CheckableWithin(eval.Src(), reach, sym, args));
      if fit { PartIsCheckable(eval.Src(), reach, sym, args); }
      if !Enabled() || !sym.hasBody || |args| != |sym.paramNames| { return Silent; }
      if !(sym.compileTime && sym.throwing && sym.name in eval.functions) && !sym.HasRequires() && !sym.HasNonZero() {
        if fit { NothingIsBound(eval.config, part, sym, args); }
        return Silent;
      }
      var arguments := EvaluateArguments(reach, args);
      if arguments.NotConstant? { return Silent; }
      if arguments.ArgumentRaises? { return Raises; }
      j := CheckValues(reach, sym, arguments.values);
      DistinctComeBack(old(eval.constants), sym, arguments.values, j);
    }
  }

  lemma ClausesAreFine(m: Constants, functions: map<string, ConstFunction>, sym: FunctionSymbol)
    requires Checkable(functions, sym, [])
    ensures WellFormedSource(Source(m, functions)) && ClausesAreValues(Source(m, functions), sym.contracts)
  {
  }

  lemma ArgumentsAreFine(m: Constants, functions: map<string, ConstFunction>, sym: FunctionSymbol, args: seq<Expression>)
    requires Checkable(functions, sym, args)
    ensures var src := Source(m, functions); WellFormedSource(src) && forall e :: e in args ==> ValueExpression(src, e)
  {
  }

  lemma FitArgumentsAreValues(src: Source, reach: set<string>, args: seq<Expression>)
    requires ArgumentsFit(src, reach, args)
    ensures forall e :: e in args ==> ValueExpression(Restrict(src, reach), e)
  {
    hide WellFormedSource, ValueExpression, Calls, ClosedUnderCalls;
    forall e | e in args ensures ValueExpression(Restrict(src, reach), e) {
      assert FitsPart(src, reach, ForExpression(e));
    }
  }

  /** What the side conditions on a part say of it. */
  lemma PartIsCheckable(src: Source, reach: set<string>, sym: FunctionSymbol, args: seq<Expression>)
    requires CheckableWithin(src, reach, sym, args)
    ensures var part := Restrict(src, reach);
      part.constants == src.constants && Checkable(part.functions, sym, args) && Checkable(part.functions, sym, []) &&
      CheckableWithin(src, reach, sym, []) && ArgumentsFit(src, reach, args) && CanThrow(part, sym) == CanThrow(src, sym)
  {
    hide WellFormedSource, ValueExpression, Calls, ClosedUnderCalls;
    var part := Restrict(src, reach);
    assert part == Source(src.constants, part.functions);
    ArgumentsAreFine(src.constants, part.functions, sym, args);
  }

  lemma ClausesFitWhenBound(m: Constants, src: Source, reach: set<string>, sym: FunctionSymbol)
    requires CheckableWithin(src, reach, sym, [])
    ensures var bound := Source(m, src.functions);
      Restrict(bound, reach) == Source(m, Restrict(src, reach).functions) && ClausesFit(bound, reach, sym.contracts)
  {
    hide WellFormedSource, ValueExpression, Calls, BlockCalls;
    var bound := Source(m, src.functions);
    assert Restrict(bound, reach).functions == Restrict(src, reach).functions;
    ClausesAreFine(m, Restrict(src, reach).functions, sym);
  }

  /** The callee runs in the part as in the whole, and is not run on arguments that are no constants. */
  lemma CalleeFits(cfg: Config, src: Source, reach: set<string>, sym: FunctionSymbol, values: seq<ConstValue>)
    requires CheckableWithin(src, reach, sym, []) && CanThrow(src, sym) && |values| == |sym.paramNames|
    ensures WellFormedSource(Restrict(src, reach))
    ensures sym.name in Restrict(src, reach).functions ==> |values| == |Restrict(src, reach).functions[sym.name].paramNames|
    ensures AllConstant(values) ==> FitsPart(src, reach, ForCall(sym.name, values))
    ensures !AllConstant(values) ==> RunCallDriver(cfg, Restrict(src, reach), sym.name, values) == Value(Error)
  {
    hide WellFormedSource, ValueExpression, Calls, ClosedUnderCalls, RunCallDriver;
    var part := Restrict(src, reach);
    assert part == Source(src.constants, part.functions);
    ClausesAreFine(src.constants, part.functions, sym);
    if !AllConstant(values) { CallNeedsConstants(cfg, part, sym.name, values); }
  }

  lemma NothingIsBound(cfg: Config, src: Source, sym: FunctionSymbol, args: seq<Expression>)
    requires Checkable(src.functions, sym, args) && !sym.HasRequires()
    ensures ConstantsAfter(cfg, src, sym, args) == src.constants
  {
    hide ValuesOf, RunCallDriver, JudgeContracts, AfterContracts, WellFormedSource, ValueExpression;
  }

  lemma NoneIsZero(sym: FunctionSymbol, args: seq<ConstValue>)
    ensures !sym.HasNonZero() ==> ZeroArgument(sym, args).None?
  {
    var zero := ZeroArgument(sym, args);
    if zero.Some? { assert sym.nonZero[zero.value] in sym.nonZero; }
  }

  lemma {:induction false} ZeroIsFirst(nonZero: seq<bool>, args: seq<ConstValue>, i: nat, n: nat)
    requires i < n <= |nonZero| && n <= |args| && ZeroBefore(nonZero, args, i).None? && nonZero[i] && IsZero(args[i])
    ensures ZeroBefore(nonZero, args, n) == Some(i)
  {
    if n > i + 1 { ZeroIsFirst(nonZero, args, i, n - 1); }
  }

  lemma {:induction false} PrefixDecides(cfg: Config, src: Source, args: seq<Expression>, i: nat)
    requires WellFormedSource(src) && i <= |args| && forall e :: e in args ==> ValueExpression(src, e)
    requires !ValuesOf(cfg, src, args[..i]).Known?
    ensures ValuesOf(cfg, src, args) == ValuesOf(cfg, src, args[..i])
    decreases |args|
  {
    if i == |args| { assert args[..i] == args; }
    else {
      var n := |args| - 1;
      assert args[..n][..i] == args[..i];
      PrefixDecides(cfg, src, args[..n], i);
    }
  }

  // ----- the verdict of the clauses -----

  /** The clause is evaluated, and its evaluation raises. */
  predicate Overflows(cfg: Config, src: Source, c: Contract)
    requires WellFormedSource(src) && (c.IsClause() ==> ValueExpression(src, c.Condition().expression))
  {
    c.IsClause() && Observe(RunDriver(cfg, src, c.Condition().expression)).Raised?
  }

  /** The clause evaluates to false. */
  predicate Fails(cfg: Config, src: Source, c: Contract)
    requires WellFormedSource(src) && (c.IsClause() ==> ValueExpression(src, c.Condition().expression))
  {
    c.IsClause() && Observe(RunDriver(cfg, src, c.Condition().expression)) == Returned(Bool(false))
  }

  /** No clause from `from` on and before `to` fails or overflows. */
  ghost predicate Undecided(cfg: Config, src: Source, contracts: seq<Contract>, from: nat, to: nat)
    requires WellFormedSource(src) && ClausesAreValues(src, contracts) && to <= |contracts|
  {
    forall j: nat | from <= j < to :: !Overflows(cfg, src, contracts[j]) && !Fails(cfg, src, contracts[j])
  }

  /** Some clause overflows, and none before it fails or overflows. */
  ghost predicate OverflowsFirst(cfg: Config, src: Source, contracts: seq<Contract>, from: nat)
    requires WellFormedSource(src) && ClausesAreValues(src, contracts)
  {
    exists k: nat :: from <= k < |contracts| && Overflows(cfg, src, contracts[k]) && Undecided(cfg, src, contracts, from, k)
  }

  /** The clauses raise exactly when the first that fails or overflows overflows, and are violated exactly at the first
      when it fails. */
  lemma {:induction false} VerdictIs(cfg: Config, src: Source, contracts: seq<Contract>, from: nat)
    requires WellFormedSource(src) && from <= |contracts| && ClausesAreValues(src, contracts)
    ensures JudgeRequires(cfg, src, contracts, from) == Raises <==> OverflowsFirst(cfg, src, contracts, from)
    ensures forall k: nat ::
      JudgeRequires(cfg, src, contracts, from) == ViolatesRequire(k) <==>
      (from <= k < |contracts| && Fails(cfg, src, contracts[k]) && Undecided(cfg, src, contracts, from, k))
    decreases |contracts| - from
  {
    hide RunDriver, WellFormedSource, ValueExpression;
    if from == |contracts| { return; }
    VerdictIs(cfg, src, contracts, from + 1);
    FirstClauseDecides(cfg, src, contracts, from);
    var c := contracts[from];
    if Overflows(cfg, src, c) || Fails(cfg, src, c) {
      assert Undecided(cfg, src, contracts, from, from);
    } else {
      forall k: nat | from < k <= |contracts|
        ensures Undecided(cfg, src, contracts, from, k) <==> Undecided(cfg, src, contracts, from + 1, k)
      {
      }
    }
  }

  lemma FirstClauseDecides(cfg: Config, src: Source, contracts: seq<Contract>, k: nat)
    requires WellFormedSource(src) && k < |contracts| && ClausesAreValues(src, contracts)
    ensures JudgeRequires(cfg, src, contracts, k) ==
      if Overflows(cfg, src, contracts[k]) then Raises
      else if Fails(cfg, src, contracts[k]) then ViolatesRequire(k)
      else JudgeRequires(cfg, src, contracts, k + 1)
  {
    hide RunDriver, WellFormedSource, ValueExpression;
  }

  // ----- what the check leaves behind -----

  /** Every parameter was bound, before, to the argument at its last place. */
  predicate AlreadyBound(m: Constants, names: seq<string>, args: seq<ConstValue>)
    requires |names| == |args|
  {
    forall i :: 0 <= i < |names| && names[i] !in names[i + 1..] ==> Find(m, names[i]) == Some(args[i])
  }

  lemma BoundIsUnchangedIff(m: Constants, names: seq<string>, args: seq<ConstValue>)
    requires |names| == |args|
    ensures Bound(m, names, args) == m <==> AlreadyBound(m, names, args)
  {
    hide Bound;
    if Bound(m, names, args) == m {
      forall i | 0 <= i < |names| && names[i] !in names[i + 1..] ensures Find(m, names[i]) == Some(args[i]) {
        BoundFinds(m, names, args, i);
      }
    }
    if AlreadyBound(m, names, args) {
      forall x ensures Find(Bound(m, names, args), x) == Find(m, x) {
        if x in names { BoundFinds(m, names, args, LastPlace(names, x)); } else { BoundMisses(m, names, args, x); }
      }
      SameBindings(Bound(m, names, args), m);
    }
  }

  /** What decides whether the constants come back once the clauses are reached with these values: a clause that
      overflows first leaves the parameters bound, otherwise repeated parameters decide. */
  ghost predicate ComesBack(cfg: Config, src: Source, sym: FunctionSymbol, vs: seq<ConstValue>)
    requires Checkable(src.functions, sym, []) && |vs| == |sym.paramNames|
  {
    var bound := Source(Bound(src.constants, sym.paramNames, vs), src.functions);
    ClausesAreFine(bound.constants, src.functions, sym);
    if OverflowsFirst(cfg, bound, sym.contracts, 0) then AlreadyBound(src.constants, sym.paramNames, vs)
    else RepeatsMatch(src.constants, sym.paramNames, vs)
  }

  /** The check leaves the constants as they were exactly when it does not reach the clauses, or they come back. */
  lemma LeavesNoTraceIff(cfg: Config, src: Source, reach: set<string>, sym: FunctionSymbol, args: seq<Expression>)
    requires CheckableWithin(src, reach, sym, args)
    ensures var part := Restrict(src, reach);
      ConstantsAfter(cfg, part, sym, args) == src.constants <==>
      forall vs :: ReachedWith(cfg, part, sym, args, vs) ==> ComesBack(cfg, part, sym, vs)
  {
    hide ReachesContracts, JudgeContracts, ComesBack, AfterContracts, WellFormedSource, ValueExpression, ValuesOf,
      Checkable, CheckableWithin, Restrict;
    PartIsCheckable(src, reach, sym, args);
    var part := Restrict(src, reach);
    ArgumentsAreFine(part.constants, part.functions, sym, args);
    var r := ValuesOf(cfg, part, args);
    if r.Known? && ReachedWith(cfg, part, sym, args, r.values) { ContractsComeBackIff(cfg, part, sym, r.values); }
  }

  lemma ContractsComeBackIff(cfg: Config, src: Source, sym: FunctionSymbol, vs: seq<ConstValue>)
    requires Checkable(src.functions, sym, []) && |vs| == |sym.paramNames|
    ensures AfterContracts(src.constants, sym, vs, JudgeContracts(cfg, src, sym, vs)) == src.constants <==>
      ComesBack(cfg, src, sym, vs)
  {
    hide WellFormedSource, ValueExpression, JudgeRequires, OverflowsFirst, Bound, Saved, Restored, RepeatsMatch, AlreadyBound;
    var bound := Source(Bound(src.constants, sym.paramNames, vs), src.functions);
    ClausesAreFine(bound.constants, src.functions, sym);
    VerdictIs(cfg, bound, sym.contracts, 0);
    RestoredIff(src.constants, sym.paramNames, vs);
    BoundIsUnchangedIff(src.constants, sym.paramNames, vs);
  }

  lemma {:induction false} RequiresNeverThrow(cfg: Config, src: Source, contracts: seq<Contract>, k: nat)
    requires WellFormedSource(src) && k <= |contracts| && ClausesAreValues(src, contracts)
    ensures var j := JudgeRequires(cfg, src, contracts, k); j.Silent? || j.ViolatesRequire? || j.Raises?
    decreases |contracts| - k
  {
    hide RunDriver, WellFormedSource;
    if k < |contracts| { RequiresNeverThrow(cfg, src, contracts, k + 1); }
  }

  lemma JudgeContractsNeverThrows(cfg: Config, src: Source, sym: FunctionSymbol, args: seq<ConstValue>)
    requires Checkable(src.functions, sym, []) && |args| == |sym.paramNames|
    ensures var j := JudgeContracts(cfg, src, sym, args); j.Silent? || j.ViolatesRequire? || j.Raises?
  {
    var bound := Source(Bound(src.constants, sym.paramNames, args), src.functions);
    ClausesAreFine(bound.constants, src.functions, sym);
    RequiresNeverThrow(cfg, bound, sym.contracts, 0);
  }

  lemma {:induction false} ViolatedClause(cfg: Config, src: Source, contracts: seq<Contract>, from: nat, k: nat)
    requires WellFormedSource(src) && from <= |contracts| && ClausesAreValues(src, contracts)
    requires JudgeRequires(cfg, src, contracts, from) == ViolatesRequire(k)
    ensures from <= k < |contracts| && contracts[k].IsClause()
    ensures RunDriver(cfg, src, contracts[k].Condition().expression) == Value(Bool(false))
    decreases |contracts| - from
  {
    hide RunDriver, WellFormedSource;
    var c := contracts[from];
    if !(c.IsClause() && RunDriver(cfg, src, c.Condition().expression) == Value(Bool(false))) {
      ViolatedClause(cfg, src, contracts, from + 1, k);
    }
  }
}
