/** Expressions as they may be written: trees with explicit parentheses, the grammar they obey, and the printer that
    puts parentheses only where the grammar needs them.  The parser reads exactly this grammar. */
module ExpressionGrammar {
  import opened Tokens
  import opened Arithmetic
  import opened ExpressionParsers

  /** A written expression: like Expr, but with integer literals as spelled, and parentheses. */
  datatype Written =
    | Digits(text: string)
    | Truth(truth: bool)
    | Nothing
    | Group(inner: Written)
    | After(operand: Written, suffix: Token)
    | Before(prefix: Token, operand: Written)
    | Infix(left: Written, op: Token, right: Written)
    | Choice(condition: Written, whenTrue: Written, whenFalse: Written)

  /** How tightly a binary operator binds; 1 is left to the conditional expression. */
  function Precedence(op: Token): nat
    requires IsBinary(op)
  {
    match op
    case QUESTION_QUESTION => 0
    case OR_OR => 2
    case AND_AND => 3
    case PIPE => 4
    case CARET => 5
    case AMPERSAND => 6
    case EQUAL_EQUAL | BANG_EQUAL => 7
    case LESS | LESS_EQUAL | GREATER | GREATER_EQUAL => 8
    case LESS_LESS | GREATER_GREATER => 9
    case PLUS | MINUS => 10
    case _ => 11
  }

  predicate IsBinary(op: Token) {
    op.QUESTION_QUESTION? || op.OR_OR? || op.AND_AND? || op.PIPE? || op.CARET? || op.AMPERSAND? || op.EQUAL_EQUAL? ||
    op.BANG_EQUAL? || op.LESS? || op.LESS_EQUAL? || op.GREATER? || op.GREATER_EQUAL? || op.LESS_LESS? ||
    op.GREATER_GREATER? || op.PLUS? || op.MINUS? || op.STAR? || op.SLASH? || op.PERCENT?
  }

  predicate IsPrefix(op: Token) { op.BANG? || op.MINUS? || op.AMPERSAND? || op.STAR? || op.TILDE? || op.AWAIT? }

  predicate IsSuffix(op: Token) { op.PLUS_PLUS? || op.MINUS_MINUS? }

  function Level(w: Written): nat {
    match w
    case Choice(_, _, _) => 1
    case Infix(_, op, _) => if IsBinary(op) then Precedence(op) else 0
    case Before(_, _) => 12
    case After(_, _) => 13
    case _ => 14
  }

  /** The grammar: binary operators associate to the left. */
  predicate Grammatical(w: Written) {
    match w
    case Group(inner) => Grammatical(inner)
    case After(a, op) => IsSuffix(op) && Grammatical(a) && Level(a) >= 13
    case Before(op, a) => IsPrefix(op) && Grammatical(a) && Level(a) >= 12
    case Infix(l, op, r) =>
      IsBinary(op) && Grammatical(l) && Grammatical(r) && Level(l) >= Precedence(op) && Level(r) > Precedence(op)
    case Choice(c, t, f) =>
      Grammatical(c) && Grammatical(t) && Grammatical(f) && Level(c) >= 2 && Level(t) >= 1 && Level(f) >= 1
    case _ => true
  }

  function Spell(w: Written): (toks: seq<Token>)
    ensures |toks| > 0
  {
    match w
    case Digits(text) => [INTEGER_LITERAL(text)]
    case Truth(b) => [if b then TRUE else FALSE]
    case Nothing => [NULL_KW]
    case Group(inner) => [LPAREN] + Spell(inner) + [RPAREN]
    case After(a, op) => Spell(a) + [op]
    case Before(op, a) => [op] + Spell(a)
    case Infix(l, op, r) => Spell(l) + [op] + Spell(r)
    case Choice(c, t, f) => Spell(c) + [QUESTION] + Spell(t) + [COLON] + Spell(f)
  }

  /** The expression a writing stands for. */
  function Meaning(w: Written): Expr {
    match w
    case Digits(text) => ReadInteger(text)
    case Truth(b) => Boolean(b)
    case Nothing => Null
    case Group(inner) => Meaning(inner)
    case After(a, op) => Postfix(Meaning(a), op)
    case Before(op, a) => if op == AWAIT then Await(Meaning(a)) else Unary(op, Meaning(a))
    case Infix(l, op, r) => Binary(Meaning(l), op, Meaning(r))
    case Choice(c, t, f) => Ternary(Meaning(c), Meaning(t), Meaning(f))
  }

  /** What may follow an expression of a level without continuing it. */
  predicate Ends(level: nat, rest: seq<Token>) {
    var t := Peek(rest);
    !(IsBinary(t) && Precedence(t) >= level) &&
    (level <= 1 ==> t != QUESTION) && (level <= 7 ==> t != IS) &&
    (level <= 13 ==> !IsSuffix(t) && !ContinuesOutside(t))
  }

  // ----- the chain takes each operator at its own level -----

  lemma OperatorsArePrecedence(op: Token, level: nat)
    requires level < UNARY
    ensures Loops(level, op) <==> IsBinary(op) && Precedence(op) == level
  {
    hide Loops, IsBinary, Precedence;
    if Loops(level, op) { LoopsAtItsLevel(op, level); }
    if IsBinary(op) { IsLooped(op); }
  }

  lemma LoopsAtItsLevel(op: Token, level: nat)
    requires Loops(level, op)
    ensures IsBinary(op) && Precedence(op) == level
  {
    if level < 7 { LoopsLow(op, level); } else if level < 9 { LoopsMiddle(op, level); } else { LoopsHigh(op, level); }
  }

  lemma LoopsLow(op: Token, level: nat)
    requires Loops(level, op) && level < 7
    ensures IsBinary(op) && Precedence(op) == level
  {
    match level
    case 0 => assert op == QUESTION_QUESTION;
    case 2 => assert op == OR_OR;
    case 3 => assert op == AND_AND;
    case 4 => assert op == PIPE;
    case 5 => assert op == CARET;
    case 6 => assert op == AMPERSAND;
    case _ =>
  }

  lemma LoopsMiddle(op: Token, level: nat)
    requires Loops(level, op) && 7 <= level < 9
    ensures IsBinary(op) && Precedence(op) == level
  {
    if level == 7 { assert op == EQUAL_EQUAL || op == BANG_EQUAL; }
    else { assert op == LESS || op == LESS_EQUAL || op == GREATER || op == GREATER_EQUAL; }
  }

  lemma LoopsHigh(op: Token, level: nat)
    requires Loops(level, op) && level >= 9
    ensures IsBinary(op) && Precedence(op) == level
  {
    match level
    case 9 => assert op == LESS_LESS || op == GREATER_GREATER;
    case 10 => assert op == PLUS || op == MINUS;
    case 11 => assert op == STAR || op == SLASH || op == PERCENT;
    case _ =>
  }

  lemma IsLooped(op: Token)
    requires IsBinary(op)
    ensures Loops(Precedence(op), op)
  {
    match op
    case QUESTION_QUESTION =>
    case OR_OR =>
    case AND_AND =>
    case PIPE =>
    case CARET =>
    case AMPERSAND =>
    case _ =>
  }

  lemma SpellsInfix(l: Written, op: Token, r: Written, rest: seq<Token>)
    ensures Spell(l) + ([op] + (Spell(r) + rest)) == Spell(Infix(l, op, r)) + rest
    ensures ([op] + (Spell(r) + rest))[1..] == Spell(r) + rest
  {
  }

  lemma SpellsChoice(c: Written, t: Written, f: Written, rest: seq<Token>)
    ensures var last := [COLON] + (Spell(f) + rest);
      var middle := [QUESTION] + (Spell(t) + last);
      Spell(c) + middle == Spell(Choice(c, t, f)) + rest && middle[1..] == Spell(t) + last &&
      last[1..] == Spell(f) + rest
  {
  }

  lemma SpellsOutside(w: Written, rest: seq<Token>)
    ensures w.Group? ==> Spell(w) + rest == [LPAREN] + (Spell(w.inner) + ([RPAREN] + rest))
    ensures w.Before? ==> Spell(w) + rest == [w.prefix] + (Spell(w.operand) + rest)
    ensures w.After? ==> Spell(w) + rest == Spell(w.operand) + ([w.suffix] + rest)
  {
  }

  // ----- everything grammatical is read -----

  lemma {:induction false} NeverStartsAsType(w: Written)
    requires Grammatical(w)
    ensures !MayBeType(Spell(w)[0])
    decreases w
  {
    match w
    case After(a, _) => NeverStartsAsType(a);
    case Infix(l, _, _) => NeverStartsAsType(l);
    case Choice(c, _, _) => NeverStartsAsType(c);
    case _ =>
  }

  /** At a level of operators, the loop stands behind the expression with what follows it. */
  lemma {:induction false} ReadsUpToLoop(level: nat, w: Written, rest: seq<Token>)
    requires level < UNARY && level != TERNARY && Grammatical(w) && Level(w) >= level && Ends(level + 1, rest)
    ensures Parse(level, Spell(w) + rest) == ParseOperators(level, Meaning(w), rest)
    decreases w, PRIMARY - level, 0
  {
    hide Spell, Loops, Parse, Ends, IsBinary, Precedence, Grammatical, Level, Meaning;
    LoopLevels(level, Spell(w) + rest);
    if Level(w) > level {
      Reads(level + 1, w, rest);
    } else {
      LevelIsInfix(w);
      MeaningOfInfix(w);
      var l, op, r := w.left, w.op, w.right;
      var tail := [op] + (Spell(r) + rest);
      SpellsInfix(l, op, r, rest);
      EndsBefore(op, Spell(r) + rest);
      assert tail[0] == op;
      ReadsUpToLoop(level, l, tail);
      OperatorsArePrecedence(op, level);
      Reads(level + 1, r, rest);
    }
  }

  lemma LevelIsInfix(w: Written)
    requires Grammatical(w) && Level(w) < UNARY && Level(w) != TERNARY
    ensures w.Infix? && IsBinary(w.op) && Precedence(w.op) == Level(w) && Grammatical(w.left) && Grammatical(w.right)
    ensures Level(w.left) >= Level(w) && Level(w.right) >= Level(w) + 1
  {
    hide Precedence;
  }

  lemma MeaningOfInfix(w: Written)
    requires w.Infix?
    ensures Meaning(w) == Binary(Meaning(w.left), w.op, Meaning(w.right))
  {
  }

  /** An operator ends every expression that binds tighter. */
  lemma EndsBefore(op: Token, rest: seq<Token>)
    requires IsBinary(op)
    ensures Ends(Precedence(op) + 1, [op] + rest)
  {
  }

  lemma {:induction false} ReadsUpToSuffixes(w: Written, rest: seq<Token>)
    requires Grammatical(w) && Level(w) >= POSTFIX
    ensures Parse(POSTFIX, Spell(w) + rest) == ParsePostfixes(Meaning(w), rest)
    decreases w, PRIMARY - POSTFIX, 0
  {
    if w.After? {
      var tail := [w.suffix] + rest;
      assert Spell(w) + rest == Spell(w.operand) + tail;
      ReadsUpToSuffixes(w.operand, tail);
      assert tail[1..] == rest;
    } else {
      ReadsPrimary(w, rest);
    }
  }

  lemma {:induction false} ReadsPrimary(w: Written, rest: seq<Token>)
    requires Grammatical(w) && Level(w) == PRIMARY
    ensures Parse(PRIMARY, Spell(w) + rest) == Parsed(Meaning(w), rest)
    decreases w, 0, 0
  {
    hide Parse;
    var toks := Spell(w) + rest;
    OtherLevels(toks);
    if w.Group? {
      var tail := [RPAREN] + rest;
      SpellsOutside(w, rest);
      Reads(0, w.inner, tail);
    } else {
      assert toks[1..] == rest;
    }
  }

  lemma {:induction false} ReadsPrefixed(w: Written, rest: seq<Token>)
    requires w.Before? && Grammatical(w) && Ends(UNARY, rest)
    ensures Parse(UNARY, Spell(w) + rest) == Parsed(Meaning(w), rest)
    decreases w, PRIMARY - UNARY, 0
  {
    hide Parse, Spell, Ends;
    OtherLevels(Spell(w) + rest);
    SpellsOutside(w, rest);
    Reads(UNARY, w.operand, rest);
  }

  lemma {:induction false} ReadsChoice(w: Written, rest: seq<Token>)
    requires w.Choice? && Grammatical(w) && Ends(TERNARY, rest)
    ensures Parse(TERNARY, Spell(w) + rest) == Parsed(Meaning(w), rest)
    decreases w, PRIMARY - TERNARY, 0
  {
    hide Spell, ParseOperators;
    var last := [COLON] + (Spell(w.whenFalse) + rest);
    var middle := [QUESTION] + (Spell(w.whenTrue) + last);
    SpellsChoice(w.condition, w.whenTrue, w.whenFalse, rest);
    Reads(TERNARY + 1, w.condition, middle);
    Reads(TERNARY, w.whenTrue, last);
    Reads(TERNARY, w.whenFalse, rest);
  }

  lemma DoesNotBegin(w: Written, rest: seq<Token>)
    requires Grammatical(w) && Level(w) >= POSTFIX
    ensures var toks := Spell(w) + rest; toks[0] != AWAIT && !OpensUnary(toks[0])
    ensures var toks := Spell(w) + rest; !(toks[0] == LPAREN && MayBeType(Peek(toks[1..])))
    decreases w
  {
    var toks := Spell(w) + rest;
    if w.Group? {
      NeverStartsAsType(w.inner);
      assert toks[1..][0] == Spell(w.inner)[0];
    }
    if w.After? {
      SpellsOutside(w, rest);
      DoesNotBegin(w.operand, [w.suffix] + rest);
    }
  }

  /** Whatever is written by the grammar is read back as what it means, and what follows is left untouched. */
  lemma {:induction false} Reads(level: nat, w: Written, rest: seq<Token>)
    requires level <= PRIMARY && Grammatical(w) && Level(w) >= level && Ends(level, rest)
    ensures Parse(level, Spell(w) + rest) == Parsed(Meaning(w), rest)
    decreases w, PRIMARY - level, 1
  {
    if level == TERNARY {
      if w.Choice? { ReadsChoice(w, rest); } else { Reads(TERNARY + 1, w, rest); }
    } else if level < UNARY {
      ReadsUpToLoop(level, w, rest);
      if |rest| > 0 { OperatorsArePrecedence(rest[0], level); }
    } else if level == UNARY {
      if w.Before? { ReadsPrefixed(w, rest); }
      else {
        Reads(POSTFIX, w, rest);
        DoesNotBegin(w, rest);
      }
    } else if level == POSTFIX {
      ReadsUpToSuffixes(w, rest);
    } else {
      ReadsPrimary(w, rest);
    }
  }

  // ----- only what is grammatical is read -----

  /** w is a writing of what was parsed: it spells the tokens taken, and nothing that is left continues it. */
  ghost predicate Wrote(level: nat, toks: seq<Token>, r: Result, w: Written) {
    r.Parsed? && Grammatical(w) && Level(w) >= level && Meaning(w) == r.expr && Spell(w) + r.rest == toks &&
    Ends(level, r.rest)
  }

  lemma {:induction false} Reconstructs(level: nat, toks: seq<Token>) returns (w: Written)
    requires level <= PRIMARY && Parse(level, toks).Parsed?
    ensures Wrote(level, toks, Parse(level, toks), w)
    decreases |toks|, PRIMARY - level, 1
  {
    if level == TERNARY {
      w := ReconstructsChoice(toks);
    } else if level < UNARY {
      var left := Reconstructs(level + 1, toks);
      w := ReconstructsLoop(level, left, toks, Parse(level + 1, toks).rest);
    } else if level == UNARY {
      w := ReconstructsUnary(toks);
    } else if level == POSTFIX {
      var operand := Reconstructs(PRIMARY, toks);
      w := ReconstructsSuffixes(operand, toks, Parse(PRIMARY, toks).rest);
    } else {
      w := ReconstructsPrimary(toks);
    }
  }

  lemma EndsLevel(level: nat, rest: seq<Token>)
    requires level < UNARY && level != TERNARY
    ensures Ends(level, rest) <==>
      Ends(level + 1, rest) && !(IsBinary(Peek(rest)) && Precedence(Peek(rest)) == level) &&
      (level == EQUALITY ==> Peek(rest) != IS)
  {
  }

  lemma {:induction false} ReconstructsLoop(level: nat, left: Written, toks: seq<Token>, from: seq<Token>)
    returns (w: Written)
    requires level < UNARY && level != TERNARY && Grammatical(left) && Level(left) >= level && Ends(level + 1, from)
    requires |from| < |toks| && Spell(left) + from == toks && ParseOperators(level, Meaning(left), from).Parsed?
    ensures Wrote(level, toks, ParseOperators(level, Meaning(left), from), w)
    decreases |from|, PRIMARY - level, 0
  {
    hide Spell, Loops, Parse, Ends;
    EndsLevel(level, from);
    if |from| > 0 { OperatorsArePrecedence(from[0], level); }
    if |from| > 0 && Loops(level, from[0]) {
      var op := from[0];
      assert from == [op] + from[1..];
      var right := Reconstructs(level + 1, from[1..]);
      var rest := Parse(level + 1, from[1..]).rest;
      SpellsInfix(left, op, right, rest);
      w := ReconstructsLoop(level, Infix(left, op, right), toks, rest);
    } else {
      w := left;
    }
  }

  lemma EndsUnary(rest: seq<Token>)
    ensures Ends(UNARY, rest) <==> Ends(POSTFIX, rest)
  {
  }

  lemma EndsSuffixes(rest: seq<Token>)
    ensures Ends(POSTFIX, rest) <==> !FollowsPostfix(Peek(rest)) && !ContinuesOutside(Peek(rest))
  {
  }

  lemma EndsPrimary()
    ensures forall rest :: Ends(PRIMARY, rest)
  {
  }

  /** No operator stands between the conditional and the disjunction. */
  lemma EndsChoice(rest: seq<Token>)
    ensures Ends(TERNARY, rest) <==> Ends(TERNARY + 1, rest) && Peek(rest) != QUESTION
  {
  }

  lemma {:induction false} ReconstructsChoice(toks: seq<Token>) returns (w: Written)
    requires Parse(TERNARY, toks).Parsed?
    ensures Wrote(TERNARY, toks, Parse(TERNARY, toks), w)
    decreases |toks|, PRIMARY - TERNARY, 0
  {
    hide Parse, Wrote;
    OtherLevels(toks);
    var c := Reconstructs(TERNARY + 1, toks);
    var middle := Parse(TERNARY + 1, toks).rest;
    if Peek(middle) != QUESTION {
      ChoiceEnds(toks, Parse(TERNARY + 1, toks), c);
      return c;
    }
    var t := Reconstructs(TERNARY, middle[1..]);
    var last := Parse(TERNARY, middle[1..]).rest;
    var f := Reconstructs(TERNARY, last[1..]);
    ChoiceWrote(toks, Parse(TERNARY + 1, toks), c, Parse(TERNARY, middle[1..]), t, Parse(TERNARY, last[1..]), f);
    w := Choice(c, t, f);
  }

  lemma ChoiceEnds(toks: seq<Token>, r: Result, c: Written)
    requires Wrote(TERNARY + 1, toks, r, c) && Peek(r.rest) != QUESTION
    ensures Wrote(TERNARY, toks, r, c)
  {
    hide Spell, Ends, Grammatical, Meaning;
    EndsChoice(r.rest);
  }

  lemma ChoiceWrote(toks: seq<Token>, rc: Result, c: Written, rt: Result, t: Written, rf: Result, f: Written)
    requires Wrote(TERNARY + 1, toks, rc, c) && Peek(rc.rest) == QUESTION
    requires Wrote(TERNARY, rc.rest[1..], rt, t) && Peek(rt.rest) == COLON && Wrote(TERNARY, rt.rest[1..], rf, f)
    ensures Wrote(TERNARY, toks, Parsed(Ternary(rc.expr, rt.expr, rf.expr), rf.rest), Choice(c, t, f))
  {
    hide Spell, Ends;
    var middle, last := rc.rest, rt.rest;
    assert middle == [QUESTION] + middle[1..] && last == [COLON] + last[1..];
    SpellsChoice(c, t, f, rf.rest);
  }

  lemma {:induction false} ReconstructsUnary(toks: seq<Token>) returns (w: Written)
    requires Parse(UNARY, toks).Parsed?
    ensures Wrote(UNARY, toks, Parse(UNARY, toks), w)
    decreases |toks|, PRIMARY - UNARY, 0
  {
    hide Spell, Parse, Ends;
    OtherLevels(toks);
    if Peek(toks) == AWAIT || (|toks| > 0 && OpensUnary(toks[0])) {
      var operand := Reconstructs(UNARY, toks[1..]);
      w := Before(toks[0], operand);
      assert toks == [toks[0]] + toks[1..];
      SpellsOutside(w, Parse(UNARY, toks[1..]).rest);
    } else {
      w := Reconstructs(POSTFIX, toks);
      EndsUnary(Parse(POSTFIX, toks).rest);
    }
  }

  lemma {:induction false} ReconstructsSuffixes(operand: Written, toks: seq<Token>, from: seq<Token>) returns (w: Written)
    requires Grammatical(operand) && Level(operand) >= POSTFIX
    requires |from| < |toks| && Spell(operand) + from == toks && ParsePostfixes(Meaning(operand), from).Parsed?
    requires Ends(PRIMARY, from)
    ensures Wrote(POSTFIX, toks, ParsePostfixes(Meaning(operand), from), w)
    decreases |from|, 0
  {
    hide Spell, IsBinary, Precedence, Ends;
    EndsSuffixes(from);
    if |from| > 0 && FollowsPostfix(from[0]) {
      var more := After(operand, from[0]);
      assert from == [from[0]] + from[1..];
      SpellsOutside(more, from[1..]);
      EndsPrimary();
      w := ReconstructsSuffixes(more, toks, from[1..]);
    } else {
      w := operand;
    }
  }

  lemma {:induction false} ReconstructsPrimary(toks: seq<Token>) returns (w: Written)
    requires Parse(PRIMARY, toks).Parsed?
    ensures Wrote(PRIMARY, toks, Parse(PRIMARY, toks), w)
    decreases |toks|, 0, 0
  {
    hide Parse, Wrote;
    OtherLevels(toks);
    match toks[0]
    case INTEGER_LITERAL(text) => w := Digits(text); LeafWrote(toks, w);
    case TRUE => w := Truth(true); LeafWrote(toks, w);
    case FALSE => w := Truth(false); LeafWrote(toks, w);
    case NULL_KW => w := Nothing; LeafWrote(toks, w);
    case LPAREN =>
      var inner := Reconstructs(0, toks[1..]);
      w := Group(inner);
      GroupWrote(toks, Parse(0, toks[1..]), inner);
  }

  lemma LeafWrote(toks: seq<Token>, w: Written)
    requires w.Digits? || w.Truth? || w.Nothing?
    requires |toks| > 0 && Spell(w) == [toks[0]]
    ensures Wrote(PRIMARY, toks, Parsed(Meaning(w), toks[1..]), w)
  {
    hide Spell, Ends;
    EndsPrimary();
    assert toks == [toks[0]] + toks[1..];
  }

  lemma GroupWrote(toks: seq<Token>, r: Result, inner: Written)
    requires |toks| > 0 && toks[0] == LPAREN && Wrote(0, toks[1..], r, inner) && Peek(r.rest) == RPAREN
    ensures Wrote(PRIMARY, toks, Parsed(r.expr, r.rest[1..]), Group(inner))
  {
    hide Spell, Ends;
    EndsPrimary();
    assert toks == [LPAREN] + toks[1..] && r.rest == [RPAREN] + r.rest[1..];
    SpellsOutside(Group(inner), r.rest[1..]);
  }

  // ----- what fails, and how -----

  /** What primary expressions and prefix operators start with, and what leads out of the fragment. */
  predicate Starts(t: Token) {
    t.INTEGER_LITERAL? || t.TRUE? || t.FALSE? || t.NULL_KW? || t.LPAREN? || IsPrefix(t) || t.OTHER? || t.LBRACKET? || t.LBRACE?
  }

  /** What fails as a primary expression fails at every level, if no prefix operator and no cast takes it. */
  lemma {:induction false} FailsAtEveryLevel(level: nat, toks: seq<Token>, error: SyntaxError)
    requires level <= PRIMARY && Parse(PRIMARY, toks) == Failed(error) && !IsPrefix(Peek(toks))
    requires !(Peek(toks) == LPAREN && MayBeType(Peek(toks[1..])))
    ensures Parse(level, toks) == Failed(error)
    decreases PRIMARY - level
  {
    hide ParseOperators, ParsePostfixes, ParsePrimaryTokens;
    if level < PRIMARY {
      FailsAtEveryLevel(level + 1, toks, error);
      if level == TERNARY || level == UNARY { OtherLevels(toks); } else { LoopLevels(level, toks); }
    }
  }

  /** Where nothing starts, at the end of the input or before any other token, an expression is expected. */
  lemma NothingStartsThere(level: nat, toks: seq<Token>)
    requires level <= PRIMARY && !Starts(Peek(toks))
    ensures Parse(level, toks) == Failed(EXPECTED_EXPRESSION)
  {
    hide Parse;
    OtherLevels(toks);
    FailsAtEveryLevel(level, toks, EXPECTED_EXPRESSION);
  }

  /** A group that is not closed. */
  lemma UnclosedFails(level: nat, w: Written, rest: seq<Token>)
    requires level <= PRIMARY && Grammatical(w) && Ends(0, rest) && Peek(rest) != RPAREN
    ensures Parse(level, [LPAREN] + (Spell(w) + rest)) == Failed(UNEXPECTED_TOKEN)
  {
    hide Parse, Spell, Ends;
    var toks := [LPAREN] + (Spell(w) + rest);
    assert toks[1..] == Spell(w) + rest;
    assert Peek(toks[1..]) == Spell(w)[0];
    NeverStartsAsType(w);
    Reads(0, w, rest);
    OtherLevels(toks);
    FailsAtEveryLevel(level, toks, UNEXPECTED_TOKEN);
  }

  /** A conditional expression without its colon. */
  lemma ColonMissing(c: Written, t: Written, rest: seq<Token>)
    requires Grammatical(c) && Grammatical(t) && Level(c) >= 2 && Level(t) >= 1 && Ends(TERNARY, rest) && Peek(rest) != COLON
    ensures Parse(TERNARY, Spell(c) + ([QUESTION] + (Spell(t) + rest))) == Failed(UNEXPECTED_TOKEN)
  {
    hide Parse, Spell;
    var tail := [QUESTION] + (Spell(t) + rest);
    assert tail[1..] == Spell(t) + rest;
    Reads(TERNARY + 1, c, tail);
    Reads(TERNARY, t, rest);
    OtherLevels(Spell(c) + tail);
  }

  /** The parser reads e from the front of toks and leaves rest exactly when toks is a grammatical writing of e
      followed by rest, and rest does not continue it. */
  lemma ParsesIffWritten(level: nat, toks: seq<Token>, e: Expr, rest: seq<Token>)
    requires level <= PRIMARY
    ensures Parse(level, toks) == Parsed(e, rest) <==> exists w :: Wrote(level, toks, Parsed(e, rest), w)
  {
    if Parse(level, toks) == Parsed(e, rest) {
      var w := Reconstructs(level, toks);
      assert Wrote(level, toks, Parsed(e, rest), w);
    }
    if w :| Wrote(level, toks, Parsed(e, rest), w) {
      Reads(level, w, rest);
    }
  }

  /** The grammar is unambiguous: tokens that can be written in two ways mean the same. */
  lemma Unambiguous(v: Written, w: Written)
    requires Grammatical(v) && Grammatical(w) && Spell(v) == Spell(w)
    ensures Meaning(v) == Meaning(w)
  {
    assert Spell(v) + [] == Spell(v) && Spell(w) + [] == Spell(w);
    Reads(0, v, []);
    Reads(0, w, []);
  }

  // ----- the printer -----

  predicate IsMode(m: OverflowMode) { !m.NoMode? }

  function Suffix(m: OverflowMode): char
    requires IsMode(m)
  {
    match m case Wrapped => 'w' case Trapped => 't' case Checked => 'c' case Saturating => 's'
  }

  /** Literals some text is read as: a mode needs digits and a signed literal, and hexadecimal ends in digit c. */
  predicate Readable(digits: string, signed: bool, mode: OverflowMode) {
    IsMode(mode) ==> signed && |digits| > 0 && !(mode.Checked? && IsHex(digits + "c"))
  }

  function WriteInteger(digits: string, signed: bool, mode: OverflowMode): string {
    digits + if IsMode(mode) then [Suffix(mode)] else if signed then "i" else "u"
  }

  lemma WrittenIsRead(digits: string, signed: bool, mode: OverflowMode)
    requires Readable(digits, signed, mode)
    ensures ReadInteger(WriteInteger(digits, signed, mode)) == Integer(digits, signed, mode)
  {
    var text := WriteInteger(digits, signed, mode);
    assert text[..|text| - 1] == digits;
  }

  lemma ReadIsReadable(text: string, digits: string, signed: bool, mode: OverflowMode)
    requires ReadInteger(text) == Integer(digits, signed, mode)
    ensures Readable(digits, signed, mode)
  {
    if IsMode(mode) { assert text == digits + [text[|text| - 1]]; }
  }

  /** A literal is read from some text exactly when it is readable, and then from its canonical spelling. */
  lemma LiteralRoundTrip(digits: string, signed: bool, mode: OverflowMode)
    ensures Readable(digits, signed, mode) ==>
      ReadInteger(WriteInteger(digits, signed, mode)) == Integer(digits, signed, mode)
    ensures (exists text :: ReadInteger(text) == Integer(digits, signed, mode)) ==> Readable(digits, signed, mode)
  {
    hide ReadInteger, WriteInteger, Readable;
    if Readable(digits, signed, mode) { WrittenIsRead(digits, signed, mode); }
    if text: string :| ReadInteger(text) == Integer(digits, signed, mode) { ReadIsReadable(text, digits, signed, mode); }
  }

  predicate Printable(e: Expr) {
    match e
    case Integer(d, s, m) => Readable(d, s, m)
    case Postfix(a, op) => IsSuffix(op) && Printable(a)
    case Unary(op, a) => IsPrefix(op) && op != AWAIT && Printable(a)
    case Await(a) => Printable(a)
    case Binary(l, op, r) => IsBinary(op) && Printable(l) && Printable(r)
    case Ternary(c, t, f) => Printable(c) && Printable(t) && Printable(f)
    case _ => true
  }

  /** A writing of e that stands at a level: in parentheses if e binds less tightly. */
  function Write(level: nat, e: Expr): Written
    requires Printable(e)
    decreases e, 1
  {
    var w := WriteBare(e);
    if Level(w) >= level then w else Group(w)
  }

  function WriteBare(e: Expr): Written
    requires Printable(e)
    decreases e, 0
  {
    match e
    case Integer(d, s, m) => Digits(WriteInteger(d, s, m))
    case Boolean(b) => Truth(b)
    case Null => Nothing
    case Postfix(a, op) => After(Write(13, a), op)
    case Unary(op, a) => Before(op, Write(12, a))
    case Await(a) => Before(AWAIT, Write(12, a))
    case Binary(l, op, r) => Infix(Write(Precedence(op), l), op, Write(Precedence(op) + 1, r))
    case Ternary(c, t, f) => Choice(Write(2, c), Write(1, t), Write(1, f))
  }

  /** The printer writes grammatically, and what it writes means the tree. */
  lemma {:induction false} WritesGrammar(level: nat, e: Expr)
    requires Printable(e) && level <= PRIMARY
    ensures var w := Write(level, e); Grammatical(w) && Level(w) >= level && Meaning(w) == e
    decreases e, 1
  {
    hide WriteBare, Printable;
    WritesBare(e);
  }

  lemma {:induction false} WritesBare(e: Expr)
    requires Printable(e)
    ensures Grammatical(WriteBare(e)) && Meaning(WriteBare(e)) == e
    decreases e, 0
  {
    hide Readable, Write, IsBinary, Precedence, Grammatical, Meaning, Level;
    match e
    case Integer(_, _, _) => LeafWrites(e);
    case Boolean(_) => LeafWrites(e);
    case Null => LeafWrites(e);
    case Postfix(a, op) => WritesGrammar(13, a); OneWrites(e, a, 13);
    case Unary(op, a) => WritesGrammar(12, a); OneWrites(e, a, 12);
    case Await(a) => WritesGrammar(12, a); OneWrites(e, a, 12);
    case Binary(l, op, r) =>
      PrecedenceBound(op);
      WritesGrammar(Precedence(op), l);
      WritesGrammar(Precedence(op) + 1, r);
      InfixWrites(e, l, r);
    case Ternary(c, t, f) =>
      WritesGrammar(2, c);
      WritesGrammar(1, t);
      WritesGrammar(1, f);
      ChoiceWrites(e, c, t, f);
  }

  lemma PrecedenceBound(op: Token)
    requires IsBinary(op)
    ensures Precedence(op) <= 11
  {
  }

  /** e stands at the level when written there. */
  predicate Stands(level: nat, e: Expr)
    requires Printable(e)
  {
    var w := Write(level, e);
    Grammatical(w) && Level(w) >= level && Meaning(w) == e
  }

  lemma LeafWrites(e: Expr)
    requires (e.Integer? && Printable(e)) || e.Boolean? || e.Null?
    ensures Grammatical(WriteBare(e)) && Meaning(WriteBare(e)) == e
  {
    hide Readable, WriteInteger, ReadInteger;
    if e.Integer? { LiteralRoundTrip(e.digits, e.signed, e.mode); }
  }

  lemma OneWrites(e: Expr, a: Expr, level: nat)
    requires Printable(e) && ((e.Postfix? && level == 13) || ((e.Unary? || e.Await?) && level == 12)) && e.operand == a
    requires Printable(a) && Stands(level, a)
    ensures Grammatical(WriteBare(e)) && Meaning(WriteBare(e)) == e
  {
    hide Write;
  }

  lemma InfixWrites(e: Expr, l: Expr, r: Expr)
    requires e.Binary? && Printable(e) && l == e.left && r == e.right && Printable(l) && Printable(r)
    requires Stands(Precedence(e.op), l) && Stands(Precedence(e.op) + 1, r)
    ensures Grammatical(WriteBare(e)) && Meaning(WriteBare(e)) == e
  {
    hide Write, IsBinary, Precedence;
  }

  lemma ChoiceWrites(e: Expr, c: Expr, t: Expr, f: Expr)
    requires e.Ternary? && Printable(e) && c == e.condition && t == e.trueExpr && f == e.falseExpr
    requires Printable(c) && Printable(t) && Printable(f)
    requires Stands(2, c) && Stands(1, t) && Stands(1, f)
    ensures Grammatical(WriteBare(e)) && Meaning(WriteBare(e)) == e
  {
    hide Write;
  }

  function Print(e: Expr): seq<Token>
    requires Printable(e)
  {
    Spell(Write(0, e))
  }

  /** Parsing the printing of a tree gives the tree back and leaves the rest of the input untouched. */
  lemma RoundTrip(e: Expr, rest: seq<Token>)
    requires Printable(e) && Ends(0, rest)
    ensures Parse(0, Print(e) + rest) == Parsed(e, rest)
  {
    WritesGrammar(0, e);
    Reads(0, Write(0, e), rest);
  }

  lemma SpellLength(w: Written)
    ensures |Spell(w)| ==
      match w
      case Group(inner) => |Spell(inner)| + 2
      case After(a, _) => |Spell(a)| + 1
      case Before(_, a) => |Spell(a)| + 1
      case Infix(l, _, r) => |Spell(l)| + |Spell(r)| + 1
      case Choice(c, t, f) => |Spell(c)| + |Spell(t)| + |Spell(f)| + 2
      case _ => 1
  {
  }

  lemma WriteLength(level: nat, e: Expr)
    requires Printable(e)
    ensures var bare := WriteBare(e);
      |Spell(Write(level, e))| == |Spell(bare)| + if Level(bare) >= level then 0 else 2
  {
    hide WriteBare, Printable, Spell;
    SpellLength(Group(WriteBare(e)));
  }

  /** w is no shorter than the printing of what it means, which binds as tightly unless w is in parentheses. */
  ghost predicate Minimal(w: Written) {
    Printable(Meaning(w)) && |Spell(WriteBare(Meaning(w)))| <= |Spell(w)| &&
    if w.Group? then |Spell(WriteBare(Meaning(w)))| + 2 <= |Spell(w)| else Level(WriteBare(Meaning(w))) == Level(w)
  }

  /** What was parsed can be printed, and no writing of it is shorter than its printing. */
  lemma {:induction false} PrintsMinimally(level: nat, w: Written)
    requires Grammatical(w) && Level(w) >= level && level <= PRIMARY
    ensures Printable(Meaning(w)) && |Spell(Write(level, Meaning(w)))| <= |Spell(w)|
    decreases w, 1
  {
    hide Readable, WriteInteger, ReadInteger, Spell, Write, IsBinary, IsPrefix, IsSuffix;
    IsMinimal(w);
    WriteLength(level, Meaning(w));
  }

  lemma {:induction false} IsMinimal(w: Written)
    requires Grammatical(w)
    ensures Minimal(w)
    decreases w, 0
  {
    hide Readable, WriteInteger, ReadInteger, Spell, Write, IsPrefix, IsSuffix, Minimal;
    match w
    case Digits(text) => ReadsReadable(text); LeafIsMinimal(w);
    case Truth(_) => LeafIsMinimal(w);
    case Nothing => LeafIsMinimal(w);
    case Group(inner) => IsMinimal(inner); GroupIsMinimal(w);
    case After(a, _) => PrintsMinimally(13, a); OneIsMinimal(w, a, 13);
    case Before(_, a) => PrintsMinimally(12, a); OneIsMinimal(w, a, 12);
    case Infix(l, op, r) =>
      PrintsMinimally(Precedence(op), l);
      PrintsMinimally(Precedence(op) + 1, r);
      InfixIsMinimal(l, op, r);
    case Choice(c, t, f) =>
      PrintsMinimally(2, c);
      PrintsMinimally(1, t);
      PrintsMinimally(1, f);
      ChoiceIsMinimal(c, t, f);
  }

  lemma LeafIsMinimal(w: Written)
    requires (w.Digits? && Printable(Meaning(w))) || w.Truth? || w.Nothing?
    ensures Minimal(w)
  {
    hide WriteInteger, ReadInteger, Spell;
    SpellLength(w);
    SpellLength(WriteBare(Meaning(w)));
  }

  lemma GroupIsMinimal(w: Written)
    requires w.Group? && Minimal(w.inner)
    ensures Minimal(w)
  {
    hide WriteBare, Spell;
    SpellLength(w);
  }

  lemma OneIsMinimal(w: Written, a: Written, level: nat)
    requires (w.After? && IsSuffix(w.suffix) && w.operand == a && level == 13) ||
             (w.Before? && IsPrefix(w.prefix) && w.operand == a && level == 12)
    requires Printable(Meaning(a)) && |Spell(Write(level, Meaning(a)))| <= |Spell(a)|
    ensures Minimal(w)
  {
    hide Write, Spell;
    SpellLength(w);
    SpellLength(WriteBare(Meaning(w)));
  }

  lemma InfixIsMinimal(l: Written, op: Token, r: Written)
    requires IsBinary(op) && Printable(Meaning(l)) && Printable(Meaning(r))
    requires |Spell(Write(Precedence(op), Meaning(l)))| <= |Spell(l)|
    requires |Spell(Write(Precedence(op) + 1, Meaning(r)))| <= |Spell(r)|
    ensures Minimal(Infix(l, op, r))
  {
    hide Write, Spell, IsBinary, Precedence;
    SpellLength(Infix(l, op, r));
    SpellLength(WriteBare(Meaning(Infix(l, op, r))));
  }

  lemma ChoiceIsMinimal(c: Written, t: Written, f: Written)
    requires Printable(Meaning(c)) && Printable(Meaning(t)) && Printable(Meaning(f))
    requires |Spell(Write(2, Meaning(c)))| <= |Spell(c)| && |Spell(Write(1, Meaning(t)))| <= |Spell(t)|
    requires |Spell(Write(1, Meaning(f)))| <= |Spell(f)|
    ensures Minimal(Choice(c, t, f))
  {
    hide Write, Spell;
    SpellLength(Choice(c, t, f));
    SpellLength(WriteBare(Meaning(Choice(c, t, f))));
  }

  lemma ReadsReadable(text: string)
    ensures Printable(ReadInteger(text))
  {
    var e := ReadInteger(text);
    LiteralRoundTrip(e.digits, e.signed, e.mode);
  }

  /** Printing what was parsed parses to the same again, and is no longer than what was parsed. */
  lemma ParsePrintParse(toks: seq<Token>)
    requires Parse(0, toks).Parsed?
    ensures var r := Parse(0, toks);
      Printable(r.expr) && Parse(0, Print(r.expr) + r.rest) == r && |Print(r.expr)| + |r.rest| <= |toks|
  {
    var w := Reconstructs(0, toks);
    PrintsMinimally(0, w);
    RoundTrip(Parse(0, toks).expr, Parse(0, toks).rest);
  }
}
