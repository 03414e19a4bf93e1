/** The precedence chain of the expression parser: what it makes of a token sequence, and the parser itself, which
    moves a cursor.  Tokens that lead out of this fragment (types, names, calls, `is`, member access) give Outside. */
module ExpressionParsers {
  import opened Tokens
  import opened Arithmetic

  datatype Expr =
    | Integer(digits: string, signed: bool, mode: OverflowMode)
    | Boolean(truth: bool)
    | Null
    | Postfix(operand: Expr, postfixOp: Token)
    | Unary(prefixOp: Token, operand: Expr)
    | Await(operand: Expr)
    | Binary(left: Expr, op: Token, right: Expr)
    | Ternary(condition: Expr, trueExpr: Expr, falseExpr: Expr)

  datatype SyntaxError = EXPECTED_EXPRESSION | UNEXPECTED_TOKEN

  datatype Result = Parsed(expr: Expr, rest: seq<Token>) | Failed(error: SyntaxError) | Outside

  // ----- the levels of the chain: 0 is parse_expression, 1 parse_ternary, 2 parse_or, ... 11 parse_factor,
  // ----- 12 parse_unary, 13 parse_postfix, 14 parse_primary -----

  const TERNARY := 1
  const EQUALITY := 7
  const UNARY := 12
  const POSTFIX := 13
  const PRIMARY := 14

  /** The operators the loop of a level takes. */
  predicate Loops(level: nat, t: Token) {
    match level
    case 0 => t == QUESTION_QUESTION
    case 2 => t == OR_OR
    case 3 => t == AND_AND
    case 4 => t == PIPE
    case 5 => t == CARET
    case 6 => t == AMPERSAND
    case 7 => t == EQUAL_EQUAL || t == BANG_EQUAL
    case 8 => t == LESS || t == LESS_EQUAL || t == GREATER || t == GREATER_EQUAL
    case 9 => t == LESS_LESS || t == GREATER_GREATER
    case 10 => t == PLUS || t == MINUS
    case 11 => t == STAR || t == SLASH || t == PERCENT
    case _ => false
  }

  predicate OpensUnary(t: Token) { t == BANG || t == MINUS || t == AMPERSAND || t == STAR || t == TILDE }

  predicate FollowsPostfix(t: Token) { t == PLUS_PLUS || t == MINUS_MINUS }

  function Peek(toks: seq<Token>): Token { if |toks| == 0 then END_OF_FILE else toks[0] }

  /** Names, `auto` and `void` are not told apart here; after an opening parenthesis they may start a cast. */
  predicate MayBeType(t: Token) { t.OTHER? }

  /** Keywords that parse_unary takes, and everything parse_primary takes beyond literals and parentheses. */
  predicate LeadsOutside(t: Token) { t.OTHER? || t.LBRACKET? || t.LBRACE? }

  predicate ContinuesOutside(t: Token) { t.DOT? || t.QUESTION_DOT? || t.BANG_DOT? || t.LBRACKET? }

  // ----- integer literals -----

  predicate EndsWith(text: string, c: char) { |text| > 0 && text[|text| - 1] == c }

  predicate IsHex(text: string) { |text| > 2 && text[0] == '0' && (text[1] == 'x' || text[1] == 'X') }

  function ModeOf(c: char): OverflowMode {
    match c case 't' => Trapped case 'c' => Checked case 's' => Saturating case _ => Wrapped
  }

  function ReadInteger(text: string): (e: Expr)
    ensures e.Integer?
  {
    if EndsWith(text, 'i') then Integer(text[..|text| - 1], true, NoMode)
    else if EndsWith(text, 'u') then Integer(text[..|text| - 1], false, NoMode)
    else if |text| > 1 && (EndsWith(text, 'w') || EndsWith(text, 't') || EndsWith(text, 's') ||
                           (!IsHex(text) && EndsWith(text, 'c'))) then
      Integer(text[..|text| - 1], true, ModeOf(text[|text| - 1]))
    else Integer(text, true, NoMode)
  }

  // ----- what the chain makes of a token sequence -----

  function Parse(level: nat, toks: seq<Token>): (r: Result)
    requires level <= PRIMARY
    ensures r.Parsed? ==> |r.rest| < |toks|
    decreases |toks|, PRIMARY - level
  {
    if level == TERNARY then ParseTernaryTokens(toks)
    else if level < UNARY then
      match Parse(level + 1, toks)
      case Parsed(left, rest) => ParseOperators(level, left, rest)
      case other => other
    else if level == UNARY then ParseUnaryTokens(toks)
    else if level == POSTFIX then
      match Parse(PRIMARY, toks)
      case Parsed(e, rest) => ParsePostfixes(e, rest)
      case other => other
    else ParsePrimaryTokens(toks)
  }

  function ParseOperators(level: nat, left: Expr, toks: seq<Token>): (r: Result)
    requires level < UNARY && level != TERNARY
    ensures r.Parsed? ==> |r.rest| <= |toks|
    decreases |toks|, PRIMARY - level
  {
    if |toks| > 0 && Loops(level, toks[0]) then
      match Parse(level + 1, toks[1..])
      case Parsed(right, rest) => ParseOperators(level, Binary(left, toks[0], right), rest)
      case other => other
    else if level == EQUALITY && Peek(toks) == IS then Outside
    else Parsed(left, toks)
  }

  function ParseTernaryTokens(toks: seq<Token>): (r: Result)
    ensures r.Parsed? ==> |r.rest| < |toks|
    decreases |toks|, PRIMARY - TERNARY, 0
  {
    var condition := Parse(TERNARY + 1, toks);
    if !condition.Parsed? || Peek(condition.rest) != QUESTION then condition
    else
      var whenTrue := Parse(TERNARY, condition.rest[1..]);
      if !whenTrue.Parsed? then whenTrue
      else if Peek(whenTrue.rest) != COLON then Failed(UNEXPECTED_TOKEN)
      else
        match Parse(TERNARY, whenTrue.rest[1..])
        case Parsed(whenFalse, rest) => Parsed(Ternary(condition.expr, whenTrue.expr, whenFalse), rest)
        case other => other
  }

  function ParseUnaryTokens(toks: seq<Token>): (r: Result)
    ensures r.Parsed? ==> |r.rest| < |toks|
    decreases |toks|, PRIMARY - UNARY, 0
  {
    if Peek(toks) == LPAREN && MayBeType(Peek(toks[1..])) then Outside
    else if Peek(toks) == AWAIT || (|toks| > 0 && OpensUnary(toks[0])) then
      match Parse(UNARY, toks[1..])
      case Parsed(e, rest) => Parsed(if toks[0] == AWAIT then Await(e) else Unary(toks[0], e), rest)
      case other => other
    else Parse(POSTFIX, toks)
  }

  function ParsePostfixes(e: Expr, toks: seq<Token>): (r: Result)
    ensures r.Parsed? ==> |r.rest| <= |toks|
    decreases |toks|, 0
  {
    if ContinuesOutside(Peek(toks)) then Outside
    else if |toks| > 0 && FollowsPostfix(toks[0]) then ParsePostfixes(Postfix(e, toks[0]), toks[1..])
    else Parsed(e, toks)
  }

  function ParsePrimaryTokens(toks: seq<Token>): (r: Result)
    ensures r.Parsed? ==> |r.rest| < |toks|
    decreases |toks|, 0, 0
  {
    match Peek(toks)
    case INTEGER_LITERAL(text) => Parsed(ReadInteger(text), toks[1..])
    case TRUE => Parsed(Boolean(true), toks[1..])
    case FALSE => Parsed(Boolean(false), toks[1..])
    case NULL_KW => Parsed(Null, toks[1..])
    case LPAREN =>
      (match Parse(0, toks[1..])
       case Parsed(e, rest) => if Peek(rest) == RPAREN then Parsed(e, rest[1..]) else Failed(UNEXPECTED_TOKEN)
       case other => other)
    case t => if LeadsOutside(t) then Outside else Failed(EXPECTED_EXPRESSION)
  }

  lemma NoLoopAtEnd(level: nat)
    ensures !Loops(level, END_OF_FILE)
  {
  }

  /** How the levels of loops go on from the level below. */
  lemma LoopLevels(level: nat, toks: seq<Token>)
    requires (level < UNARY && level != TERNARY) || level == POSTFIX
    ensures var below := Parse(level + 1, toks);
      Parse(level, toks) ==
        if !below.Parsed? then below
        else if level == POSTFIX then ParsePostfixes(below.expr, below.rest)
        else ParseOperators(level, below.expr, below.rest)
  {
    hide ParseOperators, ParsePostfixes;
  }

  lemma OtherLevels(toks: seq<Token>)
    ensures Parse(TERNARY, toks) == ParseTernaryTokens(toks)
    ensures Parse(UNARY, toks) == ParseUnaryTokens(toks)
    ensures Parse(PRIMARY, toks) == ParsePrimaryTokens(toks)
  {
    hide ParseTernaryTokens, ParseUnaryTokens, ParsePrimaryTokens;
  }

  // ----- the parser -----

  class Parser {
    var tokens: seq<Token>
    var current: nat

    ghost predicate Valid()
      reads this
    {
      current <= |tokens|
    }

    function Remaining(): seq<Token>
      requires Valid()
      reads this
    {
      tokens[current..]
    }

    constructor (tokens: seq<Token>)
      ensures Valid() && Remaining() == tokens
    {
      this.tokens, current := tokens, 0;
    }

    predicate Check(t: Token)
      requires Valid()
      reads this
    {
      current < |tokens| && !tokens[current].END_OF_FILE? && tokens[current] == t
    }

    function Next(): (t: Token)
      requires Valid()
      reads this
      ensures t == Peek(Remaining())
    {
      if current < |tokens| then tokens[current] else END_OF_FILE
    }

    method Advance() returns (t: Token)
      requires Valid() && current < |tokens|
      modifies this`current
      ensures Valid() && t == old(Remaining())[0] && Remaining() == old(Remaining())[1..]
    {
      t := tokens[current];
      current := current + 1;
    }

    method Match(t: Token) returns (found: bool)
      requires Valid()
      modifies this`current
      ensures Valid() && found == old(Check(t))
      ensures Remaining() == if found then old(Remaining())[1..] else old(Remaining())
    {
      found := Check(t);
      if found { current := current + 1; }
    }

    /** The outcome stands for the exception a failure throws; a success leaves the rest to be parsed. */
    ghost predicate Agrees(r: Result, spec: Result)
      requires Valid()
      reads this
    {
      r == spec && (r.Parsed? ==> Remaining() == r.rest)
    }

    method ParseExpression() returns (r: Result)
      requires Valid()
      modifies this`current
      ensures Valid() && current >= old(current) && Agrees(r, Parse(0, old(Remaining())))
      decreases |tokens| - current, PRIMARY
    {
      hide Parse;
      LoopLevels(0, Remaining());
      r := ParseTernary();
      if !r.Parsed? { return; }
      while Check(QUESTION_QUESTION)
        invariant Valid() && current > old(current) && r.Parsed? && r.rest == Remaining()
        invariant ParseOperators(0, r.expr, Remaining()) == Parse(0, old(Remaining()))
        decreases |tokens| - current
      {
        var op := Advance();
        var right := ParseTernary();
        if !right.Parsed? { return right; }
        r := Parsed(Binary(r.expr, op, right.expr), right.rest);
      }
    }

    method ParseTernary() returns (r: Result)
      requires Valid()
      modifies this`current
      ensures Valid() && current >= old(current) && Agrees(r, Parse(TERNARY, old(Remaining())))
      decreases |tokens| - current, PRIMARY - TERNARY
    {
      hide Parse;
      OtherLevels(Remaining());
      r := ParseBinary(TERNARY + 1);
      if !r.Parsed? { return; }
      var conditional := Match(QUESTION);
      if conditional {
        var whenTrue := ParseTernary();
        if !whenTrue.Parsed? { return whenTrue; }
        var colon := Match(COLON);
        if !colon { return Failed(UNEXPECTED_TOKEN); }
        var whenFalse := ParseTernary();
        if !whenFalse.Parsed? { return whenFalse; }
        r := Parsed(Ternary(r.expr, whenTrue.expr, whenFalse.expr), whenFalse.rest);
      }
    }

    /** parse_or, parse_and, parse_bitor, ... parse_factor: one body, each level with its own operators. */
    method ParseBinary(level: nat) returns (r: Result)
      requires Valid() && TERNARY < level < UNARY
      modifies this`current
      ensures Valid() && current >= old(current) && Agrees(r, Parse(level, old(Remaining())))
      decreases |tokens| - current, PRIMARY - level
    {
      hide Parse, Loops;
      NoLoopAtEnd(level);
      LoopLevels(level, Remaining());
      if level + 1 == UNARY { r := ParseUnary(); } else { r := ParseBinary(level + 1); }
      if !r.Parsed? { return; }
      while Loops(level, Next())
        invariant Valid() && current > old(current) && r.Parsed? && r.rest == Remaining()
        invariant ParseOperators(level, r.expr, Remaining()) == Parse(level, old(Remaining()))
        decreases |tokens| - current
      {
        var op := Advance();
        var right;
        if level + 1 == UNARY { right := ParseUnary(); } else { right := ParseBinary(level + 1); }
        if !right.Parsed? { return right; }
        r := Parsed(Binary(r.expr, op, right.expr), right.rest);
      }
      if level == EQUALITY && Check(IS) { return Outside; }
    }

    method ParseUnary() returns (r: Result)
      requires Valid()
      modifies this`current
      ensures Valid() && current >= old(current) && Agrees(r, Parse(UNARY, old(Remaining())))
      decreases |tokens| - current, PRIMARY - UNARY
    {
      hide Parse;
      OtherLevels(Remaining());
      if Check(LPAREN) {
        var saved := current;
        current := current + 1;
        if current < |tokens| && MayBeType(tokens[current]) { return Outside; }
        current := saved;
      }
      var awaits := Match(AWAIT);
      if awaits {
        r := ParseUnary();
        if r.Parsed? { r := Parsed(Await(r.expr), r.rest); }
        return;
      }
      if OpensUnary(Next()) {
        var op := Advance();
        r := ParseUnary();
        if r.Parsed? { r := Parsed(Unary(op, r.expr), r.rest); }
        return;
      }
      r := ParsePostfix();
    }

    method ParsePostfix() returns (r: Result)
      requires Valid()
      modifies this`current
      ensures Valid() && current >= old(current) && Agrees(r, Parse(POSTFIX, old(Remaining())))
      decreases |tokens| - current, PRIMARY - POSTFIX
    {
      hide Parse;
      LoopLevels(POSTFIX, Remaining());
      r := ParsePrimary();
      if !r.Parsed? { return; }
      while true
        invariant Valid() && current > old(current) && r.Parsed? && r.rest == Remaining()
        invariant ParsePostfixes(r.expr, Remaining()) == Parse(POSTFIX, old(Remaining()))
        decreases |tokens| - current
      {
        if ContinuesOutside(Next()) { return Outside; }
        if !FollowsPostfix(Next()) { break; }
        var op := Advance();
        r := Parsed(Postfix(r.expr, op), Remaining());
      }
    }

    method ParsePrimary() returns (r: Result)
      requires Valid()
      modifies this`current
      ensures Valid() && current >= old(current) && Agrees(r, Parse(PRIMARY, old(Remaining())))
      decreases |tokens| - current, 0
    {
      hide Parse;
      OtherLevels(Remaining());
      if current == |tokens| { return Failed(EXPECTED_EXPRESSION); }
      var t := tokens[current];
      match t
      case INTEGER_LITERAL(text) =>
        current := current + 1;
        r := Parsed(ReadInteger(text), Remaining());
      case TRUE =>
        current := current + 1;
        r := Parsed(Boolean(true), Remaining());
      case FALSE =>
        current := current + 1;
        r := Parsed(Boolean(false), Remaining());
      case NULL_KW =>
        current := current + 1;
        r := Parsed(Null, Remaining());
      case LPAREN =>
        current := current + 1;
        r := ParseExpression();
        if !r.Parsed? { return; }
        var closed := Match(RPAREN);
        if !closed { return Failed(UNEXPECTED_TOKEN); }
        r := Parsed(r.expr, Remaining());
      case _ =>
        r := if LeadsOutside(t) then Outside else Failed(EXPECTED_EXPRESSION);
    }
  }
}
