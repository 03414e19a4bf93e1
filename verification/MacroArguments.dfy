/** How a macro call splits the tokens between its parentheses into arguments. */
module MacroArguments {
  import opened Tokens
  import opened ExpressionParsers

  /** Opening brackets minus closing ones. */
  function Depth(toks: seq<Token>, open: Token, close: Token): int {
    if |toks| == 0 then 0
    else
      var last := toks[|toks| - 1];
      Depth(toks[..|toks| - 1], open, close) + (if last == open then 1 else if last == close then -1 else 0)
  }

  function Parens(toks: seq<Token>): int { Depth(toks, LPAREN, RPAREN) }

  /** Every kind of bracket is closed as often as it is opened. */
  predicate AtTop(toks: seq<Token>) {
    Parens(toks) == 0 && Depth(toks, LBRACKET, RBRACKET) == 0 && Depth(toks, LBRACE, RBRACE) == 0
  }

  /** No closing parenthesis comes before its opening one, and the input does not end. */
  predicate Safe(toks: seq<Token>) {
    END_OF_FILE !in toks && forall i :: 0 <= i <= |toks| ==> Parens(toks[..i]) >= 0
  }

  /** No comma stands outside brackets. */
  predicate Undivided(toks: seq<Token>) {
    forall i :: 0 <= i < |toks| && toks[i] == COMMA ==> !AtTop(toks[..i])
  }

  function Join(args: seq<seq<Token>>): seq<Token> {
    if |args| == 0 then []
    else if |args| == 1 then args[0]
    else Join(args[..|args| - 1]) + [COMMA] + args[|args| - 1]
  }

  /** k is the place of the closing parenthesis that matches one opened just before toks. */
  predicate Closes(toks: seq<Token>, k: nat) {
    k < |toks| && toks[k] == RPAREN && Safe(toks[..k]) && Parens(toks[..k]) == 0
  }

  /** The arguments as they should be: joined they are balanced, each is undivided, and a comma divides two of them
      only outside brackets opened in the argument before it.  An empty pair of parentheses has no argument. */
  predicate Split(args: seq<seq<Token>>) {
    args != [[]] && Divided(args)
  }

  predicate Divided(args: seq<seq<Token>>) {
    (forall i :: 0 <= i < |args| ==> Safe(args[i]) && Parens(args[i]) == 0 && Undivided(args[i])) &&
    (forall i :: 0 <= i < |args| - 1 ==> AtTop(args[i]))
  }

  lemma {:induction false} DepthAppend(a: seq<Token>, b: seq<Token>, open: Token, close: Token)
    ensures Depth(a + b, open, close) == Depth(a, open, close) + Depth(b, open, close)
    decreases |b|
  {
    if |b| == 0 { assert a + b == a; }
    else {
      assert (a + b)[..|a + b| - 1] == a + b[..|b| - 1];
      DepthAppend(a, b[..|b| - 1], open, close);
    }
  }

  lemma SafeAppend(a: seq<Token>, b: seq<Token>)
    requires Safe(a) && Safe(b)
    ensures Safe(a + b)
  {
    forall i | 0 <= i <= |a + b| ensures Parens((a + b)[..i]) >= 0 {
      if i <= |a| { assert (a + b)[..i] == a[..i]; }
      else {
        assert (a + b)[..i] == a + b[..i - |a|];
        DepthAppend(a, b[..i - |a|], LPAREN, RPAREN);
        assert a[..|a|] == a;
      }
    }
  }

  lemma SafeOne(a: seq<Token>, t: Token)
    requires Safe(a) && t != END_OF_FILE && !(t == RPAREN && Parens(a) == 0)
    ensures Safe(a + [t])
  {
    forall i | 0 <= i <= |a + [t]| ensures Parens((a + [t])[..i]) >= 0 {
      if i <= |a| { assert (a + [t])[..i] == a[..i]; }
      else {
        assert (a + [t])[..i] == a + [t] && (a + [t])[..|a|] == a;
        assert a[..|a|] == a;
      }
    }
  }

  /** What stops an argument: the closing parenthesis, a comma outside brackets, or the end of the input. */
  predicate Stops(arg: seq<Token>, rest: seq<Token>) {
    Peek(rest) == END_OF_FILE || (rest[0] == RPAREN && Parens(arg) == 0) || (rest[0] == COMMA && AtTop(arg))
  }

  predicate AtEnd(p: Parser)
    requires p.Valid()
    reads p
  {
    p.current == |p.tokens| || p.tokens[p.current] == END_OF_FILE
  }

  /** The counters the loop keeps for an argument taken so far. */
  predicate Counts(arg: seq<Token>, parenDepth: int, bracketDepth: int, braceDepth: int) {
    parenDepth == Parens(arg) && bracketDepth == Depth(arg, LBRACKET, RBRACKET) && braceDepth == Depth(arg, LBRACE, RBRACE)
  }

  ghost predicate Taken(toks: seq<Token>, arg: seq<Token>, rest: seq<Token>) {
    toks == arg + rest && Safe(arg) && Undivided(arg)
  }

  function Change(t: Token, open: Token, close: Token): int {
    if t == open then 1 else if t == close then -1 else 0
  }

  lemma CountOne(arg: seq<Token>, parenDepth: int, bracketDepth: int, braceDepth: int, t: Token)
    requires Counts(arg, parenDepth, bracketDepth, braceDepth)
    ensures Counts(arg + [t], parenDepth + Change(t, LPAREN, RPAREN), bracketDepth + Change(t, LBRACKET, RBRACKET),
                   braceDepth + Change(t, LBRACE, RBRACE))
  {
    hide Depth, Change;
    DepthOfOneMore(arg, t, LPAREN, RPAREN);
    DepthOfOneMore(arg, t, LBRACKET, RBRACKET);
    DepthOfOneMore(arg, t, LBRACE, RBRACE);
  }

  lemma DepthOfOneMore(toks: seq<Token>, t: Token, open: Token, close: Token)
    ensures Depth(toks + [t], open, close) == Depth(toks, open, close) + Change(t, open, close)
  {
    assert (toks + [t])[..|toks|] == toks;
  }

  lemma TakeOne(toks: seq<Token>, arg: seq<Token>, rest: seq<Token>)
    requires Taken(toks, arg, rest) && Peek(rest) != END_OF_FILE
    requires !(rest[0] == RPAREN && Parens(arg) == 0) && !(rest[0] == COMMA && AtTop(arg))
    ensures Taken(toks, arg + [rest[0]], rest[1..])
  {
    hide Safe, Undivided, AtTop;
    SafeOne(arg, rest[0]);
    UndividedOne(arg, rest[0]);
    assert rest == [rest[0]] + rest[1..];
  }

  /** Takes the longest argument: an undivided stretch up to what stops it. */
  method CollectMacroArgTokens(p: Parser) returns (argTokens: seq<Token>)
    requires p.Valid()
    modifies p`current
    ensures p.Valid() && p.current >= old(p.current) && old(p.Remaining()) == argTokens + p.Remaining()
    ensures Safe(argTokens) && Undivided(argTokens) && Stops(argTokens, p.Remaining())
  {
    hide Safe, Undivided, Depth, Taken;
    argTokens := [];
    var parenDepth, bracketDepth, braceDepth := 0, 0, 0;
    NothingIsTaken(p.Remaining());
    while !AtEnd(p)
      invariant p.Valid() && p.current >= old(p.current) && Taken(old(p.Remaining()), argTokens, p.Remaining())
      invariant Counts(argTokens, parenDepth, bracketDepth, braceDepth)
      decreases |p.tokens| - p.current
    {
      ghost var rest, wasParen, wasBracket, wasBrace := p.Remaining(), parenDepth, bracketDepth, braceDepth;
      if p.Check(LPAREN) { parenDepth := parenDepth + 1; }
      else if p.Check(RPAREN) {
        if parenDepth == 0 { break; }
        parenDepth := parenDepth - 1;
      }
      else if p.Check(LBRACKET) { bracketDepth := bracketDepth + 1; }
      else if p.Check(RBRACKET) { bracketDepth := bracketDepth - 1; }
      else if p.Check(LBRACE) { braceDepth := braceDepth + 1; }
      else if p.Check(RBRACE) { braceDepth := braceDepth - 1; }
      else if p.Check(COMMA) && parenDepth == 0 && bracketDepth == 0 && braceDepth == 0 { break; }
      CountOne(argTokens, wasParen, wasBracket, wasBrace, rest[0]);
      TakeOne(old(p.Remaining()), argTokens, rest);
      argTokens := argTokens + [p.tokens[p.current]];
      var _ := p.Advance();
    }
    TakenGives(old(p.Remaining()), argTokens, p.Remaining());
  }

  lemma TakenGives(toks: seq<Token>, arg: seq<Token>, rest: seq<Token>)
    requires Taken(toks, arg, rest)
    ensures toks == arg + rest && Safe(arg) && Undivided(arg)
  {
    hide Safe, Undivided;
  }

  lemma NothingIsTaken(toks: seq<Token>)
    ensures Taken(toks, [], toks) && Counts([], 0, 0, 0)
  {
    assert [] + toks == toks;
  }

  lemma UndividedOne(a: seq<Token>, t: Token)
    requires Undivided(a) && (t == COMMA ==> !AtTop(a))
    ensures Undivided(a + [t])
  {
    forall i | 0 <= i < |a + [t]| && (a + [t])[i] == COMMA ensures !AtTop((a + [t])[..i]) {
      if i < |a| { assert (a + [t])[..i] == a[..i]; } else { assert (a + [t])[..i] == a; }
    }
  }

  lemma JoinOne(args: seq<seq<Token>>, arg: seq<Token>)
    ensures Join(args + [arg]) == if |args| == 0 then arg else Join(args) + [COMMA] + arg
  {
    assert (args + [arg])[..|args|] == args;
  }

  lemma CommaKeeps(a: seq<Token>)
    ensures Parens(a + [COMMA]) == Parens(a)
  {
    DepthAppend(a, [COMMA], LPAREN, RPAREN);
    assert Depth([COMMA], LPAREN, RPAREN) == 0;
  }

  lemma CloseFound(toks: seq<Token>, inside: seq<Token>)
    requires inside + [RPAREN] <= toks && Safe(inside) && Parens(inside) == 0
    ensures Closes(toks, |inside|)
  {
    assert toks[..|inside|] == inside && toks[|inside|] == RPAREN;
  }

  /** A closing parenthesis is not inside what is safe, and not behind the end of the input. */
  lemma CloseIsNext(toks: seq<Token>, inside: seq<Token>, k: nat)
    requires inside <= toks && Closes(toks, k)
    ensures k < |inside| ==> !Safe(inside)
    ensures k >= |inside| ==> Peek(toks[|inside|..]) != END_OF_FILE
  {
    if k < |inside| {
      assert inside[..k + 1] == toks[..k] + [RPAREN];
      assert (toks[..k] + [RPAREN])[..k] == toks[..k];
    } else if k > |inside| {
      assert toks[|inside|] == toks[..k][|inside|];
    }
  }

  lemma CloseMissing(toks: seq<Token>, inside: seq<Token>)
    requires inside <= toks && Safe(inside) && Peek(toks[|inside|..]) == END_OF_FILE
    ensures !exists k :: Closes(toks, k)
  {
    hide Closes, Safe;
    forall k: nat ensures !Closes(toks, k) {
      if Closes(toks, k) { CloseIsNext(toks, inside, k); }
    }
  }

  /** Arguments taken so far, each up to what stops it, and what is left. */
  ghost predicate Collected(args: seq<seq<Token>>, toks: seq<Token>, rest: seq<Token>) {
    toks == Join(args) + rest && Safe(Join(args)) &&
    Parens(Join(args)) == (if |args| == 0 then 0 else Parens(args[|args| - 1])) &&
    (forall i :: 0 <= i < |args| ==> Safe(args[i]) && Undivided(args[i])) &&
    (forall i :: 0 <= i < |args| - 1 ==> AtTop(args[i])) && (|args| > 0 ==> Stops(args[|args| - 1], rest))
  }

  lemma CollectFirst(arg: seq<Token>, toks: seq<Token>, rest: seq<Token>)
    requires toks == arg + rest && Safe(arg) && Undivided(arg) && Stops(arg, rest)
    ensures Collected([arg], toks, rest)
  {
    assert Join([arg]) == arg;
  }

  lemma CollectNext(args: seq<seq<Token>>, toks: seq<Token>, from: seq<Token>, arg: seq<Token>, rest: seq<Token>)
    requires |args| > 0 && Collected(args, toks, from) && from == [COMMA] + (arg + rest)
    requires Safe(arg) && Undivided(arg) && Stops(arg, rest)
    ensures Collected(args + [arg], toks, rest)
  {
    hide Safe, Undivided, AtTop, Join, Depth;
    var before := Join(args) + [COMMA];
    assert from[0] == COMMA;
    SafeOne(Join(args), COMMA);
    CommaKeeps(Join(args));
    SafeAppend(before, arg);
    AtTopIsBalanced(args[|args| - 1]);
    DepthAppend(before, arg, LPAREN, RPAREN);
    JoinOne(args, arg);
    assert toks == (before + arg) + rest;
  }

  lemma AtTopIsBalanced(arg: seq<Token>)
    ensures AtTop(arg) ==> Parens(arg) == 0
  {
  }

  /** The arguments of a macro call whose opening parenthesis was taken, and its closing one.  Nothing is lost: joined
      by commas the arguments are the tokens up to the matching parenthesis.  It fails only without such a one. */
  method MacroArguments(p: Parser) returns (ok: bool, args: seq<seq<Token>>)
    requires p.Valid()
    modifies p`current
    ensures p.Valid()
    ensures ok <==> exists k :: Closes(old(p.Remaining()), k)
    ensures ok ==> Split(args) && Closes(old(p.Remaining()), |Join(args)|)
    ensures ok ==> old(p.Remaining()) == Join(args) + [RPAREN] + p.Remaining()
  {
    hide Closes, Safe, AtTop, Undivided, Join, Depth, Collected, Split;
    ghost var toks := p.Remaining();
    args := [];
    NothingIsCollected(toks);
    while !p.Check(RPAREN) && !AtEnd(p)
      invariant p.Valid() && Collected(args, toks, p.Remaining()) && (args == [[]] ==> !p.Check(RPAREN))
      decreases |p.tokens| - p.current + if |args| == 0 then 1 else 0
    {
      ghost var from := p.Remaining();
      CommaIsNext(args, toks, from);
      if |args| > 0 {
        var comma := p.Match(COMMA);
        assert comma;
      }
      var arg := CollectMacroArgTokens(p);
      if |args| > 0 {
        assert from == [COMMA] + (arg + p.Remaining());
        CollectNext(args, toks, from, arg, p.Remaining());
      } else {
        CollectFirst(arg, toks, p.Remaining());
        assert args + [arg] == [arg];
      }
      args := args + [arg];
    }
    ghost var rest := p.Remaining();
    ok := p.Match(RPAREN);
    if ok {
      SplitFound(args, toks, rest);
    } else {
      NothingCloses(args, toks, rest);
    }
  }

  lemma NothingCloses(args: seq<seq<Token>>, toks: seq<Token>, rest: seq<Token>)
    requires Collected(args, toks, rest) && Peek(rest) == END_OF_FILE
    ensures !exists k :: Closes(toks, k)
  {
    hide Safe, Undivided, AtTop, Depth, Join, Closes;
    assert toks[|Join(args)|..] == rest;
    CloseMissing(toks, Join(args));
  }

  lemma CommaIsNext(args: seq<seq<Token>>, toks: seq<Token>, rest: seq<Token>)
    requires Collected(args, toks, rest) && Peek(rest) != END_OF_FILE && Peek(rest) != RPAREN
    ensures if |args| > 0 then rest[0] == COMMA else rest == toks
  {
    hide Safe, Undivided, AtTop, Depth;
  }

  lemma NothingIsCollected(toks: seq<Token>)
    ensures Collected([], toks, toks)
  {
    assert [] + toks == toks;
  }

  lemma SplitFound(args: seq<seq<Token>>, toks: seq<Token>, rest: seq<Token>)
    requires Collected(args, toks, rest) && args != [[]] && Peek(rest) == RPAREN
    ensures Split(args) && Closes(toks, |Join(args)|) && toks == Join(args) + [RPAREN] + rest[1..]
  {
    hide Join, Depth, Safe, Undivided;
    assert rest == [RPAREN] + rest[1..];
    assert toks == Join(args) + [RPAREN] + rest[1..];
    CloseFound(toks, Join(args));
  }

  // ----- the split is the only one -----

  lemma {:induction false} JoinFront(args: seq<seq<Token>>)
    requires |args| >= 2
    ensures Join(args) == args[0] + ([COMMA] + Join(args[1..]))
    decreases |args|
  {
    var n := |args| - 1;
    JoinOne(args[1..][..n - 1], args[n]);
    assert args[1..][..n - 1] + [args[n]] == args[1..];
    if n >= 2 {
      JoinFront(args[..n]);
      assert args[..n][1..] == args[1..][..n - 1];
    }
  }

  /** An undivided argument does not go on past a comma where another one ends. */
  lemma CommaDivides(a: seq<Token>, b: seq<Token>, rest: seq<Token>)
    requires a + [COMMA] <= b + rest && AtTop(a)
    ensures |a| < |b| ==> !Undivided(b)
  {
    if |a| < |b| {
      assert b[..|a|] == (b + rest)[..|a|] == a;
      assert b[|a|] == (a + [COMMA])[|a|];
    }
  }

  lemma {:induction false} DivisionIsUnique(a: seq<seq<Token>>, b: seq<seq<Token>>)
    requires Divided(a) && Divided(b) && |a| > 0 && |b| > 0 && Join(a) == Join(b)
    ensures a == b
    decreases |a|
  {
    hide Safe, Undivided, AtTop, Depth, Join;
    if |a| >= 2 { JoinFront(a); } else { JoinSingle(a); }
    if |b| >= 2 { JoinFront(b); } else { JoinSingle(b); }
    if |a| >= 2 && |b| >= 2 {
      var restA, restB := [COMMA] + Join(a[1..]), [COMMA] + Join(b[1..]);
      CommaDivides(a[0], b[0], restB);
      CommaDivides(b[0], a[0], restA);
      assert (a[0] + restA)[..|a[0]|] == a[0] && (b[0] + restB)[..|b[0]|] == b[0];
      assert (a[0] + restA)[|a[0]|..] == restA && (b[0] + restB)[|b[0]|..] == restB;
      assert restA[1..] == Join(a[1..]) && restB[1..] == Join(b[1..]);
      DivisionIsUnique(a[1..], b[1..]);
    } else if |a| >= 2 {
      CommaDivides(a[0], b[0], []);
    } else if |b| >= 2 {
      CommaDivides(b[0], a[0], []);
    }
  }

  lemma JoinSingle(a: seq<seq<Token>>)
    requires |a| == 1
    ensures Join(a) == a[0] == a[0] + []
  {
  }

  /** The tokens between the parentheses determine the arguments. */
  lemma SplitIsUnique(a: seq<seq<Token>>, b: seq<seq<Token>>)
    requires Split(a) && Split(b) && Join(a) == Join(b)
    ensures a == b
  {
    hide Safe, Undivided, AtTop, Depth;
    if |a| > 0 && |b| > 0 { DivisionIsUnique(a, b); }
    else if |a| > 0 { OnlyEmptyJoinsEmpty(a); }
    else if |b| > 0 { OnlyEmptyJoinsEmpty(b); }
  }

  lemma OnlyEmptyJoinsEmpty(a: seq<seq<Token>>)
    requires |a| > 0 && Join(a) == []
    ensures a == [[]]
  {
    if |a| >= 2 { JoinFront(a); }
  }

  // ----- f((1, 1), [1, 1], {1, 1}) -----

  const ONE: Token := INTEGER_LITERAL("1")

  function Pair(open: Token, close: Token): seq<Token> { [open, ONE, COMMA, ONE, close] }

  predicate Brackets(open: Token, close: Token) {
    (open == LPAREN && close == RPAREN) || (open == LBRACKET && close == RBRACKET) || (open == LBRACE && close == RBRACE)
  }

  /** Within a pair its own brackets are open and no others. */
  lemma PairDepth(open: Token, close: Token, o: Token, c: Token, i: nat)
    requires Brackets(open, close) && Brackets(o, c) && i <= 5
    ensures Depth(Pair(open, close)[..i], o, c) == if open == o && 0 < i < 5 then 1 else 0
    decreases i
  {
    hide Depth;
    if i == 0 { NoDepth(o, c); } else {
      PairDepth(open, close, o, c, i - 1);
      assert Pair(open, close)[..i] == Pair(open, close)[..i - 1] + [Pair(open, close)[i - 1]];
      DepthOfOneMore(Pair(open, close)[..i - 1], Pair(open, close)[i - 1], o, c);
    }
  }

  lemma NoDepth(o: Token, c: Token)
    ensures Depth([], o, c) == 0
  {
  }

  lemma PairIsAnArgument(open: Token, close: Token)
    requires Brackets(open, close)
    ensures var pair := Pair(open, close); Safe(pair) && Undivided(pair) && AtTop(pair)
  {
    hide Depth;
    var pair := Pair(open, close);
    forall i: nat | i <= 5
      ensures Parens(pair[..i]) == (if open == LPAREN && 0 < i < 5 then 1 else 0)
      ensures Depth(pair[..i], LBRACKET, RBRACKET) == (if open == LBRACKET && 0 < i < 5 then 1 else 0)
      ensures Depth(pair[..i], LBRACE, RBRACE) == (if open == LBRACE && 0 < i < 5 then 1 else 0)
    {
      PairDepth(open, close, LPAREN, RPAREN, i);
      PairDepth(open, close, LBRACKET, RBRACKET, i);
      PairDepth(open, close, LBRACE, RBRACE, i);
    }
    assert pair[..5] == pair;
  }

  /** Commas inside parentheses, brackets and braces divide nothing: there are three arguments. */
  method BracketsStayTogether() returns (args: seq<seq<Token>>)
    ensures args ==
      [[LPAREN, ONE, COMMA, ONE, RPAREN], [LBRACKET, ONE, COMMA, ONE, RBRACKET], [LBRACE, ONE, COMMA, ONE, RBRACE]]
  {
    hide Safe, Undivided, AtTop, Depth, Join, Closes;
    var p := new Parser([LPAREN, ONE, COMMA, ONE, RPAREN, COMMA, LBRACKET, ONE, COMMA, ONE, RBRACKET, COMMA,
                         LBRACE, ONE, COMMA, ONE, RBRACE, RPAREN]);
    ghost var toks := p.Remaining();
    ghost var three := [Pair(LPAREN, RPAREN), Pair(LBRACKET, RBRACKET), Pair(LBRACE, RBRACE)];
    ThreeAreArguments(three);
    CloseFound(toks, Join(three)) by { assert Join(three) + [RPAREN] == toks; }
    var ok;
    ok, args := MacroArguments(p);
    ClosesOnce(toks, |Join(three)|, |Join(args)|);
    assert Join(args) == toks[..|Join(args)|] && Join(three) == toks[..|Join(three)|];
    SplitIsUnique(args, three);
  }

  lemma ThreeAreArguments(three: seq<seq<Token>>)
    requires three == [Pair(LPAREN, RPAREN), Pair(LBRACKET, RBRACKET), Pair(LBRACE, RBRACE)]
    ensures Split(three) && Safe(Join(three)) && Parens(Join(three)) == 0
    ensures Join(three) == Pair(LPAREN, RPAREN) + [COMMA] + Pair(LBRACKET, RBRACKET) + [COMMA] + Pair(LBRACE, RBRACE)
  {
    hide Safe, Undivided, Depth, Join, Pair;
    var (a, b, c, comma) := (three[0], three[1], three[2], [COMMA]);
    PairIsAnArgument(LPAREN, RPAREN);
    PairIsAnArgument(LBRACKET, RBRACKET);
    PairIsAnArgument(LBRACE, RBRACE);
    assert three == [a, b] + [c] && [a, b] == [a] + [b] && [a] == [] + [a];
    JoinOne([], a);
    JoinOne([a], b);
    JoinOne([a, b], c);
    SafeOne(a, COMMA);
    SafeAppend(a + comma, b);
    DepthAppend(a + comma, b, LPAREN, RPAREN);
    CommaKeeps(a);
    SafeOne(a + comma + b, COMMA);
    SafeAppend(a + comma + b + comma, c);
    DepthAppend(a + comma + b + comma, c, LPAREN, RPAREN);
    CommaKeeps(a + comma + b);
  }

  lemma ClosesOnce(toks: seq<Token>, j: nat, k: nat)
    requires Closes(toks, j) && Closes(toks, k)
    ensures j == k
  {
    hide Safe;
    if j < k { CloseIsNext(toks, toks[..k], j); }
    if k < j { CloseIsNext(toks, toks[..j], k); }
  }
}
