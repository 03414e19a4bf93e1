/** Two ways to find a line: the lexer counts lines and columns as it goes, the diagnostics build a table of offsets. */
module LineIndex {
  /** Where each line of the text starts. */
  function Offsets(text: string): (r: seq<nat>)
    ensures |r| >= 1 && r[0] == 0
  {
    if |text| == 0 then [0]
    else
      var n := |text| - 1;
      Offsets(text[..n]) + if text[n] == '\n' then [n + 1] else []
  }

  function LastStart(text: string): nat { Offsets(text)[|Offsets(text)| - 1] }

  method BuildLineIndex(source: string) returns (offsets: seq<nat>)
    ensures offsets == Offsets(source)
  {
    offsets := [0];
    for i := 0 to |source|
      invariant offsets == Offsets(source[..i])
    {
      assert source[..i + 1][..i] == source[..i];
      if source[i] == '\n' { offsets := offsets + [i + 1]; }
    }
    assert source[..|source|] == source;
  }

  lemma {:induction false} OffsetsOfPrefix(source: string, n: nat)
    requires n <= |source|
    ensures Offsets(source[..n]) <= Offsets(source)
    decreases |source|
  {
    if n == |source| { assert source[..n] == source; }
    else {
      var m := |source| - 1;
      OffsetsOfPrefix(source[..m], n);
      assert source[..m][..n] == source[..n];
    }
  }

  predicate Rising(offsets: seq<nat>) {
    forall i, j :: 0 <= i < j < |offsets| ==> offsets[i] < offsets[j]
  }

  /** Every line but the first starts behind a newline. */
  predicate StartLines(text: string, offsets: seq<nat>) {
    forall i :: 0 < i < |offsets| ==> 0 < offsets[i] <= |text| && text[offsets[i] - 1] == '\n'
  }

  /** A line starts behind every newline. */
  predicate MissNone(text: string, offsets: seq<nat>) {
    forall p :: 0 <= p < |text| && text[p] == '\n' ==> p + 1 in offsets
  }

  lemma {:induction false} OffsetsDivide(text: string)
    ensures Rising(Offsets(text)) && StartLines(text, Offsets(text)) && MissNone(text, Offsets(text))
    decreases |text|
  {
    if |text| > 0 {
      var n := |text| - 1;
      var before, offsets := Offsets(text[..n]), Offsets(text);
      OffsetsDivide(text[..n]);
      forall i | 0 < i < |offsets| ensures 0 < offsets[i] <= |text| && text[offsets[i] - 1] == '\n' {
        if i < |before| { assert offsets[i] == before[i]; }
      }
      forall p | 0 <= p < |text| && text[p] == '\n' ensures p + 1 in offsets {
        if p < n { assert text[..n][p] == '\n'; } else { assert offsets[|before|] == p + 1; }
      }
      forall i, j | 0 <= i < j < |offsets| ensures offsets[i] < offsets[j] {
        if j == |before| && i > 0 { assert before[i] <= n; }
      }
    }
  }

  // ----- white space and comments -----

  predicate CommentAt(text: string, p: nat) { p + 1 < |text| && text[p] == '/' && text[p + 1] == '/' }

  predicate EndsComment(text: string, p: nat) { p >= |text| || text[p] in "\n\0" }

  function CommentEnd(text: string, p: nat): (q: nat)
    ensures q >= p && EndsComment(text, q) && forall k :: p <= k < q ==> !EndsComment(text, k)
    decreases |text| - p
  {
    if EndsComment(text, p) then p else CommentEnd(text, p + 1)
  }

  /** Where the next token starts. */
  function SkipFrom(text: string, p: nat): nat
    decreases |text| - p
  {
    if p < |text| && text[p] in " \t\n\r" then SkipFrom(text, p + 1)
    else if CommentAt(text, p) then
      assert !EndsComment(text, p);
      SkipFrom(text, CommentEnd(text, p))
    else p
  }

  /** One character of white space; or one comment, from its two slashes up to the newline, the NUL or the end of the text
      behind it. */
  predicate Blank(text: string, p: nat, q: nat) {
    if p < |text| && (text[p] == ' ' || text[p] == '\t' || text[p] == '\n' || text[p] == '\r') then q == p + 1
    else
      p + 2 <= q && p + 2 <= |text| && text[p..p + 2] == "//" && !GoesOn(text, q) && forall k :: p <= k < q ==> GoesOn(text, k)
  }

  /** A comment goes on with this character. */
  predicate GoesOn(text: string, k: nat) { k < |text| && text[k] != '\n' && text[k] != '\0' }

  lemma CommentIsBlank(text: string, p: nat, q: nat)
    requires !(p < |text| && text[p] in " \t\n\r")
    ensures Blank(text, p, q) <==>
      CommentAt(text, p) && q > p && EndsComment(text, q) && forall k :: p <= k < q ==> !EndsComment(text, k)
  {
    SlashesStart(text, p);
    forall k: nat ensures GoesOn(text, k) <==> !EndsComment(text, k) { }
    assert CommentAt(text, p) ==> !EndsComment(text, p + 1);
  }

  lemma SlashesStart(text: string, p: nat)
    ensures CommentAt(text, p) <==> p + 2 <= |text| && text[p..p + 2] == "//"
  {
    if p + 2 <= |text| {
      var two := text[p..p + 2];
      assert two[0] == text[p] && two[1] == text[p + 1];
    }
  }

  /** The text from p to q is a sequence of blanks that are cut at these places. */
  predicate Blanks(text: string, p: nat, q: nat, cuts: seq<nat>) {
    |cuts| > 0 && cuts[0] == p && cuts[|cuts| - 1] == q &&
    forall i :: 0 <= i < |cuts| - 1 ==> Blank(text, cuts[i], cuts[i + 1])
  }

  /** A token starts at q exactly when all from p to q is white space and whole comments, and no more of it follows. */
  lemma SkipIff(text: string, p: nat, q: nat)
    ensures q == SkipFrom(text, p) <==>
      (exists cuts :: Blanks(text, p, q, cuts)) && forall r: nat :: !Blank(text, q, r)
  {
    hide SkipFrom, Blank, Blanks;
    var found := BlanksAreSkipped(text, p);
    if cuts :| Blanks(text, p, q, cuts) && forall r: nat :: !Blank(text, q, r) { SkipsBlanks(text, p, q, cuts); }
  }

  lemma {:induction false} BlanksAreSkipped(text: string, p: nat) returns (cuts: seq<nat>)
    ensures Blanks(text, p, SkipFrom(text, p), cuts)
    ensures forall r: nat :: !Blank(text, SkipFrom(text, p), r)
    decreases |text| - p
  {
    if p < |text| && text[p] in " \t\n\r" {
      var rest := BlanksAreSkipped(text, p + 1);
      cuts := [p] + rest;
    } else if CommentAt(text, p) {
      assert !EndsComment(text, p);
      CommentIsBlank(text, p, CommentEnd(text, p));
      var rest := BlanksAreSkipped(text, CommentEnd(text, p));
      cuts := [p] + rest;
    } else {
      cuts := [p];
      forall r: nat ensures !Blank(text, p, r) { CommentIsBlank(text, p, r); }
    }
  }

  lemma {:induction false} SkipsBlanks(text: string, p: nat, q: nat, cuts: seq<nat>)
    requires Blanks(text, p, q, cuts) && forall r: nat :: !Blank(text, q, r)
    ensures q == SkipFrom(text, p)
    decreases |cuts|
  {
    if |cuts| == 1 {
      assert !Blank(text, q, q + 1) && !Blank(text, q, CommentEnd(text, q));
      if CommentAt(text, q) && !(text[q] in " \t\n\r") { CommentIsBlank(text, q, CommentEnd(text, q)); }
    } else {
      assert Blank(text, cuts[0], cuts[1]);
      if !(p < |text| && text[p] in " \t\n\r") {
        CommentIsBlank(text, p, cuts[1]);
        OneEnd(text, p, cuts[1]);
      }
      SkipsBlanks(text, cuts[1], q, cuts[1..]);
    }
  }

  lemma OneEnd(text: string, p: nat, q: nat)
    requires q > p && EndsComment(text, q) && forall k :: p <= k < q ==> !EndsComment(text, k)
    ensures CommentEnd(text, p) == q
  {
    hide EndsComment;
  }

  // ----- string literals -----

  function Unescaped(c: char): char { if c == 'n' then '\n' else if c == 't' then '\t' else c }

  /** The value of a string literal whose text starts at p, and where the literal ends.  An escape at the end of the text
      steps past it. */
  function StringFrom(text: string, p: nat): (r: (string, nat))
    decreases |text| - p
  {
    if p >= |text| || text[p] == '\0' then ("", p)
    else if text[p] == '"' then ("", p + 1)
    else if text[p] == '\\' then
      var rest := StringFrom(text, p + 2);
      ([Unescaped(if p + 1 < |text| then text[p + 1] else '\0')] + rest.0, rest.1)
    else
      var rest := StringFrom(text, p + 1);
      ([text[p]] + rest.0, rest.1)
  }

  predicate TripleQuoteAt(text: string, p: nat) {
    p + 2 < |text| && text[p] == '"' && text[p + 1] == '"' && text[p + 2] == '"'
  }

  /** The same for a block string. */
  function BlockFrom(text: string, p: nat): (r: (string, nat))
    decreases |text| - p
  {
    if p >= |text| then ("", p)
    else if TripleQuoteAt(text, p) then ("", p + 3)
    else
      var rest := BlockFrom(text, p + 1);
      ([text[p]] + rest.0, rest.1)
  }

  lemma TripleQuoteIs(text: string, p: nat)
    ensures TripleQuoteAt(text, p) <==> p + 3 <= |text| && text[p..p + 3] == "\"\"\""
  {
    if p + 3 <= |text| {
      var three := text[p..p + 3];
      assert three[0] == text[p] && three[1] == text[p + 1] && three[2] == text[p + 2];
    }
  }

  /** One character of a string literal, and how it is written: as itself, or behind a backslash, where n is a newline, t a
      tab and every other character itself; a backslash at the end of the text gives a NUL. */
  predicate Writes(text: string, p: nat, c: char, q: nat) {
    p < |text| && text[p] != '"' && text[p] != '\0' &&
    if text[p] != '\\' then c == text[p] && q == p + 1
    else
      q == p + 2 &&
      if p + 1 >= |text| then c == '\0'
      else if text[p + 1] == 'n' then c == '\n'
      else if text[p + 1] == 't' then c == '\t'
      else c == text[p + 1]
  }

  /** The characters of value are written one behind the other from p on, and the literal ends at the next quote, or without
      one at a NUL or the end of the text. */
  predicate IsLiteral(text: string, p: nat, value: string, end: nat)
    decreases |value|
  {
    if |value| == 0 then
      if p < |text| && text[p] == '"' then end == p + 1 else (p >= |text| || text[p] == '\0') && end == p
    else
      var q := if p < |text| && text[p] == '\\' then p + 2 else p + 1;
      Writes(text, p, value[0], q) && IsLiteral(text, q, value[1..], end)
  }

  /** The value of a literal and its end are what is written there, and nothing else is. */
  lemma {:induction false} StringIff(text: string, p: nat, value: string, end: nat)
    ensures StringFrom(text, p) == (value, end) <==> IsLiteral(text, p, value, end)
    decreases |value|
  {
    if p < |text| && text[p] != '\0' && text[p] != '"' {
      var q := if text[p] == '\\' then p + 2 else p + 1;
      var rest := StringFrom(text, q);
      assert |StringFrom(text, p).0| > 0 && StringFrom(text, p).0[1..] == rest.0 && StringFrom(text, p).1 == rest.1;
      if |value| > 0 {
        StringIff(text, q, value[1..], end);
        assert value == [value[0]] + value[1..];
      }
    }
  }

  lemma OneMore(value: string, c: char, rest: string)
    ensures (value + [c]) + rest == value + ([c] + rest)
  {
  }

  /** How a character is written in a string literal. */
  function Escaped(c: char): string {
    if c == '\n' then "\\n" else if c == '\t' then "\\t" else if c in "\"\\\0" then ['\\', c] else [c]
  }

  function EscapedAll(s: string): string {
    if |s| == 0 then "" else Escaped(s[0]) + EscapedAll(s[1..])
  }

  lemma {:induction false} EscapedReads(text: string, p: nat, s: string)
    requires var end := p + |EscapedAll(s)|; end < |text| && text[p..end] == EscapedAll(s) && text[end] == '"'
    ensures StringFrom(text, p) == (s, p + |EscapedAll(s)| + 1)
    decreases |s|
  {
    if |s| > 0 {
      var e, rest, end := Escaped(s[0]), EscapedAll(s[1..]), p + |EscapedAll(s)|;
      assert text[p] == text[p..end][0] == e[0];
      assert |e| == 2 ==> text[p + 1] == text[p..end][1] == e[1];
      assert text[p + |e|..end] == text[p..end][|e|..] == rest;
      EscapedReads(text, p + |e|, s[1..]);
      assert [s[0]] + s[1..] == s;
    }
  }

  /** Every string is the value of its escaped text, whatever stands before the literal and behind it. */
  lemma StringRoundTrip(before: string, s: string, rest: string)
    ensures StringFrom(before + EscapedAll(s) + "\"" + rest, |before|) == (s, |before| + |EscapedAll(s)| + 1)
  {
    hide StringFrom, EscapedAll;
    var text, end := before + EscapedAll(s) + "\"" + rest, |before| + |EscapedAll(s)|;
    assert text[|before|..end] == EscapedAll(s) && text[end] == '"';
    EscapedReads(text, |before|, s);
  }

  /** A block string is the text itself up to the first three quotes, or to the end when there are none. */
  lemma {:induction false} BlockIsRaw(text: string, p: nat)
    requires p <= |text|
    ensures var (value, end) := BlockFrom(text, p);
      p + |value| <= |text| && value == text[p..p + |value|] &&
      (forall q :: p <= q < p + |value| ==> !TripleQuoteAt(text, q)) &&
      (if TripleQuoteAt(text, p + |value|) then end == p + |value| + 3 else end == p + |value| == |text|)
    decreases |text| - p
  {
    if p < |text| && !TripleQuoteAt(text, p) { BlockIsRaw(text, p + 1); }
  }

  class Cursor {
    const source: string
    var pos: nat
    var line: nat
    var column: nat

    function Seen(): string
      reads this
    {
      source[..if pos <= |source| then pos else |source|]
    }

    /** The line is one more than the newlines seen, and the column counts from the last of them. */
    ghost predicate Valid()
      reads this
    {
      line == |Offsets(Seen())| && column + LastStart(Seen()) == pos + 1
    }

    constructor (source: string)
      ensures Valid() && this.source == source && pos == 0
    {
      this.source, pos, line, column := source, 0, 1, 1;
    }

    function Peek(): char
      reads this
    {
      if pos < |source| then source[pos] else '\0'
    }

    function PeekNext(): char
      reads this
    {
      if pos + 1 < |source| then source[pos + 1] else '\0'
    }

    method Advance() returns (c: char)
      requires Valid()
      modifies this`pos, this`line, this`column
      ensures Valid() && pos == old(pos) + 1 && c == old(Peek())
    {
      c := Peek();
      if pos < |source| { assert source[..pos + 1][..pos] == source[..pos]; }
      pos := pos + 1;
      if c == '\n' {
        line, column := line + 1, 1;
      } else {
        column := column + 1;
      }
    }

    method SkipWhitespace()
      requires Valid()
      modifies this`pos, this`line, this`column
      ensures Valid() && pos == SkipFrom(source, old(pos))
    {
      hide Offsets;
      while pos < |source|
        invariant Valid() && SkipFrom(source, pos) == SkipFrom(source, old(pos))
        decreases |source| - pos
      {
        if Peek() in " \t\n\r" {
          var _ := Advance();
        } else if Peek() == '/' && PeekNext() == '/' {
          ghost var before := pos;
          while Peek() != '\n' && Peek() != '\0'
            invariant Valid() && pos >= before && CommentEnd(source, pos) == CommentEnd(source, before)
            decreases |source| - pos
          {
            var _ := Advance();
          }
          assert pos == CommentEnd(source, before);
        } else {
          break;
        }
      }
    }

    predicate AtTripleQuote()
      reads this
    {
      TripleQuoteAt(source, pos)
    }

    /** Reads a string literal: its value, the place it starts at, and the cursor behind it.  An escape may step past the
        end of the source; the cursor stays in step with the index there, too. */
    method ReadString() returns (value: string, startLine: nat, startColumn: nat)
      requires Valid() && Peek() == '"'
      modifies this`pos, this`line, this`column
      ensures Valid() && startLine == old(line) && startColumn == old(column)
      ensures var r := if TripleQuoteAt(source, old(pos)) then BlockFrom(source, old(pos) + 3)
                       else StringFrom(source, old(pos) + 1);
        value == r.0 && pos == r.1
    {
      hide StringFrom, BlockFrom;
      startLine, startColumn := line, column;
      if AtTripleQuote() { value := ReadBlock(); } else { value := ReadPlain(); }
    }

    method ReadPlain() returns (value: string)
      requires Valid() && Peek() == '"'
      modifies this`pos, this`line, this`column
      ensures Valid() && value == StringFrom(source, old(pos) + 1).0 && pos == StringFrom(source, old(pos) + 1).1
    {
      hide Offsets;
      value := "";
      var _ := Advance();
      ghost var whole := StringFrom(source, pos);
      while Peek() != '"' && Peek() != '\0'
        invariant Valid()
        invariant value + StringFrom(source, pos).0 == whole.0 && StringFrom(source, pos).1 == whole.1
        decreases |source| - pos
      {
        ghost var before := value;
        var c := Advance();
        if c == '\\' {
          var escaped := Advance();
          c := if escaped == 'n' then '\n' else if escaped == 't' then '\t' else escaped;
        }
        value := value + [c];
        OneMore(before, c, StringFrom(source, pos).0);
      }
      assert value + "" == value;
      if Peek() == '"' { var _ := Advance(); }
    }

    method ReadBlock() returns (value: string)
      requires Valid() && AtTripleQuote()
      modifies this`pos, this`line, this`column
      ensures Valid() && value == BlockFrom(source, old(pos) + 3).0 && pos == BlockFrom(source, old(pos) + 3).1
    {
      hide Offsets;
      value := "";
      var _ := Advance();
      var _ := Advance();
      var _ := Advance();
      ghost var whole := BlockFrom(source, pos);
      while pos < |source|
        invariant Valid()
        invariant value + BlockFrom(source, pos).0 == whole.0 && BlockFrom(source, pos).1 == whole.1
        decreases |source| - pos
      {
        if AtTripleQuote() {
          assert value + "" == value;
          var _ := Advance();
          var _ := Advance();
          var _ := Advance();
          return;
        }
        var c := Advance();
        OneMore(value, c, BlockFrom(source, pos).0);
        value := value + [c];
      }
      assert value + "" == value;
    }
  }

  // ----- finding a line -----

  /** One line of the text, without the newline that ends it and one carriage return before that. */
  ghost predicate IsLine(text: string, number: nat, line: string)
    requires 1 <= number <= |Offsets(text)|
  {
    var start := Offsets(text)[number - 1];
    start + |line| <= |text| && line == text[start..start + |line|] && '\n' !in line &&
    EndsLine(line, text[start + |line|..])
  }

  /** What follows a line is a carriage return and its end, or its end alone if the line ends in none. */
  predicate EndsLine(line: string, rest: string) {
    if rest == "" || rest[0] == '\n' then |line| == 0 || line[|line| - 1] != '\r'
    else rest == "\r" || (|rest| > 1 && rest[..2] == "\r\n")
  }

  /** A line of a text is one string. */
  lemma LineIsUnique(text: string, number: nat, one: string, two: string)
    requires 1 <= number <= |Offsets(text)| && IsLine(text, number, one) && IsLine(text, number, two)
    ensures one == two
  {
    hide Offsets;
    if |one| < |two| { LongerIsNoLine(text, Offsets(text)[number - 1], one, two); }
    if |two| < |one| { LongerIsNoLine(text, Offsets(text)[number - 1], two, one); }
  }

  lemma LongerIsNoLine(text: string, start: nat, one: string, two: string)
    requires |one| < |two| && start + |two| <= |text| && one == text[start..start + |one|] && two == text[start..start + |two|]
    requires '\n' !in two && EndsLine(one, text[start + |one|..])
    ensures !EndsLine(two, text[start + |two|..])
  {
    var rest, after := text[start + |one|..], text[start + |two|..];
    assert forall k :: |one| <= k < |two| ==> rest[k - |one|] == two[k];
    assert |two| == |one| + 1 ==> after == rest[1..];
    assert rest[0] != '\n';
    assert rest != "\r" ==> rest[..2][0] == rest[0] && rest[..2][1] == rest[1];
  }

  method GetLine(source: string, lineOffsets: seq<nat>, lineNum: nat) returns (r: string)
    requires lineOffsets == Offsets(source)
    ensures lineNum == 0 || lineNum > |lineOffsets| ==> r == ""
    ensures 1 <= lineNum <= |lineOffsets| ==> IsLine(source, lineNum, r)
  {
    hide Offsets, EndsLine;
    if lineNum == 0 || lineNum > |lineOffsets| { return ""; }
    NoNewlineWithin(source, lineNum);
    var start: int := lineOffsets[lineNum - 1];
    var end := if lineNum < |lineOffsets| then lineOffsets[lineNum] - 1 else |source|;
    if end > start && source[end - 1] == '\r' {
      ReturnEndsLine(source, start, end);
      end := end - 1;
    } else {
      NewlineEndsLine(source, start, end);
    }
    r := source[start..end];
    assert start + |r| == end;
  }

  lemma NewlineEndsLine(source: string, start: nat, end: nat)
    requires start <= end <= |source| && (end < |source| ==> source[end] == '\n')
    requires end > start ==> source[end - 1] != '\r'
    ensures EndsLine(source[start..end], source[end..])
  {
  }

  lemma ReturnEndsLine(source: string, start: nat, end: nat)
    requires start < end <= |source| && source[end - 1] == '\r' && (end < |source| ==> source[end] == '\n')
    ensures EndsLine(source[start..end - 1], source[end - 1..])
  {
    var rest := source[end - 1..];
    if end == |source| { assert rest == "\r"; } else { assert rest[..2] == "\r\n"; }
  }

  /** The end of a line: its newline, or the end of the text. */
  function LineEnd(text: string, number: nat): int
    requires 1 <= number <= |Offsets(text)|
  {
    if number < |Offsets(text)| then Offsets(text)[number] - 1 else |text|
  }

  lemma NoNewlineWithin(text: string, number: nat)
    requires 1 <= number <= |Offsets(text)|
    ensures Offsets(text)[number - 1] <= LineEnd(text, number) <= |text|
    ensures forall p :: Offsets(text)[number - 1] <= p < LineEnd(text, number) ==> text[p] != '\n'
    ensures LineEnd(text, number) < |text| ==> text[LineEnd(text, number)] == '\n'
  {
    hide Offsets;
    OffsetsDivide(text);
    var offsets := Offsets(text);
    var start, end := offsets[number - 1], LineEnd(text, number);
    assert number > 1 ==> offsets[number - 1] <= |text|;
    assert number < |offsets| ==> offsets[number - 1] < offsets[number];
    forall p | start <= p < end ensures text[p] != '\n' {
      if text[p] == '\n' {
        var i :| 0 <= i < |offsets| && offsets[i] == p + 1;
        OffsetBetween(offsets, number, i);
      }
    }
  }

  lemma OffsetBetween(offsets: seq<nat>, number: nat, i: nat)
    requires Rising(offsets) && 1 <= number <= |offsets| && i < |offsets|
    ensures offsets[i] > offsets[number - 1] ==> number < |offsets| && offsets[i] >= offsets[number]
  {
    if i < number - 1 { assert offsets[i] < offsets[number - 1]; }
    if number < i { assert offsets[number] < offsets[i]; }
  }

  /** Where the lexer thinks it is, the table agrees: the column counts from the offset of the line, and the character
      under the cursor stands there in the line the diagnostics print, unless it is the end of that line. */
  lemma CursorIsOnItsLine(source: string, pos: nat, line: nat, column: nat, text: string)
    requires pos <= |source| && line == |Offsets(source[..pos])| && column + LastStart(source[..pos]) == pos + 1
    requires line <= |Offsets(source)| ==> IsLine(source, line, text)
    ensures line <= |Offsets(source)| && pos + 1 == Offsets(source)[line - 1] + column
    ensures pos < |source| && source[pos] != '\n' && source[pos] != '\r' ==>
      1 <= column <= |text| && text[column - 1] == source[pos]
  {
    hide Offsets;
    OffsetsOfPrefix(source, pos);
    OffsetsDivide(source[..pos]);
    var start := Offsets(source)[line - 1];
    assert start == LastStart(source[..pos]) <= pos;
    NoNewlineSince(source[..pos]);
    assert forall p :: start <= p < pos ==> source[p] == source[..pos][p];
    if pos < |source| && source[pos] != '\n' && source[pos] != '\r' { LineReaches(source, start, text, pos); }
  }

  lemma NoNewlineSince(text: string)
    ensures LastStart(text) <= |text| && forall p :: LastStart(text) <= p < |text| ==> text[p] != '\n'
  {
    NoNewlineWithin(text, |Offsets(text)|);
  }

  /** A place behind the end of a line that is no line end itself has a newline before it. */
  lemma NewlineBefore(source: string, line: string, stop: nat, pos: nat)
    requires stop <= pos < |source| && EndsLine(line, source[stop..]) && source[pos] != '\n' && source[pos] != '\r'
    ensures exists p :: stop <= p < pos && source[p] == '\n'
  {
    var rest := source[stop..];
    assert rest[0] == source[stop];
    if rest[0] != '\n' {
      assert |rest| > 1 && rest[..2] == "\r\n";
      assert rest[..2][1] == source[stop + 1] == '\n' && rest[..2][0] == source[stop] == '\r';
    }
  }

  /** A line that starts before a place, with no newline between, holds the character there. */
  lemma LineReaches(source: string, start: nat, text: string, pos: nat)
    requires start <= pos < |source| && start + |text| <= |source| && EndsLine(text, source[start + |text|..])
    requires source[pos] != '\n' && source[pos] != '\r'
    requires forall p :: start <= p < pos ==> source[p] != '\n'
    ensures pos < start + |text|
  {
    hide EndsLine;
    if start + |text| <= pos { NewlineBefore(source, text, start + |text|, pos); }
  }
}
