/** Error types: tags given in the order of declaration, the two walks up the hierarchy, and the cascade of catch arms. */
module ErrorHierarchy {
  import opened Options

  datatype Symbol =
    | StructSymbol(name: string, isErrorType: bool, errorBase: string, errorTag: int)
    | OtherSymbol(name: string)

  type Symbols = map<string, Symbol>

  const FIRST_USER_ERROR_TAG := 100
  const ROOT: string := "Exception"
  const BUILTIN_ERRORS: seq<string> :=
    [ROOT, "Generic", "DivisionByZero", "Argument", "Overflow", "OutOfBounds", "InvalidArgument", "ContractViolation"]

  /** The tag of the i-th builtin error is i + 1; all but the root derive from it. */
  function Builtin(i: nat): Symbol
    requires i < |BUILTIN_ERRORS|
  {
    StructSymbol(BUILTIN_ERRORS[i], true, if i == 0 then "" else ROOT, i + 1)
  }

  // ----- lookup -----

  predicate EndsWith(text: string, suffix: string) {
    |suffix| <= |text| && text[|text| - |suffix|..] == suffix
  }

  /** The first key in order of definition that ends with the suffix and names a struct. */
  function FirstWithSuffix(symbols: Symbols, order: seq<string>, suffix: string): (r: Option<Symbol>)
    requires forall k :: k in order ==> k in symbols
    ensures r.Some? ==> r.value.StructSymbol? && exists k :: k in symbols && symbols[k] == r.value
  {
    if |order| == 0 then None
    else if symbols[order[0]].StructSymbol? && EndsWith(order[0], suffix) then Some(symbols[order[0]])
    else FirstWithSuffix(symbols, order[1..], suffix)
  }

  function LookupStruct(symbols: Symbols, order: seq<string>, name: string): (r: Option<Symbol>)
    requires forall k :: k in order ==> k in symbols
    ensures r.Some? ==> r.value.StructSymbol? && exists k :: k in symbols && symbols[k] == r.value
  {
    if name in symbols && symbols[name].StructSymbol? then Some(symbols[name])
    else FirstWithSuffix(symbols, order, "::" + name)
  }

  predicate StructAt(symbols: Symbols, key: string) { key in symbols && symbols[key].StructSymbol? }

  /** The key is the name in some namespace. */
  ghost predicate Qualifies(key: string, name: string) { exists space: string :: key == space + "::" + name }

  lemma QualifiesIff(key: string, name: string)
    ensures EndsWith(key, "::" + name) <==> Qualifies(key, name)
  {
    if EndsWith(key, "::" + name) {
      var space := key[..|key| - |"::" + name|];
      assert key == space + ("::" + name) == space + "::" + name;
    }
    if space: string :| key == space + "::" + name { assert key[|key| - |"::" + name|..] == "::" + name; }
  }

  ghost predicate FirstQualified(symbols: Symbols, order: seq<string>, name: string, s: Symbol) {
    exists i :: 0 <= i < |order| && StructAt(symbols, order[i]) && Qualifies(order[i], name) && s == symbols[order[i]] &&
      forall j :: 0 <= j < i ==> !(StructAt(symbols, order[j]) && Qualifies(order[j], name))
  }

  /** The struct of that very name, or else the first that was defined under it in a namespace. */
  ghost predicate Answers(symbols: Symbols, order: seq<string>, name: string, s: Symbol) {
    if StructAt(symbols, name) then s == symbols[name]
    else FirstQualified(symbols, order, name, s)
  }

  lemma LookupIff(symbols: Symbols, order: seq<string>, name: string, s: Symbol)
    requires forall k :: k in order ==> k in symbols
    ensures LookupStruct(symbols, order, name) == Some(s) <==> Answers(symbols, order, name, s)
  {
    hide FirstWithSuffix;
    if !StructAt(symbols, name) { FirstIff(symbols, order, name, s); }
  }

  lemma {:induction false} FirstIff(symbols: Symbols, order: seq<string>, name: string, s: Symbol)
    requires forall k :: k in order ==> k in symbols
    ensures FirstWithSuffix(symbols, order, "::" + name) == Some(s) <==> FirstQualified(symbols, order, name, s)
    decreases |order|
  {
    hide EndsWith, Qualifies;
    if |order| > 0 {
      QualifiesIff(order[0], name);
      FirstIff(symbols, order[1..], name, s);
      var rest := order[1..];
      if StructAt(symbols, order[0]) && Qualifies(order[0], name) {
        assert s == symbols[order[0]] ==> FirstQualified(symbols, order, name, s);
      } else {
        if FirstQualified(symbols, rest, name, s) {
          var i :| 0 <= i < |rest| && StructAt(symbols, rest[i]) && Qualifies(rest[i], name) && s == symbols[rest[i]] &&
            forall j :: 0 <= j < i ==> !(StructAt(symbols, rest[j]) && Qualifies(rest[j], name));
          assert order[i + 1] == rest[i];
          forall j | 0 <= j < i + 1 ensures !(StructAt(symbols, order[j]) && Qualifies(order[j], name)) {
            if j > 0 { assert order[j] == rest[j - 1]; }
          }
        }
        if FirstQualified(symbols, order, name, s) {
          var i :| 0 <= i < |order| && StructAt(symbols, order[i]) && Qualifies(order[i], name) && s == symbols[order[i]] &&
            forall j :: 0 <= j < i ==> !(StructAt(symbols, order[j]) && Qualifies(order[j], name));
          assert rest[i - 1] == order[i];
          forall j | 0 <= j < i - 1 ensures !(StructAt(symbols, rest[j]) && Qualifies(rest[j], name)) {
            assert rest[j] == order[j + 1];
          }
        }
      }
    }
  }

  // ----- what every sequence of declarations keeps -----

  predicate IsError(s: Symbol) { s.StructSymbol? && s.isErrorType }

  /** A struct stands under its own name, whatever aliases it has. */
  ghost predicate Registered(symbols: Symbols) {
    forall k :: k in symbols && symbols[k].StructSymbol? ==>
      symbols[k].name != "" && symbols[k].name in symbols && symbols[symbols[k].name] == symbols[k]
  }

  /** The base of an error type is an error type of smaller tag; only the root has none. */
  predicate Based(symbols: Symbols, s: Symbol)
    requires IsError(s)
  {
    if s.errorBase == "" then s.name == ROOT
    else
      s.errorBase in symbols && IsError(symbols[s.errorBase]) && symbols[s.errorBase].name == s.errorBase &&
      symbols[s.errorBase].errorTag < s.errorTag
  }

  ghost predicate Ranked(symbols: Symbols, nextTag: int) {
    nextTag >= FIRST_USER_ERROR_TAG &&
    (forall k :: k in symbols && IsError(symbols[k]) ==>
      1 <= symbols[k].errorTag < nextTag && Based(symbols, symbols[k])) &&
    forall j, k | j in symbols && k in symbols && IsError(symbols[j]) && IsError(symbols[k]) ::
      symbols[j].errorTag == symbols[k].errorTag ==> symbols[j] == symbols[k]
  }

  ghost predicate Seeded(symbols: Symbols) {
    forall i: nat :: i < |BUILTIN_ERRORS| ==> BUILTIN_ERRORS[i] in symbols && symbols[BUILTIN_ERRORS[i]] == Builtin(i)
  }

  ghost predicate Sound(symbols: Symbols, nextTag: int) {
    Registered(symbols) && Ranked(symbols, nextTag)
  }

  /** s is an error type of the table. */
  ghost predicate Known(symbols: Symbols, s: Symbol) {
    IsError(s) && s.name in symbols && symbols[s.name] == s
  }

  /** t is found n steps up from s. */
  ghost predicate Above(symbols: Symbols, nextTag: int, s: Symbol, t: Symbol, n: nat)
    requires Sound(symbols, nextTag) && Known(symbols, s)
    decreases n
  {
    if n == 0 then s == t
    else s.errorBase != "" && Above(symbols, nextTag, symbols[s.errorBase], t, n - 1)
  }

  ghost predicate AncestorOrSelf(symbols: Symbols, nextTag: int, s: Symbol, t: Symbol)
    requires Sound(symbols, nextTag) && Known(symbols, s)
  {
    exists n: nat :: Above(symbols, nextTag, s, t, n)
  }

  ghost predicate ProperAncestor(symbols: Symbols, nextTag: int, s: Symbol, t: Symbol)
    requires Sound(symbols, nextTag) && Known(symbols, s)
  {
    exists n: nat :: n > 0 && Above(symbols, nextTag, s, t, n)
  }

  ghost predicate Derives(symbols: Symbols, nextTag: int, s: Option<Symbol>, t: Symbol)
    requires Sound(symbols, nextTag) && (s.Some? && IsError(s.value) ==> Known(symbols, s.value))
  {
    s.Some? && IsError(s.value) && AncestorOrSelf(symbols, nextTag, s.value, t)
  }

  /** Tags strictly decrease on the way up. */
  lemma {:induction false} TagsDecrease(symbols: Symbols, nextTag: int, s: Symbol, t: Symbol, n: nat)
    requires Sound(symbols, nextTag) && Known(symbols, s) && Above(symbols, nextTag, s, t, n)
    ensures Known(symbols, t) && t.errorTag + n <= s.errorTag
    decreases n
  {
    if n > 0 { TagsDecrease(symbols, nextTag, symbols[s.errorBase], t, n - 1); }
  }

  /** The hierarchy is a tree: no error type is above itself. */
  lemma NoCycle(symbols: Symbols, nextTag: int, s: Symbol, t: Symbol)
    requires Sound(symbols, nextTag) && Known(symbols, s) && Known(symbols, t)
    requires AncestorOrSelf(symbols, nextTag, s, t) && AncestorOrSelf(symbols, nextTag, t, s)
    ensures s == t
  {
    var m: nat :| Above(symbols, nextTag, s, t, m);
    var n: nat :| Above(symbols, nextTag, t, s, n);
    TagsDecrease(symbols, nextTag, s, t, m);
    TagsDecrease(symbols, nextTag, t, s, n);
  }

  /** Every error type derives from the root. */
  lemma {:induction false} RootIsAbove(symbols: Symbols, nextTag: int, s: Symbol)
    requires Sound(symbols, nextTag) && Known(symbols, s)
    ensures ROOT in symbols && Known(symbols, symbols[ROOT]) && AncestorOrSelf(symbols, nextTag, s, symbols[ROOT])
    decreases s.errorTag
  {
    if s.errorBase == "" {
      assert Above(symbols, nextTag, s, symbols[ROOT], 0);
    } else {
      var base := symbols[s.errorBase];
      RootIsAbove(symbols, nextTag, base);
      OneStep(symbols, nextTag, s, symbols[ROOT]);
    }
  }

  lemma OneStep(symbols: Symbols, nextTag: int, s: Symbol, t: Symbol)
    requires Sound(symbols, nextTag) && Known(symbols, s)
    ensures ProperAncestor(symbols, nextTag, s, t) <==>
      s.errorBase != "" && AncestorOrSelf(symbols, nextTag, symbols[s.errorBase], t)
    ensures AncestorOrSelf(symbols, nextTag, s, t) <==> s == t || ProperAncestor(symbols, nextTag, s, t)
  {
    if s.errorBase != "" {
      if n: nat :| Above(symbols, nextTag, symbols[s.errorBase], t, n) { assert Above(symbols, nextTag, s, t, n + 1); }
      if n: nat :| n > 0 && Above(symbols, nextTag, s, t, n) {
        assert Above(symbols, nextTag, symbols[s.errorBase], t, n - 1);
      }
    }
    if s == t { assert Above(symbols, nextTag, s, t, 0); }
  }

  function ErrorNamed(symbols: Symbols, order: seq<string>, name: string): (r: Option<Symbol>)
    requires forall k :: k in order ==> k in symbols
    ensures r.Some? ==> IsError(r.value)
  {
    var found := LookupStruct(symbols, order, name);
    if found.Some? && found.value.isErrorType then found else None
  }

  /** The last of the names that looks up an error type looks up t. */
  ghost predicate LastErrorNamed(symbols: Symbols, order: seq<string>, names: seq<string>, t: Symbol)
    requires forall k :: k in order ==> k in symbols
  {
    exists i :: 0 <= i < |names| && ErrorNamed(symbols, order, names[i]) == Some(t) &&
      forall j :: i < j < |names| ==> ErrorNamed(symbols, order, names[j]).None?
  }

  /** How many of the names look up an error type. */
  ghost function ErrorsNamed(symbols: Symbols, order: seq<string>, names: seq<string>): set<nat>
    requires forall k :: k in order ==> k in symbols
  {
    set i: nat | i < |names| && ErrorNamed(symbols, order, names[i]).Some?
  }

  /** The error types that a list of names looks up, in order. */
  function ErrorBases(symbols: Symbols, order: seq<string>, names: seq<string>): (r: seq<Symbol>)
    requires forall k :: k in order ==> k in symbols
    ensures forall s :: s in r ==> IsError(s) && exists k :: k in symbols && symbols[k] == s
  {
    if |names| == 0 then []
    else
      var found := LookupStruct(symbols, order, names[|names| - 1]);
      ErrorBases(symbols, order, names[..|names| - 1]) +
      (if found.Some? && found.value.isErrorType then [found.value] else [])
  }

  /** The symbol a declaration makes: an error type if some listed name is one, deriving from the last such. */
  function Collected(symbols: Symbols, order: seq<string>, nextTag: int, name: string, names: seq<string>): Symbol
    requires forall k :: k in order ==> k in symbols
  {
    var bases := ErrorBases(symbols, order, names);
    if |bases| == 0 then StructSymbol(name, false, "", -1)
    else StructSymbol(name, true, bases[|bases| - 1].name, nextTag + |bases| - 1)
  }

  lemma {:induction false} BasesAre(symbols: Symbols, order: seq<string>, names: seq<string>)
    requires forall k :: k in order ==> k in symbols
    ensures var bases := ErrorBases(symbols, order, names);
      |bases| == |ErrorsNamed(symbols, order, names)| &&
      (forall t :: |bases| > 0 && t == bases[|bases| - 1] <==> LastErrorNamed(symbols, order, names, t)) &&
      (|bases| == 0 <==> forall i :: 0 <= i < |names| ==> ErrorNamed(symbols, order, names[i]).None?)
    decreases |names|
  {
    hide ErrorNamed, ErrorBases, ErrorsNamed, LastErrorNamed;
    BasesGrow(symbols, order, names);
    if |names| == 0 {
      NoneNamed(symbols, order);
    } else {
      var n: nat := |names| - 1;
      BasesAre(symbols, order, names[..n]);
      CountGrows(symbols, order, names);
      assert forall i :: 0 <= i < n ==> names[..n][i] == names[i];
      forall t
        ensures LastErrorNamed(symbols, order, names, t) <==>
          if ErrorNamed(symbols, order, names[n]).Some? then ErrorNamed(symbols, order, names[n]) == Some(t)
          else LastErrorNamed(symbols, order, names[..n], t)
      {
        OneNameMore(symbols, order, names, t);
      }
    }
  }

  lemma BasesGrow(symbols: Symbols, order: seq<string>, names: seq<string>)
    requires forall k :: k in order ==> k in symbols
    ensures ErrorBases(symbols, order, names) ==
      if |names| == 0 then []
      else
        var last := ErrorNamed(symbols, order, names[|names| - 1]);
        ErrorBases(symbols, order, names[..|names| - 1]) + if last.Some? then [last.value] else []
  {
    hide LookupStruct;
  }

  lemma NoneNamed(symbols: Symbols, order: seq<string>)
    requires forall k :: k in order ==> k in symbols
    ensures ErrorsNamed(symbols, order, []) == {} && forall t :: !LastErrorNamed(symbols, order, [], t)
  {
  }

  lemma CountGrows(symbols: Symbols, order: seq<string>, names: seq<string>)
    requires (forall k :: k in order ==> k in symbols) && |names| > 0
    ensures |ErrorsNamed(symbols, order, names)| == |ErrorsNamed(symbols, order, names[..|names| - 1])| +
      if ErrorNamed(symbols, order, names[|names| - 1]).Some? then 1 else 0
  {
    hide ErrorNamed;
    var n: nat := |names| - 1;
    var before := ErrorsNamed(symbols, order, names[..n]);
    assert ErrorsNamed(symbols, order, names) ==
      if ErrorNamed(symbols, order, names[n]).Some? then before + {n} else before;
  }

  lemma OneNameMore(symbols: Symbols, order: seq<string>, names: seq<string>, t: Symbol)
    requires (forall k :: k in order ==> k in symbols) && |names| > 0
    ensures var n := |names| - 1;
      LastErrorNamed(symbols, order, names, t) <==>
        if ErrorNamed(symbols, order, names[n]).Some? then ErrorNamed(symbols, order, names[n]) == Some(t)
        else LastErrorNamed(symbols, order, names[..n], t)
  {
    hide ErrorNamed;
    var n := |names| - 1;
    if ErrorNamed(symbols, order, names[n]).None? {
      if LastErrorNamed(symbols, order, names, t) {
        var i :| 0 <= i < |names| && ErrorNamed(symbols, order, names[i]) == Some(t) &&
          forall j :: i < j < |names| ==> ErrorNamed(symbols, order, names[j]).None?;
        assert names[..n][i] == names[i];
      }
      if LastErrorNamed(symbols, order, names[..n], t) {
        var i :| 0 <= i < n && ErrorNamed(symbols, order, names[..n][i]) == Some(t) &&
          forall j :: i < j < n ==> ErrorNamed(symbols, order, names[..n][j]).None?;
        forall j | i < j < |names| ensures ErrorNamed(symbols, order, names[j]).None? {
          if j < n { assert names[..n][j] == names[j]; }
        }
      }
    }
  }

  /** s stands right below t: its ancestors are itself and those of t. */
  ghost predicate StandsBelow(symbols: Symbols, nextTag: int, s: Symbol, t: Symbol)
    requires Sound(symbols, nextTag)
  {
    Known(symbols, s) && Known(symbols, t) && s.errorBase == t.name && ProperAncestor(symbols, nextTag, s, t) &&
    forall u :: AncestorOrSelf(symbols, nextTag, s, u) <==> u == s || AncestorOrSelf(symbols, nextTag, t, u)
  }

  lemma BaseIsRightAbove(symbols: Symbols, nextTag: int, s: Symbol, t: Symbol)
    requires Sound(symbols, nextTag) && Known(symbols, s) && Known(symbols, t) && s.errorBase == t.name && t.name != ""
    ensures StandsBelow(symbols, nextTag, s, t)
  {
    hide Sound, Above;
    assert symbols[s.errorBase] == t;
    OneStep(symbols, nextTag, s, t);
    OneStep(symbols, nextTag, t, t);
    forall u ensures AncestorOrSelf(symbols, nextTag, s, u) <==> u == s || AncestorOrSelf(symbols, nextTag, t, u) {
      OneStep(symbols, nextTag, s, u);
    }
  }

  /** The builtin error types, one by one. */
  lemma BuiltinTable()
    ensures |BUILTIN_ERRORS| == 8 && FIRST_USER_ERROR_TAG == 100
    ensures Builtin(0) == StructSymbol("Exception", true, "", 1)
    ensures Builtin(1) == StructSymbol("Generic", true, "Exception", 2)
    ensures Builtin(2) == StructSymbol("DivisionByZero", true, "Exception", 3)
    ensures Builtin(3) == StructSymbol("Argument", true, "Exception", 4)
    ensures Builtin(4) == StructSymbol("Overflow", true, "Exception", 5)
    ensures Builtin(5) == StructSymbol("OutOfBounds", true, "Exception", 6)
    ensures Builtin(6) == StructSymbol("InvalidArgument", true, "Exception", 7)
    ensures Builtin(7) == StructSymbol("ContractViolation", true, "Exception", 8)
  {
  }

  lemma BuiltinsAreDistinct(i: nat)
    requires i < |BUILTIN_ERRORS|
    ensures BUILTIN_ERRORS[i] !in BUILTIN_ERRORS[..i] && BUILTIN_ERRORS[i] != ""
  {
    var sizes := [9, 7, 14, 8, 8, 11, 15, 17];
    assert |BUILTIN_ERRORS| == 8;
    assert forall j :: 0 <= j < 8 ==> |BUILTIN_ERRORS[j]| == sizes[j];
    assert BUILTIN_ERRORS[3][0] == 'A' && BUILTIN_ERRORS[4][0] == 'O';
  }

  /** The table after the first n builtin errors were defined. */
  function Seeds(n: nat): Symbols
    requires n <= |BUILTIN_ERRORS|
  {
    if n == 0 then map[] else Seeds(n - 1)[BUILTIN_ERRORS[n - 1] := Builtin(n - 1)]
  }

  lemma {:induction false} SeedsAre(n: nat)
    requires n <= |BUILTIN_ERRORS|
    ensures forall k :: k in Seeds(n) <==> k in BUILTIN_ERRORS[..n]
    ensures forall j: nat :: j < n ==> BUILTIN_ERRORS[j] in Seeds(n) && Seeds(n)[BUILTIN_ERRORS[j]] == Builtin(j)
    decreases n
  {
    hide Builtin;
    if n > 0 {
      SeedsAre(n - 1);
      BuiltinsAreDistinct(n - 1);
      assert BUILTIN_ERRORS[..n] == BUILTIN_ERRORS[..n - 1] + [BUILTIN_ERRORS[n - 1]];
      forall j: nat | j < n - 1 ensures BUILTIN_ERRORS[j] != BUILTIN_ERRORS[n - 1] {
        assert BUILTIN_ERRORS[..n - 1][j] == BUILTIN_ERRORS[j];
      }
    }
  }

  lemma NextSeed(i: nat)
    requires i < |BUILTIN_ERRORS|
    ensures Builtin(i).name == BUILTIN_ERRORS[i] && BUILTIN_ERRORS[i] !in BUILTIN_ERRORS[..i]
    ensures BUILTIN_ERRORS[..i + 1] == BUILTIN_ERRORS[..i] + [BUILTIN_ERRORS[i]]
  {
    BuiltinsAreDistinct(i);
  }

  lemma BuiltinsAreSound(symbols: Symbols)
    requires Seeded(symbols) && forall k :: k in symbols ==> k in BUILTIN_ERRORS
    ensures Sound(symbols, FIRST_USER_ERROR_TAG)
  {
    hide BUILTIN_ERRORS;
    assert |BUILTIN_ERRORS| == 8 && BUILTIN_ERRORS[0] == ROOT by { BuiltinTable(); }
    forall k | k in symbols ensures exists i: nat :: i < |BUILTIN_ERRORS| && k == BUILTIN_ERRORS[i] && symbols[k] == Builtin(i) {
      var i :| 0 <= i < |BUILTIN_ERRORS| && BUILTIN_ERRORS[i] == k;
      assert symbols[BUILTIN_ERRORS[i]] == Builtin(i);
    }
    assert symbols[BUILTIN_ERRORS[0]] == Builtin(0);
    forall i | 0 <= i < |BUILTIN_ERRORS| ensures BUILTIN_ERRORS[i] != "" { BuiltinsAreDistinct(i); }
  }

  lemma AliasIsSound(symbols: Symbols, nextTag: int, alias: string, key: string)
    requires Sound(symbols, nextTag) && Seeded(symbols) && key in symbols && alias !in symbols
    ensures Sound(symbols[alias := symbols[key]], nextTag) && Seeded(symbols[alias := symbols[key]])
  {
  }

  lemma OtherIsSound(symbols: Symbols, nextTag: int, s: Symbol)
    requires Sound(symbols, nextTag) && Seeded(symbols) && s.OtherSymbol? && s.name !in symbols
    ensures Sound(symbols[s.name := s], nextTag) && Seeded(symbols[s.name := s])
  {
  }

  lemma MoreTags(symbols: Symbols, nextTag: int, later: int)
    requires Sound(symbols, nextTag) && nextTag <= later
    ensures Sound(symbols, later)
  {
  }

  lemma AddedIsSound(symbols: Symbols, nextTag: int, later: int, s: Symbol)
    requires Sound(symbols, nextTag) && Seeded(symbols) && nextTag <= later
    requires s.StructSymbol? && s.name !in symbols && s.name != ""
    requires s.isErrorType ==> nextTag <= s.errorTag < later && s.errorBase != ""
    requires s.isErrorType ==> s.errorBase in symbols && Known(symbols, symbols[s.errorBase])
    requires s.isErrorType ==> symbols[s.errorBase].name == s.errorBase
    ensures Sound(symbols[s.name := s], later) && Seeded(symbols[s.name := s])
  {
    var more := symbols[s.name := s];
    assert Registered(more);
    forall k | k in more && IsError(more[k]) ensures 1 <= more[k].errorTag < later && Based(more, more[k]) {
      if k != s.name { assert Based(symbols, symbols[k]); }
    }
    assert Seeded(more);
  }

  /** Declaring keeps the table sound: the new tags lie above all others, and the base was declared before. */
  lemma NewStructIsSound(symbols: Symbols, order: seq<string>, nextTag: int, name: string, names: seq<string>)
    requires Sound(symbols, nextTag) && Seeded(symbols) && (forall k :: k in order ==> k in symbols) && name != ""
    ensures Sound(symbols, nextTag + |ErrorBases(symbols, order, names)|)
    ensures name !in symbols ==>
      var more := symbols[name := Collected(symbols, order, nextTag, name, names)];
      Sound(more, nextTag + |ErrorBases(symbols, order, names)|) && Seeded(more)
  {
    hide Ranked, Seeded, ErrorBases;
    var bases := ErrorBases(symbols, order, names);
    MoreTags(symbols, nextTag, nextTag + |bases|);
    if |bases| > 0 { assert bases[|bases| - 1] in bases; }
    if name !in symbols {
      AddedIsSound(symbols, nextTag, nextTag + |bases|, Collected(symbols, order, nextTag, name, names));
    }
  }

  // ----- catching -----

  /** An arm catches an error type when it names an ancestor of it, or itself; an arm that names no error type (the
      arm `Error`) catches everything. */
  ghost predicate Catches(symbols: Symbols, order: seq<string>, nextTag: int, arm: string, s: Symbol)
    requires Sound(symbols, nextTag) && Known(symbols, s) && forall k :: k in order ==> k in symbols
  {
    var errSym := ErrorNamed(symbols, order, arm);
    errSym.Some? ==> AncestorOrSelf(symbols, nextTag, s, errSym.value)
  }

  ghost predicate IsFirstCatching(symbols: Symbols, order: seq<string>, nextTag: int, arms: seq<string>, s: Symbol,
                                  chosen: Option<nat>)
    requires Sound(symbols, nextTag) && Known(symbols, s) && forall k :: k in order ==> k in symbols
  {
    (chosen.Some? ==> chosen.value < |arms| && Catches(symbols, order, nextTag, arms[chosen.value], s)) &&
    forall i: nat | i < |arms| && (chosen.Some? ==> i < chosen.value) ::
      !Catches(symbols, order, nextTag, arms[i], s)
  }

  /** What a declaration with these names makes of the table: if a name looks up an error type, the last that does looks up
      the base.  The new type stands right below it, has the tag given last, and is caught by every arm that resolves to the
      base.  If no name does, it is no error type. */
  ghost predicate DeclaresRightly(symbols: Symbols, order: seq<string>, names: seq<string>, more: Symbols, later: seq<string>,
                                  next: int, s: Symbol)
    requires (forall k :: k in order ==> k in symbols) && (forall k :: k in later ==> k in more) && Sound(more, next)
  {
    (forall t | LastErrorNamed(symbols, order, names, t) ::
      StandsBelow(more, next, s, t) && s.errorTag == next - 1 &&
      forall arm | ErrorNamed(more, later, arm) == Some(t) :: Catches(more, later, next, arm, s)) &&
    ((forall i :: 0 <= i < |names| ==> ErrorNamed(symbols, order, names[i]).None?) ==> s.StructSymbol? && !s.isErrorType)
  }

  lemma CollectedIsNamed(symbols: Symbols, order: seq<string>, nextTag: int, name: string, names: seq<string>)
    requires forall k :: k in order ==> k in symbols
    ensures Collected(symbols, order, nextTag, name, names).StructSymbol?
    ensures Collected(symbols, order, nextTag, name, names).name == name
  {
  }

  lemma NewStructStandsBelow(symbols: Symbols, order: seq<string>, nextTag: int, name: string, names: seq<string>,
                             later: seq<string>)
    requires Sound(symbols, nextTag) && Seeded(symbols) && (forall k :: k in order ==> k in symbols) && name != ""
    requires name !in symbols && forall k :: k in later ==> k == name || k in symbols
    ensures var (s, next) :=
        (Collected(symbols, order, nextTag, name, names), nextTag + |ErrorBases(symbols, order, names)|);
      var more := symbols[name := s];
      Sound(more, next) && DeclaresRightly(symbols, order, names, more, later, next, s)
  {
    hide Sound, LastErrorNamed, ErrorNamed, AncestorOrSelf, ProperAncestor, Seeded;
    NewStructIsSound(symbols, order, nextTag, name, names);
    BasesAre(symbols, order, names);
    var (s, next) := (Collected(symbols, order, nextTag, name, names), nextTag + |ErrorBases(symbols, order, names)|);
    var more := symbols[name := s];
    forall t | LastErrorNamed(symbols, order, names, t)
      ensures StandsBelow(more, next, s, t) && s.errorTag == next - 1
      ensures forall arm | ErrorNamed(more, later, arm) == Some(t) :: Catches(more, later, next, arm, s)
    {
      NamedIsKnown(symbols, order, nextTag, names, t);
      BaseIsRightAbove(more, next, s, t);
      OneStep(more, next, s, t);
    }
  }

  lemma NamedIsKnown(symbols: Symbols, order: seq<string>, nextTag: int, names: seq<string>, t: Symbol)
    requires Sound(symbols, nextTag) && (forall k :: k in order ==> k in symbols) && LastErrorNamed(symbols, order, names, t)
    ensures Known(symbols, t) && t.name != ""
  {
    hide LookupStruct, Ranked;
  }

  lemma RootIsTop(symbols: Symbols, nextTag: int, t: Symbol)
    requires Sound(symbols, nextTag) && Seeded(symbols)
    ensures ROOT in symbols && symbols[ROOT].name == ROOT && Known(symbols, symbols[ROOT])
    ensures AncestorOrSelf(symbols, nextTag, symbols[ROOT], t) <==> t == symbols[ROOT]
  {
    assert symbols[BUILTIN_ERRORS[0]] == Builtin(0);
    assert Above(symbols, nextTag, symbols[ROOT], symbols[ROOT], 0);
  }

  /** The arm `Error` catches every error type exactly when no error type but the root answers to that name.  A
      declared `Error`, or one whose qualified name ends in `::Error`, turns it into an arm for that type alone. */
  lemma ErrorArmCatchesAllIff(symbols: Symbols, order: seq<string>, nextTag: int, arm: string)
    requires Sound(symbols, nextTag) && Seeded(symbols) && forall k :: k in order <==> k in symbols
    ensures (forall s | Known(symbols, s) :: Catches(symbols, order, nextTag, arm, s)) <==>
      var errSym := ErrorNamed(symbols, order, arm); errSym.None? || errSym.value.name == ROOT
  {
    hide LookupStruct, Ranked, Seeded, Above;
    var errSym := ErrorNamed(symbols, order, arm);
    if errSym.Some? {
      RootIsTop(symbols, nextTag, errSym.value);
      var root := symbols[ROOT];
      if errSym.value.name == ROOT {
        forall s | Known(symbols, s) ensures Catches(symbols, order, nextTag, arm, s) { RootIsAbove(symbols, nextTag, s); }
      } else {
        assert !Catches(symbols, order, nextTag, arm, root);
      }
    }
  }

  class Binder {
    var symbols: Symbols
    var order: seq<string>
    var nextErrorTag: int

    ghost predicate Valid()
      reads this
    {
      (forall k :: k in order <==> k in symbols) && Sound(symbols, nextErrorTag) && Seeded(symbols)
    }

    constructor ()
      ensures Valid() && nextErrorTag == FIRST_USER_ERROR_TAG && order == BUILTIN_ERRORS
    {
      symbols, order, nextErrorTag := map[], [], FIRST_USER_ERROR_TAG;
      new;
      SeedBuiltinErrors();
      SeedsAre(|BUILTIN_ERRORS|);
      assert BUILTIN_ERRORS[..|BUILTIN_ERRORS|] == BUILTIN_ERRORS;
      BuiltinsAreSound(symbols);
    }

    method SeedBuiltinErrors()
      requires symbols == map[] && order == []
      modifies this`symbols, this`order
      ensures order == BUILTIN_ERRORS && symbols == Seeds(|BUILTIN_ERRORS|)
    {
      hide Valid, Builtin;
      for i := 0 to |BUILTIN_ERRORS|
        invariant order == BUILTIN_ERRORS[..i] && symbols == Seeds(i)
      {
        SeedsAre(i);
        NextSeed(i);
        var _ := Define(Builtin(i));
      }
      assert BUILTIN_ERRORS[..|BUILTIN_ERRORS|] == BUILTIN_ERRORS;
    }

    /** Enters a symbol under its name, unless the name is taken.  One that is no struct keeps the table sound. */
    method Define(symbol: Symbol) returns (ok: bool)
      modifies this`symbols, this`order
      ensures symbol.OtherSymbol? && old(Valid()) ==> Valid()
      ensures ok == (symbol.name !in old(symbols))
      ensures symbols == if ok then old(symbols)[symbol.name := symbol] else old(symbols)
      ensures order == if ok then old(order) + [symbol.name] else old(order)
    {
      if symbol.name in symbols { return false; }
      if Valid() && symbol.OtherSymbol? { OtherIsSound(symbols, nextErrorTag, symbol); }
      order := order + [symbol.name];
      symbols := symbols[symbol.name := symbol];
      ok := true;
    }

    /** A second key for a symbol of the table. */
    method DefineAlias(alias: string, key: string) returns (ok: bool)
      requires Valid() && key in symbols
      modifies this`symbols, this`order
      ensures Valid() && ok == (alias !in old(symbols))
      ensures symbols == if ok then old(symbols)[alias := old(symbols)[key]] else old(symbols)
      ensures order == if ok then old(order) + [alias] else old(order)
    {
      if alias in symbols { return false; }
      AliasIsSound(symbols, nextErrorTag, alias, key);
      order := order + [alias];
      symbols := symbols[alias := symbols[key]];
      ok := true;
    }

    /** The bases of a declaration: each listed name that looks up an error type makes that the base and takes a tag. */
    method CollectBases(name: string, implements: seq<string>) returns (symbol: Symbol)
      requires Valid()
      modifies this`nextErrorTag
      ensures symbol == Collected(symbols, order, old(nextErrorTag), name, implements)
      ensures nextErrorTag == old(nextErrorTag) + |ErrorBases(symbols, order, implements)|
    {
      hide Sound, Seeded, LookupStruct;
      var isErrorType, errorBase, errorTag := false, "", -1;
      for i := 0 to |implements|
        invariant nextErrorTag >= old(nextErrorTag)
        invariant StructSymbol(name, isErrorType, errorBase, errorTag) ==
                  Collected(symbols, order, old(nextErrorTag), name, implements[..i])
        invariant nextErrorTag == old(nextErrorTag) + |ErrorBases(symbols, order, implements[..i])|
      {
        assert implements[..i + 1][..i] == implements[..i];
        var baseStruct := LookupStruct(symbols, order, implements[i]);
        if baseStruct.Some? && baseStruct.value.isErrorType {
          isErrorType := true;
          errorBase := baseStruct.value.name;
          errorTag := nextErrorTag;
          nextErrorTag := nextErrorTag + 1;
        }
      }
      assert implements[..|implements|] == implements;
      symbol := StructSymbol(name, isErrorType, errorBase, errorTag);
    }

    /** Collects a struct declaration.  A failed one still uses up the tags it was given. */
    method CollectStruct(name: string, implements: seq<string>) returns (ok: bool)
      requires Valid() && name != ""
      modifies this
      ensures Valid() && ok == (name !in old(symbols))
      ensures order == if ok then old(order) + [name] else old(order)
      ensures nextErrorTag == old(nextErrorTag) + |ErrorsNamed(old(symbols), old(order), implements)|
      ensures symbols ==
        if ok then old(symbols)[name := Collected(old(symbols), old(order), old(nextErrorTag), name, implements)]
        else old(symbols)
      ensures ok ==>
        DeclaresRightly(old(symbols), old(order), implements, symbols, order, nextErrorTag, symbols[name])
    {
      hide Sound, Seeded, DeclaresRightly, ErrorBases, ErrorsNamed, Collected;
      var symbol := CollectBases(name, implements);
      NewStructIsSound(symbols, order, old(nextErrorTag), name, implements);
      BasesAre(symbols, order, implements);
      CollectedIsNamed(symbols, order, old(nextErrorTag), name, implements);
      ok := Define(symbol);
      if ok { NewStructStandsBelow(old(symbols), old(order), old(nextErrorTag), name, implements, order); }
    }

    function Lookup(name: string): (r: Option<Symbol>)
      requires Valid()
      reads this
    {
      LookupStruct(symbols, order, name)
    }

    /** An error type as an arm or a throw names it. */
    function ResolveErrorStruct(name: string): (r: Option<Symbol>)
      requires Valid()
      reads this
      ensures r.Some? ==> Known(symbols, r.value)
    {
      ErrorNamed(symbols, order, name)
    }

    /** The binder's walk, by symbol: the base is an error type found on the way up from the struct itself. */
    method IsErrorDerivedFrom(structName: string, baseName: string) returns (r: bool)
      requires Valid()
      ensures r <==>
        var (s, t) := (ResolveErrorStruct(structName), ResolveErrorStruct(baseName));
        s.Some? && t.Some? && AncestorOrSelf(symbols, nextErrorTag, s.value, t.value)
    {
      var base := Lookup(baseName);
      if base.None? || !base.value.isErrorType { return false; }
      var current := Lookup(structName);
      ghost var s := current;
      while current.Some?
        invariant current.Some? ==> current.value.StructSymbol?
        invariant current.Some? && IsError(current.value) ==> Known(symbols, current.value)
        invariant Derives(symbols, nextErrorTag, s, base.value) <==> Derives(symbols, nextErrorTag, current, base.value)
        decreases if current.Some? && IsError(current.value) then current.value.errorTag + 1 else 0
      {
        if IsError(current.value) { OneStep(symbols, nextErrorTag, current.value, base.value); }
        if current.value == base.value { return true; }
        if !current.value.isErrorType || current.value.errorBase == "" { return false; }
        current := Lookup(current.value.errorBase);
      }
      r := false;
    }

    /** The generator's walk, by name, from the base of the derived type. */
    method ErrorDerivedFrom(derived: Symbol, base: Symbol) returns (r: bool)
      requires Valid() && Known(symbols, derived) && Known(symbols, base)
      ensures r <==> ProperAncestor(symbols, nextErrorTag, derived, base)
    {
      var current := derived.errorBase;
      OneStep(symbols, nextErrorTag, derived, base);
      while current != ""
        invariant current != "" ==>
          current in symbols && symbols[current].name == current && Known(symbols, symbols[current])
        invariant ProperAncestor(symbols, nextErrorTag, derived, base) <==>
                  current != "" && AncestorOrSelf(symbols, nextErrorTag, symbols[current], base)
        decreases if current != "" && current in symbols then symbols[current].errorTag + 1 else 0
      {
        OneStep(symbols, nextErrorTag, symbols[current], base);
        if current == base.name { return true; }
        var sym := Lookup(current);
        if sym.None? { return false; }
        current := sym.value.errorBase;
      }
      r := false;
    }

    /** The tags an arm compares the thrown tag with: those of its own type and of all types that derive from it. */
    method ErrorArmMatchedTags(armType: Symbol) returns (tags: set<int>)
      requires Valid() && Known(symbols, armType)
      ensures forall k :: k in symbols && IsError(symbols[k]) ==>
        (symbols[k].errorTag in tags <==> AncestorOrSelf(symbols, nextErrorTag, symbols[k], armType))
    {
      tags := {armType.errorTag};
      assert Above(symbols, nextErrorTag, armType, armType, 0);
      assert Matches(symbols, nextErrorTag, armType, armType.errorTag) by { assert symbols[armType.name] == armType; }
      var keys := symbols.Keys;
      while keys != {}
        invariant keys <= symbols.Keys
        invariant forall t :: t in tags ==> Matches(symbols, nextErrorTag, armType, t)
        invariant armType.errorTag in tags
        invariant forall k | k in symbols.Keys - keys && Known(symbols, symbols[k]) ::
          AncestorOrSelf(symbols, nextErrorTag, symbols[k], armType) ==> symbols[k].errorTag in tags
      {
        var k :| k in keys;
        keys := keys - {k};
        var s := symbols[k];
        if IsError(s) {
          OneStep(symbols, nextErrorTag, s, armType);
          if s.errorTag != armType.errorTag {
            var derived := ErrorDerivedFrom(s, armType);
            if derived { tags := tags + {s.errorTag}; }
          }
        }
      }
    }

    /** The cascade the generator emits for the error arms, run on a thrown tag: the first arm whose tags hold the
        thrown one, or that names no error type. */
    method RunCascade(arms: seq<string>, thrownTag: int) returns (chosen: Option<nat>)
      requires Valid()
      ensures forall s | Known(symbols, s) && s.errorTag == thrownTag ::
        IsFirstCatching(symbols, order, nextErrorTag, arms, s, chosen)
    {
      hide Sound;
      for i := 0 to |arms|
        invariant forall s, j: nat | Known(symbols, s) && s.errorTag == thrownTag && j < i ::
          !Catches(symbols, order, nextErrorTag, arms[j], s)
      {
        var errSym := ResolveErrorStruct(arms[i]);
        if errSym.Some? {
          var tags := ErrorArmMatchedTags(errSym.value);
          if thrownTag in tags { return Some(i); }
        } else {
          return Some(i);
        }
      }
      chosen := None;
    }
  }

  lemma {:induction false} OnlyLastEndsWith(symbols: Symbols, order: seq<string>, suffix: string)
    requires |order| > 0 && forall k :: k in order ==> k in symbols
    requires forall i :: 0 <= i < |order| - 1 ==> !EndsWith(order[i], suffix)
    requires symbols[order[|order| - 1]].StructSymbol? && EndsWith(order[|order| - 1], suffix)
    ensures FirstWithSuffix(symbols, order, suffix) == Some(symbols[order[|order| - 1]])
    decreases |order|
  {
    if |order| > 1 {
      assert forall i :: 0 <= i < |order| - 2 ==> order[1..][i] == order[i + 1];
      OnlyLastEndsWith(symbols, order[1..], suffix);
    }
  }

  lemma EndsWithLast(text: string, suffix: string)
    requires |suffix| > 0 && EndsWith(text, suffix)
    ensures |text| > 0 && text[|text| - 1] == suffix[|suffix| - 1]
  {
    assert text[|text| - |suffix|..][|suffix| - 1] == suffix[|suffix| - 1];
  }

  lemma NoBuiltinEndsWithError(i: nat)
    requires i < |BUILTIN_ERRORS|
    ensures BUILTIN_ERRORS[i] != "Error" && BUILTIN_ERRORS[i] != "io::Error" && !EndsWith(BUILTIN_ERRORS[i], "::Error")
  {
    var last := ['n', 'c', 'o', 't', 'w', 's', 't', 'n'];
    assert |BUILTIN_ERRORS| == 8;
    assert BUILTIN_ERRORS[i][|BUILTIN_ERRORS[i]| - 1] == last[i];
    if EndsWith(BUILTIN_ERRORS[i], "::Error") { EndsWithLast(BUILTIN_ERRORS[i], "::Error"); }
  }

  const IO_ERROR: string := "io::Error"

  lemma IoErrorEndsWithError()
    ensures EndsWith(IO_ERROR, "::" + "Error") && IO_ERROR != "Error" && "::" + "Error" == "::Error"
  {
  }

  lemma ErrorNamesIoError(symbols: Symbols, order: seq<string>)
    requires order == BUILTIN_ERRORS + [IO_ERROR] && (forall k :: k in order <==> k in symbols) && IsError(symbols[IO_ERROR])
    ensures ErrorNamed(symbols, order, "Error") == Some(symbols[IO_ERROR])
  {
    hide EndsWith;
    forall i | 0 <= i < |order| - 1 ensures !EndsWith(order[i], "::Error") && order[i] != "Error" {
      NoBuiltinEndsWithError(i);
    }
    IoErrorEndsWithError();
    assert "Error" !in order;
    assert order[|order| - 1] == IO_ERROR;
    OnlyLastEndsWith(symbols, order, "::Error");
  }

  lemma LaterIsNotAbove(symbols: Symbols, nextTag: int, s: Symbol, t: Symbol)
    requires Sound(symbols, nextTag) && Known(symbols, s) && IsError(t) && s.errorTag < t.errorTag
    ensures !AncestorOrSelf(symbols, nextTag, s, t)
  {
    hide Sound, Above;
    forall n: nat ensures !Above(symbols, nextTag, s, t, n) {
      if Above(symbols, nextTag, s, t, n) { TagsDecrease(symbols, nextTag, s, t, n); }
    }
  }

  /** With io::Error declared, `Error` names it, and it is no ancestor of a builtin error. */
  lemma ErrorMeansIoError(symbols: Symbols, order: seq<string>, nextTag: int)
    requires Sound(symbols, nextTag) && Seeded(symbols)
    requires order == BUILTIN_ERRORS + [IO_ERROR] && forall k :: k in order <==> k in symbols
    requires symbols[IO_ERROR] == StructSymbol(IO_ERROR, true, ROOT, FIRST_USER_ERROR_TAG)
    ensures Known(symbols, Builtin(4)) && Builtin(4).errorTag == 5
    ensures !Catches(symbols, order, nextTag, "Error", Builtin(4))
  {
    hide Sound, ErrorNamed, LookupStruct;
    assert symbols[BUILTIN_ERRORS[4]] == Builtin(4);
    ErrorNamesIoError(symbols, order);
    LaterIsNotAbove(symbols, nextTag, Builtin(4), symbols[IO_ERROR]);
  }

  lemma CollectsIoError(symbols: Symbols, order: seq<string>)
    requires Seeded(symbols) && forall k :: k in order ==> k in symbols
    ensures Collected(symbols, order, FIRST_USER_ERROR_TAG, IO_ERROR, [ROOT]) ==
      StructSymbol(IO_ERROR, true, ROOT, FIRST_USER_ERROR_TAG)
  {
    assert symbols[BUILTIN_ERRORS[0]] == Builtin(0) && BUILTIN_ERRORS[0] == ROOT;
    assert ErrorBases(symbols, order, []) == [];
    assert [ROOT][..0] == [];
    assert ErrorBases(symbols, order, [ROOT]) == [symbols[ROOT]];
  }

  /** struct io::Error : Exception; then an arm `Error` alone does not catch an Overflow, whose tag is 5. */
  method ErrorArmMisses() returns (chosen: Option<nat>)
    ensures chosen == None
  {
    hide Sound, Seeded, Collected, ErrorBases, Known, Catches;
    var b := new Binder();
    CollectsIoError(b.symbols, b.order);
    assert IO_ERROR !in b.symbols by {
      if IO_ERROR in b.symbols {
        var i :| 0 <= i < |BUILTIN_ERRORS| && BUILTIN_ERRORS[i] == IO_ERROR;
        NoBuiltinEndsWithError(i);
      }
    }
    var ok := b.CollectStruct(IO_ERROR, [ROOT]);
    ErrorMeansIoError(b.symbols, b.order, b.nextErrorTag);
    chosen := b.RunCascade(["Error"], 5);
    assert IsFirstCatching(b.symbols, b.order, b.nextErrorTag, ["Error"], Builtin(4), chosen);
  }

  /** struct Neg : Overflow; then Neg has tag 100 and its ancestors are itself and those of Overflow, an arm `Overflow` is the
      first to catch it, and an arm `Generic` before it does not. */
  method AnArmCatchesANewError() returns (chosen: Option<nat>, derives: bool)
    ensures chosen == Some(1) && derives
  {
    hide Sound, Seeded, Collected, ErrorBases, AncestorOrSelf, StandsBelow, ErrorNamed, Catches;
    var b := new Binder();
    ghost var overflow := Builtin(4);
    NamesBuiltin(b.symbols, b.order, 4);
    assert "Neg" !in b.order by { NegIsNew(); }
    assert LastErrorNamed(b.symbols, b.order, ["Overflow"], overflow) by { assert ["Overflow"][0] == "Overflow"; }
    assert ErrorsNamed(b.symbols, b.order, ["Overflow"]) == {0} by { assert ["Overflow"][0] == "Overflow"; }
    CollectedIsNamed(b.symbols, b.order, 100, "Neg", ["Overflow"]);
    var ok := b.CollectStruct("Neg", ["Overflow"]);
    NegDerives(b.symbols, b.order, b.nextErrorTag, b.symbols["Neg"]);
    chosen := b.RunCascade(["Generic", "Overflow"], 100);
    derives := b.IsErrorDerivedFrom("Neg", "Overflow");
    assert IsFirstCatching(b.symbols, b.order, b.nextErrorTag, ["Generic", "Overflow"], b.symbols["Neg"], chosen);
    assert ["Generic", "Overflow"][0] == "Generic" && ["Generic", "Overflow"][1] == "Overflow";
  }

  lemma NegIsNew()
    ensures "Neg" !in BUILTIN_ERRORS
  {
    var sizes := [9, 7, 14, 8, 8, 11, 15, 17];
    assert |BUILTIN_ERRORS| == 8 && forall j :: 0 <= j < 8 ==> |BUILTIN_ERRORS[j]| == sizes[j];
  }

  lemma NamesBuiltin(symbols: Symbols, order: seq<string>, i: nat)
    requires Seeded(symbols) && i < |BUILTIN_ERRORS| && forall k :: k in order ==> k in symbols
    ensures ErrorNamed(symbols, order, BUILTIN_ERRORS[i]) == Some(Builtin(i)) && symbols[BUILTIN_ERRORS[i]] == Builtin(i)
  {
    hide FirstWithSuffix;
  }

  lemma NegDerives(symbols: Symbols, order: seq<string>, nextTag: int, neg: Symbol)
    requires Sound(symbols, nextTag) && Seeded(symbols) && forall k :: k in order ==> k in symbols
    requires StandsBelow(symbols, nextTag, neg, Builtin(4)) && neg.name == "Neg"
    ensures ErrorNamed(symbols, order, "Neg") == Some(neg) && Known(symbols, neg)
    ensures Catches(symbols, order, nextTag, "Overflow", neg) && !Catches(symbols, order, nextTag, "Generic", neg)
    ensures ErrorNamed(symbols, order, "Overflow") == Some(Builtin(4)) && AncestorOrSelf(symbols, nextTag, neg, Builtin(4))
  {
    hide Sound, Above, FirstWithSuffix;
    BuiltinTable();
    NamesBuiltin(symbols, order, 4);
    NamesBuiltin(symbols, order, 1);
    NamesBuiltin(symbols, order, 0);
    var (overflow, root, generic) := (Builtin(4), Builtin(0), Builtin(1));
    OneStep(symbols, nextTag, neg, overflow);
    OneStep(symbols, nextTag, overflow, generic);
    OneStep(symbols, nextTag, root, generic);
    OneStep(symbols, nextTag, overflow, overflow);
  }

  ghost predicate Matches(symbols: Symbols, nextTag: int, armType: Symbol, tag: int)
    requires Sound(symbols, nextTag)
  {
    exists k :: k in symbols && Known(symbols, symbols[k]) && symbols[k].errorTag == tag &&
      AncestorOrSelf(symbols, nextTag, symbols[k], armType)
  }
}
