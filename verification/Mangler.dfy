/** Mangled names, the keys of monomorphised instances, and a decoder that recovers what they stand for. */
module Mangling {
  import opened Options

  datatype Type =
    | Integer(size: nat, sign: bool, nonZero: bool)
    | Void
    | F16
    | F32
    | F64
    | F128
    | Struct(structName: string, genericArgs: seq<Type>)
    | Auto
    | Array(element: Element)
    | Pointer(element: Element)

  /** The element type of an array or pointer, which may be missing. */
  datatype Element = NoElement | Element(of: Type)

  // ----- numbers -----

  const DIGITS := "0123456789"

  function Decimal(n: nat): (s: string)
    ensures |s| > 0 && IsDigit(s[0])
  {
    if n < 10 then [DIGITS[n]] else Decimal(n / 10) + [DIGITS[n % 10]]
  }

  predicate IsDigit(c: char) { '0' <= c <= '9' }

  predicate StartsWithDigit(s: string) { |s| > 0 && IsDigit(s[0]) }

  // ----- mangling -----

  function IntegerCode(size: nat, sign: bool): char {
    if sign then
      match size case 8 => 'a' case 16 => 's' case 32 => 'i' case 64 => 'l' case 128 => 'n' case _ => 'i'
    else
      match size case 8 => 'h' case 16 => 't' case 32 => 'j' case 64 => 'm' case 128 => 'o' case _ => 'j'
  }

  function MangleType(t: Type): string {
    match t
    case Void => "v"
    case Integer(size, sign, nonZero) => (if nonZero then "N" else "") + [IntegerCode(size, sign)]
    case F16 => "Dh"
    case F32 => "f"
    case F64 => "d"
    case F128 => "g"
    case Pointer(e) => "P" + (if e.Element? then MangleType(e.of) else "v")
    case Array(e) => "A" + (if e.Element? then MangleType(e.of) else "v")
    case Struct(name, _) => MangleName(name)
    case Auto => "?"
  }

  function MangleName(name: string): string { Decimal(|name|) + name }

  function MangleTypes(ts: seq<Type>): string {
    if |ts| == 0 then "" else MangleTypes(ts[..|ts| - 1]) + MangleType(ts[|ts| - 1])
  }

  /** What gets a mangled name. */
  datatype Entity =
    | Function(name: string, params: seq<Type>)
    | Method(structName: string, methodName: string, params: seq<Type>)
    | GenericStruct(name: string, typeArgs: seq<Type>)
    | GenericEnum(name: string, typeArgs: seq<Type>)
    | GenericMethod(structName: string, typeArgs: seq<Type>, methodName: string, params: seq<Type>)

  function Mangle(e: Entity): string {
    match e
    case Function(name, params) => "_Z" + (MangleName(name) + MangleTypes(params))
    case Method(s, m, params) => "_ZN" + (MangleName(s) + (MangleName(m) + ("E" + MangleTypes(params))))
    case GenericStruct(name, args) => "_ZN" + (MangleName(name) + ("I" + (MangleTypes(args) + "E")))
    case GenericEnum(name, args) => "_ZE" + (MangleName(name) + ("I" + (MangleTypes(args) + "E")))
    case GenericMethod(s, args, m, params) =>
      "_ZN" + (MangleName(s) + ("I" + (MangleTypes(args) + ("E" + (MangleName(m) + ("E" + MangleTypes(params)))))))
  }

  lemma AppendOne(head: string, ts: seq<Type>, i: nat)
    requires i < |ts|
    ensures (head + MangleTypes(ts[..i])) + MangleType(ts[i]) == head + MangleTypes(ts[..i + 1])
  {
    assert ts[..i + 1][..i] == ts[..i];
  }

  lemma Regroup(a: string, b: string, c: string, d: string, e: string, f: string)
    ensures a + b + c + d + e + f == a + ((b + c) + (d + (e + f)))
    ensures a + b + c + d == a + ((b + c) + d)
    ensures a + b + c + d + e + f == a + ((b + c) + ((d + e) + f))
  {
  }

  lemma RegroupMethod(s: string, m: string, types: string)
    ensures ("_ZN" + Decimal(|s|) + s + Decimal(|m|) + m + "E") + types ==
            "_ZN" + (MangleName(s) + (MangleName(m) + ("E" + types)))
  {
    hide Decimal;
    var a, b, rest := Decimal(|s|), Decimal(|m|), "E" + types;
    var front := "_ZN" + a + s;
    Three(front + b + m, "E", types);
    Three(front, b, m);
    Three(front, b + m, rest);
    Three("_ZN", a, s);
    Three("_ZN", a + s, (b + m) + rest);
  }

  lemma Three(a: string, b: string, c: string)
    ensures (a + b) + c == a + (b + c)
  {
  }

  method MangleGenericStruct(name: string, typeArgs: seq<Type>) returns (result: string)
    ensures result == Mangle(GenericStruct(name, typeArgs))
  {
    hide Decimal, MangleType;
    result := "_ZN" + Decimal(|name|) + name + "I";
    ghost var head := result;
    for i := 0 to |typeArgs|
      invariant result == head + MangleTypes(typeArgs[..i])
    {
      AppendOne(head, typeArgs, i);
      result := result + MangleType(typeArgs[i]);
    }
    assert typeArgs[..|typeArgs|] == typeArgs;
    Regroup("_ZN", Decimal(|name|), name, "I", MangleTypes(typeArgs), "E");
    result := result + "E";
  }

  method MangleGenericEnum(name: string, typeArgs: seq<Type>) returns (result: string)
    ensures result == Mangle(GenericEnum(name, typeArgs))
  {
    hide Decimal, MangleType;
    result := "_ZE" + Decimal(|name|) + name + "I";
    ghost var head := result;
    for i := 0 to |typeArgs|
      invariant result == head + MangleTypes(typeArgs[..i])
    {
      AppendOne(head, typeArgs, i);
      result := result + MangleType(typeArgs[i]);
    }
    assert typeArgs[..|typeArgs|] == typeArgs;
    Regroup("_ZE", Decimal(|name|), name, "I", MangleTypes(typeArgs), "E");
    result := result + "E";
  }

  method MangleMethod(structName: string, methodName: string, params: seq<Type>) returns (result: string)
    ensures result == Mangle(Method(structName, methodName, params))
  {
    hide Decimal, MangleType;
    result := "_ZN" + Decimal(|structName|) + structName + Decimal(|methodName|) + methodName + "E";
    ghost var head := result;
    for i := 0 to |params|
      invariant result == head + MangleTypes(params[..i])
    {
      AppendOne(head, params, i);
      result := result + MangleType(params[i]);
    }
    assert params[..|params|] == params;
    RegroupMethod(structName, methodName, MangleTypes(params));
  }

  method MangleFunction(name: string, params: seq<Type>) returns (result: string)
    ensures result == Mangle(Function(name, params))
  {
    hide Decimal, MangleType;
    result := "_Z" + Decimal(|name|) + name;
    ghost var head := result;
    for i := 0 to |params|
      invariant result == head + MangleTypes(params[..i])
    {
      AppendOne(head, params, i);
      result := result + MangleType(params[i]);
    }
    assert params[..|params|] == params;
    Regroup("_Z", Decimal(|name|), name, MangleTypes(params), "", "");
  }

  lemma RegroupGenericMethod(s: string, args: string, m: string, types: string)
    ensures ((("_ZN" + Decimal(|s|) + s + "I") + args) + "E" + Decimal(|m|) + m + "E") + types ==
            "_ZN" + (MangleName(s) + ("I" + (args + ("E" + (MangleName(m) + ("E" + types))))))
  {
    hide Decimal;
    var a, b, rest := Decimal(|s|), Decimal(|m|), "E" + types;
    var front := ("_ZN" + a + s + "I") + args + "E";
    Three(front + b + m, "E", types);
    Three(front, b, m);
    Three(front, b + m, rest);
    var member := (b + m) + rest;
    Three(("_ZN" + a + s + "I") + args, "E", member);
    Three("_ZN" + a + s + "I", args, "E" + member);
    Three("_ZN" + a + s, "I", args + ("E" + member));
    Three("_ZN", a, s);
    Three("_ZN", a + s, "I" + (args + ("E" + member)));
  }

  method MangleGenericMethod(structName: string, typeArgs: seq<Type>, methodName: string, params: seq<Type>)
    returns (result: string)
    ensures result == Mangle(GenericMethod(structName, typeArgs, methodName, params))
  {
    hide Decimal, MangleType;
    result := "_ZN" + Decimal(|structName|) + structName + "I";
    ghost var head := result;
    for i := 0 to |typeArgs|
      invariant result == head + MangleTypes(typeArgs[..i])
    {
      AppendOne(head, typeArgs, i);
      result := result + MangleType(typeArgs[i]);
    }
    assert typeArgs[..|typeArgs|] == typeArgs;
    result := result + "E" + Decimal(|methodName|) + methodName + "E";
    ghost var middle := result;
    for i := 0 to |params|
      invariant result == middle + MangleTypes(params[..i])
    {
      AppendOne(middle, params, i);
      result := result + MangleType(params[i]);
    }
    assert params[..|params|] == params;
    RegroupGenericMethod(structName, MangleTypes(typeArgs), methodName, MangleTypes(params));
  }

  // ----- what a mangled type keeps -----

  /** Widths without a code of their own count as 32, missing elements as void, and the arguments of a generic struct
      are not in its name. */
  function Canon(t: Type): Type {
    match t
    case Integer(size, sign, nonZero) => Integer(if size in {8, 16, 64, 128} then size else 32, sign, nonZero)
    case Pointer(e) => Pointer(Element(if e.Element? then Canon(e.of) else Void))
    case Array(e) => Array(Element(if e.Element? then Canon(e.of) else Void))
    case Struct(name, _) => Struct(name, [])
    case _ => t
  }

  function CanonAll(ts: seq<Type>): seq<Type> {
    if |ts| == 0 then [] else CanonAll(ts[..|ts| - 1]) + [Canon(ts[|ts| - 1])]
  }

  function CanonEntity(e: Entity): Entity {
    match e
    case Function(name, params) => Function(name, CanonAll(params))
    case Method(s, m, params) => Method(s, m, CanonAll(params))
    case GenericStruct(name, args) => GenericStruct(name, CanonAll(args))
    case GenericEnum(name, args) => GenericEnum(name, CanonAll(args))
    case GenericMethod(s, args, m, params) => GenericMethod(s, CanonAll(args), m, CanonAll(params))
  }

  /** An identifier: not empty, and not starting with a digit. */
  predicate IsName(name: string) { |name| > 0 && !IsDigit(name[0]) }

  predicate Named(t: Type) {
    match t
    case Struct(name, _) => IsName(name)
    case Pointer(e) => e.Element? ==> Named(e.of)
    case Array(e) => e.Element? ==> Named(e.of)
    case _ => true
  }

  predicate AllNamed(ts: seq<Type>) { forall t :: t in ts ==> Named(t) }

  predicate NamedEntity(e: Entity) {
    match e
    case Function(name, params) => IsName(name) && AllNamed(params)
    case Method(s, m, params) => IsName(s) && IsName(m) && AllNamed(params)
    case GenericStruct(name, args) => IsName(name) && AllNamed(args)
    case GenericEnum(name, args) => IsName(name) && AllNamed(args)
    case GenericMethod(s, args, m, params) => IsName(s) && IsName(m) && AllNamed(args) && AllNamed(params)
  }

  // ----- the decoder -----

  /** Reads digits from the front of s behind a number already read. */
  function ReadNumber(s: string, soFar: nat): (r: (nat, string))
    ensures |r.1| <= |s|
  {
    if StartsWithDigit(s) then ReadNumber(s[1..], 10 * soFar + (s[0] - '0') as int) else (soFar, s)
  }

  /** A length and as many characters. */
  function ReadName(s: string): (r: Option<(string, string)>)
    ensures r.Some? ==> |r.value.1| <= |s|
    ensures r.Some? && StartsWithDigit(s) ==> |r.value.1| < |s|
  {
    var (n, rest) := ReadNumber(s, 0);
    if n <= |rest| then Some((rest[..n], rest[n..])) else None
  }

  function ReadInteger(c: char): Option<(nat, bool)> {
    match c
    case 'a' => Some((8, true))
    case 's' => Some((16, true))
    case 'i' => Some((32, true))
    case 'l' => Some((64, true))
    case 'n' => Some((128, true))
    case 'h' => Some((8, false))
    case 't' => Some((16, false))
    case 'j' => Some((32, false))
    case 'm' => Some((64, false))
    case 'o' => Some((128, false))
    case _ => None
  }

  function ReadType(s: string): (r: Option<(Type, string)>)
    ensures r.Some? ==> |r.value.1| < |s|
  {
    if |s| == 0 then None
    else if IsDigit(s[0]) then
      match ReadName(s)
      case Some(nr) => Some((Struct(nr.0, []), nr.1))
      case None => None
    else if s[0] == 'P' || s[0] == 'A' then
      match ReadType(s[1..])
      case Some(tr) => Some((if s[0] == 'P' then Pointer(Element(tr.0)) else Array(Element(tr.0)), tr.1))
      case None => None
    else if s[0] == 'v' then Some((Void, s[1..]))
    else if s[0] == 'f' then Some((F32, s[1..]))
    else if s[0] == 'd' then Some((F64, s[1..]))
    else if s[0] == 'g' then Some((F128, s[1..]))
    else if s[0] == '?' then Some((Auto, s[1..]))
    else if s[0] == 'D' then if |s| > 1 && s[1] == 'h' then Some((F16, s[2..])) else None
    else if s[0] == 'N' then
      if |s| > 1 && ReadInteger(s[1]).Some? then
        Some((Integer(ReadInteger(s[1]).value.0, ReadInteger(s[1]).value.1, true), s[2..]))
      else None
    else
      match ReadInteger(s[0])
      case Some(code) => Some((Integer(code.0, code.1, false), s[1..]))
      case None => None
  }

  /** Types up to an `E` or the end. */
  function ReadTypes(s: string, soFar: seq<Type>): (r: Option<(seq<Type>, string)>)
    ensures r.Some? ==> |r.value.1| <= |s|
    decreases |s|
  {
    if |s| == 0 || s[0] == 'E' then Some((soFar, s))
    else
      match ReadType(s)
      case Some(tr) => ReadTypes(tr.1, soFar + [tr.0])
      case None => None
  }

  function ReadParams(s: string): Option<seq<Type>> {
    match ReadTypes(s, [])
    case Some(tr) => if tr.1 == "" then Some(tr.0) else None
    case None => None
  }

  function ReadFunction(s: string): Option<Entity> {
    match ReadName(s)
    case None => None
    case Some(nr) =>
      match ReadParams(nr.1)
      case Some(params) => Some(Function(nr.0, params))
      case None => None
  }

  /** The member name of a method, the `E` behind it and the parameters. */
  function ReadMember(s: string): Option<(string, seq<Type>)> {
    match ReadName(s)
    case None => None
    case Some(nr) =>
      if |nr.1| == 0 || nr.1[0] != 'E' then None
      else
        match ReadParams(nr.1[1..])
        case Some(params) => Some((nr.0, params))
        case None => None
  }

  function ReadNested(s: string): Option<Entity> {
    match ReadName(s)
    case None => None
    case Some(nr) =>
      if |nr.1| > 0 && nr.1[0] == 'I' then
        match ReadTypes(nr.1[1..], [])
        case None => None
        case Some(ar) =>
          if ar.1 == "" then None
          else if ar.1 == "E" then Some(GenericStruct(nr.0, ar.0))
          else
            match ReadMember(ar.1[1..])
            case Some(mp) => Some(GenericMethod(nr.0, ar.0, mp.0, mp.1))
            case None => None
      else
        match ReadMember(nr.1)
        case Some(mp) => Some(Method(nr.0, mp.0, mp.1))
        case None => None
  }

  function ReadEnum(s: string): Option<Entity> {
    match ReadName(s)
    case None => None
    case Some(nr) =>
      if |nr.1| == 0 || nr.1[0] != 'I' then None
      else
        match ReadTypes(nr.1[1..], [])
        case Some(ar) => if ar.1 == "E" then Some(GenericEnum(nr.0, ar.0)) else None
        case None => None
  }

  function Decode(s: string): Option<Entity> {
    if |s| < 3 || s[..2] != "_Z" then None
    else if s[2] == 'N' then ReadNested(s[3..])
    else if s[2] == 'E' then ReadEnum(s[3..])
    else ReadFunction(s[2..])
  }

  // ----- the decoder undoes mangling -----

  lemma {:induction false} NumberRoundTrip(n: nat, rest: string)
    ensures ReadNumber(Decimal(n) + rest, 0) == ReadNumber(rest, n)
    decreases n
  {
    if n >= 10 {
      var tail := [DIGITS[n % 10]] + rest;
      assert Decimal(n) + rest == Decimal(n / 10) + tail;
      NumberRoundTrip(n / 10, tail);
      DigitValue(n % 10);
      assert tail[1..] == rest;
    } else {
      DigitValue(n);
      assert (Decimal(n) + rest)[1..] == rest;
    }
  }

  lemma DigitValue(d: nat)
    requires d < 10
    ensures IsDigit(DIGITS[d]) && (DIGITS[d] - '0') as int == d
  {
  }

  lemma NameRoundTrip(name: string, rest: string)
    requires IsName(name)
    ensures ReadName(MangleName(name) + rest) == Some((name, rest)) && StartsWithDigit(MangleName(name) + rest)
  {
    assert MangleName(name) + rest == Decimal(|name|) + (name + rest);
    NumberRoundTrip(|name|, name + rest);
    assert (name + rest)[..|name|] == name && (name + rest)[|name|..] == rest;
  }

  lemma IntegerRoundTrip(size: nat, sign: bool)
    ensures var c := IntegerCode(size, sign);
      ReadInteger(c) == Some((if size in {8, 16, 64, 128} then size else 32, sign)) &&
      !IsDigit(c) && c !in "PAvfdg?DNE"
  {
  }

  lemma {:induction false} TypeRoundTrip(t: Type, rest: string)
    requires Named(t)
    ensures ReadType(MangleType(t) + rest) == Some((Canon(t), rest))
    ensures (MangleType(t) + rest)[0] != 'E'
    decreases t
  {
    var s := MangleType(t) + rest;
    match t
    case Struct(name, _) => NameRoundTrip(name, rest);
    case Pointer(e) => ElementRoundTrip(t, e, rest);
    case Array(e) => ElementRoundTrip(t, e, rest);
    case Integer(size, sign, nonZero) =>
      IntegerRoundTrip(size, sign);
      if nonZero { assert s[1] == IntegerCode(size, sign) && s[2..] == rest; }
      else { assert s[0] == IntegerCode(size, sign) && s[1..] == rest; }
    case F16 => assert s[1] == 'h' && s[2..] == rest;
    case _ => assert s[1..] == rest;
  }

  lemma {:induction false} ElementRoundTrip(t: Type, e: Element, rest: string)
    requires (t.Pointer? || t.Array?) && t.element == e && Named(t)
    ensures ReadType(MangleType(t) + rest) == Some((Canon(t), rest)) && (MangleType(t) + rest)[0] != 'E'
    decreases e
  {
    hide ReadType;
    var c := if t.Pointer? then 'P' else 'A';
    var body := MangleType(if e.Element? then e.of else Void) + rest;
    assert MangleType(t) + rest == [c] + body;
    if e.Element? { TypeRoundTrip(e.of, rest); } else { VoidReads(rest); }
    PrefixReads(c, body, if e.Element? then Canon(e.of) else Void, rest);
  }

  lemma VoidReads(rest: string)
    ensures ReadType("v" + rest) == Some((Void, rest))
  {
    hide ReadName, ReadInteger;
    assert ("v" + rest)[1..] == rest;
  }

  lemma PrefixReads(c: char, body: string, t: Type, rest: string)
    requires (c == 'P' || c == 'A') && ReadType(body) == Some((t, rest))
    ensures ReadType([c] + body) == Some((if c == 'P' then Pointer(Element(t)) else Array(Element(t)), rest))
  {
    hide ReadName, ReadInteger;
    assert ([c] + body)[1..] == body;
  }

  lemma {:induction false} TypesAppend(ts: seq<Type>)
    requires |ts| > 0
    ensures MangleTypes(ts) == MangleType(ts[0]) + MangleTypes(ts[1..])
    ensures CanonAll(ts) == [Canon(ts[0])] + CanonAll(ts[1..])
    decreases |ts|
  {
    hide MangleType, Canon;
    var n := |ts| - 1;
    if n > 0 {
      TypesAppend(ts[..n]);
      assert ts[..n][1..] == ts[1..][..n - 1];
    } else {
      assert ts[..0] == [] && ts[1..] == [];
    }
  }

  lemma {:induction false} TypesRoundTrip(ts: seq<Type>, rest: string, soFar: seq<Type>)
    requires AllNamed(ts) && (rest == "" || rest[0] == 'E')
    ensures ReadTypes(MangleTypes(ts) + rest, soFar) == Some((soFar + CanonAll(ts), rest))
    decreases |ts|
  {
    hide MangleType, Canon, ReadType;
    if |ts| == 0 {
      assert MangleTypes(ts) + rest == rest && soFar + [] == soFar;
    } else {
      hide MangleTypes, CanonAll;
      TypesAppend(ts);
      var tail := MangleTypes(ts[1..]) + rest;
      Reassociate(MangleType(ts[0]), MangleTypes(ts[1..]), rest);
      TypeRoundTrip(ts[0], tail);
      TypesRoundTrip(ts[1..], rest, soFar + [Canon(ts[0])]);
      Reassociate(soFar, [Canon(ts[0])], CanonAll(ts[1..]));
    }
  }

  lemma Reassociate<T>(a: seq<T>, b: seq<T>, c: seq<T>)
    ensures (a + b) + c == a + (b + c)
  {
  }

  lemma ParamsRoundTrip(ts: seq<Type>)
    requires AllNamed(ts)
    ensures ReadParams(MangleTypes(ts)) == Some(CanonAll(ts))
  {
    TypesRoundTrip(ts, "", []);
    assert MangleTypes(ts) + "" == MangleTypes(ts) && [] + CanonAll(ts) == CanonAll(ts);
  }

  lemma MemberRoundTrip(m: string, params: seq<Type>)
    requires IsName(m) && AllNamed(params)
    ensures ReadMember(MangleName(m) + ("E" + MangleTypes(params))) == Some((m, CanonAll(params)))
  {
    hide MangleName, MangleTypes, ReadParams, ReadName;
    NameRoundTrip(m, "E" + MangleTypes(params));
    assert ("E" + MangleTypes(params))[1..] == MangleTypes(params);
    ParamsRoundTrip(params);
  }

  /** The decoder recovers the kind, the names and the canonical types of everything that was mangled. */
  lemma DecodeUndoesMangle(e: Entity)
    requires NamedEntity(e)
    ensures Decode(Mangle(e)) == Some(CanonEntity(e))
  {
    hide MangleName, MangleTypes, CanonAll, AllNamed, IsName;
    match e
    case Function(_, _) => FunctionRoundTrip(e);
    case Method(_, _, _) => MethodRoundTrip(e);
    case GenericStruct(_, _) => GenericStructRoundTrip(e);
    case GenericEnum(_, _) => GenericEnumRoundTrip(e);
    case GenericMethod(_, _, _, _) => GenericMethodRoundTrip(e);
  }

  lemma Prefixes(rest: string)
    requires |rest| > 0
    ensures ("_ZN" + rest)[..2] == "_Z" && ("_ZN" + rest)[2] == 'N' && ("_ZN" + rest)[3..] == rest
    ensures ("_ZE" + rest)[..2] == "_Z" && ("_ZE" + rest)[2] == 'E' && ("_ZE" + rest)[3..] == rest
    ensures ("_Z" + rest)[..2] == "_Z" && ("_Z" + rest)[2] == rest[0] && ("_Z" + rest)[2..] == rest
  {
  }

  lemma FunctionRoundTrip(e: Entity)
    requires e.Function? && NamedEntity(e)
    ensures Decode(Mangle(e)) == Some(CanonEntity(e))
  {
    hide MangleName, MangleTypes, CanonAll, AllNamed, IsName, ReadName, ReadParams;
    var types := MangleTypes(e.params);
    NameRoundTrip(e.name, types);
    Prefixes(MangleName(e.name) + types);
    ParamsRoundTrip(e.params);
  }

  lemma MethodRoundTrip(e: Entity)
    requires e.Method? && NamedEntity(e)
    ensures Decode(Mangle(e)) == Some(CanonEntity(e))
  {
    hide MangleName, MangleTypes, CanonAll, AllNamed, IsName, ReadName, ReadMember;
    var member := MangleName(e.methodName) + ("E" + MangleTypes(e.params));
    NameRoundTrip(e.structName, member);
    NameRoundTrip(e.methodName, "E" + MangleTypes(e.params));
    Prefixes(MangleName(e.structName) + member);
    MemberRoundTrip(e.methodName, e.params);
  }

  lemma GenericStructRoundTrip(e: Entity)
    requires e.GenericStruct? && NamedEntity(e)
    ensures Decode(Mangle(e)) == Some(CanonEntity(e))
  {
    hide MangleName, MangleTypes, CanonAll, AllNamed, IsName, ReadName, ReadMember, ReadTypes;
    var args := MangleTypes(e.typeArgs) + "E";
    NameRoundTrip(e.name, "I" + args);
    Prefixes(MangleName(e.name) + ("I" + args));
    assert ("I" + args)[1..] == args;
    TypesRoundTrip(e.typeArgs, "E", []);
    assert [] + CanonAll(e.typeArgs) == CanonAll(e.typeArgs);
  }

  lemma GenericEnumRoundTrip(e: Entity)
    requires e.GenericEnum? && NamedEntity(e)
    ensures Decode(Mangle(e)) == Some(CanonEntity(e))
  {
    hide MangleName, MangleTypes, CanonAll, AllNamed, IsName, ReadName, ReadTypes;
    var args := MangleTypes(e.typeArgs) + "E";
    NameRoundTrip(e.name, "I" + args);
    Prefixes(MangleName(e.name) + ("I" + args));
    assert ("I" + args)[1..] == args;
    TypesRoundTrip(e.typeArgs, "E", []);
    assert [] + CanonAll(e.typeArgs) == CanonAll(e.typeArgs);
  }

  lemma GenericMethodRoundTrip(e: Entity)
    requires e.GenericMethod? && NamedEntity(e)
    ensures Decode(Mangle(e)) == Some(CanonEntity(e))
  {
    hide MangleName, MangleTypes, CanonAll, AllNamed, IsName, ReadName, ReadMember, ReadTypes;
    var member := MangleName(e.methodName) + ("E" + MangleTypes(e.params));
    var args := MangleTypes(e.typeArgs) + ("E" + member);
    NameRoundTrip(e.structName, "I" + args);
    NameRoundTrip(e.methodName, "E" + MangleTypes(e.params));
    Prefixes(MangleName(e.structName) + ("I" + args));
    assert ("I" + args)[1..] == args && ("E" + member)[1..] == member;
    TypesRoundTrip(e.typeArgs, "E" + member, []);
    assert [] + CanonAll(e.typeArgs) == CanonAll(e.typeArgs);
    assert |"E" + member| > 1;
    MemberRoundTrip(e.methodName, e.params);
  }

  // ----- keys -----

  lemma {:induction false} CanonMangles(t: Type)
    ensures MangleType(Canon(t)) == MangleType(t)
    decreases t
  {
    match t
    case Pointer(e) => if e.Element? { CanonMangles(e.of); }
    case Array(e) => if e.Element? { CanonMangles(e.of); }
    case _ =>
  }

  lemma {:induction false} CanonManglesAll(ts: seq<Type>)
    ensures MangleTypes(CanonAll(ts)) == MangleTypes(ts)
    decreases |ts|
  {
    hide MangleType, Canon;
    if |ts| > 0 {
      var n := |ts| - 1;
      CanonManglesAll(ts[..n]);
      CanonMangles(ts[n]);
      assert CanonAll(ts)[..|CanonAll(ts)| - 1] == CanonAll(ts[..n]);
    }
  }

  /** Two entities share a mangled name exactly when they are the same up to what mangling does not keep. */
  lemma SameNameIff(a: Entity, b: Entity)
    requires NamedEntity(a) && NamedEntity(b)
    ensures Mangle(a) == Mangle(b) <==> CanonEntity(a) == CanonEntity(b)
  {
    hide Decode, MangleName, MangleTypes, CanonAll, AllNamed, IsName;
    DecodeUndoesMangle(a);
    DecodeUndoesMangle(b);
    CanonEntityMangles(a);
    CanonEntityMangles(b);
  }

  lemma CanonEntityMangles(e: Entity)
    ensures Mangle(CanonEntity(e)) == Mangle(e)
  {
    hide MangleName, MangleTypes, CanonAll;
    match e
    case Function(_, params) => CanonManglesAll(params);
    case Method(_, _, params) => CanonManglesAll(params);
    case GenericStruct(_, args) => CanonManglesAll(args);
    case GenericEnum(_, args) => CanonManglesAll(args);
    case GenericMethod(_, args, _, params) => CanonManglesAll(args); CanonManglesAll(params);
  }

  /** A type that mangling keeps whole: standard widths, elements present, no arguments on a struct. */
  predicate Whole(t: Type) {
    match t
    case Integer(size, _, _) => size in {8, 16, 32, 64, 128}
    case Pointer(e) => e.Element? && Whole(e.of)
    case Array(e) => e.Element? && Whole(e.of)
    case Struct(_, args) => args == []
    case _ => true
  }

  lemma {:induction false} WholeIsKept(ts: seq<Type>)
    requires forall t :: t in ts ==> Whole(t)
    ensures CanonAll(ts) == ts
    decreases |ts|
  {
    hide Whole, Canon;
    if |ts| > 0 {
      WholeIsKept(ts[..|ts| - 1]);
      WholeTypeIsKept(ts[|ts| - 1]);
    }
  }

  lemma {:induction false} WholeTypeIsKept(t: Type)
    requires Whole(t)
    ensures Canon(t) == t
    decreases t
  {
    match t
    case Pointer(e) => WholeTypeIsKept(e.of);
    case Array(e) => WholeTypeIsKept(e.of);
    case _ =>
  }

  /** On whole types every instance of a generic struct has a key of its own. */
  lemma InstancesHaveTheirOwnKeys(name: string, args: seq<Type>, name': string, args': seq<Type>)
    requires IsName(name) && IsName(name') && AllNamed(args) && AllNamed(args')
    requires (forall t :: t in args ==> Whole(t)) && (forall t :: t in args' ==> Whole(t))
    ensures Mangle(GenericStruct(name, args)) == Mangle(GenericStruct(name', args')) <==> name == name' && args == args'
    ensures Mangle(GenericEnum(name, args)) == Mangle(GenericEnum(name', args')) <==> name == name' && args == args'
    ensures Mangle(GenericStruct(name, args)) != Mangle(GenericEnum(name', args'))
  {
    hide Mangle, IsName, AllNamed, Whole, CanonAll;
    WholeIsKept(args);
    WholeIsKept(args');
    SameNameIff(GenericStruct(name, args), GenericStruct(name', args'));
    SameNameIff(GenericEnum(name, args), GenericEnum(name', args'));
    SameNameIff(GenericStruct(name, args), GenericEnum(name', args'));
  }

  /** List<Box<i32>> and List<Box<i64>> share a key: the arguments of a struct argument are not in the name. */
  lemma NestedInstancesCollide()
    ensures var box32, box64 :=
        Struct("Box", [Integer(32, true, false)]), Struct("Box", [Integer(64, true, false)]);
      box32 != box64 && Mangle(GenericStruct("List", [box32])) == Mangle(GenericStruct("List", [box64]))
  {
    var box32, box64 := Struct("Box", [Integer(32, true, false)]), Struct("Box", [Integer(64, true, false)]);
    assert box32.genericArgs[0] != box64.genericArgs[0];
    assert [box32][..0] == [box64][..0];
    assert MangleTypes([box32]) == MangleTypes([box64]);
  }
}
