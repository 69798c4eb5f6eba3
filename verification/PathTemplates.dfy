/** Materialising an OpenAPI path: placeholders are found, declared and replaced one at a time. */
module PathTemplates {
  import opened Wrappers
  import opened Json
  import opened Utf8Prefix

  // ---------------------------------------------------------------- templates

  /** A template is read as literal characters and holes. */
  datatype Segment = Char(c: char) | Hole(name: string)

  predicate IsBrace(c: char) {
    c == '{' || c == '}'
  }

  predicate BraceFree(s: string) {
    forall i :: 0 <= i < |s| ==> !IsBrace(s[i])
  }

  /** The length of the longest brace-free prefix. */
  function PlainLength(s: string): (n: nat)
    ensures n <= |s| && BraceFree(s[..n]) && (n < |s| ==> IsBrace(s[n]))
  {
    if s == "" || IsBrace(s[0]) then 0
    else
      var n := PlainLength(s[1..]);
      assert s[..n + 1] == [s[0]] + s[1..][..n];
      1 + n
  }

  /** The name matched by the placeholder pattern at the start of `s`, if it matches there. */
  function HoleAt(s: string): (r: Option<string>)
    ensures r.Some? ==> |r.value| + 2 <= |s| && s[..|r.value| + 2] == "{" + r.value + "}"
    ensures r.Some? ==> r.value != "" && BraceFree(r.value)
  {
    if s == "" || s[0] != '{' then None
    else
      var n := PlainLength(s[1..]);
      if n > 0 && n + 1 < |s| && s[n + 1] == '}' then
        assert s[..n + 2] == "{" + s[1..][..n] + "}";
        Some(s[1..][..n])
      else None
  }

  /** `_PATH_PARAMETER_PATTERN.findall(path)` */
  function FindAll(path: string): seq<string>
    decreases |path|
  {
    if path == "" then []
    else match HoleAt(path)
      case Some(name) => [name] + FindAll(path[|name| + 2..])
      case None => FindAll(path[1..])
  }

  function CountChar(s: string, c: char): nat {
    if s == "" then 0 else (if s[0] == c then 1 else 0) + CountChar(s[1..], c)
  }

  predicate DistinctNames(names: seq<string>) {
    forall i, j :: 0 <= i < j < |names| ==> names[i] != names[j]
  }

  /** The brace check of `_materialize_operation_path`. */
  predicate Balanced(path: string) {
    CountChar(path, '{') == |FindAll(path)| && CountChar(path, '}') == |FindAll(path)|
  }

  predicate Accepted(path: string) {
    Balanced(path) && DistinctNames(FindAll(path))
  }

  function TextOf(t: seq<Segment>): string {
    if t == [] then ""
    else (match t[0] case Char(c) => [c] case Hole(name) => "{" + name + "}") + TextOf(t[1..])
  }

  function Names(t: seq<Segment>): seq<string> {
    if t == [] then []
    else match t[0]
      case Char(_) => Names(t[1..])
      case Hole(name) => [name] + Names(t[1..])
  }

  /** Brace-free literal text around non-empty brace-free names. */
  predicate IsTemplate(t: seq<Segment>) {
    forall i :: 0 <= i < |t| ==>
      match t[i] case Char(c) => !IsBrace(c) case Hole(name) => name != "" && BraceFree(name)
  }

  function Parse(path: string): seq<Segment>
    decreases |path|
  {
    if path == "" then []
    else match HoleAt(path)
      case Some(name) => [Hole(name)] + Parse(path[|name| + 2..])
      case None => [Char(path[0])] + Parse(path[1..])
  }

  /** Simultaneous substitution. */
  function Fill(t: seq<Segment>, values: map<string, string>): string
    requires forall name :: name in Names(t) ==> name in values
  {
    if t == [] then ""
    else match t[0]
      case Char(c) => [c] + Fill(t[1..], values)
      case Hole(name) => values[name] + Fill(t[1..], values)
  }

  // ---------------------------------------------------------------- which paths are accepted

  lemma {:induction false} ParseText(path: string)
    ensures TextOf(Parse(path)) == path && Names(Parse(path)) == FindAll(path)
    decreases |path|
  {
    if path != "" {
      hide HoleAt, TextOf, Names, FindAll, Parse;
      match HoleAt(path) {
        case Some(name) =>
          ParseText(path[|name| + 2..]);
          ParseHole(path, name);
        case None =>
          ParseText(path[1..]);
          ParseChar(path);
      }
    }
  }

  lemma SegmentCons(x: Segment, t: seq<Segment>)
    ensures TextOf([x] + t) == (match x case Char(c) => [c] case Hole(name) => "{" + name + "}") + TextOf(t)
    ensures Names([x] + t) == (match x case Char(_) => [] case Hole(name) => [name]) + Names(t)
  {
    assert ([x] + t)[1..] == t;
  }

  lemma ParseHole(path: string, name: string)
    requires path != "" && HoleAt(path) == Some(name)
    ensures var rest := path[|name| + 2..];
            && path == "{" + name + "}" + rest && FindAll(path) == [name] + FindAll(rest)
            && TextOf(Parse(path)) == "{" + name + "}" + TextOf(Parse(rest))
               && Names(Parse(path)) == [name] + Names(Parse(rest))
  {
    hide HoleAt, TextOf, Names;
    var rest := path[|name| + 2..];
    assert path == path[..|name| + 2] + rest;
    SegmentCons(Hole(name), Parse(rest));
  }

  lemma ParseChar(path: string)
    requires path != "" && HoleAt(path) == None
    ensures path == [path[0]] + path[1..] && FindAll(path) == FindAll(path[1..])
    ensures TextOf(Parse(path)) == [path[0]] + TextOf(Parse(path[1..])) && Names(Parse(path)) == Names(Parse(path[1..]))
  {
    hide HoleAt, TextOf, Names;
    SegmentCons(Char(path[0]), Parse(path[1..]));
  }

  lemma {:induction false} CountConcat(a: string, b: string, c: char)
    ensures CountChar(a + b, c) == CountChar(a, c) + CountChar(b, c)
    decreases |a|
  {
    if a == "" {
      assert a + b == b;
    } else {
      assert (a + b)[1..] == a[1..] + b;
      CountConcat(a[1..], b, c);
    }
  }

  lemma {:induction false} CountAbsent(s: string, c: char)
    requires forall i :: 0 <= i < |s| ==> s[i] != c
    ensures CountChar(s, c) == 0
  {
    if s != "" {
      CountAbsent(s[1..], c);
    }
  }

  lemma HoleCounts(name: string)
    requires BraceFree(name)
    ensures CountChar("{" + name + "}", '{') == 1 == CountChar("{" + name + "}", '}')
  {
    CountAbsent(name, '{');
    CountAbsent(name, '}');
    CountConcat("{" + name, "}", '{');
    CountConcat("{" + name, "}", '}');
    CountConcat("{", name, '{');
    CountConcat("{", name, '}');
  }

  /** Each match accounts for one opening and one closing brace, so the counts agree exactly when no brace is stray. */
  lemma {:induction false} BalancedIff(path: string)
    ensures CountChar(path, '{') >= |FindAll(path)| && CountChar(path, '}') >= |FindAll(path)|
    ensures Balanced(path) <==> IsTemplate(Parse(path))
    decreases |path|
  {
    hide HoleAt, BraceFree;
    if path != "" {
      var t := Parse(path);
      match HoleAt(path)
      case Some(name) =>
        var rest := path[|name| + 2..];
        BalancedIff(rest);
        assert path == ("{" + name + "}") + rest;
        CountConcat("{" + name + "}", rest, '{');
        CountConcat("{" + name + "}", rest, '}');
        HoleCounts(name);
        assert t == [Hole(name)] + Parse(rest) && t[1..] == Parse(rest);
        TemplateTail(t);
      case None =>
        BalancedIff(path[1..]);
        assert t == [Char(path[0])] + Parse(path[1..]) && t[1..] == Parse(path[1..]);
        TemplateTail(t);
    }
  }

  lemma TemplateTail(t: seq<Segment>)
    requires t != []
    ensures IsTemplate(t) <==>
              && (match t[0] case Char(c) => !IsBrace(c) case Hole(name) => name != "" && BraceFree(name))
              && IsTemplate(t[1..])
  {
    assert forall i :: 1 <= i < |t| ==> t[i] == t[1..][i - 1];
  }

  lemma HoleStart(name: string, rest: string)
    requires name != "" && BraceFree(name)
    ensures HoleAt("{" + name + "}" + rest) == Some(name)
  {
    var s := "{" + name + "}" + rest;
    var n := PlainLength(s[1..]);
    assert forall i :: 0 <= i < |name| ==> s[1..][i] == name[i];
    assert s[1..][|name|] == '}';
    assert forall i :: 0 <= i < n ==> s[1..][i] == s[1..][..n][i];
    assert n == |name| && s[1..][..n] == name;
  }

  /** Parsing inverts writing a template out. */
  lemma {:induction false} ParseUnique(t: seq<Segment>)
    requires IsTemplate(t)
    ensures Parse(TextOf(t)) == t
    decreases |t|
  {
    if t != [] {
      var rest := TextOf(t[1..]);
      ParseUnique(t[1..]);
      match t[0]
      case Char(c) =>
        assert ([c] + rest)[1..] == rest;
        assert HoleAt([c] + rest).None?;
      case Hole(name) =>
        HoleStart(name, rest);
        assert ("{" + name + "}" + rest)[|name| + 2..] == rest;
    }
  }

  /** The accepted paths are exactly the written-out templates with distinct, non-empty placeholder names. */
  lemma AcceptedIff(path: string)
    ensures Accepted(path) <==> exists t :: IsTemplate(t) && DistinctNames(Names(t)) && TextOf(t) == path
    ensures Accepted(path) ==> IsTemplate(Parse(path)) && TextOf(Parse(path)) == path
                               && Names(Parse(path)) == FindAll(path)
  {
    hide IsTemplate, DistinctNames, Balanced;
    BalancedIff(path);
    ParseText(path);
    if t :| IsTemplate(t) && DistinctNames(Names(t)) && TextOf(t) == path {
      ParseUnique(t);
    }
  }

  // ---------------------------------------------------------------- one placeholder at a time

  /** `s.replace(pattern, new, 1)` */
  function ReplaceFirst(s: string, pattern: string, value: string): string {
    if pattern <= s then value + s[|pattern|..]
    else if s == "" then ""
    else [s[0]] + ReplaceFirst(s[1..], pattern, value)
  }

  function ReplaceInTurn(s: string, names: seq<string>, values: map<string, string>): string
    requires forall name :: name in names ==> name in values
    decreases |names|
  {
    if names == [] then s
    else ReplaceInTurn(ReplaceFirst(s, "{" + names[0] + "}", values[names[0]]), names[1..], values)
  }

  lemma {:induction false} ReplaceAfter(done: string, pattern: string, rest: string, value: string)
    requires BraceFree(done) && pattern != "" && pattern[0] == '{'
    ensures ReplaceFirst(done + pattern + rest, pattern, value) == done + value + rest
    decreases |done|
  {
    var s := done + pattern + rest;
    if done == "" {
      assert s == pattern + rest && s[|pattern|..] == rest;
    } else {
      assert s[0] == done[0] && !(pattern <= s);
      assert s[1..] == done[1..] + pattern + rest;
      ReplaceAfter(done[1..], pattern, rest, value);
      assert [done[0]] + (done[1..] + value + rest) == done + value + rest;
    }
  }

  /** In-place replacement from left to right is simultaneous substitution, whatever brace-free values are inserted. */
  lemma {:induction false} InTurnIsFill(done: string, t: seq<Segment>, values: map<string, string>)
    requires BraceFree(done) && IsTemplate(t)
    requires forall name :: name in Names(t) ==> name in values && BraceFree(values[name])
    ensures ReplaceInTurn(done + TextOf(t), Names(t), values) == done + Fill(t, values)
    decreases |t|
  {
    hide BraceFree, ReplaceInTurn, TextOf, Fill;
    if t == [] {
      FillNothing(done, values);
    } else {
      TemplateTail(t);
      match t[0]
      case Char(c) =>
        BraceFreeConcat(done, [c]);
        InTurnIsFill(done + [c], t[1..], values);
        LiteralStep(done, t, values);
      case Hole(name) =>
        assert Names(t)[0] == name && Names(t)[1..] == Names(t[1..]);
        BraceFreeConcat(done, values[name]);
        InTurnIsFill(done + values[name], t[1..], values);
        HoleStep(done, t, values);
    }
  }

  lemma FillNothing(done: string, values: map<string, string>)
    ensures ReplaceInTurn(done + TextOf([]), [], values) == done + Fill([], values)
  {
    assert done + "" == done;
  }

  lemma LiteralStep(done: string, t: seq<Segment>, values: map<string, string>)
    requires t != [] && t[0].Char? && forall name :: name in Names(t) ==> name in values
    ensures done + TextOf(t) == done + [t[0].c] + TextOf(t[1..])
    ensures done + Fill(t, values) == done + [t[0].c] + Fill(t[1..], values)
  {
  }

  lemma HoleStep(done: string, t: seq<Segment>, values: map<string, string>)
    requires BraceFree(done) && t != [] && t[0].Hole? && forall name :: name in Names(t) ==> name in values
    ensures ReplaceInTurn(done + TextOf(t), Names(t), values)
         == ReplaceInTurn(done + values[t[0].name] + TextOf(t[1..]), Names(t[1..]), values)
    ensures done + Fill(t, values) == done + values[t[0].name] + Fill(t[1..], values)
  {
    hide BraceFree, ReplaceFirst, TextOf, ReplaceInTurn, Fill;
    var name, rest := t[0].name, TextOf(t[1..]);
    assert Names(t)[0] == name && Names(t)[1..] == Names(t[1..]);
    HoleText(done, t);
    TurnStep(done + TextOf(t), Names(t), values);
    ReplaceAfter(done, "{" + name + "}", rest, values[name]);
    HoleFilled(done, t, values);
  }

  lemma TurnStep(s: string, names: seq<string>, values: map<string, string>)
    requires names != [] && forall name :: name in names ==> name in values
    ensures ReplaceInTurn(s, names, values)
              == ReplaceInTurn(ReplaceFirst(s, "{" + names[0] + "}", values[names[0]]), names[1..], values)
  {
  }

  lemma HoleFilled(done: string, t: seq<Segment>, values: map<string, string>)
    requires t != [] && t[0].Hole? && forall name :: name in Names(t) ==> name in values
    ensures t[0].name in values && done + Fill(t, values) == done + values[t[0].name] + Fill(t[1..], values)
  {
    assert Names(t)[0] == t[0].name && Names(t)[1..] == Names(t[1..]);
  }

  lemma HoleText(done: string, t: seq<Segment>)
    requires t != [] && t[0].Hole?
    ensures done + TextOf(t) == done + ("{" + t[0].name + "}") + TextOf(t[1..])
  {
  }

  function LiteralCount(t: seq<Segment>, c: char): nat {
    if t == [] then 0 else (if t[0] == Char(c) then 1 else 0) + LiteralCount(t[1..], c)
  }

  /** Filling leaves no brace, keeps the literal characters, and adds no slash. */
  lemma {:induction false} FillFacts(t: seq<Segment>, values: map<string, string>)
    requires IsTemplate(t)
    requires forall name :: name in Names(t)
                            ==> name in values && BraceFree(values[name]) && CountChar(values[name], '/') == 0
    ensures BraceFree(Fill(t, values)) && CountChar(Fill(t, values), '/') == LiteralCount(t, '/')
    decreases |t|
  {
    hide BraceFree;
    if t == [] {
      assert BraceFree("") by { NothingBraceFree(); }
    } else {
      TemplateTail(t);
      match t[0]
      case Char(c) =>
        FillFacts(t[1..], values);
        CountConcat([c], Fill(t[1..], values), '/');
        CharBraceFree(c, Fill(t[1..], values));
        assert [c][1..] == "";
      case Hole(name) =>
        assert Names(t)[0] == name && Names(t)[1..] == Names(t[1..]);
        FillFacts(t[1..], values);
        CountConcat(values[name], Fill(t[1..], values), '/');
        BraceFreeConcat(values[name], Fill(t[1..], values));
    }
  }

  lemma NothingBraceFree()
    ensures BraceFree("")
  {
  }

  lemma CharBraceFree(c: char, s: string)
    requires !IsBrace(c) && BraceFree(s)
    ensures BraceFree([c] + s)
  {
  }

  lemma BraceFreeConcat(a: string, b: string)
    requires BraceFree(a)
    ensures BraceFree(b) ==> BraceFree(a + b)
    ensures |b| == 1 && !IsBrace(b[0]) ==> BraceFree(a + b)
  {
  }

  // ---------------------------------------------------------------- percent-encoding

  /** The unreserved characters of section 2.3 of RFC 3986. */
  predicate Unreserved(b: int) {
    'a' as int <= b <= 'z' as int || 'A' as int <= b <= 'Z' as int || '0' as int <= b <= '9' as int
    || b == '-' as int || b == '.' as int || b == '_' as int || b == '~' as int
  }

  function HexDigit(n: int): char
    requires 0 <= n < 16
  {
    if n < 10 then ('0' as int + n) as char else ('A' as int + n - 10) as char
  }

  function HexValue(c: char): Option<int> {
    if '0' <= c <= '9' then Some(c as int - '0' as int)
    else if 'A' <= c <= 'F' then Some(c as int - 'A' as int + 10)
    else None
  }

  /** Percent-encoding of bytes (section 2.1 of RFC 3986), nothing but the unreserved characters kept. */
  function QuoteBytes(b: seq<Byte>): string {
    if b == [] then ""
    else (if Unreserved(b[0]) then [b[0] as char]
            else ['%', HexDigit(b[0] / 16), HexDigit(b[0] % 16)]) + QuoteBytes(b[1..])
  }

  /** `quote(value, safe="")` */
  function Quote(value: string): string {
    QuoteBytes(Encode(value))
  }

  function UnquoteBytes(s: string): seq<Byte>
    decreases |s|
  {
    if s == "" then []
    else if s[0] == '%' && |s| >= 3 && HexValue(s[1]).Some? && HexValue(s[2]).Some? then
      [HexValue(s[1]).value * 16 + HexValue(s[2]).value] + UnquoteBytes(s[3..])
    else if s[0] as int < 256 then [s[0] as int] + UnquoteBytes(s[1..])
    else UnquoteBytes(s[1..])
  }

  predicate Inert(c: char) {
    !IsBrace(c) && c != '/'
  }

  lemma {:induction false} QuoteBytesFacts(b: seq<Byte>)
    ensures UnquoteBytes(QuoteBytes(b)) == b
    ensures forall i :: 0 <= i < |QuoteBytes(b)| ==> Inert(QuoteBytes(b)[i])
  {
    if b != [] {
      QuoteBytesFacts(b[1..]);
      var rest := QuoteBytes(b[1..]);
      if Unreserved(b[0]) {
        assert ([b[0] as char] + rest)[1..] == rest;
      } else {
        var x, y := b[0] / 16, b[0] % 16;
        assert (['%', HexDigit(x), HexDigit(y)] + rest)[3..] == rest;
        assert HexValue(HexDigit(x)) == Some(x) && HexValue(HexDigit(y)) == Some(y);
      }
    }
  }

  /** A quoted value has no brace and no slash, and unquoting gives the value back. */
  lemma QuoteFacts(value: string)
    ensures DecodeIgnore(UnquoteBytes(Quote(value))) == value
    ensures BraceFree(Quote(value)) && CountChar(Quote(value), '/') == 0
  {
    QuoteBytesFacts(Encode(value));
    DecodeEncode(value);
    CountAbsent(Quote(value), '/');
  }

  // ---------------------------------------------------------------- declared parameters

  /** One declared path parameter and the members of its declaration. */
  datatype Parameter = Parameter(name: string, members: seq<Member>)

  datatype TemplateError =
    | UnsupportedTemplate | DuplicatePlaceholder(name: string)
    | ParametersNotArray | ParameterNotObject | ParameterUnnamed | DuplicateParameter(name: string)
    | ParameterOptional(name: string)
    | MissingDeclaration(name: string) | UnusedDeclaration(name: string)
    | MissingSchema(name: string) | UnsupportedExample(name: string) | EmptyExample(name: string)
    | UnsupportedType(name: string)

  predicate Declares(parameters: seq<Parameter>, name: string) {
    exists i :: 0 <= i < |parameters| && parameters[i].name == name
  }

  function Find(parameters: seq<Parameter>, name: string): (r: Parameter)
    requires Declares(parameters, name)
    ensures r in parameters && r.name == name
  {
    if parameters[0].name == name then parameters[0] else Find(parameters[1..], name)
  }

  /** One entry of a parameter array: skipped, refused, or added. */
  function Declare(parameters: seq<Parameter>, entry: Value): Result<seq<Parameter>, TemplateError> {
    if !entry.Object? then Failure(ParameterNotObject)
    else if Lookup(entry.members, "in") != Some(Text("path")) then Success(parameters)
    else match Lookup(entry.members, "name")
      case Some(Text(name)) =>
        if name == "" then Failure(ParameterUnnamed)
        else if Declares(parameters, name) then Failure(DuplicateParameter(name))
        else if Lookup(entry.members, "required") != Some(Bool(true)) then Failure(ParameterOptional(name))
        else Success(parameters + [Parameter(name, entry.members)])
      case _ => Failure(ParameterUnnamed)
  }

  function DeclareAll(parameters: seq<Parameter>, entries: seq<Value>): Result<seq<Parameter>, TemplateError>
    decreases |entries|
  {
    if entries == [] then Success(parameters)
    else match Declare(parameters, entries[0])
      case Failure(e) => Failure(e)
      case Success(next) => DeclareAll(next, entries[1..])
  }

  function RawParameters(owner: seq<Member>): Value {
    match Lookup(owner, "parameters") case Some(v) => v case None => Array([])
  }

  /** `_path_parameters`: those of the path item, then those of the operation. */
  function PathParameters(pathItem: seq<Member>, operation: seq<Member>): Result<seq<Parameter>, TemplateError> {
    if !RawParameters(pathItem).Array? then Failure(ParametersNotArray)
    else match DeclareAll([], RawParameters(pathItem).items)
      case Failure(e) => Failure(e)
      case Success(first) =>
        if !RawParameters(operation).Array? then Failure(ParametersNotArray)
        else DeclareAll(first, RawParameters(operation).items)
  }

  method CollectParameters(parameters: seq<Parameter>, entries: seq<Value>) returns (r: Result<seq<Parameter>,
          TemplateError>)
    ensures r == DeclareAll(parameters, entries)
  {
    var collected := parameters;
    assert entries[0..] == entries;
    for i := 0 to |entries|
      invariant DeclareAll(collected, entries[i..]) == DeclareAll(parameters, entries)
    {
      assert entries[i..][0] == entries[i] && entries[i..][1..] == entries[i + 1..];
      match Declare(collected, entries[i])
      case Failure(e) => return Failure(e);
      case Success(next) => collected := next;
    }
    return Success(collected);
  }

  const UUID_FALLBACK := "00000000-0000-4000-8000-000000000001"

  /** `_path_parameter_value` */
  function ParameterValue(p: Parameter): Result<string, TemplateError> {
    match Lookup(p.members, "schema")
    case Some(Object(schema)) =>
      var own := Lookup(p.members, "example");
      var example := if own == None || own == Some(Null) then Lookup(schema, "example") else own;
      if example != None && example != Some(Null) then
        (match example.value
        case Text(s) => if s == "" then Failure(EmptyExample(p.name)) else Success(Quote(s))
        case Number(text, _) => if text == "" then Failure(EmptyExample(p.name)) else Success(Quote(text))
        case _ => Failure(UnsupportedExample(p.name)))
      else if Lookup(schema, "type") == Some(Text("integer")) then Success("1")
      else if Lookup(schema, "type") == Some(Text("string")) then
        Success(if Lookup(schema, "format") == Some(Text("uuid")) then UUID_FALLBACK else "example")
      else Failure(UnsupportedType(p.name))
    case _ => Failure(MissingSchema(p.name))
  }

  lemma FallbacksInert()
    ensures BraceFree("1") && BraceFree("example") && BraceFree(UUID_FALLBACK)
    ensures CountChar("1", '/') == 0 && CountChar("example", '/') == 0 && CountChar(UUID_FALLBACK, '/') == 0
  {
    hide CountChar, BraceFree;
    SafeText("1");
    SafeText("example");
    SafeText(UUID_FALLBACK);
  }

  lemma SafeText(s: string)
    requires forall i :: 0 <= i < |s| ==> Inert(s[i])
    ensures BraceFree(s) && CountChar(s, '/') == 0
  {
    CountAbsent(s, '/');
  }

  lemma ParameterValueInert(p: Parameter)
    requires ParameterValue(p).Success?
    ensures BraceFree(ParameterValue(p).value) && CountChar(ParameterValue(p).value, '/') == 0
  {
    hide Quote, BraceFree, CountChar;
    FallbacksInert();
    forall s ensures BraceFree(Quote(s)) && CountChar(Quote(s), '/') == 0 {
      QuoteFacts(s);
    }
  }

  // ---------------------------------------------------------------- materialising

  function FirstRepeated(names: seq<string>, seen: set<string>): Option<string> {
    if names == [] then None
    else if names[0] in seen then Some(names[0])
    else FirstRepeated(names[1..], seen + {names[0]})
  }

  lemma {:induction false} FirstRepeatedMeaning(names: seq<string>, seen: set<string>)
    ensures FirstRepeated(names, seen).None? <==> DistinctNames(names) && forall name :: name in names ==> name !in seen
  {
    if names != [] && names[0] !in seen {
      FirstRepeatedMeaning(names[1..], seen + {names[0]});
      assert forall i :: 1 <= i < |names| ==> names[i] == names[1..][i - 1];
      assert forall name :: name in names <==> name == names[0] || name in names[1..];
    }
  }

  function FirstUndeclared(names: seq<string>, parameters: seq<Parameter>): Option<string> {
    if names == [] then None
    else if !Declares(parameters, names[0]) then Some(names[0])
    else FirstUndeclared(names[1..], parameters)
  }

  function FirstUnused(parameters: seq<Parameter>, names: seq<string>): Option<string> {
    if parameters == [] then None
    else if parameters[0].name !in names then Some(parameters[0].name)
    else FirstUnused(parameters[1..], names)
  }

  lemma {:induction false} UndeclaredMeaning(names: seq<string>, parameters: seq<Parameter>)
    ensures FirstUndeclared(names, parameters).None? <==> forall name :: name in names ==> Declares(parameters, name)
  {
    if names != [] {
      UndeclaredMeaning(names[1..], parameters);
      assert forall name :: name in names <==> name == names[0] || name in names[1..];
    }
  }

  lemma {:induction false} UnusedMeaning(parameters: seq<Parameter>, names: seq<string>)
    ensures FirstUnused(parameters, names).None? <==> forall p :: p in parameters ==> p.name in names
  {
    if parameters != [] {
      UnusedMeaning(parameters[1..], names);
      assert forall p :: p in parameters <==> p == parameters[0] || p in parameters[1..];
    }
  }

  /** The replacement loop: the first placeholder without a value ends it. */
  function ReplaceAll(s: string, names: seq<string>, parameters: seq<Parameter>): Result<string, TemplateError>
    requires forall name :: name in names ==> Declares(parameters, name)
    decreases |names|
  {
    if names == [] then Success(s)
    else match ParameterValue(Find(parameters, names[0]))
      case Failure(e) => Failure(e)
      case Success(v) => ReplaceAll(ReplaceFirst(s, "{" + names[0] + "}", v), names[1..], parameters)
  }

  /** `_materialize_operation_path` */
  function Materialized(path: string, pathItem: seq<Member>, operation: seq<Member>): Result<string, TemplateError> {
    var names := FindAll(path);
    if !Balanced(path) then Failure(UnsupportedTemplate)
    else match FirstRepeated(names, {})
      case Some(name) => Failure(DuplicatePlaceholder(name))
      case None =>
        (match PathParameters(pathItem, operation)
        case Failure(e) => Failure(e)
        case Success(parameters) =>
          UndeclaredMeaning(names, parameters);
          (match FirstUndeclared(names, parameters)
          case Some(name) => Failure(MissingDeclaration(name))
          case None =>
            (match FirstUnused(parameters, names)
            case Some(name) => Failure(UnusedDeclaration(name))
            case None => ReplaceAll(path, names, parameters))))
  }

  method MaterializePath(path: string, pathItem: seq<Member>, operation: seq<Member>) returns (r: Result<string,
          TemplateError>)
    ensures r == Materialized(path, pathItem, operation)
  {
    var names := FindAll(path);
    if !Balanced(path) {
      return Failure(UnsupportedTemplate);
    }
    var repeated := FirstRepeated(names, {});
    if repeated.Some? {
      return Failure(DuplicatePlaceholder(repeated.value));
    }
    if !RawParameters(pathItem).Array? {
      return Failure(ParametersNotArray);
    }
    var declared := CollectParameters([], RawParameters(pathItem).items);
    if declared.Failure? {
      return Failure(declared.error);
    }
    if !RawParameters(operation).Array? {
      return Failure(ParametersNotArray);
    }
    declared := CollectParameters(declared.value, RawParameters(operation).items);
    if declared.Failure? {
      return Failure(declared.error);
    }
    var parameters := declared.value;
    UndeclaredMeaning(names, parameters);
    if FirstUndeclared(names, parameters).Some? {
      return Failure(MissingDeclaration(FirstUndeclared(names, parameters).value));
    }
    if FirstUnused(parameters, names).Some? {
      return Failure(UnusedDeclaration(FirstUnused(parameters, names).value));
    }
    var materialized := path;
    assert names[0..] == names;
    for i := 0 to |names|
      invariant forall name :: name in names[i..] ==> Declares(parameters, name)
      invariant ReplaceAll(materialized, names[i..], parameters) == ReplaceAll(path, names, parameters)
    {
      assert names[i..][0] == names[i] && names[i..][1..] == names[i + 1..];
      match ParameterValue(Find(parameters, names[i]))
      case Failure(e) => return Failure(e);
      case Success(v) => materialized := ReplaceFirst(materialized, "{" + names[i] + "}", v);
    }
    return Success(materialized);
  }

  function ValueMap(names: seq<string>, parameters: seq<Parameter>): map<string, string>
    requires forall name :: name in names
                            ==> Declares(parameters, name) && ParameterValue(Find(parameters, name)).Success?
  {
    map name | name in names :: ParameterValue(Find(parameters, name)).value
  }

  lemma {:induction false} ReplaceAllInTurn(s: string, names: seq<string>, parameters: seq<Parameter>,
                                            values: map<string, string>)
    requires forall name :: name in names ==> Declares(parameters, name)
    requires forall name :: name in names && ParameterValue(Find(parameters, name)).Success? ==>
      name in values && values[name] == ParameterValue(Find(parameters, name)).value
    ensures ReplaceAll(s, names, parameters).Success?
            <==> forall name :: name in names ==> ParameterValue(Find(parameters, name)).Success?
    ensures ReplaceAll(s, names, parameters).Success? ==>
      (forall name :: name in names ==> name in values)
      && ReplaceAll(s, names, parameters).value == ReplaceInTurn(s, names, values)
    decreases |names|
  {
    hide ParameterValue, ReplaceFirst, Declares;
    if names != [] {
      assert names[0] in names && forall name :: name in names <==> name == names[0] || name in names[1..];
      if ParameterValue(Find(parameters, names[0])).Success? {
        ReplaceAllInTurn(ReplaceFirst(s, "{" + names[0] + "}", values[names[0]]), names[1..], parameters, values);
      }
    }
  }

  /** What a caller can check beforehand: the template, the declarations and that both name the same parameters. */
  predicate Materializable(path: string, pathItem: seq<Member>, operation: seq<Member>) {
    && Accepted(path) && PathParameters(pathItem, operation).Success?
    && var parameters := PathParameters(pathItem, operation).value;
    && (forall name :: name in FindAll(path)
                       ==> Declares(parameters, name) && ParameterValue(Find(parameters, name)).Success?)
    && (forall p :: p in parameters ==> p.name in FindAll(path))
  }

  /**
   A path is materialised exactly when its template is accepted and placeholders and usable declarations agree,
   and then the result is the simultaneous substitution: no brace is left and no slash is added.
   */
  lemma MaterializedMeaning(path: string, pathItem: seq<Member>, operation: seq<Member>)
    ensures Materialized(path, pathItem, operation).Success? <==> Materializable(path, pathItem, operation)
    ensures Materializable(path, pathItem, operation) ==>
      var r := Materialized(path, pathItem, operation).value;
      var values := ValueMap(FindAll(path), PathParameters(pathItem, operation).value);
      && Names(Parse(path)) == FindAll(path)
      && r == Fill(Parse(path), values) && BraceFree(r) && CountChar(r, '/') == LiteralCount(Parse(path), '/')
  {
    hide ParameterValue, BraceFree, PathParameters, Balanced, ReplaceAll, Declares;
    var names := FindAll(path);
    FirstRepeatedMeaning(names, {});
    AcceptedIff(path);
    if Accepted(path) && PathParameters(pathItem, operation).Success? {
      var parameters := PathParameters(pathItem, operation).value;
      UndeclaredMeaning(names, parameters);
      UnusedMeaning(parameters, names);
      if (forall name :: name in names ==> Declares(parameters, name)) {
        MaterializedValues(path, parameters);
      }
    }
  }

  lemma MaterializedValues(path: string, parameters: seq<Parameter>)
    requires Accepted(path) && forall name :: name in FindAll(path) ==> Declares(parameters, name)
    ensures ReplaceAll(path, FindAll(path), parameters).Success?
       <==> forall name :: name in FindAll(path) ==> ParameterValue(Find(parameters, name)).Success?
    ensures ReplaceAll(path, FindAll(path), parameters).Success? ==>
      var r, values := ReplaceAll(path, FindAll(path), parameters).value, ValueMap(FindAll(path), parameters);
      && Names(Parse(path)) == FindAll(path)
      && r == Fill(Parse(path), values) && BraceFree(r) && CountChar(r, '/') == LiteralCount(Parse(path), '/')
  {
    hide ParameterValue, BraceFree, Balanced, ReplaceAll, Declares, Fill, Parse, FindAll;
    var names := FindAll(path);
    AcceptedIff(path);
    var values := map name | name in names
                  && ParameterValue(Find(parameters, name)).Success? :: ParameterValue(Find(parameters, name)).value;
    ReplaceAllInTurn(path, names, parameters, values);
    if ReplaceAll(path, names, parameters).Success? {
      forall name | name in names ensures BraceFree(values[name]) && CountChar(values[name], '/') == 0 {
        ParameterValueInert(Find(parameters, name));
      }
      NothingBraceFree();
      InTurnIsFill("", Parse(path), values);
      FillFacts(Parse(path), values);
      assert values == ValueMap(names, parameters);
      assert "" + TextOf(Parse(path)) == path && "" + Fill(Parse(path), values) == Fill(Parse(path), values);
    }
  }
}
