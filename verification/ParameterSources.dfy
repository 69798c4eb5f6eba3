/** Which declarations of a document become path parameters, and where the value of each comes from. */
module ParameterSources {
  import opened Wrappers
  import opened Json
  import opened Utf8Prefix
  import opened PathTemplates

  // ---------------------------------------------------------------- declarations

  /** An entry that declares a path parameter of this name. */
  predicate Introduces(entry: Value, name: string) {
    && entry.Object? && Holds(entry.members, "in", Text("path")) && Holds(entry.members, "name", Text(name))
    && name != ""
  }

  predicate IsRequired(entry: Value) {
    entry.Object? && Holds(entry.members, "required", Bool(true))
  }

  /** What is wrong with an entry, given the parameters before it. */
  ghost predicate EntryDefect(parameters: seq<Parameter>, entry: Value, e: TemplateError) {
    match e
    case ParameterNotObject => !entry.Object?
    case ParameterUnnamed =>
      entry.Object? && Holds(entry.members, "in", Text("path")) && forall name :: !Introduces(entry, name)
    case DuplicateParameter(name) => Introduces(entry, name) && Declares(parameters, name)
    case ParameterOptional(name) => Introduces(entry, name) && !IsRequired(entry)
    case _ => false
  }

  /** One entry adds the parameter it introduces, or nothing; it is refused for a defect only. */
  lemma DeclareMeans(parameters: seq<Parameter>, entry: Value)
    ensures match Declare(parameters, entry)
            case Failure(e) => EntryDefect(parameters, entry, e)
            case Success(next) =>
              && entry.Object?
              && if Holds(entry.members, "in", Text("path")) then
                   && IsRequired(entry)
                   && exists name :: Introduces(entry, name) && !Declares(parameters, name)
                                     && next == parameters + [Parameter(name, entry.members)]
                 else next == parameters
  {
    hide Lookup, Holds, Lacks, Declares;
    if entry.Object? {
      Keyed(entry.members, "in");
      Keyed(entry.members, "name");
      Keyed(entry.members, "required");
      if Declare(parameters, entry).Success? && Holds(entry.members, "in", Text("path")) {
        assert Introduces(entry, Lookup(entry.members, "name").value.s);
      }
    }
  }

  lemma RawParametersIff(owner: seq<Member>, v: Value)
    ensures RawParameters(owner) == v
       <==> Holds(owner, "parameters", v) || (Lacks(owner, "parameters") && v == Array([]))
  {
    hide Lookup, Holds, Lacks;
    Keyed(owner, "parameters");
  }

  // ---------------------------------------------------------------- values

  /** The member is left out, or null. */
  predicate Unset(members: seq<Member>, key: string) {
    Lacks(members, key) || Holds(members, key, Null)
  }

  /** The parameter's own example, or else that of its schema. */
  predicate ExampleIs(members: seq<Member>, schema: seq<Member>, x: Value) {
    && x != Null
    && (Holds(members, "example", x) || (Unset(members, "example") && Holds(schema, "example", x)))
  }

  predicate NoExample(members: seq<Member>, schema: seq<Member>) {
    Unset(members, "example") && Unset(schema, "example")
  }

  /** A text or a number as it is printed, not empty. */
  predicate Printed(x: Value, s: string) {
    s != "" && (x == Text(s) || (x.Number? && x.text == s))
  }

  /** The value the fallback table gives a schema without example. */
  predicate Fallback(schema: seq<Member>, v: string) {
    || (Holds(schema, "type", Text("integer")) && v == "1")
    || (Holds(schema, "type", Text("string")) && Holds(schema, "format", Text("uuid"))
        && v == "00000000-0000-4000-8000-000000000001")
    || (Holds(schema, "type", Text("string")) && !Holds(schema, "format", Text("uuid")) && v == "example")
  }

  lemma SchemaKeyed(members: seq<Member>)
    ensures forall v :: Lookup(members, "schema") == Some(v) <==> Holds(members, "schema", v)
    ensures forall v :: Lookup(members, "example") == Some(v) <==> Holds(members, "example", v)
    ensures Lookup(members, "example") == None <==> Lacks(members, "example")
    ensures forall v :: Lookup(members, "type") == Some(v) <==> Holds(members, "type", v)
    ensures forall v :: Lookup(members, "format") == Some(v) <==> Holds(members, "format", v)
  {
    hide Lookup, Holds, Lacks;
    Keyed(members, "schema");
    Keyed(members, "example");
    Keyed(members, "type");
    Keyed(members, "format");
  }

  /** The value a parameter with this schema has. */
  ghost predicate Valued(p: Parameter, schema: seq<Member>, v: string) {
    || (exists x, s :: ExampleIs(p.members, schema, x) && Printed(x, s) && v == Quote(s))
    || (NoExample(p.members, schema) && Fallback(schema, v))
  }

  lemma ExampleOrNone(members: seq<Member>, schema: seq<Member>) returns (x: Option<Value>)
    ensures var own := Lookup(members, "example");
            x == if own == None || own == Some(Null) then Lookup(schema, "example") else own
    ensures x != None && x != Some(Null) ==> forall y :: ExampleIs(members, schema, y) <==> y == x.value
    ensures x == None || x == Some(Null) ==> NoExample(members, schema) && forall y :: !ExampleIs(members, schema, y)
    ensures x != None && x != Some(Null) ==> !NoExample(members, schema)
  {
    hide Lookup, Holds, Lacks;
    SchemaKeyed(members);
    SchemaKeyed(schema);
    var own := Lookup(members, "example");
    x := if own == None || own == Some(Null) then Lookup(schema, "example") else own;
  }

  lemma ValuedIff(p: Parameter, schema: seq<Member>, v: string)
    requires Lookup(p.members, "schema") == Some(Object(schema))
    ensures ParameterValue(p) == Success(v) <==> Valued(p, schema, v)
  {
    hide Lookup, Holds, Lacks, Quote, ExampleIs, NoExample;
    var x := ExampleOrNone(p.members, schema);
    SchemaKeyed(schema);
    if x != None && x != Some(Null) {
      assert ExampleIs(p.members, schema, x.value);
      match x.value
      case Text(s) => assert s != "" ==> Printed(x.value, s);
      case Number(text, _) => assert text != "" ==> Printed(x.value, text);
      case _ =>
    }
  }

  /** A parameter has the percent-encoded example, or without any example the fallback of its type; or no value. */
  lemma ParameterValueIff(p: Parameter, v: string)
    ensures ParameterValue(p) == Success(v)
       <==> exists schema :: Holds(p.members, "schema", Object(schema)) && Valued(p, schema, v)
  {
    hide Lookup, Holds, Valued;
    SchemaKeyed(p.members);
    if Lookup(p.members, "schema").Some? && Lookup(p.members, "schema").value.Object? {
      ValuedIff(p, Lookup(p.members, "schema").value.members, v);
    }
    NoSchemaNoValue(p);
  }

  lemma NoSchemaNoValue(p: Parameter)
    ensures ParameterValue(p).Success? ==>
              Lookup(p.members, "schema").Some? && Lookup(p.members, "schema").value.Object?
  {
    hide Lookup, Quote;
  }

  /** What keeps a parameter from having a value. */
  ghost predicate ValueDefect(p: Parameter, e: TemplateError) {
    match e
    case MissingSchema(name) => name == p.name && forall schema :: !Holds(p.members, "schema", Object(schema))
    case EmptyExample(name) =>
      && name == p.name
      && exists schema, x :: ExampleIs(p.members, schema, x) && (x == Text("") || (x.Number? && x.text == ""))
    case UnsupportedExample(name) =>
      && name == p.name
      && exists schema, x :: ExampleIs(p.members, schema, x) && !x.Text? && !x.Number?
    case UnsupportedType(name) =>
      && name == p.name
      && exists schema :: NoExample(p.members, schema) && !exists v :: Fallback(schema, v)
    case _ => false
  }

  lemma ValueRefusal(p: Parameter)
    requires ParameterValue(p).Failure?
    ensures ValueDefect(p, ParameterValue(p).error)
  {
    hide Lookup, Holds, Lacks, Quote, ExampleIs, NoExample;
    SchemaKeyed(p.members);
    if Lookup(p.members, "schema").Some? && Lookup(p.members, "schema").value.Object? {
      var schema := Lookup(p.members, "schema").value.members;
      var x := ExampleOrNone(p.members, schema);
      SchemaKeyed(schema);
      if x != None && x != Some(Null) {
        assert ExampleIs(p.members, schema, x.value);
      }
    }
  }

  // ---------------------------------------------------------------- percent-encoding

  /** Letters, digits, hyphen, period, underscore and tilde. */
  predicate KeptAsItIs(c: char) {
    'a' <= c <= 'z' || 'A' <= c <= 'Z' || '0' <= c <= '9' || c in "-._~"
  }

  predicate IsHexDigit(c: char) {
    '0' <= c <= '9' || 'A' <= c <= 'F'
  }

  lemma {:induction false} QuoteBytesConcat(a: seq<Byte>, b: seq<Byte>)
    ensures QuoteBytes(a + b) == QuoteBytes(a) + QuoteBytes(b)
  {
    hide HexDigit, Unreserved;
    if a == [] {
      assert a + b == b;
    } else {
      assert (a + b)[1..] == a[1..] + b;
      QuoteBytesConcat(a[1..], b);
    }
  }

  lemma {:induction false} EncodeConcat(a: string, b: string)
    ensures Encode(a + b) == Encode(a) + Encode(b)
  {
    hide EncodeChar;
    if a == "" {
      assert a + b == b;
    } else {
      assert (a + b)[1..] == a[1..] + b;
      EncodeConcat(a[1..], b);
    }
  }

  /** Quoting goes character by character. */
  lemma QuoteConcat(a: string, b: string)
    ensures Quote(a + b) == Quote(a) + Quote(b)
  {
    EncodeConcat(a, b);
    QuoteBytesConcat(Encode(a), Encode(b));
  }

  /** A kept character stands for itself; of any other, every byte becomes a percent sign and two hex digits. */
  lemma QuoteOne(c: char)
    ensures KeptAsItIs(c) ==> Quote([c]) == [c]
    ensures !KeptAsItIs(c) ==>
              && |Quote([c])| == 3 * |Encode([c])|
              && forall i :: 0 <= i < |Quote([c])| ==>
                   if i % 3 == 0 then Quote([c])[i] == '%' else IsHexDigit(Quote([c])[i])
  {
    var s, b := [c], Encode([c]);
    assert s[0] == c && s[1..] == "";
    assert b == EncodeChar(c) + Encode(s[1..]) == EncodeChar(c);
    if KeptAsItIs(c) {
      assert b[0] == c as int && b[1..] == [];
      assert QuoteBytes(b) == [c] + QuoteBytes(b[1..]);
    } else {
      NothingKept(b);
    }
  }

  lemma {:induction false} NothingKept(b: seq<Byte>)
    requires forall i :: 0 <= i < |b| ==> !Unreserved(b[i])
    ensures |QuoteBytes(b)| == 3 * |b|
    ensures forall i :: 0 <= i < |QuoteBytes(b)| ==>
              if i % 3 == 0 then QuoteBytes(b)[i] == '%' else IsHexDigit(QuoteBytes(b)[i])
  {
    if b != [] {
      NothingKept(b[1..]);
      var head, rest := ['%', HexDigit(b[0] / 16), HexDigit(b[0] % 16)], QuoteBytes(b[1..]);
      forall i | 0 <= i < |head + rest|
        ensures if i % 3 == 0 then (head + rest)[i] == '%' else IsHexDigit((head + rest)[i])
      {
        if i >= 3 {
          assert (head + rest)[i] == rest[i - 3] && (i - 3) % 3 == i % 3;
        }
      }
    }
  }
}
