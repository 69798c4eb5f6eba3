/**
 Response validation builds a JSON Pointer to the schema while a second lookup returns the schema itself;
 both must mean the same part of the document.
 */
module ResponseSchemas {
  import opened Wrappers
  import opened Json

  const HTTP_METHODS := {"get", "post", "put", "patch", "delete"}

  // ---------------------------------------------------------------- JSON Pointer

  /** `s.replace(c, by)` for a single character. */
  function ReplaceChar(s: string, c: char, value: string): string {
    if s == "" then ""
    else (if s[0] == c then value else [s[0]]) + ReplaceChar(s[1..], c, value)
  }

  /** `_escape_pointer` */
  function Escape(key: string): string {
    ReplaceChar(ReplaceChar(key, '~', "~0"), '/', "~1")
  }

  /** Replace every `~d` by `value`, from left to right. */
  function ReplaceTilde(s: string, d: char, value: char): string {
    if s == "" then ""
    else if |s| >= 2 && s[0] == '~' && s[1] == d then [value] + ReplaceTilde(s[2..], d, value)
    else [s[0]] + ReplaceTilde(s[1..], d, value)
  }

  /** Section 4 of RFC 6901: first `~1`, then `~0`. */
  function Unescape(token: string): string {
    ReplaceTilde(ReplaceTilde(token, '1', '/'), '0', '~')
  }

  /** Escaping in one pass, which the two replacements amount to. */
  function EscapeOnce(key: string): string {
    if key == "" then ""
    else (if key[0] == '~' then "~0" else if key[0] == '/' then "~1" else [key[0]]) + EscapeOnce(key[1..])
  }

  function TildesOnly(key: string): string {
    ReplaceChar(key, '~', "~0")
  }

  lemma {:induction false} EscapeInOnePass(key: string)
    ensures Escape(key) == EscapeOnce(key)
  {
    if key != "" {
      EscapeInOnePass(key[1..]);
      var rest := TildesOnly(key[1..]);
      if key[0] == '~' {
        assert ("~0" + rest)[1..] == "0" + rest && ("0" + rest)[1..] == rest;
        assert ReplaceChar("0" + rest, '/', "~1") == "0" + ReplaceChar(rest, '/', "~1");
      } else {
        assert ([key[0]] + rest)[1..] == rest;
      }
    }
  }

  lemma {:induction false} UnescapeSlashes(key: string)
    ensures ReplaceTilde(EscapeOnce(key), '1', '/') == TildesOnly(key)
  {
    if key != "" {
      UnescapeSlashes(key[1..]);
      var rest := EscapeOnce(key[1..]);
      if key[0] == '~' {
        var s := "~0" + rest;
        assert s[1..] == "0" + rest && ("0" + rest)[1..] == rest;
        assert ReplaceTilde("0" + rest, '1', '/') == "0" + ReplaceTilde(rest, '1', '/');
      } else if key[0] == '/' {
        assert ("~1" + rest)[2..] == rest;
      } else {
        assert ([key[0]] + rest)[1..] == rest;
      }
    }
  }

  lemma {:induction false} UnescapeTildes(key: string)
    ensures ReplaceTilde(TildesOnly(key), '0', '~') == key
  {
    if key != "" {
      UnescapeTildes(key[1..]);
      var rest := TildesOnly(key[1..]);
      if key[0] == '~' {
        assert ("~0" + rest)[2..] == rest;
      } else {
        assert ([key[0]] + rest)[1..] == rest;
      }
      assert [key[0]] + key[1..] == key;
    }
  }

  predicate NoSlash(token: string) {
    forall i :: 0 <= i < |token| ==> token[i] != '/'
  }

  lemma {:induction false} EscapeHasNoSlash(key: string)
    ensures NoSlash(EscapeOnce(key))
  {
    if key != "" {
      EscapeHasNoSlash(key[1..]);
    }
  }

  /** Unescaping inverts escaping, and an escaped key never splits. */
  lemma UnescapeEscape(key: string)
    ensures Unescape(Escape(key)) == key && NoSlash(Escape(key))
  {
    EscapeInOnePass(key);
    UnescapeSlashes(key);
    UnescapeTildes(key);
    EscapeHasNoSlash(key);
  }

  /** A token in which every tilde starts `~0` or `~1`. */
  predicate WellEscaped(token: string) {
    if token == "" then true
    else if token[0] == '~' then |token| >= 2 && (token[1] == '0' || token[1] == '1') && WellEscaped(token[2..])
    else token[0] != '/' && WellEscaped(token[1..])
  }

  function UnescapeOnce(token: string): string {
    if token == "" then ""
    else if token[0] == '~' && |token| >= 2 && token[1] == '0' then "~" + UnescapeOnce(token[2..])
    else if token[0] == '~' && |token| >= 2 && token[1] == '1' then "/" + UnescapeOnce(token[2..])
    else [token[0]] + UnescapeOnce(token[1..])
  }

  lemma {:induction false} EscapeUnescapeOnce(token: string)
    requires WellEscaped(token)
    ensures EscapeOnce(UnescapeOnce(token)) == token
    decreases |token|
  {
    if token != "" {
      if token[0] == '~' {
        EscapeUnescapeOnce(token[2..]);
        var c, rest := if token[1] == '0' then "~" else "/", UnescapeOnce(token[2..]);
        assert UnescapeOnce(token) == c + rest && (c + rest)[1..] == rest;
        assert token == [token[0], token[1]] + token[2..];
      } else {
        EscapeUnescapeOnce(token[1..]);
        var rest := UnescapeOnce(token[1..]);
        assert ([token[0]] + rest)[1..] == rest;
        PlainFirst(token);
        assert token == [token[0]] + token[1..];
      }
    }
  }

  /** A first character that needs no escaping comes out as it went in. */
  lemma PlainFirst(token: string)
    requires WellEscaped(token) && token != "" && token[0] != '~'
    ensures UnescapeOnce(token) == [token[0]] + UnescapeOnce(token[1..])
    ensures EscapeOnce(UnescapeOnce(token)) == [token[0]] + EscapeOnce(UnescapeOnce(token[1..]))
  {
    assert ([token[0]] + UnescapeOnce(token[1..]))[1..] == UnescapeOnce(token[1..]);
  }

  /** Escaping inverts unescaping on well-escaped tokens. */
  lemma EscapeUnescape(token: string)
    requires WellEscaped(token)
    ensures Escape(Unescape(token)) == token
  {
    EscapeUnescapeOnce(token);
    UnescapeEscape(UnescapeOnce(token));
    EscapeInOnePass(UnescapeOnce(token));
  }

  /** Everything up to the first slash. */
  function FirstToken(s: string): (r: string)
    ensures |r| <= |s| && (|r| < |s| ==> s[|r|] == '/')
  {
    if s == "" || s[0] == '/' then "" else [s[0]] + FirstToken(s[1..])
  }

  /** `s.split("/")` */
  function SplitSlash(s: string): seq<string>
    decreases |s|
  {
    var token := FirstToken(s);
    if |token| == |s| then [token] else [token] + SplitSlash(s[|token| + 1..])
  }

  /** The reference tokens joined with slashes. */
  function JoinSlash(tokens: seq<string>): string
    requires tokens != []
  {
    if |tokens| == 1 then tokens[0] else tokens[0] + "/" + JoinSlash(tokens[1..])
  }

  lemma FirstTokenOf(token: string, rest: string)
    requires NoSlash(token) && (rest == "" || rest[0] == '/')
    ensures FirstToken(token + rest) == token
  {
    if token == "" {
      assert token + rest == rest;
    } else {
      assert (token + rest)[1..] == token[1..] + rest;
      FirstTokenOf(token[1..], rest);
    }
  }

  lemma {:induction false} SplitJoin(tokens: seq<string>)
    requires tokens != [] && forall t :: t in tokens ==> NoSlash(t)
    ensures SplitSlash(JoinSlash(tokens)) == tokens
    decreases |tokens|
  {
    hide NoSlash, FirstToken;
    if |tokens| == 1 {
      FirstTokenOf(tokens[0], "");
      assert tokens[0] + "" == tokens[0];
    } else {
      var rest := JoinSlash(tokens[1..]);
      FirstTokenOf(tokens[0], "/" + rest);
      assert tokens[0] + "/" + rest == tokens[0] + ("/" + rest);
      assert (tokens[0] + "/" + rest)[|tokens[0]| + 1..] == rest;
      assert forall t :: t in tokens[1..] ==> t in tokens;
      SplitJoin(tokens[1..]);
    }
  }

  function Walk(v: Value, tokens: seq<string>): Option<Value>
    decreases |tokens|
  {
    if tokens == [] then Some(v)
    else if !v.Object? then None
    else match Lookup(v.members, Unescape(tokens[0]))
      case None => None
      case Some(child) => Walk(child, tokens[1..])
  }

  /** Evaluates a pointer in fragment form, `#/token/token...`. */
  function Resolve(document: Value, pointer: string): Option<Value> {
    if |pointer| < 2 || pointer[..2] != "#/" then None else Walk(document, SplitSlash(pointer[2..]))
  }

  // ---------------------------------------------------------------- finding the operation

  datatype SchemaError = NoPaths | NotFound | NoResponses | StatusNotDocumented

  /** An object of the document with the pointer the code builds for it. */
  datatype Located = Located(members: seq<Member>, path: string)

  /** One step of the shared filter: an HTTP method with an operation object. */
  predicate IsOperation(m: Member) {
    m.key in HTTP_METHODS && m.value.Object?
  }

  predicate HasId(m: Member, operationId: string)
    requires m.value.Object?
  {
    Lookup(m.value.members, "operationId") == Some(Text(operationId))
  }

  /** `_iter_raw_operations` on one path item, and on all of them. */
  function OperationsOf(item: seq<Member>): seq<seq<Member>>
  {
    if item == [] then []
    else if IsOperation(item[0]) then [item[0].value.members] + OperationsOf(item[1..])
    else OperationsOf(item[1..])
  }

  function RawOperations(paths: seq<Member>): seq<seq<Member>> {
    if paths == [] then []
    else if paths[0].value.Object? then OperationsOf(paths[0].value.members) + RawOperations(paths[1..])
    else RawOperations(paths[1..])
  }

  function FirstById(operations: seq<seq<Member>>, operationId: string): Option<seq<Member>> {
    if operations == [] then None
    else if Lookup(operations[0], "operationId") == Some(Text(operationId)) then Some(operations[0])
    else FirstById(operations[1..], operationId)
  }

  function PathsOf(document: seq<Member>): Option<seq<Member>> {
    match Lookup(document, "paths") case Some(Object(paths)) => Some(paths) case _ => None
  }

  /** `responses.get(status) or responses.get("default")` */
  function StatusOrDefault(responses: seq<Member>, status: string): Option<Value> {
    match Lookup(responses, status)
    case Some(v) => if Falsy(v) then Lookup(responses, "default") else Some(v)
    case None => Lookup(responses, "default")
  }

  function JsonMedia(response: seq<Member>): Option<seq<Member>> {
    match Lookup(response, "content")
    case Some(Object(content)) =>
      (match Lookup(content, "application/json") case Some(Object(media)) => Some(media) case _ => None)
    case _ => None
  }

  /** `operation_response_schema`; the value None stands for both an absent schema and a null one. */
  function OperationResponseSchema(document: seq<Member>, operationId: string,
                                   status: string): Result<Option<Value>, SchemaError> {
    match PathsOf(document)
    case None => Failure(NoPaths)
    case Some(paths) =>
      (match FirstById(RawOperations(paths), operationId)
      case None => Failure(NotFound)
      case Some(operation) =>
        (match Lookup(operation, "responses")
        case Some(Object(responses)) =>
          (match StatusOrDefault(responses, status)
          case Some(Object(response)) =>
            (match JsonMedia(response)
            case Some(media) => Success(Lookup(media, "schema"))
            case None => Success(None))
          case _ => Success(None))
        case _ => Success(None)))
  }

  /** The nested search of `_documented_response`, which also remembers where it is. */
  function FindInItem(item: seq<Member>, pathKey: string, operationId: string): Option<Located> {
    if item == [] then None
    else if IsOperation(item[0]) && HasId(item[0], operationId) then
      Some(Located(item[0].value.members, "#/paths/" + Escape(pathKey) + "/" + item[0].key))
    else FindInItem(item[1..], pathKey, operationId)
  }

  function FindOperation(paths: seq<Member>, operationId: string): Option<Located> {
    if paths == [] then None
    else if paths[0].value.Object? && FindInItem(paths[0].value.members, paths[0].key, operationId).Some?
    then FindInItem(paths[0].value.members, paths[0].key, operationId)
    else FindOperation(paths[1..], operationId)
  }

  function ResponseKey(responses: seq<Member>, status: string): string {
    if Lookup(responses, status).Some? then status else "default"
  }

  /** `_documented_response` */
  function DocumentedResponse(document: seq<Member>, operationId: string,
                              status: string): Result<Located, SchemaError> {
    match PathsOf(document)
    case None => Failure(NoPaths)
    case Some(paths) =>
      (match FindOperation(paths, operationId)
      case None => Failure(NotFound)
      case Some(operation) =>
        (match Lookup(operation.members, "responses")
        case Some(Object(responses)) =>
          var key := ResponseKey(responses, status);
          (match Lookup(responses, key)
          case Some(Object(response)) => Success(Located(response, operation.path + "/responses/" + Escape(key)))
          case _ => Failure(StatusNotDocumented))
        case _ => Failure(NoResponses)))
  }

  /** `_json_content` */
  function JsonContent(response: Located): Option<Located> {
    match JsonMedia(response.members)
    case Some(media) => Some(Located(media, response.path + "/content/application~1json"))
    case None => None
  }

  // ---------------------------------------------------------------- both lookups agree

  lemma {:induction false} FirstByIdConcat(a: seq<seq<Member>>, b: seq<seq<Member>>, operationId: string)
    ensures FirstById(a + b, operationId) == if FirstById(a, operationId).Some? then FirstById(a, operationId)
              else FirstById(b, operationId)
    decreases |a|
  {
    if a == [] {
      assert a + b == b;
    } else {
      assert (a + b)[0] == a[0] && (a + b)[1..] == a[1..] + b;
      FirstByIdConcat(a[1..], b, operationId);
    }
  }

  function MembersOf(l: Option<Located>): Option<seq<Member>> {
    match l case Some(x) => Some(x.members) case None => None
  }

  lemma {:induction false} FindInItemAgrees(item: seq<Member>, pathKey: string, operationId: string)
    ensures MembersOf(FindInItem(item, pathKey, operationId)) == FirstById(OperationsOf(item), operationId)
    decreases |item|
  {
    hide IsOperation, Escape;
    if item != [] {
      FindInItemAgrees(item[1..], pathKey, operationId);
      if IsOperation(item[0]) {
        OperationIsObject(item[0]);
        assert OperationsOf(item)[0] == item[0].value.members && OperationsOf(item)[1..] == OperationsOf(item[1..]);
      }
    }
  }

  lemma OperationIsObject(m: Member)
    requires IsOperation(m)
    ensures m.value.Object?
  {
  }

  /** The two searches stop at the same operation, even when an operation id is repeated. */
  lemma {:induction false} FindOperationAgrees(paths: seq<Member>, operationId: string)
    ensures MembersOf(FindOperation(paths, operationId)) == FirstById(RawOperations(paths), operationId)
    decreases |paths|
  {
    hide FindInItem, OperationsOf;
    if paths != [] {
      FindOperationAgrees(paths[1..], operationId);
      if paths[0].value.Object? {
        FindInItemAgrees(paths[0].value.members, paths[0].key, operationId);
        FirstByIdConcat(OperationsOf(paths[0].value.members), RawOperations(paths[1..]), operationId);
      }
    }
  }

  /** Where an operation was found: a path item and one of its methods. */
  predicate FoundAt(paths: seq<Member>, found: Located, i: nat, j: nat) {
    && i < |paths| && paths[i].value.Object? && j < |paths[i].value.members|
    && var m := paths[i].value.members[j];
    && IsOperation(m) && found == Located(m.value.members, "#/paths/" + Escape(paths[i].key) + "/" + m.key)
  }

  lemma {:induction false} FindInItemPlace(item: seq<Member>, pathKey: string, operationId: string) returns (j: nat)
    requires FindInItem(item, pathKey, operationId).Some?
    ensures j < |item| && IsOperation(item[j])
    ensures FindInItem(item, pathKey, operationId).value
              == Located(item[j].value.members, "#/paths/" + Escape(pathKey) + "/" + item[j].key)
    decreases |item|
  {
    hide Escape;
    if IsOperation(item[0]) && HasId(item[0], operationId) {
      j := 0;
    } else {
      var k := FindInItemPlace(item[1..], pathKey, operationId);
      j := k + 1;
    }
  }

  lemma {:induction false} FindOperationPlace(paths: seq<Member>, operationId: string) returns (i: nat, j: nat)
    requires FindOperation(paths, operationId).Some?
    ensures FoundAt(paths, FindOperation(paths, operationId).value, i, j)
    decreases |paths|
  {
    hide Escape, FindInItem, IsOperation;
    if paths[0].value.Object? && FindInItem(paths[0].value.members, paths[0].key, operationId).Some? {
      i := 0;
      j := FindInItemPlace(paths[0].value.members, paths[0].key, operationId);
    } else {
      var i' : nat;
      i', j := FindOperationPlace(paths[1..], operationId);
      i := i' + 1;
    }
  }

  /** The mappings on the way to a response have distinct keys, as decoded documents do. */
  predicate KeysDistinct(document: seq<Member>) {
    match PathsOf(document)
    case None => true
    case Some(paths) => UniqueKeys(paths) && forall m :: m in paths && m.value.Object? ==> UniqueKeys(m.value.members)
  }

  lemma PlainTokens(verb: string)
    requires verb in HTTP_METHODS
    ensures NoSlash(verb) && Unescape(verb) == verb
    ensures NoSlash("paths") && Unescape("paths") == "paths"
    ensures NoSlash("responses") && Unescape("responses") == "responses"
    ensures NoSlash("content") && Unescape("content") == "content"
    ensures NoSlash("application~1json") && Unescape("application~1json") == "application/json"
    ensures NoSlash("schema") && Unescape("schema") == "schema"
  {
    hide Escape, Unescape;
    EscapedPlain("paths");
    EscapedPlain("responses");
    EscapedPlain("content");
    EscapedPlain("schema");
    EscapedPlain(verb);
    EscapedJson();
  }

  lemma {:induction false} EscapedSelf(s: string)
    requires forall i :: 0 <= i < |s| ==> s[i] != '~' && s[i] != '/'
    ensures EscapeOnce(s) == s
  {
    if s != "" {
      EscapedSelf(s[1..]);
    }
  }

  lemma EscapedPlain(s: string)
    requires forall i :: 0 <= i < |s| ==> s[i] != '~' && s[i] != '/'
    ensures NoSlash(s) && Unescape(s) == s
  {
    hide Escape, Unescape;
    EscapedSelf(s);
    EscapeInOnePass(s);
    UnescapeEscape(s);
  }

  lemma EscapedJson()
    ensures NoSlash("application~1json") && Unescape("application~1json") == "application/json"
  {
    hide Unescape, Escape, EscapeOnce;
    var a, b := "application", "json";
    SlashEscaped(a, b);
    assert a + "/" + b == "application/json" && a + "~1" + b == "application~1json";
    UnescapeEscape("application/json");
  }

  lemma SlashEscaped(a: string, b: string)
    requires forall i :: 0 <= i < |a| ==> a[i] != '~' && a[i] != '/'
    requires forall i :: 0 <= i < |b| ==> b[i] != '~' && b[i] != '/'
    ensures Escape(a + "/" + b) == a + "~1" + b
  {
    hide Escape;
    EscapedSelf(a);
    EscapedSelf(b);
    EscapeOnceConcat(a, "/" + b);
    assert ("/" + b)[1..] == b && a + ("/" + b) == a + "/" + b && a + ("~1" + b) == a + "~1" + b;
    EscapeInOnePass(a + "/" + b);
  }

  lemma {:induction false} EscapeOnceConcat(a: string, b: string)
    ensures EscapeOnce(a + b) == EscapeOnce(a) + EscapeOnce(b)
    decreases |a|
  {
    if a == "" {
      assert a + b == b;
    } else {
      assert (a + b)[1..] == a[1..] + b;
      EscapeOnceConcat(a[1..], b);
    }
  }

  /** The reference tokens of the media object and, with `schema` added, of its schema. */
  function MediaTokens(pathKey: string, verb: string, responseKey: string): seq<string> {
    ["paths", Escape(pathKey), verb, "responses", Escape(responseKey), "content", "application~1json"]
  }

  lemma {:induction false} JoinAppend(tokens: seq<string>, token: string)
    requires tokens != []
    ensures JoinSlash(tokens + [token]) == JoinSlash(tokens) + "/" + token
    decreases |tokens|
  {
    if |tokens| == 1 {
      assert (tokens + [token])[1..] == [token];
    } else {
      assert (tokens + [token])[0] == tokens[0] && (tokens + [token])[1..] == tokens[1..] + [token];
      JoinAppend(tokens[1..], token);
    }
  }

  /** `pointer` is the fragment form of these tokens. */
  predicate Spells(pointer: string, tokens: seq<string>) {
    tokens != [] && pointer == "#/" + JoinSlash(tokens)
  }

  lemma SpellsAppend(pointer: string, tokens: seq<string>, token: string)
    requires Spells(pointer, tokens)
    ensures Spells(pointer + "/" + token, tokens + [token])
  {
    hide JoinSlash;
    JoinAppend(tokens, token);
  }

  lemma SpellsResolve(pointer: string, tokens: seq<string>)
    requires Spells(pointer, tokens) && forall t :: t in tokens ==> NoSlash(t)
    ensures |pointer| >= 2 && pointer[..2] == "#/" && SplitSlash(pointer[2..]) == tokens
  {
    hide JoinSlash, NoSlash, SplitSlash;
    SplitJoin(tokens);
    assert pointer[2..] == JoinSlash(tokens);
  }

  /** The pointer that `_documented_response` and `_json_content` build. */
  function MediaPointer(pathKey: string, verb: string, responseKey: string): string {
    "#/paths/" + Escape(pathKey) + "/" + verb + "/responses/" + Escape(responseKey) + "/content/application~1json"
  }

  lemma MediaSpelled(pathKey: string, verb: string, responseKey: string)
    ensures Spells(MediaPointer(pathKey, verb, responseKey),
                   MediaTokens(pathKey, verb, responseKey))
  {
    hide Escape, Spells;
    var e, r := Escape(pathKey), Escape(responseKey);
    var p1, t1 := "#/paths", ["paths"];
    FirstSpelled();
    SpellsAppend(p1, t1, e);
    var p2, t2 := p1 + "/" + e, t1 + [e];
    SpellsAppend(p2, t2, verb);
    var p3, t3 := p2 + "/" + verb, t2 + [verb];
    SpellsAppend(p3, t3, "responses");
    var p4, t4 := p3 + "/" + "responses", t3 + ["responses"];
    SpellsAppend(p4, t4, r);
    var p5, t5 := p4 + "/" + r, t4 + [r];
    SpellsAppend(p5, t5, "content");
    var p6, t6 := p5 + "/" + "content", t5 + ["content"];
    SpellsAppend(p6, t6, "application~1json");
    assert p2 == "#/paths/" + e && p5 == p3 + "/responses/" + r;
    assert p6 + "/" + "application~1json" == p5 + "/content/application~1json";
    assert t6 + ["application~1json"] == MediaTokens(pathKey, verb, responseKey);
  }

  lemma FirstSpelled()
    ensures Spells("#/paths", ["paths"])
  {
  }

  lemma PointerTokens(pathKey: string, verb: string, responseKey: string)
    requires verb in HTTP_METHODS
    ensures var pointer := MediaPointer(pathKey, verb, responseKey);
            var tokens := MediaTokens(pathKey, verb, responseKey);
            && |pointer| >= 2 && pointer[..2] == "#/" && SplitSlash(pointer[2..]) == tokens
            && (pointer + "/schema")[..2] == "#/" && SplitSlash((pointer + "/schema")[2..]) == tokens + ["schema"]
  {
    hide Escape, Unescape, SplitSlash, NoSlash, Spells;
    var tokens := MediaTokens(pathKey, verb, responseKey);
    var pointer := MediaPointer(pathKey, verb, responseKey);
    PlainTokens(verb);
    UnescapeEscape(pathKey);
    UnescapeEscape(responseKey);
    MediaSpelled(pathKey, verb, responseKey);
    SpellsAppend(pointer, tokens, "schema");
    assert pointer + "/" + "schema" == pointer + "/schema";
    SpellsResolve(pointer, tokens);
    SpellsResolve(pointer + "/schema", tokens + ["schema"]);
  }

  lemma WalkStep(v: Value, tokens: seq<string>, key: string, child: Value)
    requires tokens != [] && v.Object? && Unescape(tokens[0]) == key && Lookup(v.members, key) == Some(child)
    ensures Walk(v, tokens) == Walk(child, tokens[1..])
  {
  }

  /**
   Whenever validation reaches the schema step, the built pointer resolves to the media object, the pointer to
   the schema resolves to what the second lookup returns, and that lookup finds the same operation and response,
   although the two fall back to `default` under different conditions.
   */
  lemma PointerMeansSchema(document: seq<Member>, operationId: string, status: string)
    requires KeysDistinct(document)
    requires DocumentedResponse(document, operationId, status).Success?
    requires JsonContent(DocumentedResponse(document, operationId, status).value).Some?
    ensures var media := JsonContent(DocumentedResponse(document, operationId, status).value).value;
            && OperationResponseSchema(document, operationId, status) == Success(Lookup(media.members, "schema"))
            && Resolve(Object(document), media.path) == Some(Object(media.members))
            && Resolve(Object(document), media.path + "/schema") == Lookup(media.members, "schema")
  {
    hide Escape, Unescape, SplitSlash, FindOperation, FirstById, RawOperations, Walk, IsOperation;
    var paths := PathsOf(document).value;
    FindOperationAgrees(paths, operationId);
    var i, j := FindOperationPlace(paths, operationId);
    var m := paths[i].value.members[j];
    OperationIsObject(m);
    var responses := Lookup(m.value.members, "responses").value.members;
    var key := ResponseKey(responses, status);
    ResolveMedia(document, i, j, key);
  }

  lemma ResolveMedia(document: seq<Member>, i: nat, j: nat, key: string)
    requires KeysDistinct(document) && PathsOf(document).Some?
    requires var paths := PathsOf(document).value;
             i < |paths| && paths[i].value.Object? && j < |paths[i].value.members|
             && IsOperation(paths[i].value.members[j])
    requires var operation := PathsOf(document).value[i].value.members[j].value.members;
             && Lookup(operation, "responses").Some? && Lookup(operation, "responses").value.Object?
             && var responses := Lookup(operation, "responses").value.members;
             && Lookup(responses, key).Some? && Lookup(responses, key).value.Object?
             && JsonMedia(Lookup(responses, key).value.members).Some?
    ensures var paths := PathsOf(document).value;
            var m := paths[i].value.members[j];
            var media := JsonMedia(Lookup(Lookup(m.value.members, "responses").value.members, key).value.members).value;
            var pointer := MediaPointer(paths[i].key, m.key, key);
            && Resolve(Object(document), pointer) == Some(Object(media))
            && Resolve(Object(document), pointer + "/schema") == Lookup(media, "schema")
  {
    hide Escape, Unescape, SplitSlash, Walk;
    var paths := PathsOf(document).value;
    var m := paths[i].value.members[j];
    var responses := Lookup(m.value.members, "responses").value.members;
    var response := Lookup(responses, key).value.members;
    var content := Lookup(response, "content").value.members;
    var media := JsonMedia(response).value;
    PointerTokens(paths[i].key, m.key, key);
    LookupAt(paths, i);
    assert paths[i] in paths;
    LookupAt(paths[i].value.members, j);
    WalkToMedia(document, paths, paths[i], m, responses, key, response, content, media, []);
    WalkToMedia(document, paths, paths[i], m, responses, key, response, content, media, ["schema"]);
    WalkEnd(media, m.key);
    assert MediaTokens(paths[i].key, m.key, key) + [] == MediaTokens(paths[i].key, m.key, key);
  }

  lemma WalkEnd(media: seq<Member>, verb: string)
    requires verb in HTTP_METHODS
    ensures Walk(Object(media), []) == Some(Object(media))
    ensures Walk(Object(media), ["schema"]) == Lookup(media, "schema")
  {
    hide Unescape;
    PlainTokens(verb);
    assert ["schema"][1..] == [];
  }

  lemma WalkToMedia(document: seq<Member>, paths: seq<Member>, item: Member, m: Member, responses: seq<Member>,
                    key: string,
                    response: seq<Member>, content: seq<Member>, media: seq<Member>, rest: seq<string>)
    requires Lookup(document, "paths") == Some(Object(paths)) && item.value.Object?
             && Lookup(paths, item.key) == Some(item.value)
    requires m.key in HTTP_METHODS && m.value.Object? && Lookup(item.value.members, m.key) == Some(m.value)
    requires Lookup(m.value.members, "responses") == Some(Object(responses))
             && Lookup(responses, key) == Some(Object(response))
    requires Lookup(response, "content") == Some(Object(content))
             && Lookup(content, "application/json") == Some(Object(media))
    ensures Walk(Object(document), MediaTokens(item.key, m.key, key) + rest) == Walk(Object(media), rest)
  {
    hide Escape, Unescape, Walk, NoSlash;
    var t := MediaTokens(item.key, m.key, key) + rest;
    PlainTokens(m.key);
    UnescapeEscape(item.key);
    UnescapeEscape(key);
    WalkStep(Object(document), t, "paths", Object(paths));
    WalkStep(Object(paths), t[1..], item.key, item.value);
    WalkStep(item.value, t[2..], m.key, m.value);
    WalkStep(m.value, t[3..], "responses", Object(responses));
    WalkStep(Object(responses), t[4..], key, Object(response));
    WalkStep(Object(response), t[5..], "content", Object(content));
    WalkStep(Object(content), t[6..], "application/json", Object(media));
    assert t[1..][1..] == t[2..] && t[2..][1..] == t[3..] && t[3..][1..] == t[4..] && t[4..][1..] == t[5..]
        && t[5..][1..] == t[6..] && t[6..][1..] == t[7..] == rest;
  }

  /**
   Outside that step the two lookups can differ: they read the same entry exactly unless the status is present
   with a value that Python takes for false and that is not also the default.
   */
  lemma FallbacksAgreeIff(responses: seq<Member>, status: string)
    ensures StatusOrDefault(responses, status) == Lookup(responses, ResponseKey(responses, status))
       <==> !(&& Lookup(responses, status).Some? && Falsy(Lookup(responses, status).value)
              && Lookup(responses, "default") != Lookup(responses, status))
  {
  }

  /** A null status next to a default: one lookup falls back to the default, the other reads the null. */
  lemma NullStatusDiffers(fallback: seq<Member>)
    ensures var responses := [Member("200", Null), Member("default", Object(fallback))];
            && StatusOrDefault(responses, "200") == Some(Object(fallback))
            && Lookup(responses, ResponseKey(responses, "200")) == Some(Null)
  {
    var responses := [Member("200", Null), Member("default", Object(fallback))];
    assert responses[1..] == [Member("default", Object(fallback))];
    assert Lookup(responses[1..], "default") == Some(Object(fallback));
  }
}
