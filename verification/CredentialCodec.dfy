/**
 The line codec of `.env.local`: a shell-like list of assignments that is read into a map and
 rewritten line by line. Order and unrelated lines are kept, so the update is specified on lines.
 */
module CredentialCodec {
  import opened Wrappers
  import opened Text

  /** One entry of an ordered mapping from variable names to values. */
  datatype Assignment = Assignment(name: string, value: string)

  datatype CodecError = DuplicateVariable(name: string)

  // ---------------------------------------------------------------- ordered mappings

  function ToMap(entries: seq<Assignment>): map<string, string> {
    if entries == [] then map[]
    else ToMap(entries[1..])[entries[0].name := entries[0].value]
  }

  predicate Distinct(entries: seq<Assignment>) {
    entries == [] || (entries[0].name !in ToMap(entries[1..]) && Distinct(entries[1..]))
  }

  /** `dict.pop(name)` on an ordered mapping with distinct names. */
  function Without(entries: seq<Assignment>, name: string): seq<Assignment> {
    if entries == [] then []
    else if entries[0].name == name then entries[1..]
    else [entries[0]] + Without(entries[1..], name)
  }

  /** `dict[name] = value` on an ordered mapping: a name that is there keeps its place. */
  function Put(entries: seq<Assignment>, a: Assignment): seq<Assignment> {
    if entries == [] then [a]
    else if entries[0].name == a.name then [a] + entries[1..]
    else [entries[0]] + Put(entries[1..], a)
  }

  lemma {:induction false} PutIsUpdate(entries: seq<Assignment>, a: Assignment)
    requires Distinct(entries)
    ensures Distinct(Put(entries, a)) && ToMap(Put(entries, a)) == ToMap(entries)[a.name := a.value]
    ensures forall x :: x in Put(entries, a) ==> x in entries || x == a
  {
    if entries == [] {
      ToMapCons(a, []);
      assert [a] + [] == [a];
    } else if entries[0].name == a.name {
      ToMapCons(a, entries[1..]);
    } else {
      PutIsUpdate(entries[1..], a);
      ToMapCons(entries[0], Put(entries[1..], a));
    }
  }

  lemma ToMapCons(e: Assignment, rest: seq<Assignment>)
    ensures ToMap([e] + rest) == ToMap(rest)[e.name := e.value]
    ensures Distinct([e] + rest) <==> e.name !in ToMap(rest) && Distinct(rest)
  {
    assert ([e] + rest)[1..] == rest;
  }

  lemma {:induction false} WithoutIsRemoval(entries: seq<Assignment>, name: string)
    requires Distinct(entries) && name in ToMap(entries)
    ensures Distinct(Without(entries, name))
    ensures ToMap(Without(entries, name)) == ToMap(entries) - {name}
  {
    var e := entries[0];
    if e.name == name {
      assert ToMap(entries[1..]) == ToMap(entries) - {name};
    } else {
      WithoutIsRemoval(entries[1..], name);
      ToMapCons(e, Without(entries[1..], name));
      assert (ToMap(entries[1..]) - {name})[e.name := e.value] == ToMap(entries) - {name};
    }
  }

  lemma {:induction false} ToMapMember(entries: seq<Assignment>, name: string)
    ensures name in ToMap(entries) <==> exists i :: 0 <= i < |entries| && entries[i].name == name
    ensures name in ToMap(entries) ==> Assignment(name, ToMap(entries)[name]) in entries
  {
    if entries != [] {
      ToMapMember(entries[1..], name);
      assert forall i :: 1 <= i < |entries| ==> entries[i] == entries[1..][i - 1];
      if name in ToMap(entries[1..]) {
        var i :| 0 <= i < |entries[1..]| && entries[1..][i].name == name;
        assert entries[i + 1].name == name;
      }
    }
  }

  // ---------------------------------------------------------------- recognising one assignment

  predicate IsNameChar(c: char) {
    IsLetter(c) || IsDigit(c) || c == '_'
  }

  /** `[A-Za-z_][A-Za-z0-9_]*`, the names the assignment pattern can capture. */
  predicate ValidName(name: string) {
    && name != "" && !IsDigit(name[0])
    && forall i :: 0 <= i < |name| ==> IsNameChar(name[i])
  }

  function NameLength(s: string): (n: nat)
    ensures n <= |s|
    ensures forall i :: 0 <= i < n ==> IsNameChar(s[i])
    ensures n < |s| ==> !IsNameChar(s[n])
  {
    if s != "" && IsNameChar(s[0]) then 1 + NameLength(s[1..]) else 0
  }

  /** `NAME\s*=\s*(.*)$` at the start of `s`. */
  function MatchNamed(s: string): (r: Option<Assignment>)
    ensures r.Some? ==> ValidName(r.value.name)
  {
    var n := NameLength(s);
    if n == 0 || IsDigit(s[0]) then None
    else
      var rest := StripLeft(s[n..]);
      if rest == "" || rest[0] != '=' then None
      else Some(Assignment(s[..n], StripLeft(rest[1..])))
  }

  /** `export\s` at the start of `s`. */
  predicate HasExportWord(s: string) {
    |s| > 6 && s[..6] == "export" && IsSpace(s[6])
  }

  /** The assignment pattern with its optional `export` word; the value is still raw. */
  function MatchAssignment(line: string): (r: Option<Assignment>)
    ensures r.Some? ==> ValidName(r.value.name)
  {
    var s := StripLeft(line);
    if HasExportWord(s) && MatchNamed(StripLeft(s[6..])).Some?
    then MatchNamed(StripLeft(s[6..]))
    else MatchNamed(s)
  }

  predicate Quoted(s: string) {
    |s| >= 2 && s[0] == s[|s| - 1] && (s[0] == '\'' || s[0] == '"')
  }

  predicate HasComment(s: string) {
    exists i :: 0 <= i < |s| - 1 && s[i] == ' ' && s[i + 1] == '#'
  }

  function BeforeComment(s: string): (r: string)
    ensures |r| <= |s|
  {
    if |s| < 2 then s
    else if s[0] == ' ' && s[1] == '#' then ""
    else [s[0]] + BeforeComment(s[1..])
  }

  lemma BeforeCommentFixed(s: string)
    ensures BeforeComment(s) == s <==> !HasComment(s)
    ensures HasComment(s) ==> |BeforeComment(s)| < |s|
  {
    if |s| >= 2 && !(s[0] == ' ' && s[1] == '#') {
      BeforeCommentFixed(s[1..]);
      assert forall i :: 1 <= i < |s| ==> s[i] == s[1..][i - 1];
      if HasComment(s) {
        var i :| 0 <= i < |s| - 1 && s[i] == ' ' && s[i + 1] == '#';
        assert s[1..][i - 1] == ' ' && s[1..][i] == '#';
      }
    }
  }

  function ParseValue(raw: string): (r: string)
    ensures |r| <= |raw|
  {
    var value := Strip(raw);
    if Quoted(value) then value[1..|value| - 1] else Strip(BeforeComment(value))
  }

  /** The values that survive being written and read back. */
  predicate Plain(v: string) {
    Strip(v) == v && NoBreaks(v) && !HasComment(v) && !Quoted(v)
  }

  lemma ParseValueFixed(v: string)
    ensures ParseValue(v) == v <==> Strip(v) == v && !HasComment(v) && !Quoted(v)
  {
    BeforeCommentFixed(Strip(v));
  }

  /** The name of the variable a physical line assigns, as the rewriting loop sees it. */
  function AssignedName(line: string): Option<string> {
    match MatchAssignment(TrimNewline(line))
    case Some(a) => Some(a.name)
    case None => None
  }

  /** `line.rstrip("\r\n")` */
  function TrimNewline(line: string): (r: string)
    ensures |r| <= |line| && r == line[..|r|]
    ensures r == "" || (r[|r| - 1] != '\n' && r[|r| - 1] != '\r')
  {
    if line != "" && (line[|line| - 1] == '\n' || line[|line| - 1] == '\r') then TrimNewline(line[..|line| - 1])
    else line
  }

  // ---------------------------------------------------------------- reading

  /** The assignments one physical line contributes: none or one. */
  function OfLine(line: string): (r: seq<Assignment>)
    ensures |r| <= 1
  {
    match MatchAssignment(Chop(line))
    case Some(a) => [Assignment(a.name, ParseValue(a.value))]
    case None => []
  }

  function OfLines(lines: seq<string>): seq<Assignment> {
    if lines == [] then [] else OfLine(lines[0]) + OfLines(lines[1..])
  }

  /** All assignments of a text, in order, duplicates included. */
  function Assignments(text: string): seq<Assignment> {
    OfLines(SplitKeep(text))
  }

  function Collect(entries: seq<Assignment>, values: map<string, string>): Result<map<string, string>, CodecError> {
    if entries == [] then Success(values)
    else if entries[0].name in values then Failure(DuplicateVariable(entries[0].name))
    else Collect(entries[1..], values[entries[0].name := entries[0].value])
  }

  /** What `_read_credential_file` returns for a decoded text. */
  function ReadText(text: string): Result<map<string, string>, CodecError> {
    Collect(Assignments(text), map[])
  }

  lemma {:induction false} CollectIsUnion(entries: seq<Assignment>, values: map<string, string>)
    ensures Collect(entries, values).Success? <==> Distinct(entries) && ToMap(entries).Keys !! values.Keys
    ensures Collect(entries, values).Success? ==> Collect(entries, values).value == values + ToMap(entries)
  {
    if entries != [] {
      var e, rest := entries[0], entries[1..];
      CollectIsUnion(rest, values[e.name := e.value]);
      if e.name !in values && Collect(rest, values[e.name := e.value]).Success? {
        assert values[e.name := e.value] + ToMap(rest) == values + ToMap(entries);
      }
    }
  }

  /** Reading fails exactly on a repeated name, and otherwise loses and invents nothing. */
  lemma ReadTextMeaning(text: string)
    ensures ReadText(text).Success? <==> Distinct(Assignments(text))
    ensures ReadText(text).Success? ==> ReadText(text).value == ToMap(Assignments(text))
  {
    CollectIsUnion(Assignments(text), map[]);
    assert map[] + ToMap(Assignments(text)) == ToMap(Assignments(text));
  }

  lemma {:induction false} OfLinesConcat(a: seq<string>, b: seq<string>)
    ensures OfLines(a + b) == OfLines(a) + OfLines(b)
  {
    hide OfLine;
    if a == [] {
      assert a + b == b;
    } else {
      assert (a + b)[1..] == a[1..] + b && (a + b)[0] == a[0];
      OfLinesConcat(a[1..], b);
      assert OfLines(a + b) == OfLine(a[0]) + (OfLines(a[1..]) + OfLines(b));
    }
  }

  /** `_read_credential_file`: one pass over the lines, filling a dictionary. */
  method ReadAssignments(text: string) returns (r: Result<map<string, string>, CodecError>)
    ensures r == ReadText(text)
  {
    var lines := SplitKeep(text);
    var values: map<string, string> := map[];
    assert lines[0..] == lines;
    for i := 0 to |lines|
      invariant Collect(OfLines(lines[i..]), values) == ReadText(text)
    {
      assert lines[i..][1..] == lines[i + 1..];
      var matched := MatchAssignment(Chop(lines[i]));
      if matched.Some? {
        var name := matched.value.name;
        var entry := Assignment(name, ParseValue(matched.value.value));
        assert OfLines(lines[i..]) == [entry] + OfLines(lines[i + 1..]);
        assert OfLines(lines[i..])[1..] == OfLines(lines[i + 1..]);
        if name in values {
          return Failure(DuplicateVariable(name));
        }
        values := values[name := entry.value];
      } else {
        assert OfLines(lines[i..]) == OfLines(lines[i + 1..]);
      }
    }
    return Success(values);
  }

  // ---------------------------------------------------------------- a written line reads back

  function Render(a: Assignment): string {
    a.name + "=" + a.value + "\n"
  }

  lemma NameLengthStops(name: string, tail: string)
    requires forall i :: 0 <= i < |name| ==> IsNameChar(name[i])
    requires tail == "" || !IsNameChar(tail[0])
    ensures NameLength(name + tail) == |name|
  {
    var s, n := name + tail, NameLength(name + tail);
    assert forall i :: 0 <= i < |name| ==> IsNameChar(s[i]);
    assert tail != "" ==> s[|name|] == tail[0];
  }

  lemma NamedThenEquals(name: string, v: string)
    requires ValidName(name)
    ensures MatchNamed(name + "=" + v) == Some(Assignment(name, StripLeft(v)))
  {
    var s, tail := name + "=" + v, "=" + v;
    assert s == name + tail;
    NameLengthStops(name, tail);
    assert s[|name|..] == tail && s[..|name|] == name;
    assert StripLeft(tail) == tail && tail[1..] == v;
  }

  lemma NoExportWord(name: string, v: string)
    requires ValidName(name)
    ensures !HasExportWord(name + "=" + v)
  {
    var s := name + "=" + v;
    if HasExportWord(s) {
      assert forall i :: 0 <= i < 6 ==> s[i] == s[..6][i];
      assert s[|name|] == '=';
      assert forall i :: 0 <= i < |name| ==> s[i] == name[i];
      assert false;
    }
  }

  lemma NameThenEquals(name: string, v: string)
    requires ValidName(name)
    ensures MatchAssignment(name + "=" + v) == Some(Assignment(name, StripLeft(v)))
  {
    NamedThenEquals(name, v);
    NoExportWord(name, v);
    assert StripLeft(name + "=" + v) == name + "=" + v;
  }

  lemma ParseValueLeft(v: string)
    ensures ParseValue(StripLeft(v)) == ParseValue(v)
  {
    assert StripLeft(StripLeft(v)) == StripLeft(v);
    assert Strip(StripLeft(v)) == Strip(v);
  }

  lemma RenderIsLine(a: Assignment)
    requires ValidName(a.name) && NoBreaks(a.value)
    ensures IsLine(Render(a)) && Terminated(Render(a))
    ensures Chop(Render(a)) == a.name + "=" + a.value == TrimNewline(Render(a))
    ensures AssignedName(Render(a)) == Some(a.name)
    ensures OfLine(Render(a)) == [Assignment(a.name, ParseValue(a.value))]
  {
    var body := a.name + "=" + a.value;
    assert Render(a)[..|body|] == body;
    assert forall i :: 0 <= i < |body| ==> !IsLineBreak(body[i]);
    assert TrimNewline(body) == body by {
      assert !IsLineBreak(body[|body| - 1]);
    }
    assert TrimNewline(Render(a)) == body;
    NameThenEquals(a.name, a.value);
    ParseValueLeft(a.value);
  }

  lemma RenderAlone(a: Assignment)
    requires ValidName(a.name) && NoBreaks(a.value)
    ensures Assignments(Render(a)) == [Assignment(a.name, ParseValue(a.value))]
  {
    RenderIsLine(a);
    var lines := [Render(a)];
    assert lines[1..] == [] && Join(lines) == Render(a);
    SplitJoin(lines);
    assert OfLines(lines) == OfLine(Render(a)) + OfLines([]);
  }

  lemma BrokenValueIsCut(a: Assignment)
    requires ValidName(a.name) && !NoBreaks(a.value)
    ensures Assignments(Render(a)) != [] && |Assignments(Render(a))[0].value| < |a.value|
  {
    hide Plain, NoBreaks, ParseValue, Strip, MatchAssignment, Chop, FirstLineLength, Render;
    var k := FirstLineCut(a);
    var v := a.value[..k];
    NameThenEquals(a.name, v);
    ParseValueLeft(v);
    var lines := SplitKeep(Render(a));
    assert OfLine(lines[0]) == [Assignment(a.name, ParseValue(v))];
  }

  /** The first line of a broken value holds a proper prefix of it. */
  lemma FirstLineCut(a: Assignment) returns (k: nat)
    requires ValidName(a.name) && !NoBreaks(a.value)
    ensures k < |a.value| && SplitKeep(Render(a)) != []
    ensures Chop(SplitKeep(Render(a))[0]) == a.name + "=" + a.value[..k]
  {
    hide FirstLineLength, IsLineBreak, ValidName, NoBreaks, SplitKeep, Chop;
    var s, v, start := Render(a), a.value, a.name + "=";
    var i := BreakIn(v);
    NameNoBreaks(a.name);
    assert s[..|start|] == start && s[|start| + i] == v[i];
    FirstBreak(s, |start|, |start| + i);
    var n := FirstLineLength(s);
    k := n - 1 - |start|;
    SplitStep(s);
    ChopBreak(s[..n]);
    assert s[..n][..n - 1] == start + v[..k];
  }

  lemma BreakIn(v: string) returns (i: nat)
    requires !NoBreaks(v)
    ensures i < |v| && IsLineBreak(v[i])
  {
    i :| 0 <= i < |v| && IsLineBreak(v[i]);
  }

  lemma ChopBreak(line: string)
    requires line != "" && IsLineBreak(line[|line| - 1])
    ensures Chop(line) == line[..|line| - 1]
  {
  }

  lemma NameNoBreaks(name: string)
    requires ValidName(name)
    ensures NoBreaks(name + "=")
  {
  }

  /** The first line ends at the first line break. */
  lemma FirstBreak(s: string, k: nat, i: nat)
    requires k <= i < |s| && NoBreaks(s[..k]) && IsLineBreak(s[i])
    ensures k < FirstLineLength(s) <= i + 1 && IsLineBreak(s[FirstLineLength(s) - 1])
  {
    hide IsLineBreak;
    var n := FirstLineLength(s);
    assert forall j :: 0 <= j < n - 1 ==> s[j] == s[..n - 1][j];
    assert forall j :: 0 <= j < k ==> s[j] == s[..k][j];
  }

  /** Plain is exact: a written variable reads back as itself if and only if its value is plain. */
  lemma ReadsBackIffPlain(a: Assignment)
    requires ValidName(a.name)
    ensures Assignments(Render(a)) == [a] <==> Plain(a.value)
  {
    if NoBreaks(a.value) {
      RenderAlone(a);
      ParseValueFixed(a.value);
    } else {
      BrokenValueIsCut(a);
    }
  }
}
