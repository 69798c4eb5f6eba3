/**
 Rewriting `.env.local`: each updated variable replaces its first assignment in place, the others are
 appended. The text is split, rewritten line by line and joined again.
 */
module CredentialRewrite {
  import opened Wrappers
  import opened Text
  import opened CredentialCodec

  /** Updates as the callers build them: distinct identifiers with plain values. */
  predicate Writable(updates: seq<Assignment>) {
    && Distinct(updates)
    && forall a :: a in updates ==> ValidName(a.name) && Plain(a.value)
  }

  /** The pending update a line gives way to, if any. */
  function Replacement(line: string, pending: seq<Assignment>): Option<Assignment> {
    match AssignedName(line)
    case Some(n) => if n in ToMap(pending) then Some(Assignment(n, ToMap(pending)[n])) else None
    case None => None
  }

  function Rewritten(lines: seq<string>, pending: seq<Assignment>): (r: seq<string>)
    ensures |r| == |lines|
  {
    if lines == [] then []
    else match Replacement(lines[0], pending)
      case Some(a) => [Render(a)] + Rewritten(lines[1..], Without(pending, a.name))
      case None => [lines[0]] + Rewritten(lines[1..], pending)
  }

  /** The updates no line gave way to. */
  function Unplaced(lines: seq<string>, pending: seq<Assignment>): seq<Assignment> {
    if lines == [] then pending
    else match Replacement(lines[0], pending)
      case Some(a) => Unplaced(lines[1..], Without(pending, a.name))
      case None => Unplaced(lines[1..], pending)
  }

  function Last<T>(s: seq<T>): T
    requires s != []
  {
    s[|s| - 1]
  }

  function CloseLast(lines: seq<string>): seq<string> {
    if lines != [] && Last(lines) != "" && Last(Last(lines)) != '\n' && Last(Last(lines)) != '\r'
    then lines[..|lines| - 1] + [Last(lines) + "\n"]
    else lines
  }

  function Separator(closed: seq<string>, rest: seq<Assignment>): seq<string> {
    if rest != [] && closed != [] && Strip(Last(closed)) != "" then ["\n"] else []
  }

  function RenderAll(rest: seq<Assignment>): (r: seq<string>)
    ensures |r| == |rest|
  {
    if rest == [] then [] else [Render(rest[0])] + RenderAll(rest[1..])
  }

  function UpdatedLines(lines: seq<string>, updates: seq<Assignment>): seq<string> {
    var closed := CloseLast(Rewritten(lines, updates));
    var rest := Unplaced(lines, updates);
    closed + Separator(closed, rest) + RenderAll(rest)
  }

  /** The text `_update_credential_file` writes over `text`. */
  function UpdatedText(text: string, updates: seq<Assignment>): string {
    Join(UpdatedLines(SplitKeep(text), updates))
  }

  /** `_update_credential_file`: one pass that pops from `remaining` and appends to `updated`. */
  method RewriteText(text: string, updates: seq<Assignment>) returns (r: string)
    ensures r == UpdatedText(text, updates)
  {
    var lines := SplitKeep(text);
    var remaining := updates;
    var updated: seq<string> := [];
    assert lines[0..] == lines;
    for i := 0 to |lines|
      invariant updated + Rewritten(lines[i..], remaining) == Rewritten(lines, updates)
      invariant Unplaced(lines[i..], remaining) == Unplaced(lines, updates)
    {
      RewriteStep(lines[i..], remaining, updated);
      assert lines[i..][1..] == lines[i + 1..];
      match Replacement(lines[i], remaining)
      case Some(a) =>
        updated, remaining := updated + [Render(a)], Without(remaining, a.name);
      case None =>
        updated := updated + [lines[i]];
    }
    assert lines[|lines|..] == [] && updated == Rewritten(lines, updates);
    var closed := CloseLast(updated);
    r := Join(closed + Separator(closed, remaining) + RenderAll(remaining));
  }

  lemma {:induction false} RewriteStep(lines: seq<string>, pending: seq<Assignment>, done: seq<string>)
    requires lines != []
    ensures match Replacement(lines[0], pending)
            case Some(a) =>
              && done + Rewritten(lines, pending)
                   == done + [Render(a)] + Rewritten(lines[1..], Without(pending, a.name))
              && Unplaced(lines, pending) == Unplaced(lines[1..], Without(pending, a.name))
            case None =>
              && done + Rewritten(lines, pending) == done + [lines[0]] + Rewritten(lines[1..], pending)
              && Unplaced(lines, pending) == Unplaced(lines[1..], pending)
  {
    match Replacement(lines[0], pending)
    case Some(a) =>
      var rest := Rewritten(lines[1..], Without(pending, a.name));
      assert done + ([Render(a)] + rest) == done + [Render(a)] + rest;
    case None =>
      var rest := Rewritten(lines[1..], pending);
      assert done + ([lines[0]] + rest) == done + [lines[0]] + rest;
  }

  // ---------------------------------------------------------------- the same rewriting on entries

  function Override(entries: seq<Assignment>, pending: seq<Assignment>): seq<Assignment> {
    if entries == [] then []
    else if entries[0].name in ToMap(pending) then
      [Assignment(entries[0].name, ToMap(pending)[entries[0].name])]
      + Override(entries[1..], Without(pending, entries[0].name))
    else [entries[0]] + Override(entries[1..], pending)
  }

  function LeftOver(entries: seq<Assignment>, pending: seq<Assignment>): seq<Assignment> {
    if entries == [] then pending
    else if entries[0].name in ToMap(pending) then LeftOver(entries[1..], Without(pending, entries[0].name))
    else LeftOver(entries[1..], pending)
  }

  lemma {:induction false} OverrideIsUnion(entries: seq<Assignment>, pending: seq<Assignment>)
    requires Distinct(entries) && Distinct(pending)
    ensures Distinct(Override(entries, pending) + LeftOver(entries, pending))
    ensures ToMap(Override(entries, pending) + LeftOver(entries, pending)) == ToMap(entries) + ToMap(pending)
  {
    var all := Override(entries, pending) + LeftOver(entries, pending);
    if entries == [] {
      assert all == pending;
    } else {
      var e, rest := entries[0], entries[1..];
      var placed := e.name in ToMap(pending);
      var pending' := if placed then Without(pending, e.name) else pending;
      var head := if placed then Assignment(e.name, ToMap(pending)[e.name]) else e;
      if placed {
        WithoutIsRemoval(pending, e.name);
      }
      OverrideIsUnion(rest, pending');
      var tail := Override(rest, pending') + LeftOver(rest, pending');
      assert all == [head] + tail;
      ToMapCons(head, tail);
      UnionStep(ToMap(rest), ToMap(pending), e.name, e.value);
    }
  }

  lemma UnionStep(m: map<string, string>, u: map<string, string>, n: string, v: string)
    ensures n !in u ==> (m + u)[n := v] == m[n := v] + u
    ensures n in u ==> (m + (u - {n}))[n := u[n]] == m[n := v] + u
  {
  }

  // ---------------------------------------------------------------- lines and entries agree

  lemma MatchNamedTrailing(s: string, c: char)
    requires IsSpace(c)
    ensures MatchNamed(s + [c]).Some? <==> MatchNamed(s).Some?
    ensures MatchNamed(s).Some? ==> MatchNamed(s + [c]).value.name == MatchNamed(s).value.name
  {
    var n := NameLength(s);
    NameLengthStops(s[..n], s[n..] + [c]);
    assert s + [c] == s[..n] + (s[n..] + [c]);
    assert (s + [c])[n..] == s[n..] + [c] && (s + [c])[..n] == s[..n];
    StripLeftTrailing(s[n..], c);
  }

  /** A trailing line break never changes which variable a line assigns. */
  lemma MatchTrailing(body: string, c: char)
    requires IsSpace(c)
    ensures MatchAssignment(body + [c]).Some? <==> MatchAssignment(body).Some?
    ensures MatchAssignment(body).Some? ==> MatchAssignment(body + [c]).value.name == MatchAssignment(body).value.name
  {
    var s := StripLeft(body);
    StripLeftTrailing(body, c);
    MatchNamedTrailing(s, c);
    if HasExportWord(s) {
      assert (s + [c])[..6] == s[..6] && (s + [c])[6..] == s[6..] + [c];
      StripLeftTrailing(s[6..], c);
      MatchNamedTrailing(StripLeft(s[6..]), c);
    } else if s != "" && HasExportWord(s + [c]) {
      ExportAlone(s, c);
    }
  }

  /** The word `export` followed only by a space assigns nothing. */
  lemma ExportAlone(s: string, c: char)
    requires IsSpace(c) && HasExportWord(s + [c]) && !HasExportWord(s)
    ensures MatchNamed(StripLeft((s + [c])[6..])).None?
  {
    assert |s| >= 6 && (s + [c])[..6] == s[..6];
    assert |s| == 6;
    assert (s + [c])[6..] == [c] && [c][1..] == "";
  }

  lemma TrimOneBreak(body: string, c: char)
    requires NoBreaks(body)
    ensures TrimNewline(body + [c]) == if c == '\n' || c == '\r' then body else body + [c]
  {
    assert (body + [c])[..|body|] == body;
    if body != "" {
      assert !IsLineBreak(body[|body| - 1]);
    }
  }

  /** The rewriting loop and the reading loop see the same variable on every physical line. */
  lemma NameAgrees(line: string)
    requires IsLine(line)
    ensures AssignedName(line) == if OfLine(line) == [] then None else Some(OfLine(line)[0].name)
  {
    var body, c := line[..|line| - 1], line[|line| - 1];
    assert line == body + [c];
    TrimOneBreak(body, c);
    if IsLineBreak(c) {
      MatchTrailing(body, c);
    }
  }

  lemma WithoutStaysWritable(updates: seq<Assignment>, name: string)
    requires Writable(updates) && name in ToMap(updates)
    ensures Writable(Without(updates, name))
    ensures ValidName(name) && Plain(ToMap(updates)[name])
  {
    WithoutIsRemoval(updates, name);
    WithoutSubset(updates, name);
    ToMapMember(updates, name);
  }

  lemma {:induction false} WithoutSubset(updates: seq<Assignment>, name: string)
    ensures forall a :: a in Without(updates, name) ==> a in updates
  {
    if updates != [] && updates[0].name != name {
      WithoutSubset(updates[1..], name);
    }
  }

  lemma {:induction false} RewrittenEntries(lines: seq<string>, pending: seq<Assignment>)
    requires forall i :: 0 <= i < |lines| ==> IsLine(lines[i])
    requires Writable(pending)
    ensures OfLines(Rewritten(lines, pending)) == Override(OfLines(lines), pending)
    ensures Unplaced(lines, pending) == LeftOver(OfLines(lines), pending)
    ensures Writable(Unplaced(lines, pending))
  {
    if lines != [] {
      var entries, rest := OfLines(lines), lines[1..];
      NameAgrees(lines[0]);
      match Replacement(lines[0], pending)
      case Some(a) =>
        assert entries[0].name == a.name && entries[1..] == OfLines(rest);
        WithoutStaysWritable(pending, a.name);
        RewrittenEntries(rest, Without(pending, a.name));
        RenderedLine(a);
        OfLinesCons(Render(a), Rewritten(rest, Without(pending, a.name)));
      case None =>
        RewrittenEntries(rest, pending);
        OfLinesCons(lines[0], Rewritten(rest, pending));
        if OfLine(lines[0]) != [] {
          assert entries[0] == OfLine(lines[0])[0] && entries[1..] == OfLines(rest);
        } else {
          assert entries == OfLines(rest);
        }
    }
  }

  lemma OfLinesCons(line: string, rest: seq<string>)
    ensures OfLines([line] + rest) == OfLine(line) + OfLines(rest)
  {
    assert ([line] + rest)[1..] == rest;
  }

  lemma RenderedLine(a: Assignment)
    requires ValidName(a.name) && Plain(a.value)
    ensures IsLine(Render(a)) && Terminated(Render(a)) && Last(Render(a)) == '\n'
    ensures OfLine(Render(a)) == [a] && AssignedName(Render(a)) == Some(a.name)
  {
    RenderIsLine(a);
    ParseValueFixed(a.value);
  }

  lemma {:induction false} RenderAllEntries(rest: seq<Assignment>)
    requires forall a :: a in rest ==> ValidName(a.name) && Plain(a.value)
    ensures OfLines(RenderAll(rest)) == rest
  {
    hide OfLine, Render, Plain, ValidName;
    hide ValidName, Plain, AssignedName, Render;
    if rest != [] {
      RenderedLine(rest[0]);
      assert forall a :: a in rest[1..] ==> a in rest;
      RenderAllEntries(rest[1..]);
      OfLinesCons(Render(rest[0]), RenderAll(rest[1..]));
      assert [rest[0]] + rest[1..] == rest;
    }
  }

  lemma {:induction false} RenderAllTerminated(rest: seq<Assignment>)
    requires forall a :: a in rest ==> ValidName(a.name) && Plain(a.value)
    ensures AllTerminated(RenderAll(rest))
  {
    if rest != [] {
      assert forall a :: a in rest[1..] ==> a in rest;
      RenderAllTerminated(rest[1..]);
      RenderedLine(rest[0]);
      ConsTerminated(Render(rest[0]), RenderAll(rest[1..]));
    }
  }

  lemma ConsTerminated(line: string, rest: seq<string>)
    requires IsLine(line) && Terminated(line) && AllTerminated(rest)
    ensures AllTerminated([line] + rest)
  {
  }

  lemma {:induction false} RewrittenLineList(lines: seq<string>, pending: seq<Assignment>)
    requires LineList(lines) && Writable(pending)
    ensures LineList(Rewritten(lines, pending))
  {
    if lines != [] {
      assert LineList(lines[1..]);
      match Replacement(lines[0], pending)
      case Some(a) =>
        WithoutStaysWritable(pending, a.name);
        RewrittenLineList(lines[1..], Without(pending, a.name));
        RenderedLine(a);
      case None =>
        RewrittenLineList(lines[1..], pending);
    }
  }

  // ---------------------------------------------------------------- the written lines

  /** The kept lines as they split again: a last line that lacked its newline gets one. */
  function Settled(lines: seq<string>): seq<string> {
    if lines == [] || Last(lines) == "" || Last(Last(lines)) == '\n' || Last(Last(lines)) == '\r' then lines
    else if Terminated(Last(lines)) then lines + ["\n"]
    else lines[..|lines| - 1] + [Last(lines) + "\n"]
  }

  lemma NewlineLine()
    ensures IsLine("\n") && Terminated("\n") && OfLine("\n") == [] && AssignedName("\n") == None
  {
    assert Chop("\n") == "" == TrimNewline("\n");
  }

  lemma SettledLines(lines: seq<string>)
    requires LineList(lines)
    ensures AllTerminated(Settled(lines))
    ensures Join(Settled(lines)) == Join(CloseLast(lines))
    ensures OfLines(Settled(lines)) == OfLines(lines)
  {
    hide OfLine, OfLines, Join;
    if lines != [] {
      var front, last := lines[..|lines| - 1], Last(lines);
      assert lines == front + [last];
      if Settled(lines) == lines + ["\n"] {
        SettledBlank(front, last);
      } else if Settled(lines) != lines {
        SettledOpen(front, last);
      }
    }
  }

  lemma SettledBlank(front: seq<string>, last: string)
    ensures Join(front + [last] + ["\n"]) == Join(front + [last + "\n"])
    ensures OfLines(front + [last] + ["\n"]) == OfLines(front + [last])
    ensures IsLine("\n") && Terminated("\n")
  {
    NewlineLine();
    OfLinesConcat(front + [last], ["\n"]);
    OfLinesCons("\n", []);
    JoinConcat(front, [last + "\n"]);
    JoinConcat(front, [last] + ["\n"]);
    assert front + [last] + ["\n"] == front + ([last] + ["\n"]);
    SettledJoin(last);
  }

  lemma SettledOpen(front: seq<string>, last: string)
    requires IsLine(last) && !Terminated(last)
    ensures OfLines(front + [last + "\n"]) == OfLines(front + [last])
    ensures IsLine(last + "\n") && Terminated(last + "\n")
  {
    assert (last + "\n")[..|last|] == last && Chop(last + "\n") == last == Chop(last);
    assert last == last[..|last| - 1] + [last[|last| - 1]];
    OfLinesConcat(front, [last]);
    OfLinesConcat(front, [last + "\n"]);
    OfLinesCons(last, []);
    OfLinesCons(last + "\n", []);
  }

  lemma SettledJoin(last: string)
    ensures Join([last] + ["\n"]) == Join([last + "\n"])
  {
    assert ([last] + ["\n"])[1..] == ["\n"] && ["\n"][1..] == [] && [last + "\n"][1..] == [];
  }

  /** The lines of the written text: the settled lines, perhaps a blank line, then the new variables. */
  function WrittenLines(lines: seq<string>, updates: seq<Assignment>): seq<string> {
    var kept, rest := Rewritten(lines, updates), Unplaced(lines, updates);
    Settled(kept) + Separator(CloseLast(kept), rest) + RenderAll(rest)
  }

  lemma {:induction false} ConcatTerminated(a: seq<string>, b: seq<string>)
    requires AllTerminated(a) && AllTerminated(b)
    ensures AllTerminated(a + b)
  {
    forall i | 0 <= i < |a + b| ensures IsLine((a + b)[i]) && Terminated((a + b)[i]) {
      assert (a + b)[i] == if i < |a| then a[i] else b[i - |a|];
    }
  }

  lemma {:induction false} ThreePartsJoin(a: seq<string>, a': seq<string>, b: seq<string>, c: seq<string>)
    requires Join(a) == Join(a')
    ensures Join(a + b + c) == Join(a' + b + c)
  {
    JoinConcat(a + b, c);
    JoinConcat(a, b);
    JoinConcat(a' + b, c);
    JoinConcat(a', b);
  }

  lemma {:induction false} ThreePartsEntries(a: seq<string>, b: seq<string>, c: seq<string>)
    requires OfLines(b) == []
    ensures OfLines(a + b + c) == OfLines(a) + OfLines(c)
  {
    OfLinesConcat(a + b, c);
    OfLinesConcat(a, b);
  }

  lemma SeparatorLines(closed: seq<string>, rest: seq<Assignment>)
    ensures AllTerminated(Separator(closed, rest)) && OfLines(Separator(closed, rest)) == []
  {
    NewlineLine();
    OfLinesCons("\n", []);
  }

  /** The three parts of the written text, with what each contributes. */
  lemma WrittenParts(lines: seq<string>, updates: seq<Assignment>)
    requires LineList(lines) && Writable(updates)
    ensures AllTerminated(WrittenLines(lines, updates))
    ensures Join(WrittenLines(lines, updates)) == Join(UpdatedLines(lines, updates))
    ensures OfLines(WrittenLines(lines, updates))
         == Override(OfLines(lines), updates) + LeftOver(OfLines(lines), updates)
  {
    var kept, rest := Rewritten(lines, updates), Unplaced(lines, updates);
    var sep := Separator(CloseLast(kept), rest);
    RewrittenLineList(lines, updates);
    RewrittenEntries(lines, updates);
    SettledLines(kept);
    RenderAllEntries(rest);
    RenderAllTerminated(rest);
    SeparatorLines(CloseLast(kept), rest);
    ConcatTerminated(Settled(kept), sep);
    ConcatTerminated(Settled(kept) + sep, RenderAll(rest));
    ThreePartsJoin(Settled(kept), CloseLast(kept), sep, RenderAll(rest));
    ThreePartsEntries(Settled(kept), sep, RenderAll(rest));
  }

  lemma UpdatedSplit(text: string, updates: seq<Assignment>)
    requires Writable(updates)
    ensures SplitKeep(UpdatedText(text, updates)) == WrittenLines(SplitKeep(text), updates)
  {
    JoinSplit(text);
    WrittenParts(SplitKeep(text), updates);
    SplitJoin(WrittenLines(SplitKeep(text), updates));
  }

  /**
   Reading after updating is map override: exactly the updated names change, and no name is repeated
   that was not repeated before.
   */
  lemma ReadAfterUpdate(text: string, updates: seq<Assignment>)
    requires ReadText(text).Success? && Writable(updates)
    ensures ReadText(UpdatedText(text, updates)) == Success(ReadText(text).value + ToMap(updates))
  {
    ReadTextMeaning(text);
    JoinSplit(text);
    UpdatedSplit(text, updates);
    WrittenParts(SplitKeep(text), updates);
    OverrideIsUnion(Assignments(text), updates);
    ReadTextMeaning(UpdatedText(text, updates));
  }

  // ---------------------------------------------------------------- what stays unchanged

  /** Line `i` is the first to assign a variable that is being updated. */
  predicate Updates(lines: seq<string>, i: nat, updates: seq<Assignment>)
    requires i < |lines|
  {
    && AssignedName(lines[i]).Some?
    && AssignedName(lines[i]).value in ToMap(updates)
    && forall j :: 0 <= j < i ==> AssignedName(lines[j]) != AssignedName(lines[i])
  }

  function NewLine(lines: seq<string>, i: nat, updates: seq<Assignment>): string
    requires i < |lines|
  {
    if Updates(lines, i, updates)
    then Render(Assignment(AssignedName(lines[i]).value, ToMap(updates)[AssignedName(lines[i]).value]))
    else lines[i]
  }

  lemma {:induction false} RewrittenAt(lines: seq<string>, pending: seq<Assignment>, i: nat)
    requires Writable(pending) && i < |lines|
    ensures Rewritten(lines, pending)[i] == NewLine(lines, i, pending)
  {
    hide AssignedName, ValidName, Plain;
    if i > 0 {
      var rest := lines[1..];
      assert forall j :: 0 <= j < |rest| ==> rest[j] == lines[j + 1];
      match Replacement(lines[0], pending)
      case Some(a) =>
        WithoutStaysWritable(pending, a.name);
        WithoutIsRemoval(pending, a.name);
        RewrittenAt(rest, Without(pending, a.name), i - 1);
        UpdatesTail(lines, i, pending, Without(pending, a.name));
      case None =>
        RewrittenAt(rest, pending, i - 1);
        UpdatesTail(lines, i, pending, pending);
    }
  }

  lemma UpdatesTail(lines: seq<string>, i: nat, pending: seq<Assignment>, pending': seq<Assignment>)
    requires 0 < i < |lines|
    requires match Replacement(lines[0], pending)
             case Some(a) => ToMap(pending') == ToMap(pending) - {a.name}
             case None => ToMap(pending') == ToMap(pending)
    ensures NewLine(lines[1..], i - 1, pending') == NewLine(lines, i, pending)
  {
    var rest := lines[1..];
    assert forall j :: 0 <= j < |rest| ==> rest[j] == lines[j + 1];
    if Updates(rest, i - 1, pending') {
      assert forall j :: 1 <= j < i ==> lines[j] == rest[j - 1];
    }
  }

  lemma {:induction false} LeftOverNames(entries: seq<Assignment>, pending: seq<Assignment>)
    requires Distinct(pending)
    ensures ToMap(LeftOver(entries, pending)) == ToMap(pending) - ToMap(entries).Keys
  {
    if entries != [] {
      var e, rest := entries[0], entries[1..];
      if e.name in ToMap(pending) {
        WithoutIsRemoval(pending, e.name);
        LeftOverNames(rest, Without(pending, e.name));
      } else {
        LeftOverNames(rest, pending);
      }
    }
  }

  /** A line as it is rewritten when it stays: only a missing final newline is added. */
  function Closed(line: string): string {
    if Terminated(line) then line else line + "\n"
  }

  lemma SettledAt(lines: seq<string>, i: nat)
    requires LineList(lines) && i < |lines|
    ensures |Settled(lines)| >= |lines| && Settled(lines)[i] == Closed(lines[i])
  {
  }

  lemma SettledLength(lines: seq<string>)
    ensures |lines| <= |Settled(lines)| <= |lines| + 1
    ensures |Settled(lines)| > |lines| ==> Settled(lines)[|lines|] == "\n"
  {
  }

  lemma KeptLines(lines: seq<string>, updates: seq<Assignment>)
    requires LineList(lines) && Writable(updates)
    ensures var settled := Settled(Rewritten(lines, updates));
            && |lines| <= |settled| <= |lines| + 1
            && (forall i :: 0 <= i < |lines| ==> settled[i] == Closed(NewLine(lines, i, updates)))
            && (|settled| > |lines| ==> settled[|lines|] == "\n")
  {
    hide Settled, Rewritten, NewLine, Closed;
    var kept := Rewritten(lines, updates);
    RewrittenLineList(lines, updates);
    SettledLength(kept);
    forall i | 0 <= i < |lines| ensures Settled(kept)[i] == Closed(NewLine(lines, i, updates)) {
      RewrittenAt(lines, updates, i);
      SettledAt(kept, i);
    }
  }

  /** Where the three parts of the written lines stand. */
  predicate LaidOut(before: seq<string>, updates: seq<Assignment>, after: seq<string>, tail: seq<string>) {
    && |before| + |tail| <= |after| <= |before| + 2 + |tail|
    && (forall i :: 0 <= i < |before| ==> after[i] == Closed(NewLine(before, i, updates)))
    && (forall i :: |before| <= i < |after| - |tail| ==> after[i] == "\n")
    && after[|after| - |tail|..] == tail
  }

  lemma Layout(before: seq<string>, updates: seq<Assignment>, settled: seq<string>, sep: seq<string>, tail: seq<string>)
    requires |before| <= |settled| <= |before| + 1
    requires forall i :: 0 <= i < |before| ==> settled[i] == Closed(NewLine(before, i, updates))
    requires |settled| > |before| ==> settled[|before|] == "\n"
    requires sep == [] || sep == ["\n"]
    ensures LaidOut(before, updates, settled + sep + tail, tail)
  {
    hide NewLine, Closed;
  }

  /**
   Line by line: the first assignment of each updated name is replaced, every other line stays where it
   was, and what follows are at most two blank lines and the variables that had no line.
   */
  lemma LinesKept(text: string, updates: seq<Assignment>)
    requires Writable(updates)
    ensures var before := SplitKeep(text);
            var added := Unplaced(before, updates);
            && LaidOut(before, updates, SplitKeep(UpdatedText(text, updates)), RenderAll(added))
            && ToMap(added) == ToMap(updates) - ToMap(Assignments(text)).Keys
  {
    var before := SplitKeep(text);
    var kept, added := Rewritten(before, updates), Unplaced(before, updates);
    JoinSplit(text);
    KeptLines(before, updates);
    UpdatedSplit(text, updates);
    RewrittenEntries(before, updates);
    LeftOverNames(OfLines(before), updates);
    Layout(before, updates, Settled(kept), Separator(CloseLast(kept), added), RenderAll(added));
  }

  // ---------------------------------------------------------------- idempotence

  /** Rewriting leaves `lines` as they are and uses up all but `rest`. */
  predicate Fixed(lines: seq<string>, pending: seq<Assignment>, rest: seq<Assignment>) {
    Rewritten(lines, pending) == lines && Unplaced(lines, pending) == rest
  }

  lemma {:induction false} FixedConcat(a: seq<string>, b: seq<string>, p: seq<Assignment>, q: seq<Assignment>,
                                       r: seq<Assignment>)
    requires Fixed(a, p, q) && Fixed(b, q, r)
    ensures Fixed(a + b, p, r)
  {
    hide Replacement, Render, Without;
    if a == [] {
      assert a + b == b;
    } else {
      assert (a + b)[0] == a[0] && (a + b)[1..] == a[1..] + b;
      var p' := match Replacement(a[0], p) case Some(x) => Without(p, x.name) case None => p;
      assert Rewritten(a, p)[1..] == Rewritten(a[1..], p');
      FixedConcat(a[1..], b, p', q, r);
    }
  }

  lemma {:induction false} RewrittenFixed(lines: seq<string>, pending: seq<Assignment>)
    requires Writable(pending)
    ensures Fixed(Rewritten(lines, pending), pending, Unplaced(lines, pending))
  {
    if lines != [] {
      var kept := Rewritten(lines, pending);
      match Replacement(lines[0], pending)
      case Some(a) =>
        WithoutStaysWritable(pending, a.name);
        RenderedLine(a);
        RewrittenFixed(lines[1..], Without(pending, a.name));
        assert kept[1..] == Rewritten(lines[1..], Without(pending, a.name));
      case None =>
        RewrittenFixed(lines[1..], pending);
        assert kept[1..] == Rewritten(lines[1..], pending);
    }
  }

  lemma {:induction false} RenderAllFixed(rest: seq<Assignment>)
    requires forall a :: a in rest ==> ValidName(a.name) && Plain(a.value)
    ensures Fixed(RenderAll(rest), rest, [])
  {
    hide ValidName, Plain, AssignedName, Render;
    if rest != [] {
      RenderedLine(rest[0]);
      assert forall a :: a in rest[1..] ==> a in rest;
      assert RenderAll(rest)[1..] == RenderAll(rest[1..]);
      RenderAllFixed(rest[1..]);
    }
  }

  lemma BlankFixed(pending: seq<Assignment>)
    ensures Fixed(["\n"], pending, pending)
  {
    NewlineLine();
  }

  lemma SettledFixed(kept: seq<string>, pending: seq<Assignment>, rest: seq<Assignment>)
    requires LineList(kept) && Fixed(kept, pending, rest)
    ensures Fixed(Settled(kept), pending, rest)
  {
    if kept != [] && Settled(kept) == kept + ["\n"] {
      BlankFixed(rest);
      FixedConcat(kept, ["\n"], pending, rest, rest);
    } else if Settled(kept) != kept {
      OpenLineFixed(kept, pending, rest);
    }
  }

  lemma {:induction false} OpenLineFixed(kept: seq<string>, pending: seq<Assignment>, rest: seq<Assignment>)
    requires kept != [] && IsLine(Last(kept)) && !Terminated(Last(kept)) && Fixed(kept, pending, rest)
    ensures Fixed(kept[..|kept| - 1] + [Last(kept) + "\n"], pending, rest)
  {
    hide AssignedName, ValidName, Plain;
    var last, kept' := Last(kept), kept[..|kept| - 1] + [Last(kept) + "\n"];
    if |kept| == 1 {
      assert kept == [last] && kept[1..] == [] && kept' == [last + "\n"] && kept'[1..] == [];
      assert last[|last| - 1] != '\n';
      assert Replacement(last, pending).None?;
      OpenLineName(last);
    } else {
      var p' := match Replacement(kept[0], pending) case Some(x) => Without(pending, x.name) case None => pending;
      assert Rewritten(kept, pending)[1..] == Rewritten(kept[1..], p');
      assert Last(kept[1..]) == last;
      OpenLineFixed(kept[1..], p', rest);
      assert kept'[1..] == kept[1..][..|kept| - 2] + [last + "\n"] && kept'[0] == kept[0];
    }
  }

  lemma OpenLineName(last: string)
    requires IsLine(last) && !Terminated(last)
    ensures AssignedName(last + "\n") == AssignedName(last)
  {
    assert (last + "\n")[..|last|] == last;
    assert TrimNewline(last + "\n") == last == TrimNewline(last);
  }

  lemma WrittenFixed(lines: seq<string>, updates: seq<Assignment>)
    requires LineList(lines) && Writable(updates)
    ensures Fixed(WrittenLines(lines, updates), updates, [])
  {
    var kept, rest := Rewritten(lines, updates), Unplaced(lines, updates);
    var sep := Separator(CloseLast(kept), rest);
    RewrittenLineList(lines, updates);
    RewrittenEntries(lines, updates);
    RewrittenFixed(lines, updates);
    SettledFixed(kept, updates, rest);
    BlankFixed(rest);
    RenderAllFixed(rest);
    FixedConcat(Settled(kept), sep, updates, rest, rest);
    FixedConcat(Settled(kept) + sep, RenderAll(rest), updates, rest, []);
  }

  lemma WrittenClosed(lines: seq<string>, updates: seq<Assignment>)
    requires LineList(lines) && Writable(updates)
    ensures CloseLast(WrittenLines(lines, updates)) == WrittenLines(lines, updates)
  {
    hide Settled, CloseLast, RenderAll, Separator, Rewritten, Unplaced, LineList, Plain, Ended;
    var kept, rest := Rewritten(lines, updates), Unplaced(lines, updates);
    SettledEnded(kept);
    SeparatorEnded(CloseLast(kept), rest);
    RenderAllEnded(rest);
    EndedConcat(Settled(kept), Separator(CloseLast(kept), rest));
    EndedConcat(Settled(kept) + Separator(CloseLast(kept), rest), RenderAll(rest));
    assert WrittenLines(lines, updates) == Settled(kept) + Separator(CloseLast(kept), rest) + RenderAll(rest);
    EndedClosed(WrittenLines(lines, updates));
  }

  predicate Ended(lines: seq<string>) {
    lines == [] || Last(lines) == "" || Last(Last(lines)) == '\n' || Last(Last(lines)) == '\r'
  }

  lemma EndedClosed(lines: seq<string>)
    requires Ended(lines)
    ensures CloseLast(lines) == lines
  {
  }

  lemma EndedConcat(a: seq<string>, b: seq<string>)
    requires Ended(a) && Ended(b)
    ensures Ended(a + b)
  {
    if b == [] {
      assert a + b == a;
    }
  }

  lemma SettledEnded(kept: seq<string>)
    ensures Ended(Settled(kept))
  {
  }

  lemma SeparatorEnded(closed: seq<string>, rest: seq<Assignment>)
    ensures Ended(Separator(closed, rest))
  {
    hide Strip;
  }

  lemma RenderAllEnded(rest: seq<Assignment>)
    ensures Ended(RenderAll(rest))
  {
    if rest != [] {
      RenderAllLast(rest);
    }
  }

  lemma {:induction false} RenderAllLast(rest: seq<Assignment>)
    requires rest != []
    ensures Last(RenderAll(rest)) != "" && Last(Last(RenderAll(rest))) == '\n'
  {
    if |rest| > 1 {
      RenderAllLast(rest[1..]);
    }
  }

  lemma AlreadyWritten(written: seq<string>, updates: seq<Assignment>)
    requires Fixed(written, updates, []) && CloseLast(written) == written
    ensures UpdatedLines(written, updates) == written
  {
    assert written + [] + [] == written;
  }

  lemma SameText(text: string, updates: seq<Assignment>)
    ensures UpdatedText(text, updates) == Join(UpdatedLines(SplitKeep(text), updates))
    ensures UpdatedText(UpdatedText(text, updates), updates)
         == Join(UpdatedLines(SplitKeep(UpdatedText(text, updates)), updates))
  {
  }

  /** Writing the same updates twice leaves the text of the first write. */
  lemma UpdateIdempotent(text: string, updates: seq<Assignment>)
    requires Writable(updates)
    ensures UpdatedText(UpdatedText(text, updates), updates) == UpdatedText(text, updates)
  {
    hide *;
    var lines := SplitKeep(text);
    var written := WrittenLines(lines, updates);
    JoinSplit(text);
    UpdatedSplit(text, updates);
    WrittenParts(lines, updates);
    WrittenFixed(lines, updates);
    WrittenClosed(lines, updates);
    AlreadyWritten(written, updates);
    SameText(text, updates);
  }
}
