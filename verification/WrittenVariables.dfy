/** What reading finds for a variable that was just written, whatever its value. */
module WrittenVariables {
  import opened Wrappers
  import opened Text
  import opened CredentialCodec
  import opened CredentialRewrite
  import opened CredentialStore
  import opened CredentialFacts
  import A = AssignmentLines

  /** Empty, or ending with a line break. */
  predicate BreakEnded(s: string) {
    s == "" || IsLineBreak(s[|s| - 1])
  }

  predicate AllBroken(lines: seq<string>) {
    forall i :: 0 <= i < |lines| ==> Terminated(lines[i])
  }

  // ---------------------------------------------------------------- the written text

  lemma RenderBroken(a: Assignment)
    ensures Terminated(Render(a)) && Render(a)[|Render(a)| - 1] == '\n'
  {
  }

  /** Rewriting gives every line up, keeps it, or replaces it by a terminated one. */
  lemma {:induction false} RewrittenAlike(lines: seq<string>, pending: seq<Assignment>, i: nat)
    requires i < |lines|
    ensures Rewritten(lines, pending)[i] == lines[i] || exists a :: Rewritten(lines, pending)[i] == Render(a)
  {
    hide Replacement, Render, Without;
    if i > 0 {
      RewrittenAlike(lines[1..],
                     match Replacement(lines[0], pending) case Some(a) => Without(pending,
                                                                                  a.name) case None => pending, i - 1);
    }
  }

  lemma ClosedBroken(lines: seq<string>, pending: seq<Assignment>)
    requires LineList(lines)
    ensures AllBroken(CloseLast(Rewritten(lines, pending)))
  {
    hide Replacement, Render, Rewritten, IsLineBreak;
    var kept := Rewritten(lines, pending);
    forall i | 0 <= i < |kept| ensures kept[i] != "" && (i < |kept| - 1 ==> Terminated(kept[i])) {
      RewrittenAlike(lines, pending, i);
      if a :| kept[i] == Render(a) {
        RenderBroken(a);
      }
      assert IsLine(lines[i]);
    }
    NewlineBreaks();
  }

  lemma NewlineBreaks()
    ensures IsLineBreak('\n') && IsLineBreak('\r')
  {
  }

  lemma {:induction false} RenderAllBroken(rest: seq<Assignment>)
    ensures AllBroken(RenderAll(rest))
  {
    hide Render;
    if rest != [] {
      RenderBroken(rest[0]);
      RenderAllBroken(rest[1..]);
    }
  }

  lemma UpdatedBroken(lines: seq<string>, updates: seq<Assignment>)
    requires LineList(lines)
    ensures AllBroken(UpdatedLines(lines, updates))
  {
    hide Rewritten, RenderAll, Strip, CloseLast, LineList, Unplaced;
    ClosedBroken(lines, updates);
    RenderAllBroken(Unplaced(lines, updates));
  }

  /** A pending update takes a line's place or stays unplaced. */
  lemma {:induction false} PlacedOrLeft(lines: seq<string>, pending: seq<Assignment>, a: Assignment)
    requires Distinct(pending) && a in pending
    ensures a in Unplaced(lines, pending) || Render(a) in Rewritten(lines, pending)
  {
    hide AssignedName, Render;
    if lines != [] {
      match Replacement(lines[0], pending)
      case None => PlacedOrLeft(lines[1..], pending, a);
      case Some(x) =>
        A.MapHolds(pending, a);
        assert Rewritten(lines, pending)[0] == Render(x);
        if x.name != a.name {
          WithoutIsRemoval(pending, x.name);
          StillIn(pending, x.name, a);
          PlacedOrLeft(lines[1..], Without(pending, x.name), a);
        }
    }
  }

  lemma {:induction false} StillIn(entries: seq<Assignment>, name: string, a: Assignment)
    requires a in entries && a.name != name
    ensures a in Without(entries, name)
  {
    if entries[0].name != name && entries[0] != a {
      StillIn(entries[1..], name, a);
    }
  }

  lemma {:induction false} RenderedIn(rest: seq<Assignment>, a: Assignment)
    requires a in rest
    ensures Render(a) in RenderAll(rest)
  {
    hide Render;
    assert RenderAll(rest)[0] == Render(rest[0]);
    if rest[0] != a {
      RenderedIn(rest[1..], a);
      var i :| 0 <= i < |RenderAll(rest[1..])| && RenderAll(rest[1..])[i] == Render(a);
      assert RenderAll(rest)[i + 1] == Render(a);
    }
  }

  lemma KeptByClosing(lines: seq<string>, line: string)
    requires line in lines && line != "" && line[|line| - 1] == '\n'
    ensures line in CloseLast(lines)
  {
    var i :| 0 <= i < |lines| && lines[i] == line;
    assert CloseLast(lines)[i] == line;
  }

  lemma UpdateIsALine(lines: seq<string>, updates: seq<Assignment>, a: Assignment)
    requires Distinct(updates) && a in updates
    ensures Render(a) in UpdatedLines(lines, updates)
  {
    hide Render, Rewritten, Unplaced, RenderAll, CloseLast, Strip;
    PlacedOrLeft(lines, updates, a);
    RenderBroken(a);
    if a in Unplaced(lines, updates) {
      RenderedIn(Unplaced(lines, updates), a);
    } else {
      KeptByClosing(Rewritten(lines, updates), Render(a));
    }
  }

  lemma {:induction false} JoinBroken(lines: seq<string>)
    requires AllBroken(lines)
    ensures BreakEnded(Join(lines))
  {
    if lines != [] {
      assert Terminated(lines[0]);
      JoinBroken(lines[1..]);
    }
  }

  /** The written text holds the variable at the start of a line. */
  lemma WrittenAt(text: string, updates: seq<Assignment>, a: Assignment) returns (before: string, after: string)
    requires Distinct(updates) && a in updates
    ensures UpdatedText(text, updates) == before + Render(a) + after && BreakEnded(before)
  {
    hide Render, UpdatedLines, LineList, Terminated, Join, Distinct;
    var lines := UpdatedLines(SplitKeep(text), updates);
    JoinSplit(text);
    UpdatedBroken(SplitKeep(text), updates);
    UpdateIsALine(SplitKeep(text), updates, a);
    var i :| 0 <= i < |lines| && lines[i] == Render(a);
    JoinBroken(lines[..i]);
    JoinAround(lines, i);
    before, after := Join(lines[..i]), Join(lines[i + 1..]);
  }

  // ---------------------------------------------------------------- reading it again

  /** What stands before the first line break. */
  function Cut(v: string): (r: string)
    ensures NoBreaks(r) && |r| <= |v| && r == v[..|r|]
    ensures |r| < |v| ==> IsLineBreak(v[|r|])
  {
    if v == "" || IsLineBreak(v[0]) then "" else [v[0]] + Cut(v[1..])
  }

  lemma {:induction false} TranslateAfter(s: string, rest: string)
    requires BreakEnded(s) && rest != "" && rest[0] != '\n'
    ensures Translate(s + rest) == Translate(s) + Translate(rest) && BreakEnded(Translate(s))
    decreases |s|
  {
    hide IsLineBreak, Translate;
    NewlineBreaks();
    if s == "" {
      assert s + rest == rest;
      TranslateNothing();
    } else {
      var n := if s[0] == '\r' && |s| > 1 && s[1] == '\n' then 2 else 1;
      assert (s + rest)[n..] == s[n..] + rest && (s + rest)[0] == s[0];
      assert |s| == 1 ==> (s + rest)[1] == rest[0];
      TranslateFirst(s, n);
      TranslateFirst(s + rest, n);
      TranslateAfter(s[n..], rest);
      TranslateSome(s[n..]);
      var c := if s[0] == '\r' then '\n' else s[0];
      assert [c] + Translate(s[n..]) + Translate(rest) == [c] + (Translate(s[n..]) + Translate(rest));
      assert s[n..] == "" ==> s[|s| - 1] == s[n - 1];
    }
  }

  lemma TranslateSome(s: string)
    ensures Translate(s) == "" <==> s == ""
  {
  }

  lemma TranslateNothing()
    ensures Translate("") == ""
  {
  }

  lemma TranslateFirst(s: string, n: nat)
    requires s != "" && n == if s[0] == '\r' && |s| > 1 && s[1] == '\n' then 2 else 1
    ensures Translate(s) == [if s[0] == '\r' then '\n' else s[0]] + Translate(s[n..])
  {
  }

  lemma {:induction false} TranslatePrefix(s: string, rest: string)
    requires NoReturn(s)
    ensures Translate(s + rest) == s + Translate(rest)
  {
    if s == "" {
      assert s + rest == rest;
    } else {
      assert (s + rest)[1..] == s[1..] + rest;
      TranslatePrefix(s[1..], rest);
    }
  }

  lemma TranslateBreak(rest: string)
    requires rest != "" && IsLineBreak(rest[0])
    ensures Translate(rest) != "" && IsLineBreak(Translate(rest)[0])
  {
  }

  /** Lines that follow a line break are split off on their own. */
  lemma SplitAfterBreak(before: string, line: string, rest: string)
    requires BreakEnded(before) && IsLine(line) && Terminated(line)
    ensures SplitKeep(before + line + rest) == SplitKeep(before) + [line] + SplitKeep(rest)
  {
    hide SplitKeep, IsLineBreak;
    var a, b := SplitKeep(before), SplitKeep(rest);
    JoinSplit(before);
    JoinSplit(rest);
    if a != [] {
      LastBreak(a);
    }
    var lines := a + [line] + b;
    assert lines == a + ([line] + b) && ([line] + b)[1..] == b;
    JoinConcat(a, [line] + b);
    assert LineList(lines);
    SplitJoin(lines);
    assert before + line + rest == before + (line + rest);
  }

  lemma {:induction false} LastBreak(lines: seq<string>)
    requires LineList(lines) && lines != [] && BreakEnded(Join(lines))
    ensures Terminated(lines[|lines| - 1])
  {
    hide IsLineBreak;
    if |lines| == 1 {
      assert lines[1..] == [] && Join(lines) == lines[0];
    } else {
      assert LineList(lines[1..]) && IsLine(lines[1]);
      assert Join(lines[1..]) != "";
      assert Join(lines)[|Join(lines)| - 1] == Join(lines[1..])[|Join(lines[1..])| - 1];
      LastBreak(lines[1..]);
    }
  }

  /** The line that a written variable ends up on. */
  lemma WrittenLine(a: Assignment, after: string) returns (line: string, rest: string)
    requires ValidName(a.name)
    ensures Translate(Render(a) + after) == line + rest && IsLine(line) && Terminated(line)
    ensures OfLine(line) == [Assignment(a.name, ParseValue(Cut(a.value)))]
  {
    hide Translate, OfLine, ParseValue, IsLineBreak, IsLine, Terminated, ValidName, Cut, Render, NoReturn, NoBreaks;
    var cut := Cut(a.value);
    var head, tail := a.name + "=" + cut, a.value[|cut|..] + "\n" + after;
    NewlineBreaks();
    HeadFacts(a.name, cut);
    Regroup(a, |cut|, after);
    TranslatePrefix(head, tail);
    TranslateBreak(tail);
    var t := Translate(tail);
    LineFacts(a.name, cut, t[0]);
    line, rest := head + [t[0]], t[1..];
    assert t == [t[0]] + t[1..];
  }

  lemma Regroup(a: Assignment, k: nat, after: string)
    requires k <= |a.value|
    ensures Render(a) + after == (a.name + "=" + a.value[..k]) + (a.value[k..] + "\n" + after)
  {
    assert a.value == a.value[..k] + a.value[k..];
  }

  lemma LineFacts(name: string, cut: string, c: char)
    requires ValidName(name) && NoBreaks(cut) && IsLineBreak(c)
    ensures var line := name + "=" + cut + [c];
            IsLine(line) && Terminated(line) && OfLine(line) == [Assignment(name, ParseValue(cut))]
  {
    hide MatchAssignment, ParseValue, IsLineBreak, ValidName, Strip;
    var head := name + "=" + cut;
    HeadFacts(name, cut);
    assert (head + [c])[..|head|] == head && Chop(head + [c]) == head;
    NameThenEquals(name, cut);
    ParseValueLeft(cut);
  }

  lemma HeadFacts(name: string, cut: string)
    requires ValidName(name) && NoBreaks(cut)
    ensures NoReturn(name + "=" + cut) && NoBreaks(name + "=" + cut)
  {
    NameNoBreaks(name);
    var s := name + "=" + cut;
    forall i | 0 <= i < |s| ensures !IsLineBreak(s[i]) && s[i] != '\r' {
      if i < |name| + 1 {
        assert s[i] == (name + "=")[i];
      } else {
        assert s[i] == cut[i - |name| - 1];
      }
    }
  }

  /** Reading finds, under the variable's name, what the parser makes of the value up to its first line break. */
  lemma ReadsCut(text: string, updates: seq<Assignment>, a: Assignment)
    requires Distinct(updates) && a in updates && ValidName(a.name)
    requires ReadFile(Some(UpdatedText(text, updates))).Success?
    ensures var values := ReadFile(Some(UpdatedText(text, updates))).value;
            a.name in values && values[a.name] == ParseValue(Cut(a.value))
  {
    hide Render, UpdatedText, Translate, ParseValue, SplitKeep, OfLine, ReadText, IsLine, Terminated, Cut, ValidName,
      BreakEnded, Distinct;
    var before, after := WrittenAt(text, updates, a);
    RenderStart(a, after);
    TranslateAfter(before, Render(a) + after);
    assert before + Render(a) + after == before + (Render(a) + after);
    var line, rest := WrittenLine(a, after);
    var start := Translate(before);
    assert start + line + rest == start + (line + rest);
    LineIsRead(start, line, rest, Assignment(a.name, ParseValue(Cut(a.value))));
  }

  /** A line after a line break contributes its assignment. */
  lemma LineIsRead(before: string, line: string, rest: string, entry: Assignment)
    requires BreakEnded(before) && IsLine(line) && Terminated(line) && OfLine(line) == [entry]
    requires ReadText(before + line + rest).Success?
    ensures var values := ReadText(before + line + rest).value;
            entry.name in values && values[entry.name] == entry.value
  {
    hide SplitKeep, OfLine, ReadText, Distinct, ToMap, IsLine, IsLineBreak;
    SplitAfterBreak(before, line, rest);
    var x, y := SplitKeep(before), SplitKeep(rest);
    assert x + [line] + y == x + ([line] + y) && ([line] + y)[1..] == y;
    OfLinesConcat(x, [line] + y);
    var entries := Assignments(before + line + rest);
    assert entries == OfLines(x) + ([entry] + OfLines(y));
    assert entries[|OfLines(x)|] == entry;
    ReadTextMeaning(before + line + rest);
    A.MapHolds(entries, entry);
  }

  lemma RenderStart(a: Assignment, after: string)
    requires ValidName(a.name)
    ensures Render(a) + after != "" && (Render(a) + after)[0] != '\n'
  {
    assert (Render(a) + after)[0] == a.name[0];
  }

  lemma StripShorter(s: string)
    ensures |Strip(s)| == |s| ==> Strip(s) == s
  {
  }

  /** The parser gives a cut value back exactly when the value is plain, even after stripping. */
  lemma CutKeepsPlain(v: string)
    ensures ParseValue(Cut(v)) == v <==> Plain(v)
    ensures Strip(ParseValue(Cut(v))) == v <==> Plain(v)
  {
    hide ParseValue, Strip, HasComment, Quoted;
    var cut := Cut(v);
    ParseValueFixed(v);
    StripShorter(ParseValue(cut));
    if NoBreaks(v) {
      assert cut == v;
    } else {
      assert |cut| < |v|;
    }
  }

  /**
   Whatever stood in the file and whatever else is written: if the new file can be read, a written variable
   reads back as itself if and only if its value is plain.
   */
  lemma WrittenReadsBackIffPlain(text: string, updates: seq<Assignment>, a: Assignment)
    requires Distinct(updates) && a in updates && ValidName(a.name)
    requires ReadFile(Some(UpdatedText(text, updates))).Success?
    ensures var values := ReadFile(Some(UpdatedText(text, updates))).value;
            a.name in values && (values[a.name] == a.value <==> Plain(a.value))
  {
    hide *;
    ReadsCut(text, updates, a);
    CutKeepsPlain(a.value);
  }

  /** The written text: the kept lines, a blank line where one is due, and the variables that had no line. */
  lemma SeparatedText(text: string, updates: seq<Assignment>)
    ensures var kept := CloseLast(Rewritten(SplitKeep(text), updates));
            var added := Unplaced(SplitKeep(text), updates);
            var due := added != [] && kept != [] && exists i :: 0 <= i < |Last(kept)| && !IsSpace(Last(kept)[i]);
            UpdatedText(text, updates) == Join(kept) + (if due then "\n" else "") + Join(RenderAll(added))
  {
    hide Rewritten, Unplaced, CloseLast, SplitKeep, IsSpace, Strip;
    var kept, added := CloseLast(Rewritten(SplitKeep(text), updates)), Unplaced(SplitKeep(text), updates);
    var separator := Separator(kept, added);
    if kept != [] {
      A.BlankIff(Last(kept));
    }
    JoinConcat(kept + separator, RenderAll(added));
    JoinConcat(kept, separator);
    assert Join(separator) == if separator == [] then "" else "\n" by {
      assert separator != [] ==> separator[1..] == [] && "\n" + "" == "\n";
    }
  }
}
