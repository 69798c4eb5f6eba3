/** What the assignment pattern and the value parser recognise, said of lines as they are written. */
module AssignmentLines {
  import opened Wrappers
  import opened Text
  import opened CredentialCodec

  predicate Spaces(s: string) {
    forall i :: 0 <= i < |s| ==> IsSpace(s[i])
  }

  /** Text whose ends no strip removes. */
  predicate Trimmed(s: string) {
    s != "" ==> !IsSpace(s[0]) && !IsSpace(s[|s| - 1])
  }

  // ---------------------------------------------------------------- stripping

  lemma {:induction false} StripRightSpaces(s: string, ws: string)
    requires Spaces(ws)
    ensures StripRight(s + ws) == StripRight(s)
  {
    if ws == "" {
      assert s + ws == s;
    } else {
      assert (s + ws)[..|s + ws| - 1] == s + ws[..|ws| - 1];
      StripRightSpaces(s, ws[..|ws| - 1]);
    }
  }

  lemma StripSpaces(ws: string)
    requires Spaces(ws)
    ensures StripLeft(ws) == "" && Strip(ws) == ""
  {
    StripLeftSpaces(ws, "");
    assert ws + "" == ws;
  }

  /** Stripping takes exactly the whitespace from both ends. */
  lemma StripMeaning(lead: string, core: string, trail: string)
    requires Spaces(lead) && Spaces(trail) && Trimmed(core)
    ensures Strip(lead + core + trail) == core
    ensures core != "" ==> StripLeft(lead + core + trail) == core + trail
  {
    assert lead + core + trail == lead + (core + trail);
    StripLeftSpaces(lead, core + trail);
    if core == "" {
      assert core + trail == trail;
      StripSpaces(trail);
    } else {
      StripRightSpaces(core, trail);
    }
  }

  lemma {:induction false} StripLeftSplits(s: string) returns (lead: string)
    ensures Spaces(lead) && s == lead + StripLeft(s)
  {
    if s != "" && IsSpace(s[0]) {
      var rest := StripLeftSplits(s[1..]);
      lead := [s[0]] + rest;
    } else {
      lead := "";
    }
  }

  lemma {:induction false} StripRightBlank(s: string)
    requires StripRight(s) == ""
    ensures Spaces(s)
  {
    if s != "" {
      StripRightBlank(s[..|s| - 1]);
    }
  }

  /** Nothing is left of a text exactly when it is white space throughout. */
  lemma BlankIff(s: string)
    ensures Strip(s) == "" <==> Spaces(s)
  {
    if Strip(s) == "" {
      var lead := StripLeftSplits(s);
      StripRightBlank(StripLeft(s));
    }
    if Spaces(s) {
      StripSpaces(s);
    }
  }

  // ---------------------------------------------------------------- the value

  /** A value in matching quotes is what stands between them, blanks and comment signs included. */
  lemma QuotedValue(lead: string, q: char, body: string, trail: string)
    requires Spaces(lead) && Spaces(trail) && (q == '\'' || q == '"')
    ensures ParseValue(lead + [q] + body + [q] + trail) == body
  {
    var core := [q] + body + [q];
    assert lead + [q] + body + [q] + trail == lead + core + trail;
    StripMeaning(lead, core, trail);
    assert core[1..|core| - 1] == body;
  }

  lemma NoCommentTail(s: string)
    requires s != "" && !HasComment(s)
    ensures !HasComment(s[1..]) && (|s| >= 2 ==> !(s[0] == ' ' && s[1] == '#'))
  {
  }

  lemma {:induction false} CommentStart(s: string, i: nat)
    requires i + 1 < |s| && s[i] == ' ' && s[i + 1] == '#' && !HasComment(s[..i + 1])
    ensures BeforeComment(s) == s[..i]
  {
    if i > 0 {
      NoCommentTail(s[..i + 1]);
      assert s[1..][..i] == s[..i + 1][1..];
      CommentStart(s[1..], i - 1);
      assert s[..i] == [s[0]] + s[1..][..i - 1];
    }
  }

  lemma UpToComment(s: string, i: nat)
    requires i <= |s| && forall k :: 0 <= k < i && k + 1 < |s| ==> !(s[k] == ' ' && s[k + 1] == '#')
    requires i == |s| || (i + 1 < |s| && s[i] == ' ' && s[i + 1] == '#')
    ensures BeforeComment(s) == s[..i]
  {
    if i == |s| {
      BeforeCommentFixed(s);
      assert s[..i] == s;
    } else {
      CommentStart(s, i);
    }
  }

  /** A value without quotes ends at its first space followed by a number sign, and is stripped. */
  lemma UnquotedValue(lead: string, core: string, trail: string, i: nat)
    requires Spaces(lead) && Spaces(trail) && Trimmed(core) && i <= |core|
    requires |core| < 2 || core[0] != core[|core| - 1] || core[0] !in "'\""
    requires forall k :: 0 <= k < i && k + 1 < |core| ==> !(core[k] == ' ' && core[k + 1] == '#')
    requires i == |core| || (i + 1 < |core| && core[i] == ' ' && core[i + 1] == '#')
    ensures ParseValue(lead + core + trail) == Strip(core[..i])
  {
    hide Strip, Spaces, Trimmed, BeforeComment;
    StripMeaning(lead, core, trail);
    UpToComment(core, i);
  }

  // ---------------------------------------------------------------- the line

  /** Nothing, or the word `export` and whitespace. */
  predicate ExportPart(word: string) {
    word == "" || (|word| > 6 && word[..6] == "export" && Spaces(word[6..]))
  }

  /** A line that assigns `raw` to `name`. */
  predicate Layout(line: string, lead: string, word: string, name: string, gap: string, raw: string) {
    && Spaces(lead) && ExportPart(word) && ValidName(name) && Spaces(gap)
    && line == lead + word + name + gap + "=" + raw
  }

  lemma NamedGap(name: string, gap: string, raw: string)
    requires ValidName(name) && Spaces(gap)
    ensures MatchNamed(name + gap + "=" + raw) == Some(Assignment(name, StripLeft(raw)))
  {
    var tail := gap + "=" + raw;
    var s := name + gap + "=" + raw;
    assert s == name + tail;
    NameLengthStops(name, tail) by {
      assert tail[0] == if gap == "" then '=' else gap[0];
    }
    assert s[|name|..] == tail && s[..|name|] == name;
    assert tail == gap + ("=" + raw);
    StripLeftSpaces(gap, "=" + raw);
    assert ("=" + raw)[1..] == raw;
  }

  lemma NotExported(name: string, gap: string, raw: string)
    requires ValidName(name) && Spaces(gap)
    ensures var s := name + gap + "=" + raw; !(HasExportWord(s) && MatchNamed(StripLeft(s[6..])).Some?)
  {
    var s := name + gap + "=" + raw;
    if HasExportWord(s) {
      ExportIsName(s, name, gap, raw);
      assert s[6..] == gap + ("=" + raw);
      StripLeftSpaces(gap, "=" + raw);
      assert NameLength("=" + raw) == 0;
    }
  }

  lemma ExportIsName(s: string, name: string, gap: string, raw: string)
    requires ValidName(name) && Spaces(gap) && s == name + gap + "=" + raw && HasExportWord(s)
    ensures |name| == 6
  {
    assert forall i :: 0 <= i < 6 ==> s[i] == s[..6][i];
    assert forall i :: 0 <= i < |name| ==> s[i] == name[i];
    assert s[|name|] == if gap == "" then '=' else gap[0];
  }

  lemma ExportedMatches(lead: string, word: string, s: string)
    requires Spaces(lead) && ExportPart(word) && word != "" && s != "" && !IsSpace(s[0]) && MatchNamed(s).Some?
    ensures MatchAssignment(lead + (word + s)) == MatchNamed(s)
  {
    hide MatchNamed, NameLength, IsSpace;
    StripLeftSpaces(lead, word + s);
    assert word[0] == word[..6][0] == 'e' && StripLeft(word + s) == word + s by { NoLetterIsSpace('e'); }
    assert (word + s)[..6] == word[..6];
    assert (word + s)[6..] == word[6..] + s && (word + s)[6] == word[6..][0];
    StripLeftSpaces(word[6..], s);
    assert StripLeft(s) == s;
  }

  lemma NoLetterIsSpace(c: char)
    requires IsLetter(c)
    ensures !IsSpace(c)
  {
  }

  /** Every line laid out like this is recognised, with exactly this name and this raw value. */
  lemma LayoutMatches(line: string, lead: string, word: string, name: string, gap: string, raw: string)
    requires Layout(line, lead, word, name, gap, raw)
    ensures MatchAssignment(line) == Some(Assignment(name, StripLeft(raw)))
  {
    hide ValidName, MatchNamed, NameLength, IsSpace, StripLeft, HasExportWord, ExportPart;
    var s := name + gap + "=" + raw;
    FirstOfName(name, gap, raw);
    NamedGap(name, gap, raw);
    if word == "" {
      assert line == lead + s;
      StripLeftSpaces(lead, s);
      NotExported(name, gap, raw);
    } else {
      assert line == lead + (word + s);
      ExportedMatches(lead, word, s);
    }
  }

  lemma FirstOfName(name: string, gap: string, raw: string)
    requires ValidName(name)
    ensures name + gap + "=" + raw != "" && StripLeft(name + gap + "=" + raw) == name + gap + "=" + raw
    ensures !IsSpace((name + gap + "=" + raw)[0])
  {
  }

  lemma MatchedNamed(s: string) returns (gap: string, raw: string)
    requires MatchNamed(s).Some?
    ensures Spaces(gap) && s == MatchNamed(s).value.name + gap + "=" + raw
    ensures MatchNamed(s).value.value == StripLeft(raw)
  {
    hide ValidName, NameLength, StripLeft, IsNameChar, IsSpace, Spaces;
    var n := NameLength(s);
    gap := StripLeftSplits(s[n..]);
    var rest := StripLeft(s[n..]);
    raw := rest[1..];
    assert s == s[..n] + (gap + rest) && rest == "=" + raw;
  }

  /** Every recognised line is laid out like this. */
  lemma MatchLayout(line: string) returns (lead: string, word: string, gap: string, raw: string)
    requires MatchAssignment(line).Some?
    ensures Layout(line, lead, word, MatchAssignment(line).value.name, gap, raw)
    ensures MatchAssignment(line).value.value == StripLeft(raw)
  {
    hide ValidName, MatchNamed, NameLength, StripLeft, Spaces, ExportPart;
    lead := StripLeftSplits(line);
    var s := StripLeft(line);
    if HasExportWord(s) && MatchNamed(StripLeft(s[6..])).Some? {
      var blank := StripLeftSplits(s[6..]);
      gap, raw := MatchedNamed(StripLeft(s[6..]));
      word := s[..6] + blank;
      BlankAfterExport(s, blank);
      assert s == s[..6] + s[6..];
      Reassociate(lead, s[..6], blank, MatchAssignment(line).value.name, gap, raw);
    } else {
      word := "";
      EmptyWord();
      gap, raw := MatchedNamed(s);
      assert lead + "" == lead;
    }
  }

  lemma EmptyWord()
    ensures ExportPart("")
  {
  }

  lemma Reassociate(lead: string, head: string, blank: string, name: string, gap: string, raw: string)
    ensures lead + (head + (blank + (name + gap + "=" + raw))) == lead + (head + blank) + name + gap + "=" + raw
  {
  }

  lemma BlankAfterExport(s: string, blank: string)
    requires HasExportWord(s) && s[6..] == blank + StripLeft(s[6..]) && Spaces(blank)
    ensures ExportPart(s[..6] + blank)
  {
    assert s[6] == s[6..][0];
    assert (s[..6] + blank)[..6] == s[..6] && (s[..6] + blank)[6..] == blank;
  }

  /** The pattern matches exactly the lines of this layout, with a unique name and stripped raw value. */
  lemma AssignmentIff(line: string, a: Assignment)
    ensures MatchAssignment(line) == Some(a)
       <==> exists lead, word, gap, raw :: Layout(line, lead, word, a.name, gap, raw) && a.value == StripLeft(raw)
  {
    hide Layout, MatchAssignment;
    if MatchAssignment(line) == Some(a) {
      var lead, word, gap, raw := MatchLayout(line);
    }
    if lead, word, gap, raw :| Layout(line, lead, word, a.name, gap, raw) && a.value == StripLeft(raw) {
      LayoutMatches(line, lead, word, a.name, gap, raw);
    }
  }

  // ---------------------------------------------------------------- the file

  /** The line assigns the value `v` to `name`. */
  ghost predicate Gives(line: string, name: string, v: string) {
    exists lead, word, gap, raw :: Layout(line, lead, word, name, gap, raw) && v == ParseValue(raw)
  }

  lemma GivesIff(line: string, name: string, v: string)
    ensures Gives(Chop(line), name, v) <==> OfLine(line) == [Assignment(name, v)]
  {
    hide Layout, ParseValue, MatchAssignment, Chop, StripLeft;
    var s := Chop(line);
    if lead, word, gap, raw :| Layout(s, lead, word, name, gap, raw) && v == ParseValue(raw) {
      LayoutMatches(s, lead, word, name, gap, raw);
      ParseValueLeft(raw);
    }
    if MatchAssignment(s).Some? {
      var lead, word, gap, raw := MatchLayout(s);
      ParseValueLeft(raw);
    }
  }

  lemma {:induction false} OfLinesMember(lines: seq<string>, a: Assignment)
    ensures a in OfLines(lines) <==> exists i :: 0 <= i < |lines| && OfLine(lines[i]) == [a]
  {
    hide OfLine;
    if lines != [] {
      OfLinesMember(lines[1..], a);
      assert forall i :: 1 <= i < |lines| ==> lines[i] == lines[1..][i - 1];
      if i :| 0 <= i < |lines[1..]| && OfLine(lines[1..][i]) == [a] {
        assert OfLine(lines[i + 1]) == [a];
      }
    }
  }

  lemma {:induction false} MapHolds(entries: seq<Assignment>, a: Assignment)
    requires Distinct(entries) && a in entries
    ensures a.name in ToMap(entries) && ToMap(entries)[a.name] == a.value
  {
    if entries[0] != a {
      MapHolds(entries[1..], a);
    }
  }

  /** A readable file holds a value for a name if and only if some line assigns it. */
  lemma ReadIff(text: string, name: string, v: string)
    requires ReadText(text).Success?
    ensures name in ReadText(text).value && ReadText(text).value[name] == v
       <==> exists i :: 0 <= i < |SplitKeep(text)| && Gives(Chop(SplitKeep(text)[i]), name, v)
  {
    hide Gives, OfLine, SplitKeep, ReadText, Chop, Distinct, ToMap;
    var lines, a := SplitKeep(text), Assignment(name, v);
    ReadTextMeaning(text);
    OfLinesMember(lines, a);
    ToMapMember(Assignments(text), name);
    if a in Assignments(text) {
      MapHolds(Assignments(text), a);
    }
    forall i | 0 <= i < |lines| ensures Gives(Chop(lines[i]), name, v) <==> OfLine(lines[i]) == [a] {
      GivesIff(lines[i], name, v);
    }
  }

  /** Two lines assign the same name. */
  ghost predicate Repeats(lines: seq<string>) {
    exists i, j, name, v, w :: 0 <= i < j < |lines| && Gives(Chop(lines[i]), name, v) && Gives(Chop(lines[j]), name, w)
  }

  lemma {:induction false} DistinctIff(lines: seq<string>)
    ensures Distinct(OfLines(lines)) <==> !Repeats(lines)
  {
    hide Gives, OfLine, Chop, Repeats;
    if lines == [] {
      NothingRepeats();
    } else {
      var head, rest := lines[0], lines[1..];
      DistinctIff(rest);
      RepeatsCons(lines);
      GivesOne(head);
      if OfLine(head) == [] {
        assert OfLines(lines) == OfLines(rest);
      } else {
        var a := OfLine(head)[0];
        ToMapCons(a, OfLines(rest));
        GivenIn(rest, a.name);
      }
    }
  }

  lemma NothingRepeats()
    ensures !Repeats([])
  {
  }

  /** A line assigns what the reading loop takes from it, and nothing else. */
  lemma GivesOne(line: string)
    ensures OfLine(line) == [] ==> forall name, v :: !Gives(Chop(line), name, v)
    ensures OfLine(line) != [] ==>
              forall name, v :: Gives(Chop(line), name, v) <==> Assignment(name, v) == OfLine(line)[0]
  {
    hide Gives, OfLine, Chop;
    forall name, v ensures Gives(Chop(line), name, v) <==> OfLine(line) == [Assignment(name, v)] {
      GivesIff(line, name, v);
    }
  }

  lemma GivenIn(lines: seq<string>, name: string)
    ensures name in ToMap(OfLines(lines)) <==> exists j, w :: 0 <= j < |lines| && Gives(Chop(lines[j]), name, w)
  {
    hide Gives, OfLine, Chop;
    ToMapMember(OfLines(lines), name);
    if name in ToMap(OfLines(lines)) {
      var a := Assignment(name, ToMap(OfLines(lines))[name]);
      OfLinesMember(lines, a);
      var j :| 0 <= j < |lines| && OfLine(lines[j]) == [a];
      GivesIff(lines[j], name, a.value);
    }
    if j, w :| 0 <= j < |lines| && Gives(Chop(lines[j]), name, w) {
      GivesIff(lines[j], name, w);
      OfLinesMember(lines, Assignment(name, w));
    }
  }

  lemma RepeatsCons(lines: seq<string>)
    requires lines != []
    ensures Repeats(lines) <==>
              || Repeats(lines[1..])
              || exists j, name, v, w :: 0 <= j < |lines| - 1 && Gives(Chop(lines[0]), name, v)
                                         && Gives(Chop(lines[1..][j]), name, w)
  {
    hide Gives, Chop;
    var rest := lines[1..];
    assert forall i :: 1 <= i < |lines| ==> lines[i] == rest[i - 1];
    if i, j, name, v, w :| 0 <= i < j < |lines| && Gives(Chop(lines[i]), name, v) && Gives(Chop(lines[j]), name, w) {
      assert Gives(Chop(rest[j - 1]), name, w);
    }
    if i, j, name, v, w :| 0 <= i < j < |rest| && Gives(Chop(rest[i]), name, v) && Gives(Chop(rest[j]), name, w) {
      assert Gives(Chop(lines[i + 1]), name, v) && Gives(Chop(lines[j + 1]), name, w);
    }
    if j, name, v, w :| 0 <= j < |rest| && Gives(Chop(lines[0]), name, v) && Gives(Chop(rest[j]), name, w) {
      assert Gives(Chop(lines[j + 1]), name, w);
    }
  }

  /** A file is readable if and only if no two of its lines assign the same name. */
  lemma ReadableIff(text: string)
    ensures ReadText(text).Success? <==> !Repeats(SplitKeep(text))
  {
    hide Repeats, OfLines, SplitKeep, Distinct;
    ReadTextMeaning(text);
    DistinctIff(SplitKeep(text));
  }

  lemma {:induction false} CollectConcat(a: seq<Assignment>, b: seq<Assignment>, values: map<string, string>)
    ensures Collect(a + b, values) == match Collect(a, values)
                                      case Failure(e) => Failure(e)
                                      case Success(v) => Collect(b, v)
  {
    if a == [] {
      assert a + b == b;
    } else {
      assert (a + b)[1..] == a[1..] + b;
      if a[0].name !in values {
        CollectConcat(a[1..], b, values[a[0].name := a[0].value]);
      }
    }
  }

  /** A refusal names the variable of the first line that assigns one again. */
  lemma {:induction false} FirstRepeated(lines: seq<string>) returns (i: nat, j: nat, v: string, w: string)
    requires Collect(OfLines(lines), map[]).Failure?
    ensures var name := Collect(OfLines(lines), map[]).error.name;
            && i < j < |lines| && Gives(Chop(lines[i]), name, v) && Gives(Chop(lines[j]), name, w)
            && !Repeats(lines[..j])
    decreases |lines|
  {
    hide Gives, OfLine, Chop, Repeats, Distinct;
    var front, last := lines[..|lines| - 1], lines[|lines| - 1];
    assert lines == front + [last];
    OfLinesConcat(front, [last]);
    assert OfLines([last]) == OfLine(last) + OfLines([]) == OfLine(last);
    CollectConcat(OfLines(front), OfLine(last), map[]);
    CollectIsUnion(OfLines(front), map[]);
    if Collect(OfLines(front), map[]).Failure? {
      i, j, v, w := FirstRepeated(front);
      assert front[..j] == lines[..j];
    } else {
      var a := OfLine(last)[0];
      DistinctIff(front);
      GivenIn(front, a.name);
      GivesIff(last, a.name, a.value);
      var k, x :| 0 <= k < |front| && Gives(Chop(front[k]), a.name, x);
      i, j, v, w := k, |front|, x, a.value;
    }
  }

  // ---------------------------------------------------------------- one line in its file

  lemma OneLine(line: string, name: string, v: string)
    requires NoBreaks(line) && Gives(line, name, v)
    ensures ReadText(line + "\n") == Success(map[name := v])
  {
    hide Gives, OfLine, Distinct;
    var whole := line + "\n";
    assert whole[..|whole| - 1] == line;
    FirstLineOf(whole, "");
    assert whole + "" == whole && whole[|whole|..] == "";
    assert SplitKeep(whole) == [whole] + SplitKeep("") == [whole];
    assert Chop(whole) == line;
    GivesIff(whole, name, v);
    assert OfLines([whole]) == OfLine(whole) + OfLines([]) == [Assignment(name, v)];
    assert Collect([Assignment(name, v)], map[]) == Collect([], map[][name := v]);
  }

  lemma BreakFree(lead: string, word: string, name: string, gap: string, raw: string)
    requires NoBreaks(lead) && ExportPart(word) && NoBreaks(word) && ValidName(name) && NoBreaks(gap) && NoBreaks(raw)
    ensures NoBreaks(lead + word + name + gap + "=" + raw)
  {
    NameNoBreaks(name);
    assert NoBreaks(name) by {
      assert forall i :: 0 <= i < |name| ==> (name + "=")[i] == name[i];
    }
  }

  /** A file of one line: indented or not, exported or not, with any blanks around the equals sign. */
  lemma LineReads(lead: string, word: string, name: string, gap: string, raw: string)
    requires Spaces(lead) && ExportPart(word) && ValidName(name) && Spaces(gap)
    requires NoBreaks(lead) && NoBreaks(word) && NoBreaks(gap) && NoBreaks(raw)
    ensures ReadText(lead + word + name + gap + "=" + raw + "\n") == Success(map[name := ParseValue(raw)])
  {
    hide ValidName, ExportPart, ReadText, ParseValue;
    var line := lead + word + name + gap + "=" + raw;
    BreakFree(lead, word, name, gap, raw);
    assert Layout(line, lead, word, name, gap, raw);
    OneLine(line, name, ParseValue(raw));
  }

  /** A quoted value is read without its quotes and otherwise as it stands. */
  lemma QuotedLineReads(lead: string, word: string, name: string, gap: string, blank: string, q: char, body: string,
                        trail: string)
    requires Spaces(lead) && ExportPart(word) && ValidName(name) && Spaces(gap) && Spaces(blank) && Spaces(trail)
    requires NoBreaks(lead) && NoBreaks(word) && NoBreaks(gap) && NoBreaks(blank) && NoBreaks(trail)
    requires NoBreaks(body) && (q == '\'' || q == '"')
    ensures ReadText(lead + word + name + gap + "=" + (blank + [q] + body + [q] + trail) + "\n")
         == Success(map[name := body])
  {
    hide ValidName, ExportPart, ReadText, ParseValue;
    var raw := blank + [q] + body + [q] + trail;
    assert NoBreaks(raw);
    LineReads(lead, word, name, gap, raw);
    QuotedValue(blank, q, body, trail);
  }

  /** An unquoted value is read up to its comment, without the blanks around it. */
  lemma UnquotedLineReads(lead: string, word: string, name: string, gap: string, blank: string, core: string,
                          trail: string, i: nat)
    requires Spaces(lead) && ExportPart(word) && ValidName(name) && Spaces(gap) && Spaces(blank) && Spaces(trail)
    requires NoBreaks(lead) && NoBreaks(word) && NoBreaks(gap) && NoBreaks(blank) && NoBreaks(trail)
    requires NoBreaks(core) && Trimmed(core) && i <= |core|
    requires |core| < 2 || core[0] != core[|core| - 1] || core[0] !in "'\""
    requires forall k :: 0 <= k < i && k + 1 < |core| ==> !(core[k] == ' ' && core[k + 1] == '#')
    requires i == |core| || (i + 1 < |core| && core[i] == ' ' && core[i + 1] == '#')
    ensures ReadText(lead + word + name + gap + "=" + (blank + core + trail) + "\n")
         == Success(map[name := Strip(core[..i])])
  {
    hide ValidName, ExportPart, ReadText, ParseValue;
    var raw := blank + core + trail;
    assert NoBreaks(raw);
    LineReads(lead, word, name, gap, raw);
    UnquotedValue(blank, core, trail, i);
  }
}
