/** Python string primitives used by the harness: whitespace, stripping, line splitting. */
module Text {

  /** The characters for which `str.isspace` holds; `\s` and `str.strip` use the same set. */
  predicate IsSpace(c: char) {
    var u := c as int;
    || 9 <= u <= 13 || 28 <= u <= 32 || u == 0x85 || u == 0xA0 || u == 0x1680
    || 0x2000 <= u <= 0x200A || u == 0x2028 || u == 0x2029 || u == 0x202F || u == 0x205F || u == 0x3000
  }

  /** The characters at which `str.splitlines` ends a line. */
  predicate IsLineBreak(c: char) {
    var u := c as int;
    10 <= u <= 13 || 28 <= u <= 30 || u == 0x85 || u == 0x2028 || u == 0x2029
  }

  /** Both sets, listed: the line breaks are white space too. */
  lemma SpacesListed(c: char)
    ensures IsLineBreak(c) <==> c as int in [10, 11, 12, 13, 28, 29, 30, 0x85, 0x2028, 0x2029]
    ensures IsSpace(c) <==>
            || IsLineBreak(c) || c in "\t " || c as int in [31, 0xA0, 0x1680, 0x202F, 0x205F, 0x3000]
            || c as int in [0x2000, 0x2001, 0x2002, 0x2003, 0x2004, 0x2005, 0x2006, 0x2007, 0x2008, 0x2009, 0x200A]
  {
  }

  predicate IsLetter(c: char) {
    'a' <= c <= 'z' || 'A' <= c <= 'Z'
  }

  predicate IsDigit(c: char) {
    '0' <= c <= '9'
  }

  function LowerChar(c: char): char {
    if 'A' <= c <= 'Z' then (c as int + 32) as char else c
  }

  /** The same texts but for the case of letters. */
  predicate SameLetters(v: string, w: string) {
    |v| == |w| && forall i :: 0 <= i < |v| ==> LowerChar(v[i]) == LowerChar(w[i])
  }

  predicate Contains(s: string, part: string) {
    exists i :: 0 <= i <= |s| && part <= s[i..]
  }

  lemma ContainsIff(s: string, part: string)
    ensures Contains(s, part) <==> exists before, after :: s == before + part + after
  {
    if i :| 0 <= i <= |s| && part <= s[i..] {
      assert s == s[..i] + part + s[i..][|part|..];
    }
    if before, after :| s == before + part + after {
      assert s[|before|..] == part + after;
    }
  }

  predicate NoBreaks(s: string) {
    forall i :: 0 <= i < |s| ==> !IsLineBreak(s[i])
  }

  /** `str.lstrip()` */
  function StripLeft(s: string): (r: string)
    ensures |r| <= |s|
    ensures r == "" || !IsSpace(r[0])
  {
    if s != "" && IsSpace(s[0]) then StripLeft(s[1..]) else s
  }

  /** `str.rstrip()` */
  function StripRight(s: string): (r: string)
    ensures |r| <= |s| && r == s[..|r|]
    ensures r == "" || !IsSpace(r[|r| - 1])
  {
    if s != "" && IsSpace(s[|s| - 1]) then StripRight(s[..|s| - 1]) else s
  }

  /** `str.strip()` */
  function Strip(s: string): (r: string)
    ensures |r| <= |s|
    ensures r == "" || (!IsSpace(r[0]) && !IsSpace(r[|r| - 1]))
    ensures s == "" || (!IsSpace(s[0]) && !IsSpace(s[|s| - 1])) ==> r == s
  {
    StripRight(StripLeft(s))
  }

  lemma StripIdempotent(s: string)
    ensures Strip(Strip(s)) == Strip(s)
  {
  }

  lemma StripLeftSpaces(ws: string, s: string)
    requires forall i :: 0 <= i < |ws| ==> IsSpace(ws[i])
    ensures StripLeft(ws + s) == StripLeft(s)
  {
    if ws == "" {
      assert ws + s == s;
    } else {
      assert (ws + s)[1..] == ws[1..] + s;
      StripLeftSpaces(ws[1..], s);
    }
  }

  /** A trailing space character only survives a left strip when something precedes it. */
  lemma StripLeftTrailing(s: string, c: char)
    requires IsSpace(c)
    ensures StripLeft(s + [c]) == if StripLeft(s) == "" then "" else StripLeft(s) + [c]
  {
    if s == "" {
      assert (s + [c])[1..] == "";
    } else if IsSpace(s[0]) {
      assert (s + [c])[1..] == s[1..] + [c];
      StripLeftTrailing(s[1..], c);
    }
  }

  // ---------------------------------------------------------------- lines

  /** The length of the first line of `s`, its line break included. */
  function FirstLineLength(s: string): (n: nat)
    requires s != ""
    ensures 1 <= n <= |s|
    ensures NoBreaks(s[..n - 1])
    ensures n == |s| || IsLineBreak(s[n - 1])
  {
    if IsLineBreak(s[0]) || |s| == 1 then 1
    else
      var n := FirstLineLength(s[1..]);
      assert s[..n] == [s[0]] + s[1..][..n - 1];
      1 + n
  }

  /** `str.splitlines(keepends=True)` on text without carriage returns. */
  function SplitKeep(s: string): (lines: seq<string>)
    ensures s == "" <==> lines == []
  {
    if s == "" then []
    else var n := FirstLineLength(s); [s[..n]] + SplitKeep(s[n..])
  }

  /** The line without its break: an element of `str.splitlines()`. */
  function Chop(line: string): string {
    if line != "" && IsLineBreak(line[|line| - 1]) then line[..|line| - 1] else line
  }

  function SplitLines(s: string): seq<string> {
    ChopAll(SplitKeep(s))
  }

  function ChopAll(lines: seq<string>): (r: seq<string>)
    ensures |r| == |lines| && forall i :: 0 <= i < |r| ==> r[i] == Chop(lines[i])
  {
    if lines == [] then [] else [Chop(lines[0])] + ChopAll(lines[1..])
  }

  predicate Terminated(line: string) {
    line != "" && IsLineBreak(line[|line| - 1])
  }

  /** One physical line: nonempty, with a line break nowhere but at its end. */
  predicate IsLine(line: string) {
    line != "" && NoBreaks(line[..|line| - 1])
  }

  /** What `splitlines(keepends=True)` returns: lines of which only the last may lack its break. */
  predicate LineList(lines: seq<string>) {
    && (forall i :: 0 <= i < |lines| ==> IsLine(lines[i]))
    && (forall i :: 0 <= i < |lines| - 1 ==> Terminated(lines[i]))
  }

  predicate AllTerminated(lines: seq<string>) {
    forall i :: 0 <= i < |lines| ==> IsLine(lines[i]) && Terminated(lines[i])
  }

  function Join(lines: seq<string>): string {
    if lines == [] then "" else lines[0] + Join(lines[1..])
  }

  lemma JoinConcat(a: seq<string>, b: seq<string>)
    ensures Join(a + b) == Join(a) + Join(b)
  {
    if a == [] {
      assert a + b == b;
    } else {
      assert (a + b)[1..] == a[1..] + b;
      JoinConcat(a[1..], b);
    }
  }

  lemma JoinAround(lines: seq<string>, i: nat)
    requires i < |lines|
    ensures Join(lines) == Join(lines[..i]) + lines[i] + Join(lines[i + 1..])
  {
    assert lines == lines[..i] + lines[i..];
    JoinConcat(lines[..i], lines[i..]);
    assert lines[i..][1..] == lines[i + 1..];
  }

  lemma FirstLineOf(line: string, rest: string)
    requires IsLine(line) && (Terminated(line) || rest == "")
    ensures line + rest != "" && FirstLineLength(line + rest) == |line|
  {
    var s, n := line + rest, FirstLineLength(line + rest);
    assert forall i :: 0 <= i < |line| - 1 ==> s[i] == line[..|line| - 1][i];
    assert forall i :: 0 <= i < n - 1 ==> s[i] == s[..n - 1][i];
    assert s[|line| - 1] == line[|line| - 1];
  }

  /** Splitting inverts joining for every well-formed list of lines. */
  lemma {:induction false} SplitJoin(lines: seq<string>)
    requires LineList(lines)
    ensures SplitKeep(Join(lines)) == lines
  {
    if lines != [] {
      var rest := Join(lines[1..]);
      if |lines| == 1 {
        assert lines[1..] == [];
      }
      FirstLineOf(lines[0], rest);
      var s := lines[0] + rest;
      assert s[|lines[0]|..] == rest && s[..|lines[0]|] == lines[0];
      SplitJoin(lines[1..]);
    }
  }

  /** Splitting takes off one line at a time. */
  lemma SplitStep(s: string)
    requires s != ""
    ensures var n := FirstLineLength(s);
            && SplitKeep(s) == [s[..n]] + SplitKeep(s[n..])
            && IsLine(s[..n]) && (s[n..] != "" ==> Terminated(s[..n]))
  {
    hide IsLineBreak;
    var n := FirstLineLength(s);
    assert s[..n][..n - 1] == s[..n - 1];
  }

  /** A terminated line may stand in front of any lines. */
  lemma ConsLine(line: string, rest: seq<string>)
    requires IsLine(line) && LineList(rest) && (rest != [] ==> Terminated(line))
    ensures LineList([line] + rest) && Join([line] + rest) == line + Join(rest)
  {
    hide IsLine, Terminated;
    assert ([line] + rest)[1..] == rest;
  }

  lemma SplitNothing()
    ensures SplitKeep("") == [] && Join([]) == "" && LineList([])
  {
  }

  /** Joining inverts splitting, and the pieces are well-formed lines. */
  lemma {:induction false} JoinSplit(s: string)
    ensures Join(SplitKeep(s)) == s
    ensures LineList(SplitKeep(s))
    decreases |s|
  {
    hide SplitKeep, IsLine, Terminated, LineList, Join;
    if s == "" {
      SplitNothing();
    } else {
      var n := FirstLineLength(s);
      SplitStep(s);
      JoinSplit(s[n..]);
      ConsLine(s[..n], SplitKeep(s[n..]));
      assert s == s[..n] + s[n..];
    }
  }
}
