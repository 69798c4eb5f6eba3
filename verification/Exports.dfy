/** Requirements exports: the two block splitters and the validation of the hashed export. */
module Exports {
  import opened Wrappers
  import opened Text
  import opened PackageNames

  /** Neither blank nor a comment. */
  predicate IsSignificant(line: string) {
    Strip(line) != "" && line[0] != '#'
  }

  predicate Continues(line: string) {
    line != "" && IsSpace(line[0])
  }

  function Significant(lines: seq<string>): (r: seq<string>) {
    if lines == [] then []
    else
      var n := |lines| - 1;
      Significant(lines[..n]) + if IsSignificant(lines[n]) then [lines[n]] else []
  }

  /** The continuation lines that stand before every requirement. */
  function Orphans(lines: seq<string>): (n: nat)
    ensures n <= |lines|
  {
    if lines != [] && Continues(lines[0]) then 1 + Orphans(lines[1..]) else 0
  }

  function Stripped(lines: seq<string>): seq<string> {
    if lines == [] then []
    else var n := |lines| - 1; Stripped(lines[..n]) + [Strip(lines[n])]
  }

  function StrippedGroups(groups: seq<seq<string>>): seq<seq<string>> {
    if groups == [] then []
    else var n := |groups| - 1; StrippedGroups(groups[..n]) + [Stripped(groups[n])]
  }

  /** `" ".join(block)` */
  function Spaced(block: seq<string>): string {
    if block == [] then ""
    else if |block| == 1 then block[0]
    else Spaced(block[..|block| - 1]) + " " + block[|block| - 1]
  }

  function SpacedBlocks(blocks: seq<seq<string>>): seq<string> {
    if blocks == [] then []
    else var n := |blocks| - 1; SpacedBlocks(blocks[..n]) + [Spaced(blocks[n])]
  }

  // ---------------------------------------------------------------- grouping

  function Flat(groups: seq<seq<string>>): seq<string> {
    if groups == [] then [] else Flat(groups[..|groups| - 1]) + groups[|groups| - 1]
  }

  /** A requirement line with the continuations below it. */
  predicate IsGroup(group: seq<string>) {
    && group != [] && !Continues(group[0])
    && forall i :: 1 <= i < |group| ==> Continues(group[i])
  }

  /** `groups` cuts `lines` into requirements with all of their continuations. */
  predicate Grouping(lines: seq<string>, groups: seq<seq<string>>) {
    Flat(groups) == lines && forall i :: 0 <= i < |groups| ==> IsGroup(groups[i])
  }

  lemma SameElement(s: seq<string>, x: seq<string>, t: seq<string>, y: seq<string>)
    requires s + x == t + y && 0 < |x| < |y|
    ensures y[|y| - |x|] == x[0]
  {
    assert (t + y)[|s|] == (s + x)[|s|];
  }

  /** The last group starts at the last line that continues nothing, so it cannot be the shorter one. */
  lemma LastGroupLength(s: seq<string>, x: seq<string>, t: seq<string>, y: seq<string>)
    requires s + x == t + y && IsGroup(x) && IsGroup(y)
    ensures |x| >= |y|
  {
    if |x| < |y| {
      SameElement(s, x, t, y);
    }
  }

  /** A list of lines has at most one grouping. */
  lemma {:induction false} GroupingUnique(lines: seq<string>, a: seq<seq<string>>, b: seq<seq<string>>)
    requires Grouping(lines, a) && Grouping(lines, b)
    ensures a == b
    decreases |a|
  {
    if a == [] {
      assert b == [];
    } else {
      var m, n := |a| - 1, |b| - 1;
      var s, t := Flat(a[..m]), Flat(b[..n]);
      LastGroupLength(s, a[m], t, b[n]);
      LastGroupLength(t, b[n], s, a[m]);
      assert s == lines[..|s|] == t;
      assert a[m] == lines[|s|..] == b[n];
      GroupingUnique(s, a[..m], b[..n]);
      assert a == a[..m] + [a[m]] && b == b[..n] + [b[n]];
    }
  }

  /** A line that continues joins the last group, if there is one; any other line opens a group. */
  function Extend(groups: seq<seq<string>>, line: string, continues: bool): seq<seq<string>> {
    var n := |groups|;
    if !continues then groups + [[line]]
    else if n == 0 then []
    else groups[..n - 1] + [groups[n - 1] + [line]]
  }

  /** The groups of the lines below the leading orphans. */
  function Groups(lines: seq<string>): seq<seq<string>> {
    if lines == [] then []
    else var n := |lines| - 1; Extend(Groups(lines[..n]), lines[n], Continues(lines[n]))
  }

  lemma ExtendGrouping(lines: seq<string>, groups: seq<seq<string>>, line: string)
    requires Grouping(lines, groups) && (groups == [] ==> !Continues(line))
    ensures Grouping(lines + [line], Extend(groups, line, Continues(line)))
    ensures Extend(groups, line, Continues(line)) != []
  {
    var n, next := |groups|, Extend(groups, line, Continues(line));
    if Continues(line) {
      assert next[..n - 1] == groups[..n - 1];
      assert Flat(next) == Flat(groups) + [line];
      assert IsGroup(groups[n - 1] + [line]);
    } else {
      assert next[..n] == groups;
      assert IsGroup([line]);
    }
  }

  lemma {:induction false} OrphansLast(lines: seq<string>)
    requires lines != []
    ensures var n := |lines| - 1;
            Orphans(lines) == if Orphans(lines[..n]) == n && Continues(lines[n]) then n + 1 else Orphans(lines[..n])
  {
    var n := |lines| - 1;
    if n > 0 && Continues(lines[0]) {
      OrphansLast(lines[1..]);
      assert lines[1..][..n - 1] == lines[..n][1..];
    }
  }

  /** `Groups` is the grouping of everything below the leading orphans: nothing is lost, merged or reordered. */
  lemma {:induction false} GroupsMeaning(lines: seq<string>)
    ensures Grouping(lines[Orphans(lines)..], Groups(lines))
    ensures Groups(lines) == [] <==> Orphans(lines) == |lines|
  {
    hide Extend, Continues, Flat, IsGroup, Orphans, Grouping;
    if lines == [] {
      NothingGrouped();
    } else {
      var n := |lines| - 1;
      var done, k := Groups(lines[..n]), Orphans(lines[..n]);
      GroupsMeaning(lines[..n]);
      OrphansLast(lines);
      if k < n || !Continues(lines[n]) {
        ExtendGrouping(lines[..n][k..], done, lines[n]);
        assert lines[k..] == lines[..n][k..] + [lines[n]];
      } else {
        OrphanExtends(lines[n]);
        assert lines[Orphans(lines)..] == [];
        NothingGrouped();
      }
    }
  }

  lemma NothingGrouped()
    ensures Grouping([], []) && Orphans([]) == 0
  {
  }

  lemma OrphanExtends(line: string)
    ensures Extend([], line, true) == []
  {
  }

  /** Without an orphan the groups cut up all the significant lines. */
  lemma NoOrphanNoLoss(lines: seq<string>)
    requires Orphans(lines) == 0
    ensures Grouping(lines, Groups(lines))
  {
    GroupsMeaning(lines);
    assert lines[0..] == lines;
  }

  // ---------------------------------------------------------------- the two loops

  function Requirements(raw: string): seq<string> {
    Significant(SplitLines(raw))
  }

  function Pending(current: seq<string>): seq<seq<string>> {
    if current == [] then [] else [current]
  }

  /** Stripping commutes with taking in a line. */
  lemma StrippedExtend(groups: seq<seq<string>>, line: string, continues: bool)
    ensures StrippedGroups(Extend(groups, line, continues)) == Extend(StrippedGroups(groups), Strip(line), continues)
  {
    var n, next := |groups|, Extend(groups, line, continues);
    if !continues {
      assert next[..n] == groups;
      assert Stripped([line]) == [Strip(line)];
    } else if n > 0 {
      var last := groups[n - 1];
      assert next[..n - 1] == groups[..n - 1];
      assert (last + [line])[..|last|] == last;
    }
  }

  /** What one more significant line does to the blocks collected so far. */
  lemma NextLine(lines: seq<string>, line: string, blocks: seq<seq<string>>, current: seq<string>)
    requires StrippedGroups(Groups(lines)) == blocks + Pending(current)
    requires current == [] ==> blocks == []
    ensures StrippedGroups(Groups(lines + [line])) == Extend(blocks + Pending(current), Strip(line), Continues(line))
    ensures Orphans(lines + [line]) == if current == [] && Continues(line) then |lines| + 1 else Orphans(lines)
    ensures current == [] <==> Orphans(lines) == |lines|
  {
    var all := lines + [line];
    assert all[..|lines|] == lines;
    GroupsMeaning(lines);
    OrphansLast(all);
    StrippedExtend(Groups(lines), line, Continues(line));
  }

  lemma SignificantNext(lines: seq<string>, i: nat)
    requires i < |lines|
    ensures Significant(lines[..i + 1]) == Significant(lines[..i]) + if IsSignificant(lines[i]) then [lines[i]] else []
  {
    assert lines[..i + 1][..i] == lines[..i];
  }

  /** `_requirement_blocks`: the failure is the orphan error. */
  method RequirementBlocks(raw: string) returns (r: Result<seq<seq<string>>, ()>)
    ensures r == if Orphans(Requirements(raw)) > 0 then Failure(())
                 else Success(StrippedGroups(Groups(Requirements(raw))))
  {
    hide Groups, StrippedGroups, Stripped, Orphans, Significant, SplitLines, Strip;
    var blocks, current: seq<string> := [], [];
    var lines := SplitLines(raw);
    ghost var seen: seq<string> := [];
    NothingYet();
    assert lines[..0] == [] && lines[..|lines|] == lines;
    for i := 0 to |lines|
      invariant seen == Significant(lines[..i])
      invariant StrippedGroups(Groups(seen)) == blocks + Pending(current)
      invariant current == [] ==> blocks == []
      invariant Orphans(seen) == 0
    {
      var line := lines[i];
      SignificantNext(lines, i);
      if Strip(line) == "" || line[0] == '#' {
        continue;
      }
      NextLine(seen, line, blocks, current);
      if IsSpace(line[0]) {
        if current == [] {
          OrphanStays(lines, i + 1);
          return Failure(());
        }
        current := current + [Strip(line)];
      } else {
        if current != [] {
          blocks := blocks + [current];
        }
        current := [Strip(line)];
      }
      seen := seen + [line];
    }
    if current != [] {
      blocks := blocks + [current];
    }
    return Success(blocks);
  }

  lemma {:induction false} SignificantPrefix(lines: seq<string>, i: nat)
    requires i <= |lines|
    ensures Significant(lines[..i]) <= Significant(lines)
  {
    if i < |lines| {
      var n := |lines| - 1;
      SignificantPrefix(lines[..n], i);
      assert lines[..n][..i] == lines[..i];
    } else {
      assert lines[..i] == lines;
    }
  }

  lemma OrphanStays(lines: seq<string>, i: nat)
    requires i <= |lines| && Orphans(Significant(lines[..i])) > 0
    ensures Orphans(Significant(lines)) > 0
  {
    SignificantPrefix(lines, i);
    assert Significant(lines)[0] == Significant(lines[..i])[0];
  }

  lemma NothingYet()
    ensures Significant([]) == [] && StrippedGroups(Groups([])) == [] && Orphans([]) == 0
  {
  }

  lemma SpacedLast(blocks: seq<seq<string>>, block: seq<string>)
    ensures SpacedBlocks([]) == []
    ensures SpacedBlocks(blocks + [block]) == SpacedBlocks(blocks) + [Spaced(block)]
  {
    assert (blocks + [block])[..|blocks|] == blocks;
  }

  /** The splitting part of `_validate_hashed_export`: the joined blocks and the number of orphan issues. */
  method HashedBlocks(raw: string) returns (blocks: seq<string>, orphans: nat)
    ensures orphans == Orphans(Requirements(raw))
    ensures blocks == SpacedBlocks(StrippedGroups(Groups(Requirements(raw))))
  {
    hide Groups, StrippedGroups, Stripped, Orphans, Significant, SplitLines, Strip, Spaced, SpacedBlocks;
    blocks, orphans := [], 0;
    var current: seq<string> := [];
    SpacedLast([], []);
    ghost var whole: seq<seq<string>>, seen: seq<string> := [], [];
    var lines := SplitLines(raw);
    NothingYet();
    assert lines[..0] == [] && lines[..|lines|] == lines;
    for i := 0 to |lines|
      invariant seen == Significant(lines[..i])
      invariant blocks == SpacedBlocks(whole)
      invariant StrippedGroups(Groups(seen)) == whole + Pending(current)
      invariant current == [] ==> whole == []
      invariant orphans == Orphans(seen)
    {
      var line := lines[i];
      SignificantNext(lines, i);
      if Strip(line) == "" || line[0] == '#' {
        continue;
      }
      NextLine(seen, line, whole, current);
      seen := seen + [line];
      if IsSpace(line[0]) {
        if current == [] {
          orphans := orphans + 1;
        } else {
          current := current + [Strip(line)];
        }
        continue;
      }
      if current != [] {
        SpacedLast(whole, current);
        blocks := blocks + [Spaced(current)];
        whole := whole + [current];
      }
      current := [Strip(line)];
    }
    SpacedLast(whole, current);
    if current != [] {
      blocks := blocks + [Spaced(current)];
    }
  }

  // ---------------------------------------------------------------- the hashed export

  datatype Issue =
    | Orphan
    | NothingExported
    | NotExact(block: string)
    | NoHash(name: string)
    | MissingLocked(requirements: set<Locked>)
    | UnexpectedExported(requirements: set<Locked>)

  predicate IsNameChar(c: char) {
    IsLetter(c) || IsDigit(c) || c == '.' || c == '_' || c == '-'
  }

  predicate IsVersionChar(c: char) {
    c != ';' && c != '\\' && !IsSpace(c)
  }

  function NameLength(s: string): (n: nat)
    ensures n <= |s|
  {
    if s != "" && IsNameChar(s[0]) then 1 + NameLength(s[1..]) else 0
  }

  function VersionLength(s: string): (n: nat)
    ensures n <= |s|
  {
    if s != "" && IsVersionChar(s[0]) then 1 + VersionLength(s[1..]) else 0
  }

  /** The name and version that the pinned-requirement pattern reads off the start of a block. */
  function Pin(block: string): Option<Locked> {
    var n := NameLength(block);
    if n == 0 || !(IsLetter(block[0]) || IsDigit(block[0])) || !("==" <= block[n..]) then None
    else
      var v := VersionLength(block[n + 2..]);
      if v == 0 then None else Some(Locked(block[..n], block[n + 2..][..v]))
  }

  predicate IsName(s: string) {
    s != "" && (IsLetter(s[0]) || IsDigit(s[0])) && forall i :: 0 <= i < |s| ==> IsNameChar(s[i])
  }

  predicate IsVersion(s: string) {
    s != "" && forall i :: 0 <= i < |s| ==> IsVersionChar(s[i])
  }

  lemma {:induction false} NameEnds(name: string, rest: string)
    requires forall i :: 0 <= i < |name| ==> IsNameChar(name[i])
    requires rest == "" || !IsNameChar(rest[0])
    ensures NameLength(name + rest) == |name|
  {
    if name == "" {
      assert name + rest == rest;
    } else {
      assert (name + rest)[1..] == name[1..] + rest;
      NameEnds(name[1..], rest);
    }
  }

  lemma {:induction false} VersionEnds(version: string, rest: string)
    requires forall i :: 0 <= i < |version| ==> IsVersionChar(version[i])
    requires rest == "" || !IsVersionChar(rest[0])
    ensures VersionLength(version + rest) == |version|
  {
    if version == "" {
      assert version + rest == rest;
    } else {
      assert (version + rest)[1..] == version[1..] + rest;
      VersionEnds(version[1..], rest);
    }
  }

  /** A pin is read back whatever follows it: a marker, a line continuation, blanks or nothing. */
  lemma PinReadsBack(name: string, version: string, rest: string)
    requires IsName(name) && IsVersion(version) && (rest == "" || !IsVersionChar(rest[0]))
    ensures Pin(name + "==" + version + rest) == Some(Locked(name, version))
  {
    hide NameLength, VersionLength, IsVersionChar;
    var block, tail := name + "==" + version + rest, "==" + version + rest;
    assert block == name + tail;
    NameEnds(name, tail);
    VersionEnds(version, rest);
    assert block[|name|..] == tail && block[|name| + 2..] == version + rest;
    assert (version + rest)[..|version|] == version;
  }

  lemma {:induction false} NameLengthSpan(s: string)
    ensures forall i :: 0 <= i < NameLength(s) ==> IsNameChar(s[i])
    ensures NameLength(s) < |s| ==> !IsNameChar(s[NameLength(s)])
  {
    if s != "" && IsNameChar(s[0]) {
      NameLengthSpan(s[1..]);
      assert forall i :: 1 <= i < |s| ==> s[i] == s[1..][i - 1];
    }
  }

  lemma {:induction false} VersionLengthSpan(s: string)
    ensures forall i :: 0 <= i < VersionLength(s) ==> IsVersionChar(s[i])
    ensures VersionLength(s) < |s| ==> !IsVersionChar(s[VersionLength(s)])
  {
    if s != "" && IsVersionChar(s[0]) {
      VersionLengthSpan(s[1..]);
      assert forall i :: 1 <= i < |s| ==> s[i] == s[1..][i - 1];
    }
  }

  lemma CutPin(block: string, n: nat, v: nat)
    requires n + 2 + v <= |block| && "==" <= block[n..]
    ensures block == block[..n] + "==" + block[n + 2..][..v] + block[n + 2..][v..]
  {
    assert block[n..][0] == block[n] && block[n..][1] == block[n + 1];
    assert block == block[..n] + "==" + block[n + 2..];
  }

  lemma PinShape(block: string) returns (rest: string)
    requires Pin(block).Some?
    ensures var p := Pin(block).value;
            && IsName(p.name) && IsVersion(p.version) && block == p.name + "==" + p.version + rest
            && (rest == "" || !IsVersionChar(rest[0]))
  {
    hide NameLength, VersionLength, IsVersionChar, IsNameChar;
    var n := NameLength(block);
    var tail := block[n + 2..];
    rest := tail[VersionLength(tail)..];
    NameLengthSpan(block);
    VersionLengthSpan(tail);
    CutPin(block, n, VersionLength(tail));
  }

  /** A letter or digit, then letters, digits, periods, underscores and hyphens. */
  predicate SpelledName(s: string) {
    && s != "" && (IsLetter(s[0]) || IsDigit(s[0]))
    && forall i :: 0 <= i < |s| ==> IsLetter(s[i]) || IsDigit(s[i]) || s[i] in "._-"
  }

  /** What cannot stand in a version: a semicolon, a backslash, white space. */
  predicate EndsVersion(c: char) {
    c in ";\\" || IsSpace(c)
  }

  predicate SpelledVersion(s: string) {
    s != "" && forall i :: 0 <= i < |s| ==> !EndsVersion(s[i])
  }

  lemma PinClasses(name: string, version: string, c: char)
    ensures IsName(name) <==> SpelledName(name)
    ensures IsVersion(version) <==> SpelledVersion(version)
    ensures IsVersionChar(c) <==> !EndsVersion(c)
  {
  }

  /** The pattern matches exactly the blocks that start with a name, two equals signs and a version. */
  lemma PinIff(block: string, p: Locked)
    ensures Pin(block) == Some(p) <==>
            && SpelledName(p.name) && SpelledVersion(p.version)
            && exists rest :: block == p.name + "==" + p.version + rest && (rest == "" || EndsVersion(rest[0]))
  {
    hide Pin, IsVersionChar, IsName, IsVersion, SpelledName, SpelledVersion, EndsVersion;
    forall c ensures IsVersionChar(c) <==> !EndsVersion(c) {
      PinClasses(p.name, p.version, c);
    }
    PinClasses(p.name, p.version, ' ');
    if Pin(block) == Some(p) {
      var rest := PinShape(block);
    }
    if rest :| block == p.name + "==" + p.version + rest && (rest == "" || EndsVersion(rest[0])) {
      if IsName(p.name) && IsVersion(p.version) {
        PinReadsBack(p.name, p.version, rest);
      }
    }
  }

  const HASH := "--hash=sha256:"

  function Export(block: string): (r: set<Locked>) {
    match Pin(block)
    case None => {}
    case Some(p) => {Locked(Canonicalize(p.name), p.version)}
  }

  function Exported(blocks: seq<string>): set<Locked> {
    set i, p | 0 <= i < |blocks| && p in Export(blocks[i]) :: p
  }

  predicate WellPinned(block: string) {
    Pin(block).Some? && Contains(block, HASH)
  }

  /** A block is in order exactly when it is pinned and carries a SHA-256 hash somewhere. */
  lemma WellPinnedIff(block: string)
    ensures WellPinned(block) <==>
            Pin(block).Some? && exists before, after :: block == before + "--hash=sha256:" + after
  {
    hide Pin, Contains;
    ContainsIff(block, "--hash=sha256:");
  }

  /** What is reported of a well-formed export whose requirements are not the locked ones. */
  function Differences(locked: set<Locked>, exported: set<Locked>): (issues: seq<Issue>)
    ensures issues == [] <==> exported == locked
  {
    assert locked - exported == {} && exported - locked == {} <==> exported == locked;
    (if locked - exported == {} then [] else [MissingLocked(locked - exported)])
    + if exported - locked == {} then [] else [UnexpectedExported(exported - locked)]
  }

  /** What is reported of one block. */
  function BlockIssues(block: string): (issues: seq<Issue>)
    ensures issues == [] <==> WellPinned(block)
  {
    match Pin(block)
    case None => [NotExact(block)]
    case Some(p) => if Contains(block, HASH) then [] else [NoHash(p.name)]
  }

  function AllBlockIssues(blocks: seq<string>): seq<Issue> {
    if blocks == [] then []
    else var n := |blocks| - 1; AllBlockIssues(blocks[..n]) + BlockIssues(blocks[n])
  }

  lemma {:induction false} NoBlockIssues(blocks: seq<string>)
    ensures AllBlockIssues(blocks) == [] <==> forall i :: 0 <= i < |blocks| ==> WellPinned(blocks[i])
  {
    hide WellPinned, BlockIssues;
    if blocks != [] {
      var n := |blocks| - 1;
      var rest := blocks[..n];
      NoBlockIssues(rest);
      assert forall i :: 0 <= i < n ==> rest[i] == blocks[i];
      assert WellPinned(blocks[n]) <==> BlockIssues(blocks[n]) == [];
    }
  }

  /** Everything that is reported, in order: the sets are compared only where nothing else was wrong. */
  function ExportIssues(orphans: nat, blocks: seq<string>, locked: set<Locked>): seq<Issue> {
    if blocks == [] then [NothingExported]
    else
      var malformed := seq(orphans, _ => Orphan) + AllBlockIssues(blocks);
      if malformed != [] then malformed else Differences(locked, Exported(blocks))
  }

  /** `_validate_hashed_export` accepts exactly the complete, exact and hashed exports. */
  method ValidateHashedExport(raw: string, locked: set<Locked>) returns (issues: seq<Issue>)
    ensures var blocks := SpacedBlocks(StrippedGroups(Groups(Requirements(raw))));
            && issues == ExportIssues(Orphans(Requirements(raw)), blocks, locked)
            && (issues == [] <==> && blocks != [] && Orphans(Requirements(raw)) == 0
                                  && (forall i :: 0 <= i < |blocks| ==> WellPinned(blocks[i]))
                                  && Exported(blocks) == locked)
  {
    hide Contains, Pin, Canonicalize, Groups, StrippedGroups, Orphans, SpacedBlocks, Significant, SplitLines,
      Exported, AllBlockIssues, WellPinned;
    var blocks, orphans := HashedBlocks(raw);
    NoBlockIssues(blocks);
    if blocks == [] {
      return [NothingExported];
    }
    ghost var early := seq(orphans, _ => Orphan);
    issues := seq(orphans, _ => Orphan);
    assert issues == early;
    var exported: set<Locked> := {};
    assert blocks[..0] == [];
    ExportedNothing();
    for i := 0 to |blocks|
      invariant exported == Exported(blocks[..i])
      invariant issues == early + AllBlockIssues(blocks[..i])
    {
      var block := blocks[i];
      ExportedNext(blocks, i);
      match Pin(block) {
        case None =>
          issues := issues + [NotExact(block)];
        case Some(p) =>
          if !Contains(block, HASH) {
            issues := issues + [NoHash(p.name)];
          }
          exported := exported + {Locked(Canonicalize(p.name), p.version)};
      }
    }
    assert blocks[..|blocks|] == blocks;
    if issues != [] {
      return;
    }
    var missing, unexpected := locked - exported, exported - locked;
    if missing != {} {
      issues := issues + [MissingLocked(missing)];
    }
    if unexpected != {} {
      issues := issues + [UnexpectedExported(unexpected)];
    }
  }

  lemma ExportedNothing()
    ensures Exported([]) == {} && AllBlockIssues([]) == []
  {
  }

  lemma ExportedNext(blocks: seq<string>, i: nat)
    requires i < |blocks|
    ensures Exported(blocks[..i + 1]) == Exported(blocks[..i]) + Export(blocks[i])
    ensures AllBlockIssues(blocks[..i + 1]) == AllBlockIssues(blocks[..i]) + BlockIssues(blocks[i])
  {
    hide Export, BlockIssues;
    assert blocks[..i + 1][..i] == blocks[..i];
    var shorter, longer := blocks[..i], blocks[..i + 1];
    forall p | p in Exported(shorter) ensures p in Exported(longer) {
      var k :| 0 <= k < i && p in Export(shorter[k]);
      assert p in Export(longer[k]);
    }
    forall p | p in Export(blocks[i]) ensures p in Exported(longer) {
      assert p in Export(longer[i]);
    }
    forall p | p in Exported(longer) ensures p in Exported(shorter) + Export(blocks[i]) {
      var k :| 0 <= k < |longer| && p in Export(longer[k]);
      if k < i {
        assert p in Export(shorter[k]);
      }
    }
  }

  /** The two splitters agree: on an export without orphans each finds the one grouping of its significant lines. */
  method SplittersAgree(raw: string) returns (r: Result<seq<seq<string>>, ()>, joined: seq<string>, orphans: nat)
    ensures r.Failure? <==> orphans > 0
    ensures r.Success? ==> joined == SpacedBlocks(r.value)
    ensures r.Success? ==> forall groups :: Grouping(Requirements(raw), groups) ==> r.value == StrippedGroups(groups)
    ensures r.Success? ==> Grouping(Requirements(raw), Groups(Requirements(raw)))
  {
    r := RequirementBlocks(raw);
    joined, orphans := HashedBlocks(raw);
    if r.Success? {
      NoOrphanNoLoss(Requirements(raw));
      forall groups | Grouping(Requirements(raw), groups) ensures r.value == StrippedGroups(groups) {
        GroupingUnique(Requirements(raw), groups, Groups(Requirements(raw)));
      }
    }
  }
}
