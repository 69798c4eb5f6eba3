/** Exactly when two executions share a record prefix. */
module PrefixCollisions {
  import opened Wrappers
  import opened Text
  import opened CredentialNames

  /** The length of the alphanumeric run that `s` starts with. */
  function WordLength(s: string): (n: nat)
    ensures n <= |s|
    ensures forall i :: 0 <= i < n ==> IsAlnum(s[i])
    ensures n < |s| ==> !IsAlnum(s[n])
  {
    if s != "" && IsAlnum(s[0]) then 1 + WordLength(s[1..]) else 0
  }

  /** The maximal alphanumeric runs of a text, in order. */
  function Words(s: string): seq<string>
    decreases |s|
  {
    if s == "" then []
    else if IsAlnum(s[0]) then var n := WordLength(s); [s[..n]] + Words(s[n..])
    else Words(s[1..])
  }

  function UpperAll(words: seq<string>): (r: seq<string>)
    ensures |r| == |words|
  {
    if words == [] then [] else [Upper(words[0])] + UpperAll(words[1..])
  }

  /** `"_".join(words)` */
  function Glue(words: seq<string>): string {
    if words == [] then ""
    else if |words| == 1 then words[0]
    else words[0] + "_" + Glue(words[1..])
  }

  predicate IsWord(w: string) {
    w != "" && forall i :: 0 <= i < |w| ==> IsAlnum(w[i])
  }

  predicate AllWords(words: seq<string>) {
    forall i :: 0 <= i < |words| ==> IsWord(words[i])
  }

  lemma {:induction false} WordsAreWords(s: string)
    ensures AllWords(Words(s))
    decreases |s|
  {
    if s != "" {
      var n := WordLength(s);
      if IsAlnum(s[0]) {
        WordsAreWords(s[n..]);
      } else {
        WordsAreWords(s[1..]);
      }
    }
  }

  // ---------------------------------------------------------------- gluing loses nothing

  lemma {:induction false} WordLengthOf(w: string, rest: string)
    requires forall i :: 0 <= i < |w| ==> IsAlnum(w[i])
    requires rest == "" || !IsAlnum(rest[0])
    ensures WordLength(w + rest) == |w|
  {
    if w == "" {
      assert w + rest == rest;
    } else {
      assert (w + rest)[1..] == w[1..] + rest;
      WordLengthOf(w[1..], rest);
    }
  }

  lemma FirstWord(w: string, rest: string)
    requires IsWord(w) && (rest == "" || !IsAlnum(rest[0]))
    ensures Words(w + rest) == [w] + Words(rest)
  {
    WordLengthOf(w, rest);
    assert (w + rest)[0] == w[0];
    assert (w + rest)[..|w|] == w && (w + rest)[|w|..] == rest;
  }

  /** Splitting undoes gluing. */
  lemma {:induction false} WordsOfGlue(words: seq<string>)
    requires AllWords(words)
    ensures Words(Glue(words)) == words
  {
    hide Words, WordLength, IsWord;
    if words == [] {
      NoWords();
    } else if |words| == 1 {
      NoWords();
      FirstWord(words[0], "");
      assert words[0] + "" == words[0] && [words[0]] + [] == words;
    } else {
      var rest := "_" + Glue(words[1..]);
      WordsOfGlue(words[1..]);
      SeparatorSkipped(Glue(words[1..]));
      FirstWord(words[0], rest);
      assert Glue(words) == words[0] + rest && words == [words[0]] + words[1..];
    }
  }

  lemma NoWords()
    ensures Words("") == []
  {
  }

  lemma SeparatorSkipped(s: string)
    ensures Words("_" + s) == Words(s)
  {
    assert ("_" + s)[1..] == s;
  }

  // ---------------------------------------------------------------- the sanitiser glues the words

  /** What remains of a trailing run of other characters. */
  function Trailing(s: string): string {
    if s != "" && !IsAlnum(s[|s| - 1]) then "_" else ""
  }

  lemma {:induction false} Dropped(s: string)
    ensures DropOther(s) == "" || IsAlnum(DropOther(s)[0])
    ensures Words(DropOther(s)) == Words(s)
    ensures DropOther(s) == s[|s| - |DropOther(s)|..]
    ensures DropOther(s) == "" && s != "" ==> !IsAlnum(s[|s| - 1])
  {
    if s != "" && !IsAlnum(s[0]) {
      Dropped(s[1..]);
    }
  }

  lemma {:induction false} CollapseRun(w: string, rest: string)
    requires forall i :: 0 <= i < |w| ==> IsAlnum(w[i])
    ensures Collapse(w + rest) == w + Collapse(rest)
  {
    if w == "" {
      assert w + rest == rest;
    } else {
      assert (w + rest)[1..] == w[1..] + rest;
      CollapseRun(w[1..], rest);
    }
  }

  /** A text that starts with a word collapses to its glued words. */
  lemma {:induction false} CollapseIsGlue(s: string)
    requires s == "" || IsAlnum(s[0])
    ensures Collapse(s) == Glue(Words(s)) + Trailing(s)
    decreases |s|
  {
    hide Words, Collapse, WordLength, DropOther;
    if s == "" {
      NoWords();
      CollapseNothing();
    } else {
      var n := FirstRun(s);
      var w, rest := s[..n], s[n..];
      assert s == w + rest;
      FirstWord(w, rest);
      CollapseRun(w, rest);
      if rest == "" {
        NoWords();
        CollapseNothing();
        assert [w] + [] == [w];
      } else {
        var u := DropOther(rest[1..]);
        Dropped(rest[1..]);
        OtherRun(rest);
        if u == "" {
          NoWords();
          CollapseNothing();
          assert [w] + [] == [w];
        } else {
          CollapseIsGlue(u);
          SomeWord(u);
          assert u[|u| - 1] == s[|s| - 1];
          assert ([w] + Words(u))[1..] == Words(u);
        }
      }
    }
  }

  lemma FirstRun(s: string) returns (n: nat)
    requires s != "" && IsAlnum(s[0])
    ensures 0 < n <= |s| && IsWord(s[..n]) && (n < |s| ==> !IsAlnum(s[n]))
  {
    n := WordLength(s);
  }

  lemma CollapseNothing()
    ensures Collapse("") == ""
  {
  }

  lemma OtherRun(rest: string)
    requires rest != "" && !IsAlnum(rest[0])
    ensures |DropOther(rest[1..])| < |rest|
    ensures Collapse(rest) == "_" + Collapse(DropOther(rest[1..])) && Words(rest) == Words(rest[1..])
  {
  }

  lemma SomeWord(s: string)
    requires s != "" && IsAlnum(s[0])
    ensures Words(s) != []
  {
  }

  lemma {:induction false} GlueEnds(words: seq<string>)
    requires AllWords(words) && words != []
    ensures Glue(words) != "" && Glue(words)[0] != '_' && Glue(words)[|Glue(words)| - 1] != '_'
  {
    assert IsWord(words[0]);
    if |words| > 1 {
      GlueEnds(words[1..]);
    }
  }

  /** Trimming takes off what may stand around a text without outer underscores. */
  lemma TrimAround(before: string, s: string, after: string)
    requires before in {"", "_"} && after in {"", "_"}
    requires s != "" && s[0] != '_' && s[|s| - 1] != '_'
    ensures TrimUnderscores(before + s + after) == s
  {
    assert TrimUnderscores(s) == s;
    assert TrimUnderscores(s + after) == s by {
      if after == "_" {
        assert (s + after)[..|s + after| - 1] == s && (s + after)[0] == s[0];
      } else {
        assert s + after == s;
      }
    }
    if before == "_" {
      assert (before + s + after)[1..] == s + after;
    } else {
      assert before + s + after == s + after;
    }
  }

  lemma TrimNothing()
    ensures TrimUnderscores("") == "" == TrimUnderscores("_") && "_" + "" == "_"
  {
    assert "_"[1..] == "";
  }

  /** The sanitised text is its words glued with underscores. */
  lemma SanitisedIsGlue(s: string)
    ensures TrimUnderscores(Collapse(s)) == Glue(Words(s))
  {
    hide Words, Collapse, TrimUnderscores, DropOther, Glue;
    if s == "" || IsAlnum(s[0]) {
      CollapseIsGlue(s);
      TrimGlue("", s, s);
      assert "" + Collapse(s) == Collapse(s);
    } else {
      var u := DropOther(s[1..]);
      Dropped(s[1..]);
      OtherRun(s);
      CollapseIsGlue(u);
      TrimGlue("_", u, s);
    }
  }

  lemma TrimGlue(before: string, s: string, original: string)
    requires before in {"", "_"} && (s == "" || IsAlnum(s[0])) && Words(original) == Words(s)
    ensures TrimUnderscores(before + (Glue(Words(s)) + Trailing(s))) == Glue(Words(original))
  {
    hide Words, TrimUnderscores;
    if s == "" {
      NoWords();
      TrimNothing();
      assert "" + "" == "";
    } else {
      SomeWord(s);
      WordsAreWords(s);
      GlueEnds(Words(s));
      TrimAround(before, Glue(Words(s)), Trailing(s));
      assert before + (Glue(Words(s)) + Trailing(s)) == before + Glue(Words(s)) + Trailing(s);
    }
  }

  lemma {:induction false} UpperConcat(a: string, b: string)
    ensures Upper(a + b) == Upper(a) + Upper(b)
  {
    if a == "" {
      assert a + b == b;
    } else {
      assert (a + b)[1..] == a[1..] + b;
      UpperConcat(a[1..], b);
    }
  }

  lemma UpperUnderscore()
    ensures Upper("_") == "_"
  {
    assert "_"[1..] == "";
  }

  lemma {:induction false} UpperGlue(words: seq<string>)
    ensures Upper(Glue(words)) == Glue(UpperAll(words))
  {
    if |words| > 1 {
      UpperGlue(words[1..]);
      UpperUnderscore();
      UpperConcat(words[0] + "_", Glue(words[1..]));
      UpperConcat(words[0], "_");
    }
  }

  lemma {:induction false} UpperWord(w: string)
    ensures forall i :: 0 <= i < |w| ==> Upper(w)[i] == UpperChar(w[i])
  {
    if w != "" {
      UpperWord(w[1..]);
    }
  }

  lemma {:induction false} UpperAllWords(words: seq<string>)
    requires AllWords(words)
    ensures AllWords(UpperAll(words))
  {
    if words != [] {
      assert IsWord(words[0]);
      UpperWord(words[0]);
      UpperAllWords(words[1..]);
    }
  }

  /** The token carries exactly the words of the two ids, up to case. */
  lemma TokenWords(runId: string, scenarioId: string)
    ensures Token(runId, scenarioId) == Glue(UpperAll(Words(runId + "_" + scenarioId)))
    ensures Words(Token(runId, scenarioId)) == UpperAll(Words(runId + "_" + scenarioId))
  {
    hide Words, Collapse, TrimUnderscores, Upper, Glue, UpperAll;
    var s := runId + "_" + scenarioId;
    SanitisedIsGlue(s);
    UpperGlue(Words(s));
    WordsAreWords(s);
    UpperAllWords(Words(s));
    WordsOfGlue(UpperAll(Words(s)));
  }

  // ---------------------------------------------------------------- up to case

  /** The same texts one by one, but for the case of their letters. */
  predicate SameWords(a: seq<string>, b: seq<string>) {
    |a| == |b| && forall i :: 0 <= i < |a| ==> SameLetters(a[i], b[i])
  }

  lemma UpperSame(v: string, w: string)
    ensures Upper(v) == Upper(w) <==> SameLetters(v, w)
  {
    UpperWord(v);
    UpperWord(w);
    if Upper(v) == Upper(w) {
      forall i | 0 <= i < |v| ensures LowerChar(v[i]) == LowerChar(w[i]) {
        assert UpperChar(v[i]) == UpperChar(w[i]);
      }
    }
  }

  lemma {:induction false} UpperAllSame(a: seq<string>, b: seq<string>)
    ensures UpperAll(a) == UpperAll(b) <==> SameWords(a, b)
  {
    hide Upper, SameLetters;
    if a != [] && b != [] {
      UpperSame(a[0], b[0]);
      UpperAllSame(a[1..], b[1..]);
      assert UpperAll(a)[1..] == UpperAll(a[1..]) && UpperAll(b)[1..] == UpperAll(b[1..]);
      assert UpperAll(a) == [UpperAll(a)[0]] + UpperAll(a)[1..] && UpperAll(b) == [UpperAll(b)[0]] + UpperAll(b)[1..];
      assert SameWords(a, b) <==> SameLetters(a[0], b[0]) && SameWords(a[1..], b[1..]) by {
        assert forall i :: 1 <= i < |a| ==> a[i] == a[1..][i - 1];
        assert forall i :: 1 <= i < |b| ==> b[i] == b[1..][i - 1];
      }
    }
  }

  /** The seven variables of an execution, spelled out. */
  lemma NamesSpelledOut(runId: string, scenarioId: string)
    requires RecordPrefix(runId, scenarioId).Success?
    ensures var prefix, words := RecordPrefix(runId, scenarioId).value, Words(runId + "_" + scenarioId);
            && prefix == "BA_ADMIN_DEACTIVATION_" + Glue(UpperAll(words))
            && VariableName(prefix, RunId) == prefix + "_RUN_ID"
            && VariableName(prefix, ScenarioId) == prefix + "_SCENARIO_ID"
            && VariableName(prefix, Username) == prefix + "_USERNAME"
            && VariableName(prefix, Password) == prefix + "_PASSWORD"
            && VariableName(prefix, AccountState) == prefix + "_ACCOUNT_STATE"
            && VariableName(prefix, IdpSubject) == prefix + "_IDP_SUBJECT"
            && VariableName(prefix, UserId) == prefix + "_USER_ID"
  {
    TokenWords(runId, scenarioId);
  }

  /** The sanitised text has no lower-case letter. */
  lemma TokenIsUpper(runId: string, scenarioId: string, i: nat)
    requires i < |Token(runId, scenarioId)|
    ensures !('a' <= Token(runId, scenarioId)[i] <= 'z')
  {
    UpperWord(TrimUnderscores(Collapse(runId + "_" + scenarioId)));
  }

  lemma {:induction false} WordsNothing(s: string)
    ensures Words(s) == [] <==> forall i :: 0 <= i < |s| ==> !IsAlnum(s[i])
    decreases |s|
  {
    if s != "" && !IsAlnum(s[0]) {
      WordsNothing(s[1..]);
      assert forall i :: 1 <= i < |s| ==> s[i] == s[1..][i - 1];
    }
  }

  /** Neither an ASCII letter nor a digit anywhere. */
  predicate NoAlnum(s: string) {
    forall i :: 0 <= i < |s| ==> !('a' <= s[i] <= 'z') && !('A' <= s[i] <= 'Z') && !('0' <= s[i] <= '9')
  }

  /** The two refusals of the naming scheme: an empty id, and ids without a letter or digit. */
  lemma NamingIff(runId: string, scenarioId: string)
    ensures RecordPrefix(runId, scenarioId) == Failure(EmptyProvenance) <==> runId == "" || scenarioId == ""
    ensures RecordPrefix(runId, scenarioId) == Failure(NoSafeName)
       <==> runId != "" && scenarioId != "" && NoAlnum(runId) && NoAlnum(scenarioId)
  {
    hide Words, Token, Glue, UpperAll;
    var s := runId + "_" + scenarioId;
    TokenWords(runId, scenarioId);
    WordsAreWords(s);
    UpperAllWords(Words(s));
    GlueNothing(UpperAll(Words(s)));
    WordsNothing(s);
    assert forall i :: 0 <= i < |runId| ==> s[i] == runId[i];
    assert forall i :: 0 <= i < |scenarioId| ==> s[|runId| + 1 + i] == scenarioId[i];
  }

  /**
   Two executions share a prefix if and only if the ids are not empty and the alphanumeric runs of the joined
   ids, of which there must be one, are the same up to the case of their letters.
   */
  lemma SamePrefixIff(runId: string, scenarioId: string, otherRun: string, otherScenario: string)
    ensures RecordPrefix(runId, scenarioId).Success?
            && RecordPrefix(runId, scenarioId) == RecordPrefix(otherRun, otherScenario)
       <==> && runId != "" && scenarioId != "" && otherRun != "" && otherScenario != ""
            && Words(runId + "_" + scenarioId) != []
            && SameWords(Words(runId + "_" + scenarioId), Words(otherRun + "_" + otherScenario))
  {
    hide Words, Glue, UpperAll, Token, SameWords;
    var a, b := runId + "_" + scenarioId, otherRun + "_" + otherScenario;
    TokenWords(runId, scenarioId);
    TokenWords(otherRun, otherScenario);
    NoWords();
    GlueNothing(UpperAll(Words(a)));
    GlueNothing(UpperAll(Words(b)));
    WordsAreWords(a);
    WordsAreWords(b);
    UpperAllWords(Words(a));
    UpperAllWords(Words(b));
    UpperAllSame(Words(a), Words(b));
    var x, y := Token(runId, scenarioId), Token(otherRun, otherScenario);
    assert RECORD_PREFIX + x == RECORD_PREFIX + y ==> x == y by {
      assert (RECORD_PREFIX + x)[|RECORD_PREFIX|..] == x && (RECORD_PREFIX + y)[|RECORD_PREFIX|..] == y;
    }
  }

  lemma GlueNothing(words: seq<string>)
    ensures AllWords(words) ==> (Glue(words) == "" <==> words == [])
  {
    if AllWords(words) && words != [] {
      GlueEnds(words);
    }
  }
}
