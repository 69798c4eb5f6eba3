/** The flat variable namespace of disposable records: a sanitised prefix and one of seven suffixes. */
module CredentialNames {
  import opened Wrappers
  import opened Text
  import opened CredentialCodec

  const RECORD_PREFIX := "BA_ADMIN_DEACTIVATION_"

  datatype Field = RunId | ScenarioId | Username | Password | AccountState | IdpSubject | UserId

  datatype NameError = EmptyProvenance | NoSafeName

  function Suffix(f: Field): string {
    match f
    case RunId => "_RUN_ID"
    case ScenarioId => "_SCENARIO_ID"
    case Username => "_USERNAME"
    case Password => "_PASSWORD"
    case AccountState => "_ACCOUNT_STATE"
    case IdpSubject => "_IDP_SUBJECT"
    case UserId => "_USER_ID"
  }

  predicate IsAlnum(c: char) {
    IsLetter(c) || IsDigit(c)
  }

  function DropOther(s: string): (r: string)
    ensures |r| <= |s|
  {
    if s != "" && !IsAlnum(s[0]) then DropOther(s[1..]) else s
  }

  /** `re.sub(r"[^A-Za-z0-9]+", "_", s)` */
  function Collapse(s: string): string
    decreases |s|
  {
    if s == "" then ""
    else if IsAlnum(s[0]) then [s[0]] + Collapse(s[1..])
    else "_" + Collapse(DropOther(s[1..]))
  }

  /** `s.strip("_")` */
  function TrimUnderscores(s: string): string {
    if s != "" && s[0] == '_' then TrimUnderscores(s[1..])
    else if s != "" && s[|s| - 1] == '_' then TrimUnderscores(s[..|s| - 1])
    else s
  }

  function UpperChar(c: char): char {
    if 'a' <= c <= 'z' then (c as int - 32) as char else c
  }

  /** `s.upper()` on the ASCII text that sanitising leaves. */
  function Upper(s: string): (r: string)
    ensures |r| == |s|
  {
    if s == "" then "" else [UpperChar(s[0])] + Upper(s[1..])
  }

  function Token(runId: string, scenarioId: string): string {
    Upper(TrimUnderscores(Collapse(runId + "_" + scenarioId)))
  }

  /** `_disposable_variable_prefix` */
  function RecordPrefix(runId: string, scenarioId: string): Result<string, NameError> {
    if runId == "" || scenarioId == "" then Failure(EmptyProvenance)
    else if Token(runId, scenarioId) == "" then Failure(NoSafeName)
    else Success(RECORD_PREFIX + Token(runId, scenarioId))
  }

  function VariableName(prefix: string, f: Field): string {
    prefix + Suffix(f)
  }

  // ---------------------------------------------------------------- the names are well formed

  predicate IsTokenChar(c: char) {
    IsAlnum(c) || c == '_'
  }

  lemma {:induction false} CollapseChars(s: string)
    ensures forall i :: 0 <= i < |Collapse(s)| ==> IsTokenChar(Collapse(s)[i])
    decreases |s|
  {
    if s != "" {
      CollapseChars(if IsAlnum(s[0]) then s[1..] else DropOther(s[1..]));
    }
  }

  lemma {:induction false} TrimChars(s: string)
    requires forall i :: 0 <= i < |s| ==> IsTokenChar(s[i])
    ensures forall i :: 0 <= i < |TrimUnderscores(s)| ==> IsTokenChar(TrimUnderscores(s)[i])
  {
    if s != "" && s[0] == '_' {
      TrimChars(s[1..]);
    } else if s != "" && s[|s| - 1] == '_' {
      TrimChars(s[..|s| - 1]);
    }
  }

  lemma {:induction false} UpperChars(s: string)
    requires forall i :: 0 <= i < |s| ==> IsTokenChar(s[i])
    ensures forall i :: 0 <= i < |Upper(s)| ==> IsTokenChar(Upper(s)[i])
  {
    if s != "" {
      UpperChars(s[1..]);
    }
  }

  predicate NameChars(s: string) {
    forall i :: 0 <= i < |s| ==> IsNameChar(s[i])
  }

  lemma TokenChars(runId: string, scenarioId: string)
    ensures NameChars(Token(runId, scenarioId))
  {
    CollapseChars(runId + "_" + scenarioId);
    TrimChars(Collapse(runId + "_" + scenarioId));
    UpperChars(TrimUnderscores(Collapse(runId + "_" + scenarioId)));
  }

  lemma NameCharsConcat(a: string, b: string)
    requires NameChars(a) && NameChars(b)
    ensures NameChars(a + b)
  {
  }

  lemma LiteralNameChars(f: Field)
    ensures NameChars(RECORD_PREFIX) && NameChars(Suffix(f))
  {
  }

  /** Every variable of a record has a name that the assignment pattern recognises. */
  lemma RecordNamesValid(runId: string, scenarioId: string, f: Field)
    requires RecordPrefix(runId, scenarioId).Success?
    ensures ValidName(VariableName(RecordPrefix(runId, scenarioId).value, f))
    ensures RECORD_PREFIX <= RecordPrefix(runId, scenarioId).value
  {
    hide Token, Suffix, NameChars;
    var t := Token(runId, scenarioId);
    TokenChars(runId, scenarioId);
    LiteralNameChars(f);
    NameCharsConcat(RECORD_PREFIX, t);
    NameCharsConcat(RECORD_PREFIX + t, Suffix(f));
    NameCharsValid(RECORD_PREFIX + t + Suffix(f));
    assert (RECORD_PREFIX + t + Suffix(f))[0] == RECORD_PREFIX[0];
  }

  lemma NameCharsValid(name: string)
    requires NameChars(name) && name != "" && name[0] == RECORD_PREFIX[0]
    ensures ValidName(name)
  {
  }

  // ---------------------------------------------------------------- names are injective

  /** The last four characters already tell the seven suffixes apart. */
  function Ending(f: Field): string {
    match f
    case RunId => "N_ID"
    case ScenarioId => "O_ID"
    case Username => "NAME"
    case Password => "WORD"
    case AccountState => "TATE"
    case IdpSubject => "JECT"
    case UserId => "R_ID"
  }

  lemma EndingOf(prefix: string, f: Field)
    ensures |VariableName(prefix, f)| >= 4
    ensures VariableName(prefix, f)[|VariableName(prefix, f)| - 4..] == Ending(f)
  {
    var s := Suffix(f);
    assert s[|s| - 4..] == Ending(f);
    assert (prefix + s)[|prefix| + |s| - 4..] == s[|s| - 4..];
  }

  /** Writing one variable of one record can never touch another variable or another record. */
  lemma NamesInjective(p: string, f: Field, q: string, g: Field)
    ensures VariableName(p, f) == VariableName(q, g) ==> p == q && f == g
  {
    if VariableName(p, f) == VariableName(q, g) {
      EndingOf(p, f);
      EndingOf(q, g);
      assert Ending(f)[0] == Ending(g)[0] && Ending(f)[3] == Ending(g)[3];
      assert f == g;
      assert p == VariableName(p, f)[..|VariableName(p, f)| - |Suffix(f)|];
      assert q == VariableName(q, f)[..|VariableName(q, f)| - |Suffix(f)|];
    }
  }

  /** The sanitiser itself is not injective: distinct executions can share a prefix. */
  lemma SanitiserCollides()
    ensures RecordPrefix("a", "b_c").Success?
    ensures RecordPrefix("a", "b_c") == RecordPrefix("a_b", "c")
  {
    assert "a" + "_" + "b_c" == "a_b_c" == "a_b" + "_" + "c";
    var s := "a_b_c";
    assert s[1..] == "_b_c" && s[1..][1..] == "b_c" && "b_c"[1..] == "_c" && "_c"[1..] == "c" && "c"[1..] == "";
    assert Collapse("c") == "c" && Collapse("_c") == "_c" && Collapse("b_c") == "b_c";
    assert Collapse("_b_c") == "_b_c" && Collapse(s) == s;
    assert TrimUnderscores(s) == s;
    assert |Upper(s)| == 5;
  }
}
