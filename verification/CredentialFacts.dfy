/** What one commit does to the values read back, and which stored fields a write can reach. */
module CredentialFacts {
  import opened Wrappers
  import opened Text
  import opened CredentialCodec
  import opened CredentialRewrite
  import opened CredentialNames
  import opened CredentialStore

  // ---------------------------------------------------------------- carriage returns never reach the codec

  predicate NoReturn(s: string) {
    forall i :: 0 <= i < |s| ==> s[i] != '\r'
  }

  lemma {:induction false} TranslateNoReturn(raw: string)
    ensures NoReturn(Translate(raw))
    decreases |raw|
  {
    if raw != "" {
      TranslateNoReturn(if raw[0] == '\r' && |raw| > 1 && raw[1] == '\n' then raw[2..] else raw[1..]);
    }
  }

  lemma {:induction false} TranslateFixed(s: string)
    requires NoReturn(s)
    ensures Translate(s) == s
  {
    if s != "" {
      TranslateFixed(s[1..]);
    }
  }

  predicate NoReturns(lines: seq<string>) {
    forall i :: 0 <= i < |lines| ==> NoReturn(lines[i])
  }

  lemma {:induction false} JoinNoReturn(lines: seq<string>)
    requires NoReturns(lines)
    ensures NoReturn(Join(lines))
  {
    if lines != [] {
      JoinNoReturn(lines[1..]);
    }
  }

  lemma {:induction false} SplitNoReturn(s: string)
    requires NoReturn(s)
    ensures NoReturns(SplitKeep(s))
    decreases |s|
  {
    if s != "" {
      SplitNoReturn(s[FirstLineLength(s)..]);
    }
  }

  lemma RenderNoReturn(a: Assignment)
    requires ValidName(a.name) && Plain(a.value)
    ensures NoReturn(Render(a))
  {
  }

  lemma {:induction false} RewrittenNoReturn(lines: seq<string>, updates: seq<Assignment>)
    requires NoReturns(lines) && Writable(updates)
    ensures NoReturns(Rewritten(lines, updates))
  {
    hide AssignedName, ValidName, Plain, NoReturn;
    if lines != [] {
      match Replacement(lines[0], updates)
      case Some(a) =>
        WithoutStaysWritable(updates, a.name);
        RewrittenNoReturn(lines[1..], Without(updates, a.name));
        RenderNoReturn(a);
      case None =>
        RewrittenNoReturn(lines[1..], updates);
    }
  }

  lemma {:induction false} RenderAllNoReturn(rest: seq<Assignment>)
    requires forall a :: a in rest ==> ValidName(a.name) && Plain(a.value)
    ensures NoReturns(RenderAll(rest))
  {
    hide ValidName, Plain, NoReturn;
    if rest != [] {
      RenderNoReturn(rest[0]);
      assert forall a :: a in rest[1..] ==> a in rest;
      RenderAllNoReturn(rest[1..]);
    }
  }

  lemma ClosedNoReturn(lines: seq<string>)
    requires NoReturns(lines)
    ensures NoReturns(CloseLast(lines))
  {
  }

  lemma ConcatNoReturns(a: seq<string>, b: seq<string>)
    requires NoReturns(a) && NoReturns(b)
    ensures NoReturns(a + b)
  {
    hide NoReturn;
  }

  lemma UpdatedNoReturn(text: string, updates: seq<Assignment>)
    requires NoReturn(text) && Writable(updates)
    ensures NoReturn(UpdatedText(text, updates))
  {
    hide NoReturn, Rewritten, Unplaced, CloseLast, AssignedName;
    var lines := SplitKeep(text);
    var closed, rest := CloseLast(Rewritten(lines, updates)), Unplaced(lines, updates);
    SplitNoReturn(text);
    RewrittenNoReturn(lines, updates);
    ClosedNoReturn(Rewritten(lines, updates));
    JoinSplit(text);
    RewrittenEntries(lines, updates);
    RenderAllNoReturn(rest);
    SeparatorNoReturn(closed, rest);
    ConcatNoReturns(closed, Separator(closed, rest));
    ConcatNoReturns(closed + Separator(closed, rest), RenderAll(rest));
    JoinNoReturn(UpdatedLines(lines, updates));
  }

  lemma SeparatorNoReturn(closed: seq<string>, rest: seq<Assignment>)
    ensures NoReturns(Separator(closed, rest))
  {
  }

  // ---------------------------------------------------------------- one commit

  /** Every readable file stays readable, and its values change by exactly the committed updates. */
  lemma CommitReads<T>(file: Option<string>, plan: Plan<T>)
    requires ReadFile(file).Success? && Writable(plan.updates)
    ensures ReadFile(Commit(file, Success(plan)).file) == Success(ReadFile(file).value + ToMap(plan.updates))
  {
    if plan.updates == [] {
      assert ReadFile(file).value + map[] == ReadFile(file).value;
    } else {
      if file.Some? {
        TranslateNoReturn(file.value);
      }
      UpdatedNoReturn(Content(file), plan.updates);
      TranslateFixed(UpdatedText(Content(file), plan.updates));
      ReadAfterUpdate(Content(file), plan.updates);
    }
  }

  // ---------------------------------------------------------------- fields

  function FieldMap(fields: seq<FieldValue>): map<Field, string> {
    if fields == [] then map[] else FieldMap(fields[1..])[fields[0].field := fields[0].value]
  }

  predicate DistinctFields(fields: seq<FieldValue>) {
    fields == [] || (fields[0].field !in FieldMap(fields[1..]) && DistinctFields(fields[1..]))
  }

  lemma {:induction false} FieldUpdatesMap(prefix: string, fields: seq<FieldValue>, q: string, f: Field)
    ensures VariableName(q, f) in ToMap(FieldUpdates(prefix, fields)) <==> q == prefix && f in FieldMap(fields)
    ensures q == prefix && f in FieldMap(fields)
            ==> ToMap(FieldUpdates(prefix, fields))[VariableName(q, f)] == FieldMap(fields)[f]
  {
    if fields != [] {
      FieldUpdatesMap(prefix, fields[1..], q, f);
      NamesInjective(prefix, fields[0].field, q, f);
      ToMapCons(Assignment(VariableName(prefix, fields[0].field), fields[0].value), FieldUpdates(prefix, fields[1..]));
    }
  }

  lemma {:induction false} FieldUpdatesNames(prefix: string, fields: seq<FieldValue>, name: string)
    requires name in ToMap(FieldUpdates(prefix, fields))
    ensures exists f: Field :: name == VariableName(prefix, f)
  {
    ToMapCons(Assignment(VariableName(prefix, fields[0].field), fields[0].value), FieldUpdates(prefix, fields[1..]));
    if name != VariableName(prefix, fields[0].field) {
      FieldUpdatesNames(prefix, fields[1..], name);
    }
  }

  lemma {:induction false} FieldUpdatesWritable(runId: string, scenarioId: string, fields: seq<FieldValue>)
    requires RecordPrefix(runId, scenarioId).Success? && DistinctFields(fields)
    requires forall v :: v in fields ==> Plain(v.value)
    ensures Writable(FieldUpdates(RecordPrefix(runId, scenarioId).value, fields))
  {
    hide Plain, ValidName, VariableName, RecordPrefix;
    if fields != [] {
      var prefix := RecordPrefix(runId, scenarioId).value;
      var head, rest := Assignment(VariableName(prefix, fields[0].field), fields[0].value),
                        FieldUpdates(prefix, fields[1..]);
      assert forall v :: v in fields[1..] ==> v in fields;
      FieldUpdatesWritable(runId, scenarioId, fields[1..]);
      FieldUpdatesMap(prefix, fields[1..], prefix, fields[0].field);
      RecordNamesValid(runId, scenarioId, fields[0].field);
      ToMapCons(head, rest);
      assert fields[0] in fields;
    }
  }

  /** After a write to one record, exactly the written fields of that record have changed. */
  lemma StoredAfter(values: map<string, string>, prefix: string, fields: seq<FieldValue>, q: string, f: Field)
    requires forall v :: v in fields ==> Plain(v.value)
    ensures Stored(values + ToMap(FieldUpdates(prefix, fields)), q, f)
         == if q == prefix && f in FieldMap(fields) then FieldMap(fields)[f] else Stored(values, q, f)
  {
    FieldUpdatesMap(prefix, fields, q, f);
    if q == prefix && f in FieldMap(fields) {
      FieldMapMember(fields, f);
    }
  }

  lemma {:induction false} FieldMapMember(fields: seq<FieldValue>, f: Field)
    requires f in FieldMap(fields)
    ensures FieldValue(f, FieldMap(fields)[f]) in fields
  {
    if fields[0].field != f {
      FieldMapMember(fields[1..], f);
    }
  }

  /** The record is the one these values hold under the prefix, in all seven fields. */
  predicate RecordSaved(values: map<string, string>, prefix: string, record: TargetRecord) {
    && Stored(values, prefix, RunId) == record.runId && Stored(values, prefix, ScenarioId) == record.scenarioId
    && Stored(values, prefix, Username) == record.credentials.username
    && Stored(values, prefix, Password) == record.credentials.password
    && Stored(values, prefix, AccountState) == (if record.state == Complete then "complete" else "pending")
    && record.subject == (if Stored(values, prefix, IdpSubject) == "" then None
                          else Some(Stored(values, prefix, IdpSubject)))
    && record.userId == (if Stored(values, prefix, UserId) == "" then None else Some(Stored(values, prefix, UserId)))
  }

  // ---------------------------------------------------------------- reusable names stay apart

  function NameList(browser: BrowserConfig): seq<string> {
    [browser.primaryUsername, browser.primaryPassword, "BA_PRIMARY_TEST_ACCOUNT_STATE",
     browser.secondaryUsername, browser.secondaryPassword, "BA_SECONDARY_TEST_ACCOUNT_STATE",
     browser.adminUsername, browser.adminPassword, "BA_ADMIN_TEST_ACCOUNT_STATE"]
  }

  /** The nine reusable variables are distinct identifiers outside the disposable namespace. */
  predicate NamesSeparate(browser: BrowserConfig) {
    var names := NameList(browser);
    && (forall i :: 0 <= i < 9 ==> ValidName(names[i]) && !(RECORD_PREFIX <= names[i]))
    && (forall i, j :: 0 <= i < j < 9 ==> names[i] != names[j])
  }

  /** A new pair as a mapping, whatever the configured names. */
  lemma NewPairFacts(names: RoleNames, c: Credentials)
    ensures var updates := NewRoleUpdates(names, c);
            && updates != [] && Distinct(updates)
            && ToMap(updates) == map[][names.username := c.username][names.password := c.password][names.state
                 := "pending"]
            && forall a :: a in updates ==>
                 a.name in {names.username, names.password, names.state}
                 && a.value in {c.username, c.password, "pending"}
  {
    hide Put, ToMap, Distinct;
    var u, p, s := Assignment(names.username, c.username), Assignment(names.password, c.password),
                   Assignment(names.state, "pending");
    SingleMap(u);
    PutIsUpdate([u], p);
    PutIsUpdate(Put([u], p), s);
    assert s.name in ToMap(NewRoleUpdates(names, c));
    SingleMap(s);
  }

  lemma SingleMap(a: Assignment)
    ensures Distinct([a]) && ToMap([a]) == map[][a.name := a.value] && ToMap([]) == map[]
  {
    assert [a][1..] == [];
  }

  lemma RoleNamesApart(browser: BrowserConfig, role: Role, other: Role)
    requires NamesSeparate(browser)
    ensures var n, m := NamesOf(browser, role), NamesOf(browser, other);
            && ValidName(n.username) && ValidName(n.password) && ValidName(n.state)
            && n.username != n.password && n.username != n.state && n.password != n.state
            && (role != other ==>
                  && n.username !in {m.username, m.password, m.state}
                  && n.password !in {m.username, m.password, m.state}
                  && n.state !in {m.username, m.password, m.state})
  {
    hide ValidName;
    var names := NameList(browser);
    var i := match role case Primary => 0 case Secondary => 3 case Admin => 6;
    var j := match other case Primary => 0 case Secondary => 3 case Admin => 6;
    var n, m := NamesOf(browser, role), NamesOf(browser, other);
    assert n == RoleNames(names[i], names[i + 1], names[i + 2]);
    assert m == RoleNames(names[j], names[j + 1], names[j + 2]);
  }

  lemma RoleNameNotRecord(browser: BrowserConfig, role: Role, prefix: string, f: Field)
    requires NamesSeparate(browser) && RECORD_PREFIX <= prefix
    ensures VariableName(prefix, f) != NamesOf(browser, role).username
    ensures VariableName(prefix, f) != NamesOf(browser, role).password
    ensures VariableName(prefix, f) != NamesOf(browser, role).state
  {
    hide ValidName, Suffix;
    var names := NameList(browser);
    var i := match role case Primary => 0 case Secondary => 3 case Admin => 6;
    var n := NamesOf(browser, role);
    assert n == RoleNames(names[i], names[i + 1], names[i + 2]);
    assert RECORD_PREFIX <= VariableName(prefix, f);
  }
}
