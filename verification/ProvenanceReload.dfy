/** Which saved disposable records can be loaded again: exactly those of plain run and scenario ids. */
module ProvenanceReload {
  import opened Wrappers
  import opened Text
  import opened CredentialCodec
  import opened CredentialRewrite
  import opened CredentialNames
  import opened CredentialStore
  import opened CredentialFacts
  import opened CredentialAdmission
  import opened WrittenVariables
  import L = CredentialLifecycle
  import P = Provisioning

  /** No role keeps its pair in the variables of disposable records. */
  predicate RolesOutside(browser: BrowserConfig) {
    forall role: Role ::
      !(RECORD_PREFIX <= NamesOf(browser, role).username) && !(RECORD_PREFIX <= NamesOf(browser, role).password)
  }

  /** The load finds nothing saved under its names and creates a record. */
  ghost predicate Creates(config: EnvironmentConfig, environ: Environ, file: Option<string>, runId: string,
                          scenarioId: string, c: Credentials) {
    && ReadFile(file).Success? && RecordPrefix(runId, scenarioId).Success?
    && !AnyStored(ReadFile(file).value, RecordPrefix(runId, scenarioId).value)
    && LoadTarget(config, environ, file, runId, scenarioId, c).result.Success?
  }

  function CreatedUpdates(runId: string, scenarioId: string, c: Credentials): seq<Assignment>
    requires RecordPrefix(runId, scenarioId).Success?
  {
    FieldUpdates(RecordPrefix(runId, scenarioId).value, NewTargetFields(runId, scenarioId, c))
  }

  lemma CreatedFile(config: EnvironmentConfig, environ: Environ, file: Option<string>, runId: string,
                    scenarioId: string, c: Credentials)
    requires Creates(config, environ, file, runId, scenarioId, c)
    ensures ExactLocal(config) && config.browser.Some?
    ensures var o := LoadTarget(config, environ, file, runId, scenarioId, c);
            && o.file == Some(UpdatedText(Content(file), CreatedUpdates(runId, scenarioId, c)))
            && o.result.value == TargetRecord(runId, scenarioId, c, Pending, None, None)
    ensures UsernameFree(config.browser.value, environ, ReadFile(file).value, RecordPrefix(runId, scenarioId).value,
                         c.username)
  {
    hide ReadFile, RecordPrefix, AnyStored, Retained, RoleUsername, UpdatedText, Content, VariableName;
    FieldsWritten(RecordPrefix(runId, scenarioId).value, runId, scenarioId, c);
  }

  lemma FieldsWritten(prefix: string, runId: string, scenarioId: string, c: Credentials)
    ensures FieldUpdates(prefix, NewTargetFields(runId, scenarioId, c)) ==
              [Assignment(VariableName(prefix, RunId), runId), Assignment(VariableName(prefix, ScenarioId), scenarioId),
               Assignment(VariableName(prefix, Username), c.username),
               Assignment(VariableName(prefix, Password), c.password),
               Assignment(VariableName(prefix, AccountState), "pending")]
  {
    hide VariableName;
    var f := NewTargetFields(runId, scenarioId, c);
    assert f[1..][1..] == f[2..] && f[2..][1..] == f[3..] && f[3..][1..] == f[4..] && f[4..][1..] == [];
    assert FieldUpdates(prefix, f[4..]) == [Assignment(VariableName(prefix, f[4].field), f[4].value)];
    assert FieldUpdates(prefix, f[3..])
             == [Assignment(VariableName(prefix, f[3].field), f[3].value)] + FieldUpdates(prefix, f[4..]);
    assert FieldUpdates(prefix, f[2..])
             == [Assignment(VariableName(prefix, f[2].field), f[2].value)] + FieldUpdates(prefix, f[3..]);
    assert FieldUpdates(prefix, f[1..])
             == [Assignment(VariableName(prefix, f[1].field), f[1].value)] + FieldUpdates(prefix, f[2..]);
  }

  // ---------------------------------------------------------------- ids that are not plain

  lemma CreatedDistinct(runId: string, scenarioId: string, c: Credentials)
    requires RecordPrefix(runId, scenarioId).Success?
    ensures Distinct(CreatedUpdates(runId, scenarioId, c))
  {
    hide RecordPrefix;
    L.FieldMapFive(NewTargetFields(runId, scenarioId, c));
    FieldUpdatesDistinct(RecordPrefix(runId, scenarioId).value, NewTargetFields(runId, scenarioId, c));
  }

  lemma {:induction false} FieldUpdatesDistinct(prefix: string, fields: seq<FieldValue>)
    requires DistinctFields(fields)
    ensures Distinct(FieldUpdates(prefix, fields))
  {
    hide VariableName;
    if fields != [] {
      FieldUpdatesDistinct(prefix, fields[1..]);
      FieldUpdatesMap(prefix, fields[1..], prefix, fields[0].field);
      ToMapCons(Assignment(VariableName(prefix, fields[0].field), fields[0].value), FieldUpdates(prefix, fields[1..]));
    }
  }

  /** A field of a new record that can be read is what the parser leaves of the value that was written. */
  lemma CreatedStored(file: Option<string>, runId: string, scenarioId: string, c: Credentials, f: Field, v: string)
    requires RecordPrefix(runId, scenarioId).Success?
    requires var prefix := RecordPrefix(runId, scenarioId).value;
             Assignment(VariableName(prefix, f), v) in CreatedUpdates(runId, scenarioId, c)
    requires ReadFile(Some(UpdatedText(Content(file), CreatedUpdates(runId, scenarioId, c)))).Success?
    ensures var prefix := RecordPrefix(runId, scenarioId).value;
            var values := ReadFile(Some(UpdatedText(Content(file), CreatedUpdates(runId, scenarioId, c)))).value;
            Stored(values, prefix, f) == v <==> Plain(v)
  {
    hide RecordPrefix, ReadFile, UpdatedText, Content, ParseValue, Cut, Plain, CreatedUpdates;
    var prefix := RecordPrefix(runId, scenarioId).value;
    CreatedDistinct(runId, scenarioId, c);
    RecordNamesValid(runId, scenarioId, f);
    ReadsCut(Content(file), CreatedUpdates(runId, scenarioId, c), Assignment(VariableName(prefix, f), v));
    CutKeepsPlain(v);
  }

  lemma UnplainRefused(config: EnvironmentConfig, environ: Environ, file: Option<string>, runId: string,
                       scenarioId: string,
                       c: Credentials, again: Credentials)
    requires Creates(config, environ, file, runId, scenarioId, c) && P.PlainCredentials(c)
    requires !Plain(runId) || !Plain(scenarioId)
    ensures var o := LoadTarget(config, environ, file, runId, scenarioId, c);
            LoadTarget(config, environ, o.file, runId, scenarioId, again).result.Failure?
  {
    hide RecordPrefix, ReadFile, UpdatedText, Content, Plain, Stored, LoadTarget, Creates, UsernameFree, ExactLocal,
      VariableName;
    CreatedFile(config, environ, file, runId, scenarioId, c);
    assert RecordPrefix(runId, scenarioId).Success? by { CreatesPrefix(config, environ, file, runId, scenarioId, c); }
    var after := LoadTarget(config, environ, file, runId, scenarioId, c).file;
    if ReadFile(after).Success? {
      var prefix := RecordPrefix(runId, scenarioId).value;
      FieldsWritten(prefix, runId, scenarioId, c);
      CreatedStored(file, runId, scenarioId, c, RunId, runId);
      CreatedStored(file, runId, scenarioId, c, ScenarioId, scenarioId);
      CreatedStored(file, runId, scenarioId, c, Username, c.username);
      LoadTargetIff(config, environ, after, runId, scenarioId, again);
    } else {
      UnreadableRefused(config, environ, after, runId, scenarioId, again);
    }
  }

  lemma CreatesPrefix(config: EnvironmentConfig, environ: Environ, file: Option<string>, runId: string,
                      scenarioId: string, c: Credentials)
    requires Creates(config, environ, file, runId, scenarioId, c)
    ensures ReadFile(file).Success? && RecordPrefix(runId, scenarioId).Success?
    ensures !AnyStored(ReadFile(file).value, RecordPrefix(runId, scenarioId).value)
  {
  }

  lemma UnreadableRefused(config: EnvironmentConfig, environ: Environ, file: Option<string>, runId: string,
                          scenarioId: string, c: Credentials)
    requires ReadFile(file).Failure?
    ensures LoadTarget(config, environ, file, runId, scenarioId, c).result.Failure?
  {
    hide ReadFile, RecordPrefix, LoadTargetPlan;
  }

  // ---------------------------------------------------------------- plain ids

  lemma RolesUnmoved(browser: BrowserConfig, environ: Environ, values: map<string, string>, updates: map<string,
                     string>, role: Role)
    requires RolesOutside(browser) && forall name :: name in updates ==> RECORD_PREFIX <= name
    ensures RoleUsername(NamesOf(browser, role), environ, values + updates)
              == RoleUsername(NamesOf(browser, role), environ, values)
  {
    hide NamesOf, Strip;
  }

  /** Only the record's own username variable has come to hold its username. */
  lemma StillUnretained(values: map<string, string>, runId: string, scenarioId: string, c: Credentials)
    requires RecordPrefix(runId, scenarioId).Success?
    requires !Retained(values, Username, VariableName(RecordPrefix(runId, scenarioId).value, Username), c.username)
    ensures var prefix := RecordPrefix(runId, scenarioId).value;
            !Retained(values + ToMap(CreatedUpdates(runId, scenarioId, c)), Username, VariableName(prefix, Username),
                      c.username)
  {
    hide RecordPrefix, ToMap, Strip, FieldUpdates, VariableName, Suffix;
    var prefix := RecordPrefix(runId, scenarioId).value;
    var updates := ToMap(CreatedUpdates(runId, scenarioId, c));
    forall name | name in updates && EndsWith(name, Suffix(Username)) ensures name == VariableName(prefix, Username) {
      FieldUpdatesNames(prefix, NewTargetFields(runId, scenarioId, c), name);
      var f :| name == VariableName(prefix, f);
      SuffixTells(prefix, f, Username);
    }
  }

  lemma SuffixTells(prefix: string, f: Field, g: Field)
    requires EndsWith(VariableName(prefix, f), Suffix(g))
    ensures f == g
  {
    hide Suffix;
    var name := VariableName(prefix, f);
    assert name == VariableName(name[..|name| - |Suffix(g)|], g);
    NamesInjective(prefix, f, name[..|name| - |Suffix(g)|], g);
  }

  lemma CreatedUnderPrefix(runId: string, scenarioId: string, c: Credentials, name: string)
    requires RecordPrefix(runId, scenarioId).Success? && name in ToMap(CreatedUpdates(runId, scenarioId, c))
    ensures RECORD_PREFIX <= name
  {
    hide RecordPrefix, ToMap, FieldUpdates, Suffix;
    var prefix := RecordPrefix(runId, scenarioId).value;
    RecordNamesValid(runId, scenarioId, RunId);
    FieldUpdatesNames(prefix, NewTargetFields(runId, scenarioId, c), name);
  }

  lemma CreatedIsOwn(before: map<string, string>, runId: string, scenarioId: string, c: Credentials)
    requires RecordPrefix(runId, scenarioId).Success? && !AnyStored(before, RecordPrefix(runId, scenarioId).value)
    requires Plain(runId) && Plain(scenarioId) && P.PlainCredentials(c)
    ensures var prefix := RecordPrefix(runId, scenarioId).value;
            var after := before + ToMap(CreatedUpdates(runId, scenarioId, c));
            && OwnRecord(after, prefix, runId, scenarioId) && AnyStored(after, prefix)
            && SavedTarget(after, prefix) == TargetRecord(runId, scenarioId, c, Pending, None, None)
  {
    hide RecordPrefix, Plain, ToMap, FieldUpdates, Stored, FieldMap;
    var prefix := RecordPrefix(runId, scenarioId).value;
    var after := before + ToMap(CreatedUpdates(runId, scenarioId, c));
    L.NewTargetWrites(before, runId, scenarioId, c);
    L.ProvenanceNonEmpty(runId, scenarioId);
    assert Stored(after, prefix, RunId) == runId && Stored(after, prefix, ScenarioId) == scenarioId;
    assert Stored(after, prefix, Username) == c.username && Stored(after, prefix, Password) == c.password;
    assert Stored(after, prefix, AccountState) == "pending";
    assert Stored(after, prefix, IdpSubject) == "" && Stored(after, prefix, UserId) == "";
  }

  lemma PlainReloads(config: EnvironmentConfig, environ: Environ, file: Option<string>, runId: string,
                     scenarioId: string,
                     c: Credentials, again: Credentials)
    requires Creates(config, environ, file, runId, scenarioId, c) && P.PlainCredentials(c)
    requires Plain(runId) && Plain(scenarioId) && config.browser.Some? && RolesOutside(config.browser.value)
    ensures var o := LoadTarget(config, environ, file, runId, scenarioId, c);
            LoadTarget(config, environ, o.file, runId, scenarioId, again) == o
  {
    hide RecordPrefix, ReadFile, UpdatedText, Content, Plain, Stored, LoadTarget, Creates, Retained, RoleUsername,
      NamesOf,
      ExactLocal, FieldUpdates, CreatedUpdates, OwnRecord, AnyStored, SavedTarget, VariableName, RolesOutside, ToMap,
      Writable;
    CreatesPrefix(config, environ, file, runId, scenarioId, c);
    CreatedFile(config, environ, file, runId, scenarioId, c);
    var prefix, before := RecordPrefix(runId, scenarioId).value, ReadFile(file).value;
    var updates := CreatedUpdates(runId, scenarioId, c);
    var after := before + ToMap(updates);
    CreatedReads(file, runId, scenarioId, c);
    CreatedIsOwn(before, runId, scenarioId, c);
    StillUnretained(before, runId, scenarioId, c);
    forall name | name in ToMap(updates) ensures RECORD_PREFIX <= name {
      CreatedUnderPrefix(runId, scenarioId, c, name);
    }
    forall role ensures RoleUsername(NamesOf(config.browser.value, role), environ, after) != Some(c.username) {
      RolesUnmoved(config.browser.value, environ, before, ToMap(updates), role);
    }
    var saved := LoadTarget(config, environ, file, runId, scenarioId, c).file;
    CreatesSuccess(config, environ, file, runId, scenarioId, c);
    assert SavedTarget(after, prefix).credentials == c;
    SavedUsername(after, prefix);
    LoadTargetIff(config, environ, saved, runId, scenarioId, again);
    SavedIsReturned(config, environ, saved, runId, scenarioId, again);
  }

  lemma SavedUsername(values: map<string, string>, prefix: string)
    ensures SavedTarget(values, prefix).credentials.username == Stored(values, prefix, Username)
  {
  }

  lemma CreatedReads(file: Option<string>, runId: string, scenarioId: string, c: Credentials)
    requires ReadFile(file).Success? && RecordPrefix(runId, scenarioId).Success?
    requires Plain(runId) && Plain(scenarioId) && P.PlainCredentials(c)
    ensures ReadFile(Some(UpdatedText(Content(file), CreatedUpdates(runId, scenarioId, c))))
         == Success(ReadFile(file).value + ToMap(CreatedUpdates(runId, scenarioId, c)))
  {
    hide RecordPrefix, ReadFile, UpdatedText, Content, Plain, ToMap, FieldMap;
    var updates := CreatedUpdates(runId, scenarioId, c);
    L.NewTargetWrites(ReadFile(file).value, runId, scenarioId, c);
    FieldsWritten(RecordPrefix(runId, scenarioId).value, runId, scenarioId, c);
    CommitReads(file, Plan(updates, ()));
  }

  /** A load of a saved record returns it. */
  lemma SavedIsReturned(config: EnvironmentConfig, environ: Environ, file: Option<string>, runId: string,
                        scenarioId: string, c: Credentials)
    requires ReadFile(file).Success? && RecordPrefix(runId, scenarioId).Success?
    requires AnyStored(ReadFile(file).value, RecordPrefix(runId, scenarioId).value)
    requires LoadTarget(config, environ, file, runId, scenarioId, c).result.Success?
    ensures LoadTarget(config, environ, file, runId, scenarioId, c)
         == Outcome(Success(SavedTarget(ReadFile(file).value, RecordPrefix(runId, scenarioId).value)), file)
  {
    hide ReadFile, RecordPrefix, AnyStored, SavedTarget, SavedTargetError, UsernameConflict;
  }

  // ---------------------------------------------------------------- the exact condition

  /**
   After a load that created a record, the next load of the same execution succeeds if and only if both ids
   are plain, and then returns the very record that was created. Ids that are not plain, by outer whitespace,
   a comment start, matching quotes or a line break, leave a record that nobody can load.
   */
  lemma ReloadsIffPlain(config: EnvironmentConfig, environ: Environ, file: Option<string>, runId: string,
                        scenarioId: string,
                        c: Credentials, again: Credentials)
    requires config.browser.Some? && RolesOutside(config.browser.value) && P.PlainCredentials(c)
    requires Creates(config, environ, file, runId, scenarioId, c)
    ensures var o := LoadTarget(config, environ, file, runId, scenarioId, c);
            var next := LoadTarget(config, environ, o.file, runId, scenarioId, again);
            && (next.result.Success? <==> Plain(runId) && Plain(scenarioId))
            && (next.result.Success? ==> next == o)
  {
    hide *;
    if Plain(runId) && Plain(scenarioId) {
      PlainReloads(config, environ, file, runId, scenarioId, c, again);
      CreatesSuccess(config, environ, file, runId, scenarioId, c);
    } else {
      UnplainRefused(config, environ, file, runId, scenarioId, c, again);
    }
  }

  lemma CreatesSuccess(config: EnvironmentConfig, environ: Environ, file: Option<string>, runId: string,
                       scenarioId: string, c: Credentials)
    requires Creates(config, environ, file, runId, scenarioId, c)
    ensures LoadTarget(config, environ, file, runId, scenarioId, c).result.Success?
  {
  }

  /** On a missing file and without an environment every execution with a prefix creates its record. */
  lemma FreshCreates(config: EnvironmentConfig, runId: string, scenarioId: string, c: Credentials)
    requires ExactLocal(config) && config.browser.Some? && RecordPrefix(runId, scenarioId).Success?
    ensures Creates(config, map[], None, runId, scenarioId, c)
  {
    hide RecordPrefix;
    assert ReadFile(None) == Success(map[]);
  }

  /** Such a record: the run id `a #b` is saved and then refused. */
  lemma StrandedRecord(config: EnvironmentConfig, c: Credentials, again: Credentials)
    requires ExactLocal(config) && config.browser.Some? && RolesOutside(config.browser.value) && P.PlainCredentials(c)
    ensures var o := LoadTarget(config, map[], None, "a #b", "s", c);
            && o.result.Success? && o.file.Some?
            && LoadTarget(config, map[], o.file, "a #b", "s", again).result.Failure?
  {
    hide LoadTarget, Creates, RolesOutside, ExactLocal;
    StrandedIds();
    FreshCreates(config, "a #b", "s", c);
    CreatesSuccess(config, map[], None, "a #b", "s", c);
    CreatedFile(config, map[], None, "a #b", "s", c);
    UnplainRefused(config, map[], None, "a #b", "s", c, again);
  }

  lemma StrandedIds()
    ensures RecordPrefix("a #b", "s").Success? && !Plain("a #b")
  {
    assert "a #b"[1] == ' ' && "a #b"[1 + 1] == '#';
    var s := "a #b" + "_" + "s";
    assert s == "a #b_s";
    assert Collapse(s) == "a" + Collapse(s[1..]);
    SomethingLeft("a", Collapse(s[1..]));
  }

  lemma SomethingLeft(first: string, rest: string)
    requires first == "a"
    ensures Upper(TrimUnderscores(first + rest)) != ""
    decreases |rest|
  {
    if rest != "" && rest[|rest| - 1] == '_' {
      assert (first + rest)[..|first + rest| - 1] == first + rest[..|rest| - 1];
      SomethingLeft(first, rest[..|rest| - 1]);
    }
  }
}
