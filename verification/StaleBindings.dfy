/** Identities replaced through stale records, from a missing file on. */
module StaleBindings {
  import opened Wrappers
  import opened Text
  import opened CredentialCodec
  import opened CredentialRewrite
  import opened CredentialNames
  import opened CredentialStore
  import opened CredentialFacts
  import opened CredentialAdmission
  import opened ProvenanceReload
  import I = IdentityBinding
  import L = CredentialLifecycle
  import P = Provisioning

  const NOBODY := Reusable({}, {})

  /** The file holds no disposable variables but those of one record. */
  ghost predicate OnlyRecord(values: map<string, string>, prefix: string) {
    forall name :: name in values && RECORD_PREFIX <= name ==> exists f :: name == VariableName(prefix, f)
  }

  lemma NobodyElse(values: map<string, string>, prefix: string, f: Field, v: string)
    requires OnlyRecord(values, prefix)
    ensures !Retained(values, f, VariableName(prefix, f), v)
  {
    hide VariableName, Suffix, Strip;
    forall name | name in values && RECORD_PREFIX <= name && EndsWith(name, Suffix(f))
      ensures name == VariableName(prefix, f)
    {
      var g :| name == VariableName(prefix, g);
      SuffixTells(prefix, g, f);
    }
  }

  lemma OnlyRecordKept(values: map<string, string>, prefix: string, fields: seq<FieldValue>)
    requires OnlyRecord(values, prefix)
    ensures OnlyRecord(values + ToMap(FieldUpdates(prefix, fields)), prefix)
  {
    hide VariableName, ToMap, FieldUpdates;
    forall name | name in ToMap(FieldUpdates(prefix, fields)) ensures exists f :: name == VariableName(prefix, f) {
      FieldUpdatesNames(prefix, fields, name);
    }
  }

  /** The file holds this record, in this state, and no other. */
  ghost predicate Holds(file: Option<string>, record: TargetRecord) {
    && ReadFile(file).Success? && RecordPrefix(record.runId, record.scenarioId).Success?
    && OnlyRecord(ReadFile(file).value, RecordPrefix(record.runId, record.scenarioId).value)
    && MatchesSaved(ReadFile(file).value, RecordPrefix(record.runId, record.scenarioId).value, record)
  }

  /** The identity saved for the record's execution. */
  function SavedIdentity(file: Option<string>, record: TargetRecord): Identity
    requires ReadFile(file).Success? && RecordPrefix(record.runId, record.scenarioId).Success?
  {
    I.BoundIdentity(ReadFile(file).value, RecordPrefix(record.runId, record.scenarioId).value)
  }

  /** What a bind through a record does when the record admits the identity. */
  lemma BindStep(config: EnvironmentConfig, file: Option<string>, record: TargetRecord, identity: Identity)
    requires ExactLocal(config) && Holds(file, record) && record.state == Complete
    requires L.PlainText(identity.subject) && L.PlainText(identity.userId)
    requires record.subject in {None, Some(identity.subject)} && record.userId in {None, Some(identity.userId)}
    ensures var o := BindTarget(config, file, record, record.runId, record.scenarioId, identity, NOBODY);
            && o.result == Success(record.(subject := Some(identity.subject), userId := Some(identity.userId)))
            && Holds(o.file, record) && SavedIdentity(o.file, record) == identity
  {
    hide ReadFile, RecordPrefix, Plain, FieldUpdates, ToMap, Retained, VariableName, Stored, OnlyRecord, WriteFile;
    var prefix, values := RecordPrefix(record.runId, record.scenarioId).value, ReadFile(file).value;
    var fields := [FieldValue(IdpSubject, identity.subject), FieldValue(UserId, identity.userId)];
    var rest := fields[1..];
    assert FieldMap(rest[1..]) == map[] && DistinctFields(rest[1..]);
    assert FieldMap(rest) == map[][UserId := identity.userId] && DistinctFields(rest);
    NobodyElse(values, prefix, IdpSubject, identity.subject);
    NobodyElse(values, prefix, UserId, identity.userId);
    FieldUpdatesWritable(record.runId, record.scenarioId, fields);
    CommitReads(file, Plan(FieldUpdates(prefix, fields), ()));
    SomeUpdates(prefix, fields);
    OnlyRecordKept(values, prefix, fields);
    L.PlanWrites(values, prefix, fields);
  }

  lemma SomeUpdates(prefix: string, fields: seq<FieldValue>)
    requires fields != []
    ensures FieldUpdates(prefix, fields) != []
  {
  }

  lemma MarkStep(config: EnvironmentConfig, file: Option<string>, record: TargetRecord)
    requires ExactLocal(config) && Holds(file, record)
    ensures var o := MarkTarget(config, file, record);
            o.result == Success(record.(state := Complete)) && Holds(o.file, record.(state := Complete))
  {
    hide ReadFile, RecordPrefix, Plain, FieldUpdates, ToMap, VariableName, Stored, OnlyRecord, WriteFile;
    var prefix, values := RecordPrefix(record.runId, record.scenarioId).value, ReadFile(file).value;
    var fields := [FieldValue(AccountState, "complete")];
    assert FieldMap(fields[1..]) == map[] && FieldMap(fields) == map[][AccountState := "complete"]
           && DistinctFields(fields[1..]);
    L.PlainStates();
    FieldUpdatesWritable(record.runId, record.scenarioId, fields);
    CommitReads(file, Plan(FieldUpdates(prefix, fields), ()));
    SomeUpdates(prefix, fields);
    OnlyRecordKept(values, prefix, fields);
    L.PlanWrites(values, prefix, fields);
  }

  lemma LoadStep(config: EnvironmentConfig, runId: string, scenarioId: string, c: Credentials)
    requires ExactLocal(config) && config.browser.Some? && RecordPrefix(runId, scenarioId).Success?
    requires Plain(runId) && Plain(scenarioId) && P.PlainCredentials(c)
    ensures var o := LoadTarget(config, map[], None, runId, scenarioId, c);
            && o.result == Success(TargetRecord(runId, scenarioId, c, Pending, None, None))
            && Holds(o.file, o.result.value)
  {
    hide RecordPrefix, Plain, ToMap, VariableName, Stored, OnlyRecord, UpdatedText, AnyStored, LoadTarget, Creates,
      FieldMap,
      FieldUpdates, ReadFile, OwnRecord, SavedTarget;
    NothingRead();
    FreshCreates(config, runId, scenarioId, c);
    CreatesPrefix(config, map[], None, runId, scenarioId, c);
    CreatesSuccess(config, map[], None, runId, scenarioId, c);
    CreatedFile(config, map[], None, runId, scenarioId, c);
    CreatedReads(None, runId, scenarioId, c);
    CreatedIsOwn(map[], runId, scenarioId, c);
    var prefix := RecordPrefix(runId, scenarioId).value;
    L.NewTargetWrites(map[], runId, scenarioId, c);
    EmptyIsOnly(prefix);
    OnlyRecordKept(map[], prefix, NewTargetFields(runId, scenarioId, c));
    var after := map[] + ToMap(CreatedUpdates(runId, scenarioId, c));
    assert Stored(after, prefix, RunId) == runId && Stored(after, prefix, ScenarioId) == scenarioId;
    assert Stored(after, prefix, Username) == c.username && Stored(after, prefix, Password) == c.password;
    assert Stored(after, prefix, AccountState) == "pending";
  }

  lemma EmptyIsOnly(prefix: string)
    ensures OnlyRecord(map[], prefix)
  {
  }

  lemma NothingRead()
    ensures ReadFile(None) == Success(map[])
  {
  }

  /**
   Binding through records that earlier operations returned can move a saved identity twice: a second bind
   through the unbound record replaces `a` by `b`, and one through the record that carries `a` puts `a` back.
   */
  lemma StaleRecordsReplace(config: EnvironmentConfig, runId: string, scenarioId: string, c: Credentials, a: Identity,
                            b: Identity)
    requires ExactLocal(config) && config.browser.Some? && RecordPrefix(runId, scenarioId).Success?
    requires Plain(runId) && Plain(scenarioId) && P.PlainCredentials(c)
    requires L.PlainText(a.subject) && L.PlainText(a.userId) && L.PlainText(b.subject) && L.PlainText(b.userId)
    ensures var loaded := LoadTarget(config, map[], None, runId, scenarioId, c);
            && loaded.result.Success?
            && var marked := MarkTarget(config, loaded.file, loaded.result.value);
            && marked.result.Success?
            && var unbound := marked.result.value;
            && var first := BindTarget(config, marked.file, unbound, runId, scenarioId, a, NOBODY);
            && first.result.Success?
            && var second := BindTarget(config, first.file, unbound, runId, scenarioId, b, NOBODY);
            && var third := BindTarget(config, second.file, first.result.value, runId, scenarioId, a, NOBODY);
            && second.result.Success? && third.result.Success?
            && Holds(first.file, unbound) && SavedIdentity(first.file, unbound) == a
            && Holds(second.file, unbound) && SavedIdentity(second.file, unbound) == b
            && Holds(third.file, unbound) && SavedIdentity(third.file, unbound) == a
  {
    hide LoadTarget, MarkTarget, BindTarget, Holds, SavedIdentity, Plain, RecordPrefix, ExactLocal;
    LoadStep(config, runId, scenarioId, c);
    var loaded := LoadTarget(config, map[], None, runId, scenarioId, c);
    MarkStep(config, loaded.file, loaded.result.value);
    var marked := MarkTarget(config, loaded.file, loaded.result.value);
    var unbound := marked.result.value;
    BindStep(config, marked.file, unbound, a);
    var first := BindTarget(config, marked.file, unbound, runId, scenarioId, a, NOBODY);
    BindStep(config, first.file, unbound, b);
    var second := BindTarget(config, first.file, unbound, runId, scenarioId, b, NOBODY);
    HoldsIdentity(second.file, unbound, first.result.value);
    BindStep(config, second.file, first.result.value, a);
    var third := BindTarget(config, second.file, first.result.value, runId, scenarioId, a, NOBODY);
    HoldsIdentity(third.file, first.result.value, unbound);
  }

  /** What the file holds does not depend on the identity that a record carries. */
  lemma HoldsIdentity(file: Option<string>, record: TargetRecord, other: TargetRecord)
    requires other == record.(subject := other.subject, userId := other.userId) && Holds(file, record)
    ensures Holds(file, other) && SavedIdentity(file, other) == SavedIdentity(file, record)
  {
    hide ReadFile, RecordPrefix, OnlyRecord, Stored;
  }
}
