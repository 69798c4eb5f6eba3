/**
 The life cycle of disposable records over every run of load, mark and bind steps, for any number of
 executions sharing one file, with arbitrary records passed in by the callers.
 */
module CredentialLifecycle {
  import opened Wrappers
  import opened CredentialCodec
  import opened CredentialRewrite
  import opened CredentialNames
  import opened CredentialStore
  import opened CredentialFacts

  // ---------------------------------------------------------------- what a saved record looks like

  predicate WellFormed(values: map<string, string>, prefix: string) {
    || !AnyStored(values, prefix)
    || (&& Stored(values, prefix, RunId) != "" && Stored(values, prefix, ScenarioId) != ""
        && Stored(values, prefix, Username) != "" && Stored(values, prefix, Password) != ""
        && Stored(values, prefix, AccountState) in {"pending", "complete"}
        && (Stored(values, prefix, IdpSubject) == "" <==> Stored(values, prefix, UserId) == "")
        && (Stored(values, prefix, IdpSubject) != "" ==> Stored(values, prefix, AccountState) == "complete")
        && RecordPrefix(Stored(values, prefix, RunId), Stored(values, prefix, ScenarioId)) == Success(prefix))
  }

  /** The fields no two records may share. */
  predicate Unique(f: Field) {
    f == Username || f == IdpSubject || f == UserId
  }

  predicate Apart(values: map<string, string>, p: string, q: string, f: Field) {
    p != q && Stored(values, p, f) != "" ==> Stored(values, p, f) != Stored(values, q, f)
  }

  ghost predicate Sound(values: map<string, string>) {
    && (forall p :: RECORD_PREFIX <= p ==> WellFormed(values, p))
    && (forall p, q, f :: RECORD_PREFIX <= p && RECORD_PREFIX <= q && Unique(f) ==> Apart(values, p, q, f))
  }

  ghost predicate SoundFile(file: Option<string>) {
    ReadFile(file).Success? && Sound(ReadFile(file).value)
  }

  /** What a saved record keeps: provenance and credentials for good, a completed state, and being bound. */
  predicate Advances(before: map<string, string>, after: map<string, string>, p: string) {
    && (forall f :: f in {RunId, ScenarioId, Username, Password} && Stored(before, p, f) != ""
         ==> Stored(after, p, f) == Stored(before, p, f))
    && (Stored(before, p, AccountState) == "complete" ==> Stored(after, p, AccountState) == "complete")
    && (AnyStored(before, p) ==> AnyStored(after, p))
    && (Stored(before, p, IdpSubject) != "" ==> Stored(after, p, IdpSubject) != "")
  }

  // ---------------------------------------------------------------- runs

  datatype Step =
    | LoadStep(environ: Environ, runId: string, scenarioId: string, generated: Credentials)
    | MarkStep(record: TargetRecord)
    | BindStep(record: TargetRecord, runId: string, scenarioId: string, identity: Identity, reusable: Reusable)

  predicate PlainText(s: string) {
    s != "" && Plain(s)
  }

  /** The texts a step may write are plain; records are unrestricted. */
  predicate PlainStep(step: Step) {
    match step
    case LoadStep(_, runId, scenarioId, c) =>
      Plain(runId) && Plain(scenarioId) && PlainText(c.username) && PlainText(c.password)
    case MarkStep(_) => true
    case BindStep(_, _, _, identity, _) => Plain(identity.subject) && Plain(identity.userId)
  }

  function After(config: EnvironmentConfig, file: Option<string>, step: Step): Option<string> {
    match step
    case LoadStep(environ, runId, scenarioId, c) => LoadTarget(config, environ, file, runId, scenarioId, c).file
    case MarkStep(record) => MarkTarget(config, file, record).file
    case BindStep(record, runId, scenarioId, identity, reusable) =>
      BindTarget(config, file, record, runId, scenarioId, identity, reusable).file
  }

  function Run(config: EnvironmentConfig, file: Option<string>, steps: seq<Step>): Option<string>
    decreases |steps|
  {
    if steps == [] then file else Run(config, After(config, file, steps[0]), steps[1..])
  }

  // ---------------------------------------------------------------- the three decisions keep the records sound

  lemma RetainedBy(values: map<string, string>, own: string, other: string, f: Field)
    requires RECORD_PREFIX <= other && own != other && Stored(values, other, f) != ""
    ensures Retained(values, f, VariableName(own, f), Stored(values, other, f))
  {
    NamesInjective(own, f, other, f);
    var name := VariableName(other, f);
    assert name[|name| - |Suffix(f)|..] == Suffix(f);
    assert RECORD_PREFIX <= name;
    assert EndsWith(name, Suffix(f));
  }

  /** A write to one record's fields, described by what it leaves stored. */
  ghost predicate Writes(before: map<string, string>, after: map<string, string>, prefix: string, fields: map<Field,
                         string>) {
    forall q, f :: Stored(after, q, f) == if q == prefix && f in fields then fields[f] else Stored(before, q, f)
  }

  lemma PlanWrites(before: map<string, string>, prefix: string, fields: seq<FieldValue>)
    requires forall v :: v in fields ==> Plain(v.value)
    ensures Writes(before, before + ToMap(FieldUpdates(prefix, fields)), prefix, FieldMap(fields))
  {
    forall q, f
      ensures Stored(before + ToMap(FieldUpdates(prefix, fields)), q, f)
           == if q == prefix && f in FieldMap(fields) then FieldMap(fields)[f] else Stored(before, q, f)
    {
      StoredAfter(before, prefix, fields, q, f);
    }
  }

  lemma WritesElsewhere(before: map<string, string>, after: map<string, string>, prefix: string, fields: map<Field,
                        string>, q: string)
    requires Writes(before, after, prefix, fields) && q != prefix
    ensures WellFormed(before, q) <==> WellFormed(after, q)
    ensures Advances(before, after, q)
  {
    hide Stored, RecordPrefix;
    assert forall f :: Stored(after, q, f) == Stored(before, q, f);
    assert AnyStored(before, q) <==> AnyStored(after, q);
  }

  /** If the written record is well formed and holds nothing another record holds, all records stay sound. */
  lemma WriteKeepsSound(before: map<string, string>, after: map<string, string>, prefix: string, fields: map<Field,
                        string>)
    requires Sound(before) && Writes(before, after, prefix, fields) && RECORD_PREFIX <= prefix
    requires WellFormed(after, prefix)
    requires forall f :: f in fields && Unique(f) ==> !Retained(before, f, VariableName(prefix, f), fields[f])
    requires forall f :: f in fields && Unique(f) ==> fields[f] != ""
    ensures Sound(after)
  {
    hide Stored, RecordPrefix, Retained, WellFormed;
    forall p | RECORD_PREFIX <= p ensures WellFormed(after, p) {
      if p != prefix {
        WritesElsewhere(before, after, prefix, fields, p);
      }
    }
    forall p, q, f | RECORD_PREFIX <= p && RECORD_PREFIX <= q && Unique(f) ensures Apart(after, p, q, f) {
      assert Apart(before, p, q, f) && Apart(before, q, p, f);
      if q == prefix && p != q && Stored(before, p, f) != "" {
        RetainedBy(before, q, p, f);
      }
      if p == prefix && p != q && Stored(before, q, f) != "" {
        RetainedBy(before, p, q, f);
      }
    }
  }

  lemma LoadKeeps(config: EnvironmentConfig, environ: Environ, before: map<string, string>, runId: string,
                  scenarioId: string, c: Credentials)
    requires Sound(before) && RecordPrefix(runId, scenarioId).Success?
    requires Plain(runId) && Plain(scenarioId) && PlainText(c.username) && PlainText(c.password)
    requires LoadTargetPlan(config, environ, before, RecordPrefix(runId, scenarioId).value, runId, scenarioId,
                            c).Success?
    ensures var plan := LoadTargetPlan(config, environ, before, RecordPrefix(runId, scenarioId).value, runId,
                                       scenarioId, c).value;
            var after := before + ToMap(plan.updates);
            && Writable(plan.updates) && Sound(after) && (forall p :: RECORD_PREFIX <= p ==> Advances(before, after, p))
  {
    hide Stored, RecordPrefix, Plain, Retained, FieldUpdates, SavedTargetError, AnyStored, Sound;
    var prefix := RecordPrefix(runId, scenarioId).value;
    var plan := LoadTargetPlan(config, environ, before, prefix, runId, scenarioId, c).value;
    if AnyStored(before, prefix) {
      assert before + ToMap([]) == before;
    } else {
      NewTargetWrites(before, runId, scenarioId, c);
      NewTargetSound(before, runId, scenarioId, c);
    }
  }

  lemma PlainStates()
    ensures Plain("pending") && Plain("complete")
  {
  }

  lemma CompleteField()
    ensures Plain("complete") && DistinctFields([FieldValue(AccountState, "complete")])
    ensures FieldMap([FieldValue(AccountState, "complete")]) == map[AccountState := "complete"]
  {
    PlainStates();
    assert [FieldValue(AccountState, "complete")][1..] == [];
  }

  lemma NewTargetWrites(before: map<string, string>, runId: string, scenarioId: string, c: Credentials)
    requires RecordPrefix(runId, scenarioId).Success?
    requires Plain(runId) && Plain(scenarioId) && Plain(c.username) && Plain(c.password)
    ensures var prefix := RecordPrefix(runId, scenarioId).value;
            var fields := NewTargetFields(runId, scenarioId, c);
            && Writable(FieldUpdates(prefix, fields))
            && Writes(before, before + ToMap(FieldUpdates(prefix, fields)), prefix, FieldMap(fields))
            && FieldMap(fields) == map[RunId := runId, ScenarioId := scenarioId, Username := c.username,
                                       Password := c.password, AccountState := "pending"]
  {
    hide RecordPrefix, Plain, FieldUpdates;
    var fields := NewTargetFields(runId, scenarioId, c);
    PlainStates();
    FieldMapFive(fields);
    FieldUpdatesWritable(runId, scenarioId, fields);
    PlanWrites(before, RecordPrefix(runId, scenarioId).value, fields);
  }

  lemma FieldMapFive(fields: seq<FieldValue>)
    requires |fields| == 5 && forall i, j :: 0 <= i < j < 5 ==> fields[i].field != fields[j].field
    ensures DistinctFields(fields)
    ensures FieldMap(fields) == map[][fields[4].field := fields[4].value][fields[3].field := fields[3].value]
                                     [fields[2].field := fields[2].value][fields[1].field := fields[1].value]
                                     [fields[0].field := fields[0].value]
  {
    hide FieldMap, DistinctFields;
    NoFields();
    FieldMapCons(fields[4], []);
    FieldMapCons(fields[3], fields[4..]);
    FieldMapCons(fields[2], fields[3..]);
    FieldMapCons(fields[1], fields[2..]);
    FieldMapCons(fields[0], fields[1..]);
    assert fields[4..] == [fields[4]] + [] && fields[3..] == [fields[3]] + fields[4..];
    assert fields[2..] == [fields[2]] + fields[3..] && fields[1..] == [fields[1]] + fields[2..];
    assert fields == [fields[0]] + fields[1..];
  }

  lemma NoFields()
    ensures FieldMap([]) == map[] && DistinctFields([])
  {
  }

  lemma FieldMapCons(v: FieldValue, rest: seq<FieldValue>)
    ensures FieldMap([v] + rest) == FieldMap(rest)[v.field := v.value]
    ensures DistinctFields([v] + rest) <==> v.field !in FieldMap(rest) && DistinctFields(rest)
  {
    assert ([v] + rest)[1..] == rest;
  }

  lemma ProvenanceNonEmpty(runId: string, scenarioId: string)
    requires RecordPrefix(runId, scenarioId).Success?
    ensures runId != "" && scenarioId != ""
  {
  }

  lemma NewTargetSound(before: map<string, string>, runId: string, scenarioId: string, c: Credentials)
    requires Sound(before) && RecordPrefix(runId, scenarioId).Success?
    requires Plain(runId) && Plain(scenarioId) && PlainText(c.username) && PlainText(c.password)
    requires var prefix := RecordPrefix(runId, scenarioId).value;
             !AnyStored(before, prefix) && !Retained(before, Username, VariableName(prefix, Username), c.username)
    ensures var prefix := RecordPrefix(runId, scenarioId).value;
            var after := before + ToMap(FieldUpdates(prefix, NewTargetFields(runId, scenarioId, c)));
            Sound(after) && forall p :: RECORD_PREFIX <= p ==> Advances(before, after, p)
  {
    hide Retained, FieldUpdates, Stored, Plain, FieldMap, RecordPrefix;
    RecordNamesValid(runId, scenarioId, RunId);
    ProvenanceNonEmpty(runId, scenarioId);
    var prefix := RecordPrefix(runId, scenarioId).value;
    var fields := FieldMap(NewTargetFields(runId, scenarioId, c));
    var after := before + ToMap(FieldUpdates(prefix, NewTargetFields(runId, scenarioId, c)));
    NewTargetWrites(before, runId, scenarioId, c);
    assert Stored(after, prefix, AccountState) == "pending";
    assert Stored(after, prefix, IdpSubject) == "" && Stored(after, prefix, UserId) == "";
    assert WellFormed(after, prefix);
    WriteKeepsSound(before, after, prefix, fields);
    forall p | RECORD_PREFIX <= p ensures Advances(before, after, p) {
      if p != prefix {
        WritesElsewhere(before, after, prefix, fields, p);
      }
    }
  }

  lemma SavedIsFull(values: map<string, string>, prefix: string, record: TargetRecord)
    requires Sound(values) && MatchesSaved(values, prefix, record)
    requires RecordPrefix(record.runId, record.scenarioId) == Success(prefix)
    ensures RECORD_PREFIX <= prefix && AnyStored(values, prefix) && WellFormed(values, prefix)
  {
    hide Stored, VariableName;
    RecordNamesValid(record.runId, record.scenarioId, RunId);
    ProvenanceNonEmpty(record.runId, record.scenarioId);
    assert Stored(values, prefix, RunId) != "";
  }

  /** A write of plain values to fields of a saved record that leaves its provenance and credentials alone. */
  lemma LaterWrite(before: map<string, string>, prefix: string, record: TargetRecord, fields: seq<FieldValue>)
    requires Sound(before) && MatchesSaved(before, prefix, record)
    requires RecordPrefix(record.runId, record.scenarioId) == Success(prefix)
    requires DistinctFields(fields) && forall v :: v in fields ==> PlainText(v.value)
    requires FieldMap(fields).Keys <= {AccountState, IdpSubject, UserId}
    requires AccountState in FieldMap(fields) ==> FieldMap(fields)[AccountState] == "complete"
    requires IdpSubject in FieldMap(fields) <==> UserId in FieldMap(fields)
    requires IdpSubject in FieldMap(fields) ==> record.state == Complete
    requires forall f :: f in FieldMap(fields) && Unique(f)
                         ==> !Retained(before, f, VariableName(prefix, f), FieldMap(fields)[f])
    ensures var after := before + ToMap(FieldUpdates(prefix, fields));
            && Writable(FieldUpdates(prefix, fields)) && Sound(after)
            && forall p :: RECORD_PREFIX <= p ==> Advances(before, after, p)
  {
    hide Stored, RecordPrefix, Retained, FieldUpdates, Plain;
    var after := before + ToMap(FieldUpdates(prefix, fields));
    SavedIsFull(before, prefix, record);
    FieldUpdatesWritable(record.runId, record.scenarioId, fields);
    PlanWrites(before, prefix, fields);
    forall f | f in FieldMap(fields) ensures FieldMap(fields)[f] != "" {
      FieldMapMember(fields, f);
    }
    LaterRecord(before, after, prefix, record, FieldMap(fields));
    WriteKeepsSound(before, after, prefix, FieldMap(fields));
    forall p | RECORD_PREFIX <= p ensures Advances(before, after, p) {
      if p != prefix {
        WritesElsewhere(before, after, prefix, FieldMap(fields), p);
      }
    }
  }

  lemma LaterRecord(before: map<string, string>, after: map<string, string>, prefix: string, record: TargetRecord,
                    fields: map<Field, string>)
    requires Writes(before, after, prefix, fields)
    requires WellFormed(before, prefix) && AnyStored(before, prefix) && MatchesSaved(before, prefix, record)
    requires fields.Keys <= {AccountState, IdpSubject, UserId} && forall f :: f in fields ==> fields[f] != ""
    requires AccountState in fields ==> fields[AccountState] == "complete"
    requires IdpSubject in fields <==> UserId in fields
    requires IdpSubject in fields ==> record.state == Complete
    ensures WellFormed(after, prefix) && Advances(before, after, prefix)
  {
    hide Stored, RecordPrefix;
    assert Stored(after, prefix, RunId) == Stored(before, prefix, RunId);
    assert Stored(after, prefix, ScenarioId) == Stored(before, prefix, ScenarioId);
    assert Stored(after, prefix, Username) == Stored(before, prefix, Username);
    assert Stored(after, prefix, Password) == Stored(before, prefix, Password);
  }

  lemma MarkKeeps(before: map<string, string>, prefix: string, record: TargetRecord)
    requires Sound(before) && RecordPrefix(record.runId, record.scenarioId) == Success(prefix)
    requires MarkTargetPlan(before, prefix, record).Success?
    ensures var plan := MarkTargetPlan(before, prefix, record).value;
            var after := before + ToMap(plan.updates);
            && Writable(plan.updates) && Sound(after) && (forall p :: RECORD_PREFIX <= p ==> Advances(before, after, p))
  {
    hide Sound, Retained, FieldUpdates, Plain, RecordPrefix, MatchesSaved, Advances;
    var fields := [FieldValue(AccountState, "complete")];
    assert fields[1..] == [];
    PlainStates();
    LaterWrite(before, prefix, record, fields);
  }

  lemma BindKeeps(before: map<string, string>, prefix: string, record: TargetRecord, identity: Identity)
    requires Sound(before) && RecordPrefix(record.runId, record.scenarioId) == Success(prefix)
    requires record.state == Complete && PlainText(identity.subject) && PlainText(identity.userId)
    requires BindPlan(before, prefix, record, identity).Success?
    ensures var plan := BindPlan(before, prefix, record, identity).value;
            var after := before + ToMap(plan.updates);
            && Writable(plan.updates) && Sound(after) && (forall p :: RECORD_PREFIX <= p ==> Advances(before, after, p))
  {
    hide Sound, Retained, FieldUpdates, Plain, RecordPrefix, MatchesSaved, Advances;
    var fields := [FieldValue(IdpSubject, identity.subject), FieldValue(UserId, identity.userId)];
    var rest := fields[1..];
    assert rest[1..] == [] && FieldMap(rest[1..]) == map[];
    assert FieldMap(rest) == map[][UserId := identity.userId] && DistinctFields(rest);
    LaterWrite(before, prefix, record, fields);
  }

  // ---------------------------------------------------------------- one step, every run

  ghost predicate Progress(before: Option<string>, after: Option<string>)
    requires ReadFile(before).Success? && ReadFile(after).Success?
  {
    forall p :: RECORD_PREFIX <= p ==> Advances(ReadFile(before).value, ReadFile(after).value, p)
  }

  lemma ProgressReflexive(file: Option<string>)
    requires ReadFile(file).Success?
    ensures Progress(file, file)
  {
  }

  lemma CommitKeeps<T>(file: Option<string>, plan: Plan<T>)
    requires SoundFile(file) && Writable(plan.updates) && Sound(ReadFile(file).value + ToMap(plan.updates))
    requires forall p :: RECORD_PREFIX <= p
                         ==> Advances(ReadFile(file).value, ReadFile(file).value + ToMap(plan.updates), p)
    ensures SoundFile(Commit(file, Success(plan)).file) && Progress(file, Commit(file, Success(plan)).file)
  {
    hide Sound, Advances, Commit, ReadFile;
    CommitReads(file, plan);
  }

  lemma LoadStepKeeps(config: EnvironmentConfig, file: Option<string>, environ: Environ, runId: string,
                      scenarioId: string, c: Credentials)
    requires SoundFile(file) && PlainStep(LoadStep(environ, runId, scenarioId, c))
    ensures var after := LoadTarget(config, environ, file, runId, scenarioId, c).file;
            SoundFile(after) && Progress(file, after)
  {
    hide Sound, Advances, ReadFile, RecordPrefix, Plain, LoadTargetPlan;
    ProgressReflexive(file);
    if ExactLocal(config) && RecordPrefix(runId, scenarioId).Success? {
      var plan := LoadTargetPlan(config, environ, ReadFile(file).value, RecordPrefix(runId, scenarioId).value, runId,
                                 scenarioId, c);
      if plan.Success? {
        LoadKeeps(config, environ, ReadFile(file).value, runId, scenarioId, c);
        CommitKeeps(file, plan.value);
      }
    }
  }

  lemma MarkStepKeeps(config: EnvironmentConfig, file: Option<string>, record: TargetRecord)
    requires SoundFile(file)
    ensures SoundFile(MarkTarget(config, file, record).file) && Progress(file, MarkTarget(config, file, record).file)
  {
    hide Sound, Advances, ReadFile, RecordPrefix, MarkTargetPlan;
    ProgressReflexive(file);
    if ExactLocal(config) && RecordPrefix(record.runId, record.scenarioId).Success? {
      var prefix := RecordPrefix(record.runId, record.scenarioId).value;
      var plan := MarkTargetPlan(ReadFile(file).value, prefix, record);
      if plan.Success? {
        MarkKeeps(ReadFile(file).value, prefix, record);
        CommitKeeps(file, plan.value);
      }
    }
  }

  lemma BindStepKeeps(config: EnvironmentConfig, file: Option<string>, step: Step)
    requires SoundFile(file) && step.BindStep? && PlainStep(step)
    ensures SoundFile(After(config, file, step)) && Progress(file, After(config, file, step))
  {
    hide Sound, Advances, ReadFile, RecordPrefix, BindPlan, Plain;
    var record := step.record;
    ProgressReflexive(file);
    if ExactLocal(config) && BindGuard(record, step.runId, step.scenarioId, step.identity, step.reusable).None?
       && RecordPrefix(record.runId, record.scenarioId).Success? {
      var prefix := RecordPrefix(record.runId, record.scenarioId).value;
      var plan := BindPlan(ReadFile(file).value, prefix, record, step.identity);
      if plan.Success? {
        BindKeeps(ReadFile(file).value, prefix, record, step.identity);
        CommitKeeps(file, plan.value);
      }
    }
  }

  lemma StepKeeps(config: EnvironmentConfig, file: Option<string>, step: Step)
    requires SoundFile(file) && PlainStep(step)
    ensures SoundFile(After(config, file, step)) && Progress(file, After(config, file, step))
  {
    match step
    case LoadStep(environ, runId, scenarioId, c) => LoadStepKeeps(config, file, environ, runId, scenarioId, c);
    case MarkStep(record) => MarkStepKeeps(config, file, record);
    case BindStep(_, _, _, _, _) => BindStepKeeps(config, file, step);
  }

  /**
   Over every run of load, mark and bind steps, with any records passed in: each saved record is absent or
   well formed, usernames and bound identities stay pairwise distinct, credentials are never rewritten and
   a completed state is never taken back.
   */
  lemma {:induction false} LifecycleRun(config: EnvironmentConfig, file: Option<string>, steps: seq<Step>)
    requires SoundFile(file) && forall s :: s in steps ==> PlainStep(s)
    ensures SoundFile(Run(config, file, steps)) && Progress(file, Run(config, file, steps))
    decreases |steps|
  {
    hide Sound, ReadFile, After, PlainStep, Advances;
    if steps == [] {
      ProgressReflexive(file);
    } else {
      var next := After(config, file, steps[0]);
      StepKeeps(config, file, steps[0]);
      assert forall s :: s in steps[1..] ==> s in steps;
      LifecycleRun(config, next, steps[1..]);
      var last := Run(config, next, steps[1..]);
      forall p | RECORD_PREFIX <= p ensures Advances(ReadFile(file).value, ReadFile(last).value, p) {
        AdvancesTransitive(ReadFile(file).value, ReadFile(next).value, ReadFile(last).value, p);
      }
    }
  }

  lemma AdvancesTransitive(a: map<string, string>, b: map<string, string>, c: map<string, string>, p: string)
    requires Advances(a, b, p) && Advances(b, c, p)
    ensures Advances(a, c, p)
  {
    hide Stored, AnyStored;
  }

  /** A readable file without any variable of a disposable record; a missing file is one. */
  ghost predicate CleanFile(file: Option<string>) {
    ReadFile(file).Success? && forall name :: name in ReadFile(file).value ==> !(RECORD_PREFIX <= name)
  }

  lemma CleanFileSound(file: Option<string>)
    requires CleanFile(file)
    ensures SoundFile(file)
  {
    hide ReadFile, RecordPrefix, Suffix;
    forall p, f | RECORD_PREFIX <= p ensures Stored(ReadFile(file).value, p, f) == "" {
      assert RECORD_PREFIX <= VariableName(p, f);
    }
  }

  /** From any file without disposable records, however many steps later every record is sound. */
  lemma LifecycleFromClean(config: EnvironmentConfig, file: Option<string>, steps: seq<Step>)
    requires CleanFile(file) && forall s :: s in steps ==> PlainStep(s)
    ensures SoundFile(Run(config, file, steps))
  {
    hide Sound, ReadFile, PlainStep, Run;
    CleanFileSound(file);
    LifecycleRun(config, file, steps);
  }
}
