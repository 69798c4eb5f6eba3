/** Retries are accepted: whatever ran in between, a slot that was handed out can be loaded again. */
module RetryAcceptance {
  import opened Wrappers
  import opened Text
  import opened CredentialCodec
  import opened CredentialRewrite
  import opened CredentialNames
  import opened CredentialStore
  import opened CredentialFacts
  import opened CredentialAdmission
  import opened Provisioning
  import opened ProvenanceReload
  import L = CredentialLifecycle

  /** The record of the slot would be accepted again, but for roles that share its username. */
  predicate SlotKept(browser: BrowserConfig, values: map<string, string>, slot: Slot, c: Credentials) {
    match slot
    case Target(runId, scenarioId) =>
      && RecordPrefix(runId, scenarioId).Success?
      && TargetKept(values, RecordPrefix(runId, scenarioId).value, runId, scenarioId, c)
    case RoleSlot(role) =>
      NamesOf(browser, role).state in values ==> Get(values, NamesOf(browser, role).state) in {"pending", "complete"}
  }

  predicate TargetKept(values: map<string, string>, prefix: string, runId: string, scenarioId: string, c: Credentials) {
    && OwnRecord(values, prefix, runId, scenarioId)
    && Stored(values, prefix, Username) == c.username
    && !Retained(values, Username, VariableName(prefix, Username), c.username)
  }

  ghost predicate AllKept(browser: BrowserConfig, values: map<string, string>, persisted: set<(Slot, Credentials)>) {
    forall slot, c :: (slot, c) in persisted ==> SlotKept(browser, values, slot, c)
  }

  ghost predicate Retryable(config: EnvironmentConfig, w: World) {
    && Invariant(config, w) && (w.persisted != {} ==> ExactLocal(config))
    && AllKept(config.browser.value, ReadFile(w.file).value, w.persisted)
  }

  // ---------------------------------------------------------------- writes to one record

  /** A write to one record brings a username into no variable but that record's own. */
  lemma RetainedAfter(before: map<string, string>, prefix: string, fields: seq<FieldValue>, own: string, value: string)
    requires forall v :: v in fields ==> Plain(v.value)
    requires Retained(before + ToMap(FieldUpdates(prefix, fields)), Username, own, value)
    ensures || Retained(before, Username, own, value)
            || (Username in FieldMap(fields) && VariableName(prefix, Username) != own
                && FieldMap(fields)[Username] == value)
  {
    hide ToMap, FieldUpdates, VariableName, Suffix, FieldMap, Plain, Strip;
    var updates := ToMap(FieldUpdates(prefix, fields));
    var after := before + updates;
    var name :| name in after && RECORD_PREFIX <= name && EndsWith(name, Suffix(Username))
                && name != own && Strip(after[name]) == value;
    if name in updates {
      FieldUpdatesNames(prefix, fields, name);
      var f :| name == VariableName(prefix, f);
      SuffixTells(prefix, f, Username);
      FieldUpdatesMap(prefix, fields, prefix, Username);
      FieldMapMember(fields, Username);
      PlainStripped(FieldMap(fields)[Username]);
      assert after[name] == FieldMap(fields)[Username];
    } else {
      assert name in before && after[name] == before[name];
    }
  }

  /** The write creates a record under a free username. */
  ghost predicate NewRecord(before: map<string, string>, prefix: string, fields: seq<FieldValue>) {
    && !AnyStored(before, prefix) && Username in FieldMap(fields)
    && !Retained(before, Username, VariableName(prefix, Username), FieldMap(fields)[Username])
  }

  /** The write moves a record on. */
  predicate LaterFields(before: map<string, string>, prefix: string, fields: seq<FieldValue>) {
    && FieldMap(fields).Keys <= {AccountState, IdpSubject, UserId}
    && (L.WellFormed(before, prefix) ==> L.WellFormed(before + ToMap(FieldUpdates(prefix, fields)), prefix))
  }

  lemma TargetStays(before: map<string, string>, prefix: string, fields: seq<FieldValue>, runId: string,
                    scenarioId: string, c: Credentials)
    requires RECORD_PREFIX <= prefix && forall v :: v in fields ==> Plain(v.value)
    requires NewRecord(before, prefix, fields) || LaterFields(before, prefix, fields)
    requires RecordPrefix(runId, scenarioId).Success?
    requires TargetKept(before, RecordPrefix(runId, scenarioId).value, runId, scenarioId, c)
    ensures TargetKept(before + ToMap(FieldUpdates(prefix, fields)), RecordPrefix(runId, scenarioId).value, runId,
                       scenarioId, c)
  {
    hide Stored, RecordPrefix, Plain, FieldUpdates, FieldMap, Retained, ToMap, L.WellFormed, VariableName;
    var q, after := RecordPrefix(runId, scenarioId).value, before + ToMap(FieldUpdates(prefix, fields));
    L.PlanWrites(before, prefix, fields);
    L.ProvenanceNonEmpty(runId, scenarioId);
    RecordNamesValid(runId, scenarioId, RunId);
    assert AnyStored(before, q) by { assert Stored(before, q, RunId) != ""; }
    assert NewRecord(before, prefix, fields) ==> q != prefix;
    if q != prefix {
      L.WritesElsewhere(before, after, prefix, FieldMap(fields), q);
    }
    PlainUsername(c, before, q);
    if Retained(after, Username, VariableName(q, Username), c.username) {
      RetainedAfter(before, prefix, fields, VariableName(q, Username), c.username);
      if q != prefix && c.username != "" {
        L.RetainedBy(before, prefix, q, Username);
      }
    }
  }

  lemma PlainUsername(c: Credentials, values: map<string, string>, prefix: string)
    requires L.WellFormed(values, prefix) && AnyStored(values, prefix) && Stored(values, prefix, Username) == c.username
    ensures c.username != ""
  {
    hide Stored, RecordPrefix;
  }

  lemma RoleStays(browser: BrowserConfig, before: map<string, string>, prefix: string, fields: seq<FieldValue>,
                  role: Role)
    requires NamesSeparate(browser) && RECORD_PREFIX <= prefix
    ensures var after, name := before + ToMap(FieldUpdates(prefix, fields)), NamesOf(browser, role).state;
            && (name in after <==> name in before) && Get(after, name) == Get(before, name)
  {
    hide NamesSeparate, NamesOf, Strip, ToMap, FieldUpdates, VariableName;
    var name := NamesOf(browser, role).state;
    if name in ToMap(FieldUpdates(prefix, fields)) {
      FieldUpdatesNames(prefix, fields, name);
      var f :| name == VariableName(prefix, f);
      RoleNameNotRecord(browser, role, prefix, f);
    }
  }

  lemma RecordStepKeeps(browser: BrowserConfig, before: map<string, string>, prefix: string, fields: seq<FieldValue>,
                        persisted: set<(Slot, Credentials)>)
    requires NamesSeparate(browser) && RECORD_PREFIX <= prefix && forall v :: v in fields ==> Plain(v.value)
    requires NewRecord(before, prefix, fields) || LaterFields(before, prefix, fields)
    requires AllKept(browser, before, persisted)
    ensures AllKept(browser, before + ToMap(FieldUpdates(prefix, fields)), persisted)
  {
    hide NamesSeparate, NamesOf, Get, ToMap, FieldUpdates, NewRecord, LaterFields, TargetKept, RecordPrefix, Plain;
    forall slot, c | (slot, c) in persisted ensures SlotKept(browser, before + ToMap(FieldUpdates(prefix, fields)),
                                                             slot, c) {
      assert SlotKept(browser, before, slot, c);
      match slot
      case Target(runId, scenarioId) => TargetStays(before, prefix, fields, runId, scenarioId, c);
      case RoleSlot(role) => RoleStays(browser, before, prefix, fields, role);
    }
  }

  /** Marking or binding a saved record. */
  lemma LaterStepKeeps(browser: BrowserConfig, before: map<string, string>, prefix: string, record: TargetRecord,
                       fields: seq<FieldValue>, persisted: set<(Slot, Credentials)>)
    requires NamesSeparate(browser) && RecordPrefix(record.runId, record.scenarioId) == Success(prefix)
    requires MatchesSaved(before, prefix, record) && forall v :: v in fields ==> L.PlainText(v.value)
    requires FieldMap(fields).Keys <= {AccountState, IdpSubject, UserId}
    requires AccountState in FieldMap(fields) ==> FieldMap(fields)[AccountState] == "complete"
    requires IdpSubject in FieldMap(fields) <==> UserId in FieldMap(fields)
    requires IdpSubject in FieldMap(fields) ==> record.state == Complete
    requires AllKept(browser, before, persisted)
    ensures AllKept(browser, before + ToMap(FieldUpdates(prefix, fields)), persisted)
  {
    hide NamesSeparate, RecordPrefix, Plain, FieldUpdates, FieldMap, ToMap, Stored, AllKept, L.WellFormed;
    RecordNamesValid(record.runId, record.scenarioId, RunId);
    L.ProvenanceNonEmpty(record.runId, record.scenarioId);
    L.PlanWrites(before, prefix, fields);
    forall f | f in FieldMap(fields) ensures FieldMap(fields)[f] != "" {
      FieldMapMember(fields, f);
    }
    if L.WellFormed(before, prefix) {
      assert AnyStored(before, prefix) by { assert Stored(before, prefix, RunId) != ""; }
      L.LaterRecord(before, before + ToMap(FieldUpdates(prefix, fields)), prefix, record, FieldMap(fields));
    }
    RecordStepKeeps(browser, before, prefix, fields, persisted);
  }

  // ---------------------------------------------------------------- writes to one role

  lemma UnretainedByRole(browser: BrowserConfig, before: map<string, string>, role: Role, updates: seq<Assignment>,
                         own: string, value: string)
    requires NamesSeparate(browser) && RoleWrites(browser, role, updates)
    ensures Retained(before + ToMap(updates), Username, own, value) ==> Retained(before, Username, own, value)
  {
    hide NamesOf, Strip, ToMap, ValidName;
    var names := NameList(browser);
    forall name | name in ToMap(updates) ensures !(RECORD_PREFIX <= name) {
      RoleOutside(browser, role);
    }
  }

  lemma RoleOutside(browser: BrowserConfig, role: Role)
    requires NamesSeparate(browser)
    ensures var n := NamesOf(browser, role);
            !(RECORD_PREFIX <= n.username) && !(RECORD_PREFIX <= n.password) && !(RECORD_PREFIX <= n.state)
  {
    hide ValidName;
    var names := NameList(browser);
    var i := match role case Primary => 0 case Secondary => 3 case Admin => 6;
    assert NamesOf(browser, role) == RoleNames(names[i], names[i + 1], names[i + 2]);
  }

  lemma RoleStepKeeps(browser: BrowserConfig, before: map<string, string>, role: Role, updates: seq<Assignment>,
                      persisted: set<(Slot, Credentials)>)
    requires NamesSeparate(browser) && RoleWrites(browser, role, updates)
    requires var state := NamesOf(browser, role).state;
             state in ToMap(updates) ==> ToMap(updates)[state] in {"pending", "complete"}
    requires AllKept(browser, before, persisted)
    ensures AllKept(browser, before + ToMap(updates), persisted)
  {
    hide NamesSeparate, NamesOf, ToMap, RecordPrefix, Retained, Stored, Strip;
    var after := before + ToMap(updates);
    L.PlainStates();
    PlainStripped("pending");
    PlainStripped("complete");
    forall slot, c | (slot, c) in persisted ensures SlotKept(browser, after, slot, c) {
      assert SlotKept(browser, before, slot, c);
      match slot {
        case Target(runId, scenarioId) =>
          var q := RecordPrefix(runId, scenarioId).value;
          RecordNamesValid(runId, scenarioId, RunId);
          RoleWriteStored(browser, before, role, updates, q);
          UnretainedByRole(browser, before, role, updates, VariableName(q, Username), c.username);
        case RoleSlot(other) =>
          RoleNamesApart(browser, other, role);
      }
    }
  }

  // ---------------------------------------------------------------- the calls

  lemma FailedLoad(config: EnvironmentConfig, environ: Environ, file: Option<string>, runId: string,
                   scenarioId: string, c: Credentials)
    ensures var o := LoadTarget(config, environ, file, runId, scenarioId, c);
            && (o.result.Failure? ==> o.file == file)
            && (o.result.Success? ==> ExactLocal(config) && config.browser.Some?
                                      && RecordPrefix(runId, scenarioId).Success? && ReadFile(file).Success?)
  {
    hide ReadFile, RecordPrefix, AnyStored, SavedTargetError, FieldUpdates, RoleUsername, Retained;
  }

  lemma LoadTargetKept(config: EnvironmentConfig, environ: Environ, file: Option<string>, runId: string,
                       scenarioId: string, c: Credentials,
                       persisted: set<(Slot, Credentials)>)
    requires config.browser.Some? && NamesSeparate(config.browser.value) && ReadFile(file).Success?
    requires Plain(runId) && Plain(scenarioId) && PlainCredentials(c)
    requires AllKept(config.browser.value, ReadFile(file).value, persisted)
    ensures var o := LoadTarget(config, environ, file, runId, scenarioId, c);
            && ReadFile(o.file).Success? && AllKept(config.browser.value, ReadFile(o.file).value, persisted)
            && (o.result.Success? ==>
                  ExactLocal(config)
                  && SlotKept(config.browser.value, ReadFile(o.file).value, Target(runId, scenarioId),
                              o.result.value.credentials))
  {
    hide NamesSeparate, ReadFile, RecordPrefix, Plain, LoadTarget, AnyStored, Retained, Stored, AllKept, CreatedUpdates,
      UpdatedText, Content, OwnRecord, RoleUsername, VariableName, ToMap, SavedTarget;
    FailedLoad(config, environ, file, runId, scenarioId, c);
    var o := LoadTarget(config, environ, file, runId, scenarioId, c);
    if o.result.Success? {
      var prefix, before := RecordPrefix(runId, scenarioId).value, ReadFile(file).value;
      LoadTargetIff(config, environ, file, runId, scenarioId, c);
      if !AnyStored(before, prefix) {
        CreatedFile(config, environ, file, runId, scenarioId, c);
        CreatedReads(file, runId, scenarioId, c);
        CreatedIsOwn(before, runId, scenarioId, c);
        StillUnretained(before, runId, scenarioId, c);
        SavedUsername(before + ToMap(CreatedUpdates(runId, scenarioId, c)), prefix);
        CreatedStep(config.browser.value, before, runId, scenarioId, c, persisted);
      }
    }
  }

  lemma CreatedStep(browser: BrowserConfig, before: map<string, string>, runId: string, scenarioId: string,
                    c: Credentials,
                    persisted: set<(Slot, Credentials)>)
    requires NamesSeparate(browser) && RecordPrefix(runId, scenarioId).Success? && Plain(runId) && Plain(scenarioId)
             && PlainCredentials(c)
    requires var prefix := RecordPrefix(runId, scenarioId).value;
             !AnyStored(before, prefix) && !Retained(before, Username, VariableName(prefix, Username), c.username)
    requires AllKept(browser, before, persisted)
    ensures AllKept(browser, before + ToMap(CreatedUpdates(runId, scenarioId, c)), persisted)
  {
    hide NamesSeparate, RecordPrefix, Plain, AnyStored, Retained, AllKept, ToMap, FieldUpdates, FieldMap, VariableName;
    var prefix := RecordPrefix(runId, scenarioId).value;
    RecordNamesValid(runId, scenarioId, RunId);
    L.NewTargetWrites(before, runId, scenarioId, c);
    NewFieldsPlain(runId, scenarioId, c);
    RecordStepKeeps(browser, before, prefix, NewTargetFields(runId, scenarioId, c), persisted);
  }

  lemma LoadRoleKept(config: EnvironmentConfig, environ: Environ, file: Option<string>, role: Role, c: Credentials,
                     persisted: set<(Slot, Credentials)>)
    requires config.browser.Some? && NamesSeparate(config.browser.value) && ReadFile(file).Success?
             && PlainCredentials(c)
    requires AllKept(config.browser.value, ReadFile(file).value, persisted)
    ensures var o := LoadRole(config, environ, file, role, c);
            && ReadFile(o.file).Success? && AllKept(config.browser.value, ReadFile(o.file).value, persisted)
            && (o.result.Success? ==> ExactLocal(config))
            && (o.result.Success? && o.result.value.state != External ==>
                  SlotKept(config.browser.value, ReadFile(o.file).value, RoleSlot(role), o.result.value.credentials))
  {
    hide NamesSeparate, ReadFile, NamesOf, Get, WriteFile, NewRoleUpdates, RoleWrites, PlainCredentials, RoleShared,
      AllKept, Writable;
    var browser, values := config.browser.value, ReadFile(file).value;
    var names, o := NamesOf(browser, role), LoadRole(config, environ, file, role, c);
    if o.result.Success? {
      LoadedRoleIsSaved(config, environ, file, role, c);
    }
    if o.result.Success? && o.file != file {
      var updates := NewRoleUpdates(names, c);
      NewPairReads(browser, values, role, c);
      CommitReads(file, Plan(updates, RoleRecord(c, Pending)));
      NewUpdatesSome(names, c);
      NewState(browser, role, c);
      RoleStepKeeps(browser, values, role, updates, persisted);
    }
  }

  lemma NewState(browser: BrowserConfig, role: Role, c: Credentials)
    requires NamesSeparate(browser)
    ensures ToMap(NewRoleUpdates(NamesOf(browser, role), c)).Keys
              == {NamesOf(browser, role).username, NamesOf(browser, role).password, NamesOf(browser, role).state}
    ensures ToMap(NewRoleUpdates(NamesOf(browser, role), c))[NamesOf(browser, role).state] == "pending"
  {
    hide NamesSeparate, NamesOf, ValidName, NewRoleUpdates;
    NewPairFacts(NamesOf(browser, role), c);
    RoleNamesApart(browser, role, role);
  }

  lemma FailedMark(config: EnvironmentConfig, file: Option<string>, record: TargetRecord)
    ensures var o := MarkTarget(config, file, record);
            && (o.result.Failure? ==> o.file == file)
            && (o.result.Success? ==>
                  && RecordPrefix(record.runId, record.scenarioId).Success? && ReadFile(file).Success?
                  && var prefix := RecordPrefix(record.runId, record.scenarioId).value;
                  && MatchesSaved(ReadFile(file).value, prefix, record)
                  && o.file == WriteFile(file, FieldUpdates(prefix, [FieldValue(AccountState, "complete")])))
  {
    hide ReadFile, RecordPrefix, MatchesSaved, VariableName;
    if RecordPrefix(record.runId, record.scenarioId).Success? {
      assert FieldUpdates(RecordPrefix(record.runId, record.scenarioId).value,
                          [FieldValue(AccountState, "complete")]) != [];
    }
  }

  lemma MarkTargetKept(config: EnvironmentConfig, file: Option<string>, record: TargetRecord,
                       persisted: set<(Slot, Credentials)>)
    requires config.browser.Some? && NamesSeparate(config.browser.value) && ReadFile(file).Success?
    requires AllKept(config.browser.value, ReadFile(file).value, persisted)
    ensures var o := MarkTarget(config, file, record);
            ReadFile(o.file).Success? && AllKept(config.browser.value, ReadFile(o.file).value, persisted)
  {
    hide NamesSeparate, ReadFile, RecordPrefix, MarkTarget, AllKept, FieldUpdates, ToMap, MatchesSaved, Plain,
      WriteFile;
    FailedMark(config, file, record);
    if MarkTarget(config, file, record).result.Success? {
      var prefix, fields := RecordPrefix(record.runId, record.scenarioId).value, [FieldValue(AccountState, "complete")];
      assert FieldMap(fields[1..]) == map[] && FieldMap(fields) == map[][AccountState := "complete"]
             && DistinctFields(fields[1..]);
      L.PlainStates();
      LaterWritten(config, file, prefix, record, fields, persisted);
    }
  }

  lemma LaterWritten(config: EnvironmentConfig, file: Option<string>, prefix: string, record: TargetRecord,
                     fields: seq<FieldValue>,
                     persisted: set<(Slot, Credentials)>)
    requires config.browser.Some? && NamesSeparate(config.browser.value) && ReadFile(file).Success?
    requires AllKept(config.browser.value, ReadFile(file).value, persisted)
    requires RecordPrefix(record.runId, record.scenarioId) == Success(prefix)
             && MatchesSaved(ReadFile(file).value, prefix, record)
    requires fields != [] && DistinctFields(fields) && forall v :: v in fields ==> L.PlainText(v.value)
    requires FieldMap(fields).Keys <= {AccountState, IdpSubject, UserId}
    requires AccountState in FieldMap(fields) ==> FieldMap(fields)[AccountState] == "complete"
    requires IdpSubject in FieldMap(fields) <==> UserId in FieldMap(fields)
    requires IdpSubject in FieldMap(fields) ==> record.state == Complete
    ensures var after := WriteFile(file, FieldUpdates(prefix, fields));
            ReadFile(after).Success? && AllKept(config.browser.value, ReadFile(after).value, persisted)
  {
    hide NamesSeparate, ReadFile, RecordPrefix, AllKept, ToMap, MatchesSaved, Plain, WriteFile, FieldMap, VariableName;
    FieldUpdatesWritable(record.runId, record.scenarioId, fields);
    LaterStepKeeps(config.browser.value, ReadFile(file).value, prefix, record, fields, persisted);
    CommitReads(file, Plan(FieldUpdates(prefix, fields), ()));
  }

  lemma FailedBind(config: EnvironmentConfig, file: Option<string>, record: TargetRecord, runId: string,
                   scenarioId: string,
                   identity: Identity, reusable: Reusable)
    ensures var o := BindTarget(config, file, record, runId, scenarioId, identity, reusable);
            && (o.result.Failure? ==> o.file == file)
            && (o.result.Success? ==>
                  && RecordPrefix(record.runId, record.scenarioId).Success? && ReadFile(file).Success?
                  && record.state == Complete && identity.subject != "" && identity.userId != ""
                  && var prefix := RecordPrefix(record.runId, record.scenarioId).value;
                  && MatchesSaved(ReadFile(file).value, prefix, record)
                  && o.file == WriteFile(file,
                                         FieldUpdates(prefix,
                                                      [FieldValue(IdpSubject, identity.subject),
                                                       FieldValue(UserId, identity.userId)])))
  {
    hide ReadFile, RecordPrefix, MatchesSaved, VariableName, Retained;
    if RecordPrefix(record.runId, record.scenarioId).Success? {
      assert FieldUpdates(RecordPrefix(record.runId, record.scenarioId).value,
                          [FieldValue(IdpSubject, identity.subject), FieldValue(UserId, identity.userId)]) != [];
    }
  }

  lemma BindTargetKept(config: EnvironmentConfig, file: Option<string>, record: TargetRecord, runId: string,
                       scenarioId: string,
                       identity: Identity, reusable: Reusable, persisted: set<(Slot, Credentials)>)
    requires config.browser.Some? && NamesSeparate(config.browser.value) && ReadFile(file).Success?
    requires Plain(identity.subject) && Plain(identity.userId)
    requires AllKept(config.browser.value, ReadFile(file).value, persisted)
    ensures var o := BindTarget(config, file, record, runId, scenarioId, identity, reusable);
            ReadFile(o.file).Success? && AllKept(config.browser.value, ReadFile(o.file).value, persisted)
  {
    hide NamesSeparate, ReadFile, RecordPrefix, BindTarget, AllKept, FieldUpdates, ToMap, MatchesSaved, Plain,
      WriteFile;
    FailedBind(config, file, record, runId, scenarioId, identity, reusable);
    if BindTarget(config, file, record, runId, scenarioId, identity, reusable).result.Success? {
      var prefix := RecordPrefix(record.runId, record.scenarioId).value;
      var fields := [FieldValue(IdpSubject, identity.subject), FieldValue(UserId, identity.userId)];
      var rest := fields[1..];
      assert FieldMap(rest[1..]) == map[] && DistinctFields(rest[1..]);
      assert FieldMap(rest) == map[][UserId := identity.userId] && DistinctFields(rest);
      LaterWritten(config, file, prefix, record, fields, persisted);
    }
  }

  lemma MarkRoleKept(config: EnvironmentConfig, file: Option<string>, role: Role, c: Credentials,
                     persisted: set<(Slot, Credentials)>)
    requires config.browser.Some? && NamesSeparate(config.browser.value) && ReadFile(file).Success?
             && ExactLocal(config)
    requires AllKept(config.browser.value, ReadFile(file).value, persisted)
    ensures var o := MarkRole(config, file, role, c);
            ReadFile(o.file).Success? && AllKept(config.browser.value, ReadFile(o.file).value, persisted)
  {
    hide NamesSeparate, ReadFile, NamesOf, Get, MarkRole, AllKept;
    MarkRoleIff(config, file, role, c);
    if MarkRole(config, file, role, c).result.Success? {
      var updates := [Assignment(NamesOf(config.browser.value, role).state, "complete")];
      assert updates[1..] == [] && ToMap(updates) == map[][updates[0].name := "complete"];
      RoleStepKeeps(config.browser.value, ReadFile(file).value, role, updates, persisted);
      assert ReadFile(file).value + map[][updates[0].name := "complete"]
               == ReadFile(file).value[updates[0].name := "complete"];
    }
  }

  // ---------------------------------------------------------------- every run

  lemma KeptMore(browser: BrowserConfig, values: map<string, string>, persisted: set<(Slot, Credentials)>, slot: Slot,
                 c: Credentials)
    requires AllKept(browser, values, persisted) && SlotKept(browser, values, slot, c)
    ensures AllKept(browser, values, persisted + {(slot, c)})
  {
    hide SlotKept;
  }

  lemma NextRetryable(config: EnvironmentConfig, w: World, event: Event)
    requires Retryable(config, w) && Next(config, w, event).Some?
    ensures Retryable(config, Next(config, w, event).value)
  {
    NextKeeps(config, w, event);
    hide NamesSeparate, ReadFile, Plain, AllKept, SlotKept, LoadTarget, LoadRole, MarkTarget, MarkRole, BindTarget,
      PairsSaved,
      CreatedSubmitted, MarkedExist, PhaseSaved, PlainCredentials, HasAccount;
    var file, persisted := w.file, w.persisted;
    match event
    case AcquireTarget(environ, runId, scenarioId, c) =>
      LoadTargetKept(config, environ, file, runId, scenarioId, c, persisted);
      var o := LoadTarget(config, environ, file, runId, scenarioId, c);
      if o.result.Success? {
        KeptMore(config.browser.value, ReadFile(o.file).value, persisted, Target(runId, scenarioId),
                 o.result.value.credentials);
      }
    case AcquireRole(environ, role, c) =>
      LoadRoleKept(config, environ, file, role, c, persisted);
      var o := LoadRole(config, environ, file, role, c);
      if o.result.Success? && o.result.value.state != External {
        KeptMore(config.browser.value, ReadFile(o.file).value, persisted, RoleSlot(role), o.result.value.credentials);
      }
    case Mark =>
      match w.phase.job {
        case TargetJob(record) => MarkTargetKept(config, file, record, persisted);
        case RoleJob(role, c) => MarkRoleKept(config, file, role, c, persisted);
      }
    case BindIdentity(record, runId, scenarioId, identity, reusable) =>
      BindTargetKept(config, file, record, runId, scenarioId, identity, reusable, persisted);
    case _ =>
  }

  lemma StartRetryable(config: EnvironmentConfig, w: World)
    requires Start(config, w)
    ensures Retryable(config, w)
  {
    StartInvariant(config, w);
  }

  lemma {:induction false} RunRetryable(config: EnvironmentConfig, w: World, events: seq<Event>)
    requires Retryable(config, w) && Run(config, w, events).Some?
    ensures Retryable(config, Run(config, w, events).value)
    decreases |events|
  {
    hide Retryable, Next;
    if events != [] {
      NextRetryable(config, w, events[0]);
      RunRetryable(config, Next(config, w, events[0]).value, events[1..]);
    }
  }

  /**
   At every point of every run, crashes included: loading a target that was handed out before is accepted if
   and only if no role resolves to its username, and then hands out the same pair and writes nothing.
   */
  lemma TargetRetryIff(config: EnvironmentConfig, start: World, events: seq<Event>, environ: Environ, runId: string,
                       scenarioId: string,
                       c: Credentials, generated: Credentials)
    requires Start(config, start) && Run(config, start, events).Some?
    requires (Target(runId, scenarioId), c) in Run(config, start, events).value.persisted
    ensures var w := Run(config, start, events).value;
            && ReadFile(w.file).Success?
            && var o := LoadTarget(config, environ, w.file, runId, scenarioId, generated);
            && (o.result.Success? <==>
                  forall role :: RoleUsername(NamesOf(config.browser.value, role), environ,
                                              ReadFile(w.file).value) != Some(c.username))
            && (o.result.Success? ==> o.result.value.credentials == c)
            && o.file == w.file
  {
    StartRetryable(config, start);
    RunRetryable(config, start, events);
    var w := Run(config, start, events).value;
    hide Run, Start, ReadFile, RecordPrefix, LoadTarget, RoleUsername, NamesOf, Retained, Stored, VariableName,
      AnyStored, NamesSeparate,
      CreatedSubmitted, MarkedExist, PhaseSaved, SavedTarget;
    var browser, values := config.browser.value, ReadFile(w.file).value;
    assert SlotKept(browser, values, Target(runId, scenarioId), c);
    assert SavedFor(browser, values, Target(runId, scenarioId)) == Some(c);
    var prefix := RecordPrefix(runId, scenarioId).value;
    SavedPair(values, prefix);
    L.ProvenanceNonEmpty(runId, scenarioId);
    AnyStoredBy(values, prefix);
    LoadTargetIff(config, environ, w.file, runId, scenarioId, generated);
    if LoadTarget(config, environ, w.file, runId, scenarioId, generated).result.Success? {
      SavedIsReturned(config, environ, w.file, runId, scenarioId, generated);
    }
  }

  lemma SavedPair(values: map<string, string>, prefix: string)
    ensures SavedTarget(values, prefix).credentials
              == Credentials(Stored(values, prefix, Username), Stored(values, prefix, Password))
  {
  }

  lemma AnyStoredBy(values: map<string, string>, prefix: string)
    requires Stored(values, prefix, RunId) != ""
    ensures AnyStored(values, prefix)
  {
  }

  /** The same for a role whose pair the environment does not supply. */
  lemma RoleRetryIff(config: EnvironmentConfig, start: World, events: seq<Event>, environ: Environ, role: Role,
                     c: Credentials, generated: Credentials)
    requires Start(config, start) && Run(config, start, events).Some?
    requires (RoleSlot(role), c) in Run(config, start, events).value.persisted
    requires Get(environ, NamesOf(config.browser.value, role).username) == ""
               == Get(environ, NamesOf(config.browser.value, role).password)
    ensures var w := Run(config, start, events).value;
            && ReadFile(w.file).Success?
            && var o := LoadRole(config, environ, w.file, role, generated);
            && (o.result.Success? <==> !RoleShared(config.browser.value, environ, ReadFile(w.file).value, role,
                                                   c.username))
            && (o.result.Success? ==> o.result.value.credentials == c)
            && o.file == w.file
  {
    hide Run, Start, ReadFile, NamesOf, Get, RoleShared, NamesSeparate, CreatedSubmitted, MarkedExist, PhaseSaved,
      LoadRole, SlotKept, SavedFor;
    StartRetryable(config, start);
    RunRetryable(config, start, events);
    var w := Run(config, start, events).value;
    KeptRoleReloads(config, environ, w.file, role, c, generated);
  }

  lemma KeptRoleReloads(config: EnvironmentConfig, environ: Environ, file: Option<string>, role: Role, c: Credentials,
                        generated: Credentials)
    requires ExactLocal(config) && config.browser.Some? && ReadFile(file).Success?
    requires SlotKept(config.browser.value, ReadFile(file).value, RoleSlot(role), c)
    requires SavedFor(config.browser.value, ReadFile(file).value, RoleSlot(role)) == Some(c)
    requires Get(environ, NamesOf(config.browser.value, role).username) == ""
               == Get(environ, NamesOf(config.browser.value, role).password)
    ensures var o := LoadRole(config, environ, file, role, generated);
            && (o.result.Success? <==> !RoleShared(config.browser.value, environ, ReadFile(file).value, role,
                                                   c.username))
            && (o.result.Success? ==> o.result.value.credentials == c)
            && o.file == file
  {
    hide ReadFile, NamesOf, Get, RoleShared;
  }

  // ---------------------------------------------------------------- a refused retry

  /** A file without role variables, read without an environment: the load of a role creates its pair. */
  lemma BlankRoleLoads(config: EnvironmentConfig, file: Option<string>, role: Role, d: Credentials)
    requires ExactLocal(config) && config.browser.Some? && NamesSeparate(config.browser.value)
             && ReadFile(file).Success?
    requires PlainCredentials(d) && forall name :: name in ReadFile(file).value ==> RECORD_PREFIX <= name
    ensures LoadRole(config, map[], file, role, d).result.Success?
  {
    hide ReadFile, NamesSeparate, NamesOf, NewRoleUpdates, WriteFile, Plain;
    var browser, values := config.browser.value, ReadFile(file).value;
    forall other
      ensures var n := NamesOf(browser, other);
              Get(values, n.username) == "" && Get(values, n.password) == "" && Get(values, n.state) == ""
    {
      RoleOutside(browser, other);
    }
    EmptyEnvironment();
  }

  lemma EmptyEnvironment()
    ensures forall name :: Get(map[], name) == ""
  {
  }

  /**
   A run that strands a target: it is handed out, then a role is created under the same username, which nothing
   refuses, and the retry of the target is refused.
   */
  lemma RoleStrandsTarget(config: EnvironmentConfig, start: World, runId: string, scenarioId: string,
                          c: Credentials, d: Credentials, again: Credentials)
    requires Start(config, start) && start.file == None && ExactLocal(config)
    requires config.authMode == BrowserPreprovisioned && config.allowMutation && config.allowDestructive
    requires RecordPrefix(runId, scenarioId).Success? && Plain(runId) && Plain(scenarioId)
    requires PlainCredentials(c) && PlainCredentials(d) && d.username == c.username
    ensures var end := Run(config, start,
                           [AcquireTarget(map[], runId, scenarioId, c), Crash, AcquireRole(map[], Primary, d)]);
            && end.Some? && (Target(runId, scenarioId), c) in end.value.persisted
            && end.value.phase == SigningUp(RoleJob(Primary, d))
            && LoadTarget(config, map[], end.value.file, runId, scenarioId, again).result.Failure?
  {
    hide ReadFile, RecordPrefix, LoadTarget, LoadRole, NamesSeparate, Plain, Creates, CreatedUpdates, UpdatedText,
      Content,
      RoleUsername, NamesOf, ToMap;
    assert ReadFile(None) == Success(map[]) by { NothingSaved(); }
    FreshCreates(config, runId, scenarioId, c);
    CreatesSuccess(config, map[], None, runId, scenarioId, c);
    CreatedFile(config, map[], None, runId, scenarioId, c);
    CreatedReads(None, runId, scenarioId, c);
    var first := LoadTarget(config, map[], None, runId, scenarioId, c);
    forall name | name in ReadFile(first.file).value ensures RECORD_PREFIX <= name {
      CreatedUnderPrefix(runId, scenarioId, c, name);
    }
    BlankRoleLoads(config, first.file, Primary, d);
    CreatedRole(config, first.file, d);
    LoadedRoleDistinct(config, map[], first.file, Primary, d);
    var events := [AcquireTarget(map[], runId, scenarioId, c), Crash, AcquireRole(map[], Primary, d)];
    var w1 := Next(config, start, events[0]).value;
    var w2 := Next(config, w1, Crash).value;
    var w3 := Next(config, w2, events[2]).value;
    ThreeEvents(config, start, events, w1, w2, w3);
    TargetRetryIff(config, start, events, map[], runId, scenarioId, c, again);
  }

  lemma NothingSaved()
    ensures ReadFile(None) == Success(map[])
  {
  }

  lemma CreatedRole(config: EnvironmentConfig, file: Option<string>, d: Credentials)
    requires config.browser.Some? && NamesSeparate(config.browser.value) && ReadFile(file).Success?
    requires forall name :: name in ReadFile(file).value ==> RECORD_PREFIX <= name
    requires LoadRole(config, map[], file, Primary, d).result.Success?
    ensures LoadRole(config, map[], file, Primary, d).result.value == RoleRecord(d, Pending)
  {
    hide ReadFile, NamesSeparate, NamesOf, NewRoleUpdates, WriteFile, RoleShared;
    RoleOutside(config.browser.value, Primary);
    EmptyEnvironment();
  }

  lemma ThreeEvents(config: EnvironmentConfig, w: World, events: seq<Event>, w1: World, w2: World, w3: World)
    requires |events| == 3 && Next(config, w, events[0]) == Some(w1)
    requires Next(config, w1, events[1]) == Some(w2) && Next(config, w2, events[2]) == Some(w3)
    ensures Run(config, w, events) == Some(w3)
  {
    hide Next;
    assert events[1..] == [events[1], events[2]] && events[1..][1..] == [events[2]] && [events[2]][1..] == [];
    assert Run(config, w3, []) == Some(w3);
    assert Run(config, w2, [events[2]]) == Run(config, w3, []);
    assert Run(config, w1, events[1..]) == Run(config, w2, [events[2]]);
  }
}
