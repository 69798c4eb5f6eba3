/** Every refusal of a credential operation names a defect that is there, and without a defect there is no refusal. */
module Refusals {
  import opened Wrappers
  import opened Text
  import opened CredentialCodec
  import opened CredentialNames
  import opened CredentialStore
  import opened CredentialFacts
  import opened AssignmentLines
  import opened PrefixCollisions
  import A = CredentialAdmission
  import L = CredentialLifecycle

  // ---------------------------------------------------------------- guards

  /** The one environment whose credentials are kept in a file. */
  predicate IsExactLocal(config: EnvironmentConfig) {
    && config.name == "local" && config.environmentType == "local"
    && config.origin == "https://app.budgetanalyzer.localhost"
  }

  /** Outside the exact local environment every call is refused and the file stays; inside, none for that reason. */
  lemma OnlyExactLocalTargets(config: EnvironmentConfig, environ: Environ, file: Option<string>, runId: string,
                              scenarioId: string, c: Credentials, record: TargetRecord, identity: Identity,
                              reusable: Reusable)
    ensures !IsExactLocal(config) ==>
              && LoadTarget(config, environ, file, runId, scenarioId, c) == Outcome(Failure(NotExactLocal), file)
              && MarkTarget(config, file, record) == Outcome(Failure(NotExactLocal), file)
              && BindTarget(config, file, record, runId, scenarioId, identity, reusable)
                 == Outcome(Failure(NotExactLocal), file)
    ensures IsExactLocal(config) ==>
              && LoadTarget(config, environ, file, runId, scenarioId, c).result != Failure(NotExactLocal)
              && MarkTarget(config, file, record).result != Failure(NotExactLocal)
              && BindTarget(config, file, record, runId, scenarioId, identity, reusable).result
                 != Failure(NotExactLocal)
  {
    hide ReadText, RecordPrefix, RoleUsername, Retained, FieldUpdates, WriteFile, MatchesSaved, AnyStored, Get, Stored;
  }

  lemma OnlyExactLocalRoles(config: EnvironmentConfig, environ: Environ, file: Option<string>, role: Role,
                            c: Credentials)
    ensures !IsExactLocal(config) ==>
              && LoadRole(config, environ, file, role, c) == Outcome(Failure(NotExactLocal), file)
              && MarkRole(config, file, role, c) == Outcome(Failure(NotExactLocal), file)
    ensures IsExactLocal(config) ==>
              && LoadRole(config, environ, file, role, c).result != Failure(NotExactLocal)
              && MarkRole(config, file, role, c).result != Failure(NotExactLocal)
    ensures IsExactLocal(config) && config.browser.None? ==>
              && LoadRole(config, environ, file, role, c) == Outcome(Failure(NoBrowserSettings), file)
              && MarkRole(config, file, role, c) == Outcome(Failure(NoBrowserSettings), file)
  {
    hide ReadText, RoleUsername, WriteFile, NewRoleUpdates, RoleShared, Get;
  }

  // ---------------------------------------------------------------- the username a role resolves to

  /** The mapping has nothing but whitespace under the name. */
  predicate Blank(values: map<string, string>, name: string) {
    name in values ==> Spaces(values[name])
  }

  lemma UnsetIff(values: map<string, string>, name: string)
    ensures Get(values, name) == "" <==> Blank(values, name)
  {
    if name in values {
      BlankIff(values[name]);
    }
  }

  /** A complete environment pair decides; without any, a complete saved pair does; half a pair resolves to nothing. */
  lemma RoleUsernameIff(names: RoleNames, environ: Environ, values: map<string, string>, u: string)
    ensures RoleUsername(names, environ, values) == Some(u) <==>
              || (&& !Blank(environ, names.username) && !Blank(environ, names.password)
                  && u == Strip(environ[names.username]))
              || (&& Blank(environ, names.username) && Blank(environ, names.password)
                  && !Blank(values, names.username) && !Blank(values, names.password)
                  && u == Strip(values[names.username]))
  {
    hide Strip, Blank, Spaces;
    UnsetIff(environ, names.username);
    UnsetIff(environ, names.password);
    UnsetIff(values, names.username);
    UnsetIff(values, names.password);
    Present(environ, names.username);
    Present(environ, names.password);
    Present(values, names.username);
    Present(values, names.password);
  }

  lemma Present(values: map<string, string>, name: string)
    ensures !Blank(values, name) ==> name in values && Get(values, name) == Strip(values[name])
  {
    hide Strip, Spaces;
  }

  // ---------------------------------------------------------------- values other records hold

  /** The name of another disposable record's variable of this kind. */
  predicate OthersName(name: string, prefix: string, f: Field) {
    RECORD_PREFIX <= name && exists k :: 0 <= k <= |name| && name == VariableName(name[..k], f) && name[..k] != prefix
  }

  lemma EndsWithIff(name: string, prefix: string, f: Field)
    ensures OthersName(name, prefix, f)
       <==> RECORD_PREFIX <= name && EndsWith(name, Suffix(f)) && name != VariableName(prefix, f)
  {
    hide Suffix;
    if EndsWith(name, Suffix(f)) {
      var k := |name| - |Suffix(f)|;
      assert name == name[..k] + Suffix(f);
      assert name[..k] == prefix ==> name == VariableName(prefix, f);
    }
    if k :| 0 <= k <= |name| && name == VariableName(name[..k], f) && name[..k] != prefix {
      assert name[|name| - |Suffix(f)|..] == Suffix(f);
      NamesInjective(name[..k], f, prefix, f);
    }
  }

  /** Another record's variable of this kind holds the value. */
  predicate HeldByOther(values: map<string, string>, prefix: string, f: Field, value: string) {
    exists name :: name in values && OthersName(name, prefix, f) && Get(values, name) == value
  }

  /** What counts as retained: that another record's variable of the kind holds it. */
  lemma RetainedIff(values: map<string, string>, f: Field, prefix: string, value: string)
    ensures Retained(values, f, VariableName(prefix, f), value) <==> HeldByOther(values, prefix, f, value)
  {
    hide OthersName, EndsWith, VariableName, Strip;
    if Retained(values, f, VariableName(prefix, f), value) {
      var name :| name in values && RECORD_PREFIX <= name && EndsWith(name, Suffix(f))
                  && name != VariableName(prefix, f) && Strip(values[name]) == value;
      EndsWithIff(name, prefix, f);
    }
    if name :| name in values && OthersName(name, prefix, f) && Get(values, name) == value {
      EndsWithIff(name, prefix, f);
    }
  }

  // ---------------------------------------------------------------- what each refusal means

  /** The part of a refusal that does not depend on what the file holds. */
  ghost predicate CallDefect(config: EnvironmentConfig, file: Option<string>, e: StoreError) {
    match e
    case NotExactLocal => !IsExactLocal(config)
    case NoBrowserSettings => config.browser.None?
    case Unreadable(_) => Repeats(SplitKeep(Content(file)))
    case _ => false
  }

  predicate NameDefect(runId: string, scenarioId: string, e: StoreError) {
    match e
    case Naming(EmptyProvenance) => runId == "" || scenarioId == ""
    case Naming(NoSafeName) => NoAlnum(runId) && NoAlnum(scenarioId)
    case _ => false
  }

  /** What is wrong with the saved record. */
  predicate SavedDefect(values: map<string, string>, prefix: string, runId: string, scenarioId: string, e: StoreError) {
    match e
    case IncompleteRecord => exists f :: f in {RunId, ScenarioId, Username, Password} && Stored(values, prefix, f) == ""
    case ProvenanceMismatch =>
      Stored(values, prefix, RunId) != runId || Stored(values, prefix, ScenarioId) != scenarioId
    case InvalidState => Stored(values, prefix, AccountState) !in {"pending", "complete"}
    case PartialBinding => (Stored(values, prefix, IdpSubject) == "") != (Stored(values, prefix, UserId) == "")
    case BoundWhileIncomplete =>
      Stored(values, prefix, IdpSubject) != "" && Stored(values, prefix, AccountState) != "complete"
    case _ => false
  }

  /** What is wrong with the username. */
  ghost predicate UsernameDefect(browser: BrowserConfig, environ: Environ, values: map<string, string>, prefix: string,
                                 username: string, e: StoreError) {
    match e
    case UsernameReusable => exists role :: RoleUsername(NamesOf(browser, role), environ, values) == Some(username)
    case UsernameRetained => HeldByOther(values, prefix, Username, username)
    case _ => false
  }

  lemma UnreadableMeans(file: Option<string>)
    ensures ReadFile(file).Failure? <==> Repeats(SplitKeep(Content(file)))
    ensures ReadFile(file).Failure? ==> ReadFile(file).error.Unreadable?
  {
    hide Repeats, SplitKeep, ReadText;
    ReadableIff(Content(file));
  }

  lemma UsernameConflictMeans(browser: BrowserConfig, environ: Environ, values: map<string, string>, prefix: string,
                              username: string)
    ensures match UsernameConflict(Some(browser), environ, values, prefix, username)
            case None => forall e :: !UsernameDefect(browser, environ, values, prefix, username, e)
            case Some(e) => UsernameDefect(browser, environ, values, prefix, username, e)
  {
    hide Retained, RoleUsername, HeldByOther, VariableName;
    RetainedIff(values, Username, prefix, username);
  }

  lemma ConflictWithoutBrowser(environ: Environ, values: map<string, string>, prefix: string, username: string)
    ensures UsernameConflict(None, environ, values, prefix, username) == Some(NoBrowserSettings)
  {
  }

  lemma SavedErrorMeans(values: map<string, string>, prefix: string, runId: string, scenarioId: string)
    ensures match SavedTargetError(values, prefix, runId, scenarioId)
            case None => forall e :: !SavedDefect(values, prefix, runId, scenarioId, e)
            case Some(e) => SavedDefect(values, prefix, runId, scenarioId, e)
  {
    hide Stored;
  }

  /** The username a load settles on: the saved one, or the generated one where nothing is saved. */
  function TargetUsername(values: map<string, string>, prefix: string, c: Credentials): string {
    if AnyStored(values, prefix) then Stored(values, prefix, Username) else c.username
  }

  /** What the file can have against a load. */
  ghost predicate TargetDefect(browser: Option<BrowserConfig>, environ: Environ, values: map<string, string>,
                               prefix: string, runId: string, scenarioId: string, c: Credentials, e: StoreError) {
    || (AnyStored(values, prefix) && SavedDefect(values, prefix, runId, scenarioId, e))
    || (browser.Some? && UsernameDefect(browser.value, environ, values, prefix, TargetUsername(values, prefix, c), e))
  }

  /** The saved record as it stands, or a new pending one whose five fields are written. */
  predicate TargetHanded(file: Option<string>, values: map<string, string>, prefix: string, runId: string,
                         scenarioId: string, c: Credentials, o: Outcome<TargetRecord>) {
    o.result.Success?
    && if AnyStored(values, prefix) then RecordSaved(values, prefix, o.result.value) && o.file == file
       else
         && o.result.value == TargetRecord(runId, scenarioId, c, Pending, None, None)
         && o.file == WriteFile(file, [Assignment(VariableName(prefix, RunId), runId),
                                       Assignment(VariableName(prefix, ScenarioId), scenarioId),
                                       Assignment(VariableName(prefix, Username), c.username),
                                       Assignment(VariableName(prefix, Password), c.password),
                                       Assignment(VariableName(prefix, AccountState), "pending")])
  }

  lemma NewTargetUpdates(prefix: string, runId: string, scenarioId: string, c: Credentials)
    ensures FieldUpdates(prefix, NewTargetFields(runId, scenarioId, c))
         == [Assignment(VariableName(prefix, RunId), runId), Assignment(VariableName(prefix, ScenarioId), scenarioId),
             Assignment(VariableName(prefix, Username), c.username),
             Assignment(VariableName(prefix, Password), c.password),
             Assignment(VariableName(prefix, AccountState), "pending")]
  {
    hide VariableName, FieldUpdates;
    var state := FieldValue(AccountState, "pending");
    var password, username := FieldValue(Password, c.password), FieldValue(Username, c.username);
    var scenario := FieldValue(ScenarioId, scenarioId);
    NoFieldUpdates(prefix);
    FieldUpdatesCons(prefix, state, []);
    FieldUpdatesCons(prefix, password, [state]);
    FieldUpdatesCons(prefix, username, [password, state]);
    FieldUpdatesCons(prefix, scenario, [username, password, state]);
    FieldUpdatesCons(prefix, FieldValue(RunId, runId), [scenario, username, password, state]);
    assert [state] + [] == [state] && [password] + [state] == [password, state];
    assert [username] + [password, state] == [username, password, state];
    assert [scenario] + [username, password, state] == [scenario, username, password, state];
    assert NewTargetFields(runId, scenarioId, c)
        == [FieldValue(RunId, runId)] + [scenario, username, password, state];
  }

  lemma NoFieldUpdates(prefix: string)
    ensures FieldUpdates(prefix, []) == []
  {
  }

  lemma FieldUpdatesCons(prefix: string, v: FieldValue, rest: seq<FieldValue>)
    ensures FieldUpdates(prefix, [v] + rest)
         == [Assignment(VariableName(prefix, v.field), v.value)] + FieldUpdates(prefix, rest)
  {
    assert ([v] + rest)[1..] == rest;
  }

  lemma SavedRecordSaved(values: map<string, string>, prefix: string, runId: string, scenarioId: string)
    requires SavedTargetError(values, prefix, runId, scenarioId).None?
    ensures RecordSaved(values, prefix, SavedTarget(values, prefix))
  {
    hide Stored;
  }

  /** A load of a target is refused for a defect that is there, and only then; refused, it writes nothing. */
  lemma LoadTargetRefusal(config: EnvironmentConfig, environ: Environ, file: Option<string>, runId: string,
                          scenarioId: string, c: Credentials)
    ensures var o := LoadTarget(config, environ, file, runId, scenarioId, c);
            match o.result
            case Success(_) =>
              && IsExactLocal(config) && RecordPrefix(runId, scenarioId).Success? && ReadFile(file).Success?
              && config.browser.Some?
              && (forall e :: !TargetDefect(config.browser, environ, ReadFile(file).value,
                                            RecordPrefix(runId, scenarioId).value, runId, scenarioId, c, e))
              && TargetHanded(file, ReadFile(file).value, RecordPrefix(runId, scenarioId).value, runId, scenarioId, c,
                              o)
            case Failure(e) =>
              && o.file == file
              && (|| CallDefect(config, file, e) || NameDefect(runId, scenarioId, e)
                  || (&& RecordPrefix(runId, scenarioId).Success? && ReadFile(file).Success?
                      && TargetDefect(config.browser, environ, ReadFile(file).value,
                                      RecordPrefix(runId, scenarioId).value, runId, scenarioId, c, e)))
  {
    hide ReadFile, RecordPrefix, UsernameConflict, SavedTargetError, FieldUpdates, WriteFile, AnyStored, Stored,
      NewTargetFields, VariableName, SavedTarget, RecordSaved, Repeats, NoAlnum, SavedDefect, UsernameDefect, SplitKeep;
    UnreadableMeans(file);
    NamingIff(runId, scenarioId);
    if RecordPrefix(runId, scenarioId).Success? && ReadFile(file).Success? {
      var values, prefix := ReadFile(file).value, RecordPrefix(runId, scenarioId).value;
      NewTargetUpdates(prefix, runId, scenarioId, c);
      SavedErrorMeans(values, prefix, runId, scenarioId);
      if SavedTargetError(values, prefix, runId, scenarioId).None? {
        SavedRecordSaved(values, prefix, runId, scenarioId);
      }
      if config.browser.None? {
        ConflictWithoutBrowser(environ, values, prefix, TargetUsername(values, prefix, c));
      } else {
        UsernameConflictMeans(config.browser.value, environ, values, prefix, TargetUsername(values, prefix, c));
      }
    }
  }

  /** The file still holds the record it was handed out as: the five fields of every record. */
  predicate StillSaved(values: map<string, string>, prefix: string, record: TargetRecord) {
    && Stored(values, prefix, RunId) == record.runId && Stored(values, prefix, ScenarioId) == record.scenarioId
    && Stored(values, prefix, Username) == record.credentials.username
    && Stored(values, prefix, Password) == record.credentials.password
    && Stored(values, prefix, AccountState) == (match record.state case Pending => "pending"
                                                case Complete => "complete" case External => "external")
  }

  lemma MarkPlanMeans(values: map<string, string>, prefix: string, record: TargetRecord)
    ensures MarkTargetPlan(values, prefix, record) ==
              if StillSaved(values, prefix, record)
              then Success(Plan(FieldUpdates(prefix, [FieldValue(AccountState, "complete")]),
                                record.(state := Complete)))
              else Failure(RecordChanged)
  {
    hide Stored, FieldUpdates;
  }

  /** A mark is accepted exactly for a record that is still saved, and changes its state only. */
  lemma MarkTargetRefusal(config: EnvironmentConfig, file: Option<string>, record: TargetRecord)
    ensures var o := MarkTarget(config, file, record);
            match o.result
            case Success(marked) =>
              && IsExactLocal(config) && RecordPrefix(record.runId, record.scenarioId).Success?
              && ReadFile(file).Success? && ReadFile(o.file).Success?
              && var prefix := RecordPrefix(record.runId, record.scenarioId).value;
              var values, after := ReadFile(file).value, ReadFile(o.file).value;
              && StillSaved(values, prefix, record) && marked == record.(state := Complete)
              && forall q, f :: Stored(after, q, f) == if q == prefix && f == AccountState then "complete"
                                                       else Stored(values, q, f)
            case Failure(e) =>
              && o.file == file
              && (|| CallDefect(config, file, e) || NameDefect(record.runId, record.scenarioId, e)
                  || (&& e == RecordChanged && RecordPrefix(record.runId, record.scenarioId).Success?
                      && ReadFile(file).Success?
                      && !StillSaved(ReadFile(file).value, RecordPrefix(record.runId, record.scenarioId).value,
                                     record)))
  {
    hide ReadFile, RecordPrefix, FieldUpdates, WriteFile, Stored, Repeats, NoAlnum, SplitKeep, FieldMap,
      MarkTargetPlan, StillSaved;
    UnreadableMeans(file);
    NamingIff(record.runId, record.scenarioId);
    if RecordPrefix(record.runId, record.scenarioId).Success? && ReadFile(file).Success? {
      var prefix, values := RecordPrefix(record.runId, record.scenarioId).value, ReadFile(file).value;
      MarkPlanMeans(values, prefix, record);
      MarkedFile(file, values, record);
    }
  }

  lemma MarkedFile(file: Option<string>, values: map<string, string>, record: TargetRecord)
    requires ReadFile(file) == Success(values) && RecordPrefix(record.runId, record.scenarioId).Success?
    ensures var prefix := RecordPrefix(record.runId, record.scenarioId).value;
            var updates := FieldUpdates(prefix, [FieldValue(AccountState, "complete")]);
            var after := ReadFile(WriteFile(file, updates));
            && updates != [] && after.Success?
            && forall q, f :: Stored(after.value, q, f) == if q == prefix && f == AccountState then "complete"
                                                           else Stored(values, q, f)
  {
    hide ReadFile, RecordPrefix, WriteFile, Stored, Plain, FieldUpdates, FieldMap, VariableName;
    var prefix, fields := RecordPrefix(record.runId, record.scenarioId).value, [FieldValue(AccountState, "complete")];
    L.CompleteField();
    FieldUpdatesCons(prefix, fields[0], []);
    assert [fields[0]] + [] == fields;
    FieldUpdatesWritable(record.runId, record.scenarioId, fields);
    CommitReads(file, Plan(FieldUpdates(prefix, fields), record));
    L.PlanWrites(values, prefix, fields);
  }

  /** What speaks against binding a record, before the file is read. */
  predicate BindDefect(record: TargetRecord, runId: string, scenarioId: string, identity: Identity, reusable: Reusable,
                       e: StoreError) {
    match e
    case WrongExecution => record.runId != runId || record.scenarioId != scenarioId
    case NotComplete => record.state != Complete
    case IdentityMissing => identity.subject == "" || identity.userId == ""
    case IdentityReusable => identity.subject in reusable.subjects || identity.userId in reusable.userIds
    case _ => false
  }

  /** What the file, or the record itself, has against the identity. */
  predicate IdentityDefect(values: map<string, string>, prefix: string, record: TargetRecord, identity: Identity,
                           e: StoreError) {
    match e
    case RecordChanged => !StillSaved(values, prefix, record)
    case IdentityTaken =>
      || HeldByOther(values, prefix, IdpSubject, identity.subject)
      || HeldByOther(values, prefix, UserId, identity.userId)
    case IdentityChanged =>
      || (record.subject != None && record.subject != Some(identity.subject))
      || (record.userId != None && record.userId != Some(identity.userId))
    case _ => false
  }

  lemma BindGuardMeans(record: TargetRecord, runId: string, scenarioId: string, identity: Identity, reusable: Reusable)
    ensures match BindGuard(record, runId, scenarioId, identity, reusable)
            case None => forall e :: !BindDefect(record, runId, scenarioId, identity, reusable, e)
            case Some(e) => BindDefect(record, runId, scenarioId, identity, reusable, e)
  {
  }

  lemma BindPlanMeans(values: map<string, string>, prefix: string, record: TargetRecord, identity: Identity)
    ensures match BindPlan(values, prefix, record, identity)
            case Success(plan) =>
              && (forall e :: !IdentityDefect(values, prefix, record, identity, e))
              && plan.value == TargetRecord(record.runId, record.scenarioId, record.credentials, Complete,
                                            Some(identity.subject), Some(identity.userId))
            case Failure(e) => IdentityDefect(values, prefix, record, identity, e)
  {
    hide Retained, HeldByOther, VariableName, Stored, FieldUpdates;
    RetainedIff(values, IdpSubject, prefix, identity.subject);
    RetainedIff(values, UserId, prefix, identity.userId);
  }

  /** A binding is refused for a defect that is there, and only then; it returns the record with the identity. */
  lemma BindRefusal(config: EnvironmentConfig, file: Option<string>, record: TargetRecord, runId: string,
                    scenarioId: string, identity: Identity, reusable: Reusable)
    ensures var o := BindTarget(config, file, record, runId, scenarioId, identity, reusable);
            match o.result
            case Success(bound) =>
              && IsExactLocal(config) && RecordPrefix(record.runId, record.scenarioId).Success?
              && ReadFile(file).Success?
              && (forall e :: !BindDefect(record, runId, scenarioId, identity, reusable, e))
              && (forall e :: !IdentityDefect(ReadFile(file).value, RecordPrefix(record.runId, record.scenarioId).value,
                                              record, identity, e))
              && bound == TargetRecord(runId, scenarioId, record.credentials, Complete, Some(identity.subject),
                                       Some(identity.userId))
            case Failure(e) =>
              && o.file == file
              && (|| CallDefect(config, file, e) || NameDefect(record.runId, record.scenarioId, e)
                  || BindDefect(record, runId, scenarioId, identity, reusable, e)
                  || (&& RecordPrefix(record.runId, record.scenarioId).Success? && ReadFile(file).Success?
                      && IdentityDefect(ReadFile(file).value, RecordPrefix(record.runId, record.scenarioId).value,
                                        record, identity, e)))
  {
    hide ReadFile, RecordPrefix, WriteFile, Repeats, NoAlnum, SplitKeep, BindPlan, BindGuard, IdentityDefect;
    UnreadableMeans(file);
    NamingIff(record.runId, record.scenarioId);
    BindGuardMeans(record, runId, scenarioId, identity, reusable);
    if RecordPrefix(record.runId, record.scenarioId).Success? && ReadFile(file).Success? {
      BindPlanMeans(ReadFile(file).value, RecordPrefix(record.runId, record.scenarioId).value, record, identity);
      assert BindDefect(record, runId, scenarioId, identity, reusable, WrongExecution)
             <==> record.runId != runId || record.scenarioId != scenarioId;
    }
  }

  /** An identity is accepted as owned exactly for the execution's complete record that is bound to it. */
  lemma OwnedIff(record: TargetRecord, runId: string, scenarioId: string, identity: Identity, reusable: Reusable)
    ensures match OwnershipError(record, runId, scenarioId, identity, reusable)
            case None =>
              && record == TargetRecord(runId, scenarioId, record.credentials, Complete, Some(identity.subject),
                                        Some(identity.userId))
              && identity.subject !in reusable.subjects && identity.userId !in reusable.userIds
            case Some(WrongExecution) => record.runId != runId || record.scenarioId != scenarioId
            case Some(IdentityUnbound) => record.state != Complete || record.subject == None || record.userId == None
            case Some(IdentityChanged) =>
              record.subject != Some(identity.subject) || record.userId != Some(identity.userId)
            case Some(IdentityReusable) =>
              identity.subject in reusable.subjects || identity.userId in reusable.userIds
            case Some(_) => false
  {
  }

  // ---------------------------------------------------------------- reusable roles

  /** Another role resolves to the username. */
  predicate Taken(browser: BrowserConfig, environ: Environ, values: map<string, string>, role: Role,
                        username: string) {
    exists other: Role :: other != role && RoleUsername(NamesOf(browser, other), environ, values) == Some(username)
  }

  /** What is wrong with the variables of a role that the environment does not supply. */
  predicate RoleDefect(browser: BrowserConfig, environ: Environ, values: map<string, string>, role: Role,
                             c: Credentials, e: StoreError) {
    var names := NamesOf(browser, role);
    match e
    case PartialPair => (Get(values, names.username) == "") != (Get(values, names.password) == "")
    case InvalidState =>
      Get(values, names.username) != "" && names.state in values
      && Get(values, names.state) !in {"pending", "complete"}
    case StateWithoutPair => Get(values, names.username) == "" && Get(values, names.state) != ""
    case RolesShareUsername =>
      Taken(browser, environ, values, role,
            if Get(values, names.username) != "" then Get(values, names.username) else c.username)
    case _ => false
  }

  /** What the load of such a role hands out, and what it writes. */
  predicate RoleHanded(names: RoleNames, values: map<string, string>, c: Credentials, plan: Plan<RoleRecord>) {
    if Get(values, names.username) != "" then
      && plan.updates == []
      && plan.value.credentials == Credentials(Get(values, names.username), Get(values, names.password))
      && plan.value.state == if names.state in values && Get(values, names.state) == "pending" then Pending
           else Complete
    else
      plan == Plan(NewRoleUpdates(names, c), RoleRecord(c, Pending))
  }

  lemma RolePlanMeans(browser: BrowserConfig, environ: Environ, values: map<string, string>, role: Role, c: Credentials)
    ensures match LoadRolePlan(browser, environ, values, role, c)
            case Success(plan) =>
              && (forall e :: !RoleDefect(browser, environ, values, role, c, e))
              && RoleHanded(NamesOf(browser, role), values, c, plan)
            case Failure(e) => RoleDefect(browser, environ, values, role, c, e)
  {
    hide Get, RoleUsername, NamesOf, NewRoleUpdates;
  }

  /** A load of a role is refused for a defect that is there, and only then, and hands out what is supplied or saved. */
  lemma LoadRoleRefusal(config: EnvironmentConfig, environ: Environ, file: Option<string>, role: Role, c: Credentials)
    requires config.browser.Some?
    ensures var browser, o := config.browser.value, LoadRole(config, environ, file, role, c);
            var names := NamesOf(browser, role);
            var username, password := Get(environ, names.username), Get(environ, names.password);
            match o.result
            case Success(record) =>
              && IsExactLocal(config) && ReadFile(file).Success? && (username == "" <==> password == "")
              && if username != "" then
                   && record == RoleRecord(Credentials(username, password), External) && o.file == file
                   && !Taken(browser, environ, ReadFile(file).value, role, username)
                 else
                   && (forall e :: !RoleDefect(browser, environ, ReadFile(file).value, role, c, e))
                   && exists plan :: o == Commit(file, Success(plan))
                                     && RoleHanded(names, ReadFile(file).value, c, plan)
            case Failure(e) =>
              && o.file == file
              && (|| CallDefect(config, file, e)
                  || (e == PartialPair && (username == "") != (password == ""))
                  || (&& ReadFile(file).Success?
                      && if username != "" then
                           e == RolesShareUsername && Taken(browser, environ, ReadFile(file).value, role, username)
                         else RoleDefect(browser, environ, ReadFile(file).value, role, c, e)))
  {
    hide ReadFile, Get, WriteFile, Repeats, SplitKeep, LoadRolePlan, RoleDefect, NamesOf, RoleUsername, RoleHanded;
    UnreadableMeans(file);
    if ReadFile(file).Success? {
      RolePlanMeans(config.browser.value, environ, ReadFile(file).value, role, c);
    }
  }

  /** A role is marked exactly while the file still holds its pair; its state variable is all that is written. */
  lemma MarkRoleRefusal(config: EnvironmentConfig, file: Option<string>, role: Role, c: Credentials)
    requires config.browser.Some?
    ensures var o, names := MarkRole(config, file, role, c), NamesOf(config.browser.value, role);
            match o.result
            case Success(_) =>
              && IsExactLocal(config) && ReadFile(file).Success?
              && c == Credentials(Get(ReadFile(file).value, names.username), Get(ReadFile(file).value, names.password))
              && o.file == WriteFile(file, [Assignment(names.state, "complete")])
            case Failure(e) =>
              && o.file == file
              && (|| CallDefect(config, file, e)
                  || (&& e == RecordChanged && ReadFile(file).Success?
                      && c != Credentials(Get(ReadFile(file).value, names.username),
                                          Get(ReadFile(file).value, names.password))))
  {
    hide ReadFile, Get, WriteFile, Repeats, SplitKeep, NamesOf;
    UnreadableMeans(file);
  }
}
