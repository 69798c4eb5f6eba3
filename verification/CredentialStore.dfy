/**
 The saved credentials of one local harness: load or create, mark complete and bind, each as one read of
 the file, a decision on the values read, and at most one atomic rewrite.
 */
module CredentialStore {
  import opened Wrappers
  import opened Text
  import opened CredentialCodec
  import opened CredentialRewrite
  import opened CredentialNames

  const LOCAL_ORIGIN := "https://app.budgetanalyzer.localhost"

  datatype Credentials = Credentials(username: string, password: string)

  datatype Role = Primary | Secondary | Admin

  datatype SavedState = External | Pending | Complete

  datatype BrowserConfig = BrowserConfig(
    primaryUsername: string, primaryPassword: string,
    secondaryUsername: string, secondaryPassword: string,
    adminUsername: string, adminPassword: string)

  datatype AuthMode = SuppliedSessions | BrowserPreprovisioned

  datatype EnvironmentConfig = EnvironmentConfig(
    name: string, environmentType: string, origin: string, authMode: AuthMode,
    allowMutation: bool, allowDestructive: bool, browser: Option<BrowserConfig>)

  datatype RoleNames = RoleNames(username: string, password: string, state: string)

  /** `DisposableCredentialRecord`; its state is never `External`. */
  datatype TargetRecord = TargetRecord(
    runId: string, scenarioId: string, credentials: Credentials, state: SavedState,
    subject: Option<string>, userId: Option<string>)

  /** `LocalCredentialRecord` of a reusable role. */
  datatype RoleRecord = RoleRecord(credentials: Credentials, state: SavedState)

  datatype StoreError =
    | NotExactLocal | Naming(reason: NameError) | Unreadable(cause: CodecError) | NoBrowserSettings
    | IncompleteRecord | ProvenanceMismatch | InvalidState | PartialBinding | BoundWhileIncomplete
    | UsernameReusable | UsernameRetained | RecordChanged | WrongExecution | NotComplete
    | IdentityMissing | IdentityReusable | IdentityTaken | IdentityChanged | IdentityUnbound
    | PartialPair | StateWithoutPair | RolesShareUsername

  type Environ = map<string, string>

  /** What an operation decided: the variables to write, and what it returns. */
  datatype Plan<+T> = Plan(updates: seq<Assignment>, value: T)

  datatype Outcome<+T> = Outcome(result: Result<T, StoreError>, file: Option<string>)

  // ---------------------------------------------------------------- the file

  /** Universal newline translation of `read_text`. */
  function Translate(raw: string): string {
    if raw == "" then ""
    else if raw[0] == '\r' then
      "\n" + Translate(if |raw| > 1 && raw[1] == '\n' then raw[2..] else raw[1..])
    else [raw[0]] + Translate(raw[1..])
  }

  /** The decoded text; a missing file reads like an empty one. */
  function Content(file: Option<string>): string {
    match file case Some(raw) => Translate(raw) case None => ""
  }

  function ReadFile(file: Option<string>): Result<map<string, string>, StoreError> {
    match ReadText(Content(file))
    case Success(values) => Success(values)
    case Failure(e) => Failure(Unreadable(e))
  }

  function WriteFile(file: Option<string>, updates: seq<Assignment>): Option<string> {
    Some(UpdatedText(Content(file), updates))
  }

  function Commit<T>(file: Option<string>, decision: Result<Plan<T>, StoreError>): Outcome<T> {
    match decision
    case Failure(e) => Outcome(Failure(e), file)
    case Success(plan) => Outcome(Success(plan.value), if plan.updates == [] then file
                                    else WriteFile(file, plan.updates))
  }

  // ---------------------------------------------------------------- values and names

  function Get(values: map<string, string>, name: string): string {
    if name in values then Strip(values[name]) else ""
  }

  function Stored(values: map<string, string>, prefix: string, f: Field): string {
    Get(values, VariableName(prefix, f))
  }

  datatype FieldValue = FieldValue(field: Field, value: string)

  function FieldUpdates(prefix: string, fields: seq<FieldValue>): seq<Assignment> {
    if fields == [] then []
    else [Assignment(VariableName(prefix, fields[0].field), fields[0].value)] + FieldUpdates(prefix, fields[1..])
  }

  function NamesOf(browser: BrowserConfig, role: Role): RoleNames {
    match role
    case Primary => RoleNames(browser.primaryUsername, browser.primaryPassword, "BA_PRIMARY_TEST_ACCOUNT_STATE")
    case Secondary => RoleNames(browser.secondaryUsername, browser.secondaryPassword, "BA_SECONDARY_TEST_ACCOUNT_STATE")
    case Admin => RoleNames(browser.adminUsername, browser.adminPassword, "BA_ADMIN_TEST_ACCOUNT_STATE")
  }

  function StateText(state: SavedState): string {
    match state case External => "external" case Pending => "pending" case Complete => "complete"
  }

  function StateOf(text: string): SavedState {
    if text == "complete" then Complete else Pending
  }

  function NonEmpty(s: string): Option<string> {
    if s == "" then None else Some(s)
  }

  predicate ExactLocal(config: EnvironmentConfig) {
    config.name == "local" && config.environmentType == "local" && config.origin == LOCAL_ORIGIN
  }

  // ---------------------------------------------------------------- distinct usernames

  /** The username a reusable role resolves to: a complete environment pair wins over a saved one. */
  function RoleUsername(names: RoleNames, environ: Environ, values: map<string, string>): Option<string> {
    var username, password := Get(environ, names.username), Get(environ, names.password);
    if username != "" && password != "" then Some(username)
    else if username != "" || password != "" then None
    else if Get(values, names.username) == "" || Get(values, names.password) == "" then None
    else Some(Get(values, names.username))
  }

  predicate EndsWith(s: string, ending: string) {
    |ending| <= |s| && s[|s| - |ending|..] == ending
  }

  /** Some other disposable record already holds `value` in a variable with this suffix. */
  predicate Retained(values: map<string, string>, f: Field, own: string, value: string) {
    exists name :: name in values && RECORD_PREFIX <= name && EndsWith(name, Suffix(f))
                   && name != own && Strip(values[name]) == value
  }

  /** `_ensure_disposable_username_is_distinct` */
  function UsernameConflict(browser: Option<BrowserConfig>, environ: Environ, values: map<string, string>,
                            prefix: string, username: string): Option<StoreError> {
    if browser.None? then Some(NoBrowserSettings)
    else if exists role :: RoleUsername(NamesOf(browser.value, role), environ, values) == Some(username)
    then Some(UsernameReusable)
    else if Retained(values, Username, VariableName(prefix, Username), username) then Some(UsernameRetained)
    else None
  }

  // ---------------------------------------------------------------- disposable records

  predicate AnyStored(values: map<string, string>, prefix: string) {
    exists f: Field :: Stored(values, prefix, f) != ""
  }

  function SavedTarget(values: map<string, string>, prefix: string): TargetRecord {
    TargetRecord(
      Stored(values, prefix, RunId), Stored(values, prefix, ScenarioId),
      Credentials(Stored(values, prefix, Username), Stored(values, prefix, Password)),
      StateOf(Stored(values, prefix, AccountState)),
      NonEmpty(Stored(values, prefix, IdpSubject)), NonEmpty(Stored(values, prefix, UserId)))
  }

  function SavedTargetError(values: map<string, string>, prefix: string, runId: string,
                            scenarioId: string): Option<StoreError> {
    var subject, state := Stored(values, prefix, IdpSubject), Stored(values, prefix, AccountState);
    if Stored(values, prefix, RunId) == "" || Stored(values, prefix, ScenarioId) == ""
       || Stored(values, prefix, Username) == "" || Stored(values, prefix, Password) == "" then Some(IncompleteRecord)
    else if Stored(values, prefix, RunId) != runId || Stored(values, prefix, ScenarioId) != scenarioId
    then Some(ProvenanceMismatch)
    else if state != "pending" && state != "complete" then Some(InvalidState)
    else if (subject == "") != (Stored(values, prefix, UserId) == "") then Some(PartialBinding)
    else if subject != "" && state != "complete" then Some(BoundWhileIncomplete)
    else None
  }

  function NewTargetFields(runId: string, scenarioId: string, c: Credentials): seq<FieldValue> {
    [FieldValue(RunId, runId), FieldValue(ScenarioId, scenarioId), FieldValue(Username, c.username),
     FieldValue(Password, c.password), FieldValue(AccountState, "pending")]
  }

  /** The decision of `load_or_create_disposable_credentials` on the values it read. */
  function LoadTargetPlan(config: EnvironmentConfig, environ: Environ, values: map<string, string>, prefix: string,
                          runId: string, scenarioId: string, generated: Credentials): Result<Plan<TargetRecord>,
                          StoreError> {
    if AnyStored(values, prefix) then
      match SavedTargetError(values, prefix, runId, scenarioId)
      case Some(e) => Failure(e)
      case None =>
        (match UsernameConflict(config.browser, environ, values, prefix, Stored(values, prefix, Username))
        case Some(e) => Failure(e)
        case None => Success(Plan([], SavedTarget(values, prefix))))
    else
      match UsernameConflict(config.browser, environ, values, prefix, generated.username)
      case Some(e) => Failure(e)
      case None =>
        Success(Plan(FieldUpdates(prefix, NewTargetFields(runId, scenarioId, generated)),
                     TargetRecord(runId, scenarioId, generated, Pending, None, None)))
  }

  /** `_require_saved_disposable_record` */
  predicate MatchesSaved(values: map<string, string>, prefix: string, record: TargetRecord) {
    && Stored(values, prefix, RunId) == record.runId
    && Stored(values, prefix, ScenarioId) == record.scenarioId
    && Stored(values, prefix, Username) == record.credentials.username
    && Stored(values, prefix, Password) == record.credentials.password
    && Stored(values, prefix, AccountState) == StateText(record.state)
  }

  function MarkTargetPlan(values: map<string, string>, prefix: string,
                          record: TargetRecord): Result<Plan<TargetRecord>, StoreError> {
    if !MatchesSaved(values, prefix, record) then Failure(RecordChanged)
    else Success(Plan(FieldUpdates(prefix, [FieldValue(AccountState, "complete")]), record.(state := Complete)))
  }

  datatype Identity = Identity(subject: string, userId: string)

  /** The identities of the reusable roles, which no disposable record may be bound to. */
  datatype Reusable = Reusable(subjects: set<string>, userIds: set<string>)

  function BindGuard(record: TargetRecord, runId: string, scenarioId: string, identity: Identity,
                     reusable: Reusable): Option<StoreError> {
    if record.runId != runId || record.scenarioId != scenarioId then Some(WrongExecution)
    else if record.state != Complete then Some(NotComplete)
    else if identity.subject == "" || identity.userId == "" then Some(IdentityMissing)
    else if identity.subject in reusable.subjects || identity.userId in reusable.userIds then Some(IdentityReusable)
    else None
  }

  function BindPlan(values: map<string, string>, prefix: string, record: TargetRecord,
                    identity: Identity): Result<Plan<TargetRecord>, StoreError> {
    if !MatchesSaved(values, prefix, record) then Failure(RecordChanged)
    else if Retained(values, IdpSubject, VariableName(prefix, IdpSubject), identity.subject)
         || Retained(values, UserId, VariableName(prefix, UserId), identity.userId) then Failure(IdentityTaken)
    else if (record.subject.Some? && record.subject.value != identity.subject)
         || (record.userId.Some? && record.userId.value != identity.userId) then Failure(IdentityChanged)
    else Success(Plan(FieldUpdates(prefix,
                                   [FieldValue(IdpSubject, identity.subject), FieldValue(UserId, identity.userId)]),
                      record.(state := Complete, subject := Some(identity.subject), userId := Some(identity.userId))))
  }

  function LoadTarget(config: EnvironmentConfig, environ: Environ, file: Option<string>,
                      runId: string, scenarioId: string, generated: Credentials): Outcome<TargetRecord> {
    if !ExactLocal(config) then Outcome(Failure(NotExactLocal), file)
    else match RecordPrefix(runId, scenarioId)
      case Failure(e) => Outcome(Failure(Naming(e)), file)
      case Success(prefix) =>
        (match ReadFile(file)
        case Failure(e) => Outcome(Failure(e), file)
        case Success(values) =>
          Commit(file, LoadTargetPlan(config, environ, values, prefix, runId, scenarioId, generated)))
  }

  function MarkTarget(config: EnvironmentConfig, file: Option<string>, record: TargetRecord): Outcome<TargetRecord> {
    if !ExactLocal(config) then Outcome(Failure(NotExactLocal), file)
    else match RecordPrefix(record.runId, record.scenarioId)
      case Failure(e) => Outcome(Failure(Naming(e)), file)
      case Success(prefix) =>
        (match ReadFile(file)
        case Failure(e) => Outcome(Failure(e), file)
        case Success(values) => Commit(file, MarkTargetPlan(values, prefix, record)))
  }

  function BindTarget(config: EnvironmentConfig, file: Option<string>, record: TargetRecord, runId: string,
                      scenarioId: string,
                      identity: Identity, reusable: Reusable): Outcome<TargetRecord> {
    if !ExactLocal(config) then Outcome(Failure(NotExactLocal), file)
    else match BindGuard(record, runId, scenarioId, identity, reusable)
      case Some(e) => Outcome(Failure(e), file)
      case None =>
        (match RecordPrefix(record.runId, record.scenarioId)
        case Failure(e) => Outcome(Failure(Naming(e)), file)
        case Success(prefix) =>
          (match ReadFile(file)
          case Failure(e) => Outcome(Failure(e), file)
          case Success(values) => Commit(file, BindPlan(values, prefix, record, identity))))
  }

  /** `require_owned_disposable_identity` */
  function OwnershipError(record: TargetRecord, runId: string, scenarioId: string, identity: Identity,
                          reusable: Reusable): Option<StoreError> {
    if record.runId != runId || record.scenarioId != scenarioId then Some(WrongExecution)
    else if record.state != Complete || record.subject.None? || record.userId.None? then Some(IdentityUnbound)
    else if record.subject.value != identity.subject || record.userId.value != identity.userId
      then Some(IdentityChanged)
    else if identity.subject in reusable.subjects || identity.userId in reusable.userIds then Some(IdentityReusable)
    else None
  }

  // ---------------------------------------------------------------- reusable roles

  /** `_ensure_distinct_role_username` */
  predicate RoleShared(browser: BrowserConfig, environ: Environ, values: map<string, string>, role: Role,
                       username: string) {
    exists other :: other != role && RoleUsername(NamesOf(browser, other), environ, values) == Some(username)
  }

  /** The dictionary of a new pair: of configured names that coincide the last value stands. */
  function NewRoleUpdates(names: RoleNames, c: Credentials): seq<Assignment> {
    Put(Put([Assignment(names.username, c.username)], Assignment(names.password, c.password)),
        Assignment(names.state, "pending"))
  }

  /** The part of `load_or_create_local_credentials` that follows the environment checks. */
  function LoadRolePlan(browser: BrowserConfig, environ: Environ, values: map<string, string>, role: Role,
                        generated: Credentials): Result<Plan<RoleRecord>, StoreError> {
    var names := NamesOf(browser, role);
    var username, password := Get(values, names.username), Get(values, names.password);
    var state := if names.state in values then Get(values, names.state) else "complete";
    if (username == "") != (password == "") then Failure(PartialPair)
    else if username != "" then
      if state != "pending" && state != "complete" then Failure(InvalidState)
      else if RoleShared(browser, environ, values, role, username) then Failure(RolesShareUsername)
      else Success(Plan([], RoleRecord(Credentials(username, password), StateOf(state))))
    else if Get(values, names.state) != "" then Failure(StateWithoutPair)
    else if RoleShared(browser, environ, values, role, generated.username) then Failure(RolesShareUsername)
    else Success(Plan(NewRoleUpdates(names, generated), RoleRecord(generated, Pending)))
  }

  function LoadRole(config: EnvironmentConfig, environ: Environ, file: Option<string>, role: Role,
                    generated: Credentials): Outcome<RoleRecord> {
    if !ExactLocal(config) then Outcome(Failure(NotExactLocal), file)
    else if config.browser.None? then Outcome(Failure(NoBrowserSettings), file)
    else
      var browser := config.browser.value;
      var names := NamesOf(browser, role);
      var supplied := Credentials(Get(environ, names.username), Get(environ, names.password));
      if (supplied.username == "") != (supplied.password == "") then Outcome(Failure(PartialPair), file)
      else match ReadFile(file)
        case Failure(e) => Outcome(Failure(e), file)
        case Success(values) =>
          if supplied.username != "" then
            if RoleShared(browser, environ, values, role, supplied.username)
                 then Outcome(Failure(RolesShareUsername), file)
            else Outcome(Success(RoleRecord(supplied, External)), file)
          else Commit(file, LoadRolePlan(browser, environ, values, role, generated))
  }

  function MarkRolePlan(names: RoleNames, values: map<string, string>, c: Credentials): Result<Plan<()>, StoreError> {
    if Get(values, names.username) != c.username || Get(values, names.password) != c.password
         then Failure(RecordChanged)
    else Success(Plan([Assignment(names.state, "complete")], ()))
  }

  function MarkRole(config: EnvironmentConfig, file: Option<string>, role: Role, c: Credentials): Outcome<()> {
    if !ExactLocal(config) then Outcome(Failure(NotExactLocal), file)
    else if config.browser.None? then Outcome(Failure(NoBrowserSettings), file)
    else match ReadFile(file)
      case Failure(e) => Outcome(Failure(e), file)
      case Success(values) => Commit(file, MarkRolePlan(NamesOf(config.browser.value, role), values, c))
  }

  // ---------------------------------------------------------------- the file as an object

  /** `.env.local`: every method reads it afresh and replaces it at most once. */
  class CredentialFile {
    var file: Option<string>

    constructor (initial: Option<string>)
      ensures file == initial
    {
      file := initial;
    }

    method Read() returns (r: Result<map<string, string>, StoreError>)
      ensures r == ReadFile(file)
    {
      var values := ReadAssignments(Content(file));
      match values
      case Success(v) => r := Success(v);
      case Failure(e) => r := Failure(Unreadable(e));
    }

    method Update(updates: seq<Assignment>)
      modifies this
      ensures file == WriteFile(old(file), updates)
    {
      var text := RewriteText(Content(file), updates);
      file := Some(text);
    }

    method LoadOrCreateTarget(config: EnvironmentConfig, environ: Environ, runId: string, scenarioId: string,
                              generated: Credentials)
      returns (r: Result<TargetRecord, StoreError>)
      modifies this
      ensures Outcome(r, file) == LoadTarget(config, environ, old(file), runId, scenarioId, generated)
    {
      if !ExactLocal(config) {
        return Failure(NotExactLocal);
      }
      var prefix := RecordPrefix(runId, scenarioId);
      if prefix.Failure? {
        return Failure(Naming(prefix.error));
      }
      var values := Read();
      if values.Failure? {
        return Failure(values.error);
      }
      var plan := LoadTargetPlan(config, environ, values.value, prefix.value, runId, scenarioId, generated);
      if plan.Failure? {
        return Failure(plan.error);
      }
      if plan.value.updates != [] {
        Update(plan.value.updates);
      }
      return Success(plan.value.value);
    }

    method MarkTargetComplete(config: EnvironmentConfig, record: TargetRecord) returns (r: Result<TargetRecord,
            StoreError>)
      modifies this
      ensures Outcome(r, file) == MarkTarget(config, old(file), record)
    {
      if !ExactLocal(config) {
        return Failure(NotExactLocal);
      }
      var prefix := RecordPrefix(record.runId, record.scenarioId);
      if prefix.Failure? {
        return Failure(Naming(prefix.error));
      }
      var values := Read();
      if values.Failure? {
        return Failure(values.error);
      }
      if !MatchesSaved(values.value, prefix.value, record) {
        return Failure(RecordChanged);
      }
      Update(FieldUpdates(prefix.value, [FieldValue(AccountState, "complete")]));
      return Success(record.(state := Complete));
    }

    method BindIdentity(config: EnvironmentConfig, record: TargetRecord, runId: string, scenarioId: string,
                        identity: Identity, reusable: Reusable) returns (r: Result<TargetRecord, StoreError>)
      modifies this
      ensures Outcome(r, file) == BindTarget(config, old(file), record, runId, scenarioId, identity, reusable)
    {
      if !ExactLocal(config) {
        return Failure(NotExactLocal);
      }
      var refused := BindGuard(record, runId, scenarioId, identity, reusable);
      if refused.Some? {
        return Failure(refused.value);
      }
      var prefix := RecordPrefix(record.runId, record.scenarioId);
      if prefix.Failure? {
        return Failure(Naming(prefix.error));
      }
      var values := Read();
      if values.Failure? {
        return Failure(values.error);
      }
      var plan := BindPlan(values.value, prefix.value, record, identity);
      if plan.Failure? {
        return Failure(plan.error);
      }
      Update(plan.value.updates);
      return Success(plan.value.value);
    }

    method LoadOrCreateRole(config: EnvironmentConfig, environ: Environ, role: Role, generated: Credentials)
      returns (r: Result<RoleRecord, StoreError>)
      modifies this
      ensures Outcome(r, file) == LoadRole(config, environ, old(file), role, generated)
    {
      if !ExactLocal(config) {
        return Failure(NotExactLocal);
      }
      if config.browser.None? {
        return Failure(NoBrowserSettings);
      }
      var names := NamesOf(config.browser.value, role);
      var supplied := Credentials(Get(environ, names.username), Get(environ, names.password));
      if (supplied.username == "") != (supplied.password == "") {
        return Failure(PartialPair);
      }
      var values := Read();
      if values.Failure? {
        return Failure(values.error);
      }
      if supplied.username != "" {
        if RoleShared(config.browser.value, environ, values.value, role, supplied.username) {
          return Failure(RolesShareUsername);
        }
        return Success(RoleRecord(supplied, External));
      }
      var plan := LoadRolePlan(config.browser.value, environ, values.value, role, generated);
      if plan.Failure? {
        return Failure(plan.error);
      }
      if plan.value.updates != [] {
        Update(plan.value.updates);
      }
      return Success(plan.value.value);
    }

    method MarkRoleComplete(config: EnvironmentConfig, role: Role, c: Credentials) returns (r: Result<(), StoreError>)
      modifies this
      ensures Outcome(r, file) == MarkRole(config, old(file), role, c)
    {
      if !ExactLocal(config) {
        return Failure(NotExactLocal);
      }
      if config.browser.None? {
        return Failure(NoBrowserSettings);
      }
      var names := NamesOf(config.browser.value, role);
      var values := Read();
      if values.Failure? {
        return Failure(values.error);
      }
      if Get(values.value, names.username) != c.username || Get(values.value, names.password) != c.password {
        return Failure(RecordChanged);
      }
      Update([Assignment(names.state, "complete")]);
      return Success(());
    }
  }
}
