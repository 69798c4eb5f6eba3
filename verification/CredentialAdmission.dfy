/** When loads and marks are accepted, and what they say about usernames shared between slots. */
module CredentialAdmission {
  import opened Wrappers
  import opened Text
  import opened CredentialCodec
  import opened CredentialRewrite
  import opened CredentialNames
  import opened CredentialStore
  import opened CredentialFacts
  import L = CredentialLifecycle
  import P = Provisioning

  // ---------------------------------------------------------------- disposable targets

  /** No reusable role resolves to the username and no other record holds it. */
  ghost predicate UsernameFree(browser: BrowserConfig, environ: Environ, values: map<string, string>, prefix: string,
                               username: string) {
    && (forall role :: RoleUsername(NamesOf(browser, role), environ, values) != Some(username))
    && !Retained(values, Username, VariableName(prefix, Username), username)
  }

  /** A well-formed record of this very execution. */
  predicate OwnRecord(values: map<string, string>, prefix: string, runId: string, scenarioId: string) {
    && L.WellFormed(values, prefix)
    && Stored(values, prefix, RunId) == runId && Stored(values, prefix, ScenarioId) == scenarioId
  }

  /**
   A load succeeds if and only if its username is free and whatever is saved under its names is a well-formed
   record of this execution; a refused load writes nothing.
   */
  lemma LoadTargetIff(config: EnvironmentConfig, environ: Environ, file: Option<string>, runId: string,
                      scenarioId: string, c: Credentials)
    requires ExactLocal(config) && config.browser.Some? && RecordPrefix(runId, scenarioId).Success?
             && ReadFile(file).Success?
    ensures var prefix, values := RecordPrefix(runId, scenarioId).value, ReadFile(file).value;
            var saved := AnyStored(values, prefix);
            var username := if saved then Stored(values, prefix, Username) else c.username;
            var o := LoadTarget(config, environ, file, runId, scenarioId, c);
            && (o.result.Success? <==>
                  && UsernameFree(config.browser.value, environ, values, prefix, username)
                  && (saved ==> OwnRecord(values, prefix, runId, scenarioId)))
            && (o.result.Success? ==> o.result.value.credentials.username == username)
            && (o.result.Failure? || saved ==> o.file == file)
  {
    hide ReadFile, Stored, Retained, RecordPrefix, RoleUsername, FieldUpdates;
    L.ProvenanceNonEmpty(runId, scenarioId);
    var prefix, values := RecordPrefix(runId, scenarioId).value, ReadFile(file).value;
    if AnyStored(values, prefix) {
      SavedErrorIff(values, prefix, runId, scenarioId);
    }
  }

  lemma SavedErrorIff(values: map<string, string>, prefix: string, runId: string, scenarioId: string)
    requires AnyStored(values, prefix) && RecordPrefix(runId, scenarioId) == Success(prefix)
    ensures SavedTargetError(values, prefix, runId, scenarioId).None? <==> OwnRecord(values, prefix, runId, scenarioId)
  {
    hide Stored, RecordPrefix;
  }

  // ---------------------------------------------------------------- reusable roles

  /** No two roles resolve to one username. */
  ghost predicate RolesApart(browser: BrowserConfig, environ: Environ, values: map<string, string>) {
    forall role, other | role != other && RoleUsername(NamesOf(browser, role), environ, values).Some? ::
      RoleUsername(NamesOf(browser, role), environ, values) != RoleUsername(NamesOf(browser, other), environ, values)
  }

  /** A role keeps resolving to the username it resolved to. */
  ghost predicate RolesKept(browser: BrowserConfig, environ: Environ, before: map<string, string>, after: map<string,
                            string>) {
    forall role | RoleUsername(NamesOf(browser, role), environ, before).Some? ::
      RoleUsername(NamesOf(browser, role), environ, after) == RoleUsername(NamesOf(browser, role), environ, before)
  }

  lemma NewPairReads(browser: BrowserConfig, values: map<string, string>, role: Role, c: Credentials)
    requires NamesSeparate(browser) && P.PlainCredentials(c)
    ensures var updates := NewRoleUpdates(NamesOf(browser, role), c);
            var after := values + ToMap(updates);
            && Writable(updates) && P.RoleWrites(browser, role, updates)
            && Get(after, NamesOf(browser, role).username) == c.username
            && Get(after, NamesOf(browser, role).password) == c.password
            && NamesOf(browser, role).state in after && Get(after, NamesOf(browser, role).state) == "pending"
  {
    hide NamesSeparate, Plain, ValidName, Strip, NamesOf, NewRoleUpdates;
    var updates := NewRoleUpdates(NamesOf(browser, role), c);
    RoleNamesApart(browser, role, role);
    L.PlainStates();
    NewPairFacts(NamesOf(browser, role), c);
    P.PlainStripped(c.username);
    P.PlainStripped(c.password);
    P.PlainStripped("pending");
  }

  /** A write to one role's variables leaves what the other roles resolve to. */
  lemma OtherRoleSame(browser: BrowserConfig, environ: Environ, values: map<string, string>, role: Role,
                      updates: seq<Assignment>, other: Role)
    requires NamesSeparate(browser) && P.RoleWrites(browser, role, updates) && other != role
    ensures RoleUsername(NamesOf(browser, other), environ, values + ToMap(updates))
              == RoleUsername(NamesOf(browser, other), environ, values)
  {
    hide NamesSeparate, NamesOf, Strip;
    RoleNamesApart(browser, other, role);
  }

  /** A load of one role changes nothing that the other roles resolve to. */
  lemma OthersSame(config: EnvironmentConfig, environ: Environ, file: Option<string>, role: Role, c: Credentials)
    requires config.browser.Some? && NamesSeparate(config.browser.value) && ReadFile(file).Success?
             && P.PlainCredentials(c)
    requires LoadRole(config, environ, file, role, c).result.Success?
    ensures var browser, o := config.browser.value, LoadRole(config, environ, file, role, c);
            && ReadFile(o.file).Success?
            && forall other | other != role ::
                 RoleUsername(NamesOf(browser, other), environ, ReadFile(o.file).value)
                 == RoleUsername(NamesOf(browser, other), environ, ReadFile(file).value)
  {
    hide NamesSeparate, ReadFile, NamesOf, Get, WriteFile, NewRoleUpdates, Writable, P.RoleWrites, P.PlainCredentials;
    var browser, values := config.browser.value, ReadFile(file).value;
    var names := NamesOf(browser, role);
    if Get(environ, names.username) == "" && Get(values, names.username) == "" {
      var updates := NewRoleUpdates(names, c);
      NewPairReads(browser, values, role, c);
      CommitReads(file, Plan(updates, RoleRecord(c, Pending)));
      NewUpdatesSome(names, c);
      forall other | other != role
        ensures RoleUsername(NamesOf(browser, other), environ, values + ToMap(updates))
                  == RoleUsername(NamesOf(browser, other), environ, values)
      {
        OtherRoleSame(browser, environ, values, role, updates, other);
      }
    }
  }

  /**
   A role that was loaded resolves to the username it was given, no other role resolves to it, and no role
   changed the username it resolves to.
   */
  lemma LoadedRoleDistinct(config: EnvironmentConfig, environ: Environ, file: Option<string>, role: Role,
                           c: Credentials)
    requires config.browser.Some? && NamesSeparate(config.browser.value) && ReadFile(file).Success?
             && P.PlainCredentials(c)
    requires LoadRole(config, environ, file, role, c).result.Success?
    ensures var browser, o := config.browser.value, LoadRole(config, environ, file, role, c);
            var username := o.result.value.credentials.username;
            && ReadFile(o.file).Success?
            && var after := ReadFile(o.file).value;
            && RoleUsername(NamesOf(browser, role), environ, after) == Some(username)
            && (forall other :: other != role
                                ==> RoleUsername(NamesOf(browser, other), environ, after) != Some(username))
            && RolesKept(browser, environ, ReadFile(file).value, after)
  {
    hide NamesSeparate, ReadFile, NamesOf, Get, WriteFile, NewRoleUpdates, Writable, P.RoleWrites, P.PlainCredentials;
    var browser, values := config.browser.value, ReadFile(file).value;
    var names := NamesOf(browser, role);
    OthersSame(config, environ, file, role, c);
    if Get(environ, names.username) == "" && Get(values, names.username) == "" {
      var updates := NewRoleUpdates(names, c);
      NewPairReads(browser, values, role, c);
      CommitReads(file, Plan(updates, RoleRecord(c, Pending)));
      NewUpdatesSome(names, c);
      PlainNonEmpty(c);
    }
  }

  lemma NewUpdatesSome(names: RoleNames, c: Credentials)
    ensures NewRoleUpdates(names, c) != []
  {
    NewPairFacts(names, c);
  }

  lemma PlainNonEmpty(c: Credentials)
    requires P.PlainCredentials(c)
    ensures c.username != "" && c.password != ""
  {
  }

  /**
   What a load returns without the environment is what the file then holds, with the state it holds; and a
   load writes only where all of the role's variables were blank.
   */
  lemma LoadedRoleIsSaved(config: EnvironmentConfig, environ: Environ, file: Option<string>, role: Role, c: Credentials)
    requires config.browser.Some? && NamesSeparate(config.browser.value) && ReadFile(file).Success?
             && P.PlainCredentials(c)
    requires LoadRole(config, environ, file, role, c).result.Success?
    ensures var names, o := NamesOf(config.browser.value, role), LoadRole(config, environ, file, role, c);
            && ReadFile(o.file).Success?
            && var before, after, record := ReadFile(file).value, ReadFile(o.file).value, o.result.value;
            && (record.state == External <==> Get(environ, names.username) != "")
            && (record.state != External ==>
                  record.credentials == Credentials(Get(after, names.username), Get(after, names.password)))
            && (record.state == Pending ==> names.state in after && Get(after, names.state) == "pending")
            && (record.state == Complete ==> names.state !in after || Get(after, names.state) == "complete")
            && (o.file != file ==> Get(before, names.username) == "" && Get(before, names.password) == ""
                                   && Get(before, names.state) == "")
  {
    hide NamesSeparate, ReadFile, NamesOf, Get, WriteFile, NewRoleUpdates, Writable, P.RoleWrites, P.PlainCredentials,
      RoleShared;
    var browser, values := config.browser.value, ReadFile(file).value;
    var names := NamesOf(browser, role);
    if Get(environ, names.username) == "" && Get(values, names.username) == "" {
      var updates := NewRoleUpdates(names, c);
      NewPairReads(browser, values, role, c);
      CommitReads(file, Plan(updates, RoleRecord(c, Pending)));
      NewUpdatesSome(names, c);
    }
  }

  /** A mark is accepted exactly when the file still holds the pair, and then only the role's state changes. */
  lemma MarkRoleIff(config: EnvironmentConfig, file: Option<string>, role: Role, c: Credentials)
    requires ExactLocal(config) && config.browser.Some? && NamesSeparate(config.browser.value)
             && ReadFile(file).Success?
    ensures var names, o := NamesOf(config.browser.value, role), MarkRole(config, file, role, c);
            var values := ReadFile(file).value;
            && (o.result.Success? <==> Get(values, names.username) == c.username
                                       && Get(values, names.password) == c.password)
            && (o.result.Success? ==> ReadFile(o.file) == Success(values[names.state := "complete"]))
            && (o.result.Failure? ==> o.file == file)
  {
    hide NamesSeparate, ReadFile, NamesOf, Get, WriteFile, Plain, ValidName;
    var names, values := NamesOf(config.browser.value, role), ReadFile(file).value;
    if Get(values, names.username) == c.username && Get(values, names.password) == c.password {
      var updates := [Assignment(names.state, "complete")];
      RoleNamesApart(config.browser.value, role, role);
      L.PlainStates();
      ToMapCons(updates[0], []);
      assert [updates[0]] + [] == updates && ToMap([]) == map[];
      CommitReads(file, Plan(updates, ()));
      assert values + map[][names.state := "complete"] == values[names.state := "complete"];
    }
  }

  // ---------------------------------------------------------------- every run of role calls

  datatype RoleCall = LoadCall(role: Role, generated: Credentials) | MarkCall(role: Role, credentials: Credentials)

  function AfterCall(config: EnvironmentConfig, environ: Environ, file: Option<string>,
                     call: RoleCall): Option<string> {
    match call
    case LoadCall(role, c) => LoadRole(config, environ, file, role, c).file
    case MarkCall(role, c) => MarkRole(config, file, role, c).file
  }

  function RoleRun(config: EnvironmentConfig, environ: Environ, file: Option<string>,
                   calls: seq<RoleCall>): Option<string>
    decreases |calls|
  {
    if calls == [] then file else RoleRun(config, environ, AfterCall(config, environ, file, calls[0]), calls[1..])
  }

  predicate PlainCall(call: RoleCall) {
    call.LoadCall? ==> P.PlainCredentials(call.generated)
  }

  lemma RoleCallKeepsApart(config: EnvironmentConfig, environ: Environ, file: Option<string>, call: RoleCall)
    requires config.browser.Some? && NamesSeparate(config.browser.value) && ReadFile(file).Success? && PlainCall(call)
    requires RolesApart(config.browser.value, environ, ReadFile(file).value)
    ensures var after := AfterCall(config, environ, file, call);
            && ReadFile(after).Success? && RolesApart(config.browser.value, environ, ReadFile(after).value)
            && RolesKept(config.browser.value, environ, ReadFile(file).value, ReadFile(after).value)
  {
    hide NamesSeparate, ReadFile, NamesOf, RoleUsername, WriteFile, LoadRolePlan, MarkRolePlan;
    var browser, values := config.browser.value, ReadFile(file).value;
    match call {
      case LoadCall(role, c) =>
        var o := LoadRole(config, environ, file, role, c);
        if o.result.Success? {
          LoadedRoleDistinct(config, environ, file, role, c);
          OthersSame(config, environ, file, role, c);
        }
      case MarkCall(role, c) =>
        if ExactLocal(config) && MarkRole(config, file, role, c).result.Success? {
          MarkRoleIff(config, file, role, c);
          forall other
            ensures RoleUsername(NamesOf(browser, other), environ, values[NamesOf(browser, role).state := "complete"])
                 == RoleUsername(NamesOf(browser, other), environ, values)
          {
            StateUnread(browser, environ, values, role, other);
          }
        }
    }
  }

  /** Roles resolve by their pairs alone. */
  lemma StateUnread(browser: BrowserConfig, environ: Environ, values: map<string, string>, role: Role, other: Role)
    requires NamesSeparate(browser)
    ensures RoleUsername(NamesOf(browser, other), environ, values[NamesOf(browser, role).state := "complete"])
         == RoleUsername(NamesOf(browser, other), environ, values)
  {
    hide NamesSeparate, NamesOf, Strip;
    RoleNamesApart(browser, other, role);
    RoleNamesApart(browser, role, role);
  }

  /** Over every run of loads and marks, no two roles come to share a username and none changes its own. */
  lemma {:induction false} RolesStayApart(config: EnvironmentConfig, environ: Environ, file: Option<string>,
                                          calls: seq<RoleCall>)
    requires config.browser.Some? && NamesSeparate(config.browser.value) && ReadFile(file).Success?
    requires forall call :: call in calls ==> PlainCall(call)
    requires RolesApart(config.browser.value, environ, ReadFile(file).value)
    ensures var after := RoleRun(config, environ, file, calls);
            && ReadFile(after).Success? && RolesApart(config.browser.value, environ, ReadFile(after).value)
            && RolesKept(config.browser.value, environ, ReadFile(file).value, ReadFile(after).value)
    decreases |calls|
  {
    hide NamesSeparate, ReadFile, NamesOf, RoleUsername, AfterCall, PlainCall, RolesApart;
    if calls != [] {
      RoleCallKeepsApart(config, environ, file, calls[0]);
      RolesStayApart(config, environ, AfterCall(config, environ, file, calls[0]), calls[1..]);
    }
  }
}
