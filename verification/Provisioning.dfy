/**
 The crash-retry provisioning protocol: persist credentials, sign up (or log in), mark complete. A call may
 stop before, during or after any of its steps; the identity provider is an arbitrary environment.
 */
module Provisioning {
  import opened Wrappers
  import opened Text
  import opened CredentialCodec
  import opened CredentialRewrite
  import opened CredentialNames
  import opened CredentialStore
  import opened CredentialFacts
  import opened CredentialLifecycle

  /** A place credentials are kept for: one execution's disposable target, or a reusable role. */
  datatype Slot = Target(runId: string, scenarioId: string) | RoleSlot(role: Role)

  /** What a call carries from the load to the mark. */
  datatype Job = TargetJob(record: TargetRecord) | RoleJob(role: Role, credentials: Credentials)

  datatype Phase = Idle | SigningUp(job: Job) | LoggingIn(job: Job, thenMark: bool) | Marking(job: Job)

  datatype World = World(
    file: Option<string>,
    accounts: map<string, string>,               // every account of the identity provider
    created: set<Credentials>,                   // the accounts signup created for the harness
    persisted: set<(Slot, Credentials)>,         // pairs a load created or returned
    submitted: set<(Slot, Credentials)>,         // pairs handed to signup
    marked: set<Slot>,                           // slots this protocol marked complete
    phase: Phase)

  datatype Event =
    | AcquireTarget(environ: Environ, runId: string, scenarioId: string, generated: Credentials)
    | AcquireRole(environ: Environ, role: Role, generated: Credentials)
    | SignupReturns
    | SignupReportsExisting
    | SignupFails(creates: bool)
    | LoginReturns
    | LoginFails
    | Mark
    | Crash
    | BindIdentity(record: TargetRecord, runId: string, scenarioId: string, identity: Identity, reusable: Reusable)
    | OthersRegister(username: string, password: string)

  function SlotOf(job: Job): Slot {
    match job
    case TargetJob(record) => Target(record.runId, record.scenarioId)
    case RoleJob(role, _) => RoleSlot(role)
  }

  function CredentialsOf(job: Job): Credentials {
    match job case TargetJob(record) => record.credentials case RoleJob(_, c) => c
  }

  predicate HasAccount(accounts: map<string, string>, c: Credentials) {
    c.username in accounts && accounts[c.username] == c.password
  }

  predicate PlainCredentials(c: Credentials) {
    PlainText(c.username) && PlainText(c.password)
  }

  /** `acquire_disposable_browser_target` up to its first call of the identity provider. */
  function StartTarget(config: EnvironmentConfig, w: World, environ: Environ, runId: string, scenarioId: string,
                       c: Credentials): World {
    if config.authMode != BrowserPreprovisioned || !config.allowMutation || !config.allowDestructive then w
    else
      var o := LoadTarget(config, environ, w.file, runId, scenarioId, c);
      match o.result
      case Failure(_) => w.(file := o.file)
      case Success(record) =>
        w.(file := o.file, persisted := w.persisted + {(Target(runId, scenarioId), record.credentials)},
           phase := if record.state == Complete then LoggingIn(TargetJob(record), false)
             else SigningUp(TargetJob(record)))
  }

  /** The local branch of `acquire_browser_session` up to its first call of the identity provider. */
  function StartRole(config: EnvironmentConfig, w: World, environ: Environ, role: Role, c: Credentials): World {
    if config.environmentType != "local" then w
    else
      var o := LoadRole(config, environ, w.file, role, c);
      match o.result
      case Failure(_) => w.(file := o.file)
      case Success(record) =>
        w.(file := o.file,
           persisted := if record.state == External then w.persisted
             else w.persisted + {(RoleSlot(role), record.credentials)},
           phase := if record.state != Pending then LoggingIn(RoleJob(role, record.credentials), false)
                    else SigningUp(RoleJob(role, record.credentials)))
  }

  function Submit(w: World, job: Job, creates: bool, phase: Phase): World {
    var c := CredentialsOf(job);
    w.(submitted := w.submitted + {(SlotOf(job), c)},
       accounts := if creates then w.accounts[c.username := c.password] else w.accounts,
       created := if creates then w.created + {c} else w.created,
       phase := phase)
  }

  function FinishMark(config: EnvironmentConfig, w: World, job: Job): World {
    match job
    case TargetJob(record) =>
      var o := MarkTarget(config, w.file, record);
      w.(file := o.file, marked := if o.result.Success? then w.marked + {SlotOf(job)} else w.marked, phase := Idle)
    case RoleJob(role, c) =>
      var o := MarkRole(config, w.file, role, c);
      w.(file := o.file, marked := if o.result.Success? then w.marked + {SlotOf(job)} else w.marked, phase := Idle)
  }

  /** The next world, or None when the event cannot happen now. */
  function Next(config: EnvironmentConfig, w: World, event: Event): Option<World> {
    match event
    case AcquireTarget(environ, runId, scenarioId, c) =>
      if w.phase.Idle? && Plain(runId) && Plain(scenarioId) && PlainCredentials(c)
      then Some(StartTarget(config, w, environ, runId, scenarioId, c)) else None
    case AcquireRole(environ, role, c) =>
      if w.phase.Idle? && PlainCredentials(c) then Some(StartRole(config, w, environ, role, c)) else None
    case SignupReturns =>
      if w.phase.SigningUp? && (CredentialsOf(w.phase.job).username !in w.accounts
                                || HasAccount(w.accounts, CredentialsOf(w.phase.job)))
      then Some(Submit(w, w.phase.job, CredentialsOf(w.phase.job).username !in w.accounts, Marking(w.phase.job)))
        else None
    case SignupReportsExisting =>
      if w.phase.SigningUp? && CredentialsOf(w.phase.job).username in w.accounts
      then Some(Submit(w, w.phase.job, false, LoggingIn(w.phase.job, true))) else None
    case SignupFails(creates) =>
      if w.phase.SigningUp? && (creates ==> CredentialsOf(w.phase.job).username !in w.accounts)
      then Some(Submit(w, w.phase.job, creates, Idle)) else None
    case LoginReturns =>
      if w.phase.LoggingIn? && HasAccount(w.accounts, CredentialsOf(w.phase.job))
      then Some(w.(phase := if w.phase.thenMark then Marking(w.phase.job) else Idle)) else None
    case LoginFails =>
      if w.phase.LoggingIn? then Some(w.(phase := Idle)) else None
    case Mark =>
      if w.phase.Marking? then Some(FinishMark(config, w, w.phase.job)) else None
    case Crash => Some(w.(phase := Idle))
    case BindIdentity(record, runId, scenarioId, identity, reusable) =>
      if w.phase.Idle? && Plain(identity.subject) && Plain(identity.userId)
      then Some(w.(file := BindTarget(config, w.file, record, runId, scenarioId, identity, reusable).file)) else None
    case OthersRegister(username, password) =>
      if username !in w.accounts then Some(w.(accounts := w.accounts[username := password])) else None
  }

  function Run(config: EnvironmentConfig, w: World, events: seq<Event>): Option<World>
    decreases |events|
  {
    if events == [] then Some(w)
    else match Next(config, w, events[0])
      case Some(w') => Run(config, w', events[1..])
      case None => None
  }

  /** The machine takes no freedom from its surroundings: at any point these may happen. */
  lemma AnythingMayHappen(config: EnvironmentConfig, w: World, username: string, password: string)
    ensures Next(config, w, Crash) == Some(w.(phase := Idle))
    ensures username !in w.accounts ==>
              Next(config, w, OthersRegister(username, password))
                == Some(w.(accounts := w.accounts[username := password]))
    ensures w.phase.SigningUp? ==>
              var c := CredentialsOf(w.phase.job);
              && Next(config, w, SignupFails(false)).Some?
              && (c.username !in w.accounts ==>
                   Next(config, w, SignupReturns).Some? && Next(config, w, SignupFails(true)).Some?)
              && (c.username in w.accounts && w.accounts[c.username] == c.password ==>
                    Next(config, w, SignupReturns).Some?)
              && (c.username in w.accounts ==> Next(config, w, SignupReportsExisting).Some?)
    ensures w.phase.LoggingIn? ==>
              var c := CredentialsOf(w.phase.job);
              && Next(config, w, LoginFails).Some?
              && (Next(config, w, LoginReturns).Some? <==>
                    c.username in w.accounts && w.accounts[c.username] == c.password)
  {
  }

  /** Where an acquisition is not permitted it does nothing at all. */
  lemma NothingOutside(config: EnvironmentConfig, w: World, environ: Environ, runId: string, scenarioId: string,
                       role: Role, c: Credentials)
    ensures config.authMode != BrowserPreprovisioned || !config.allowMutation || !config.allowDestructive ==>
              StartTarget(config, w, environ, runId, scenarioId, c) == w
    ensures config.environmentType != "local" ==> StartRole(config, w, environ, role, c) == w
  {
    hide LoadTarget, LoadRole;
  }

  // ---------------------------------------------------------------- what the file holds for a slot

  function SavedFor(browser: BrowserConfig, values: map<string, string>, slot: Slot): Option<Credentials> {
    match slot
    case Target(runId, scenarioId) =>
      (match RecordPrefix(runId, scenarioId)
      case Failure(_) => None
      case Success(p) =>
        if Stored(values, p, RunId) == runId && Stored(values, p, ScenarioId) == scenarioId
           && Stored(values, p, Username) != "" && Stored(values, p, Password) != ""
        then Some(Credentials(Stored(values, p, Username), Stored(values, p, Password))) else None)
    case RoleSlot(role) =>
      var names := NamesOf(browser, role);
      if Get(values, names.username) != "" && Get(values, names.password) != ""
      then Some(Credentials(Get(values, names.username), Get(values, names.password))) else None
  }

  predicate SavedComplete(browser: BrowserConfig, values: map<string, string>, slot: Slot) {
    match slot
    case Target(runId, scenarioId) =>
      RecordPrefix(runId, scenarioId).Success?
      && Stored(values, RecordPrefix(runId, scenarioId).value, AccountState) == "complete"
    case RoleSlot(role) =>
      NamesOf(browser, role).state in values ==> Get(values, NamesOf(browser, role).state) == "complete"
  }

  /** No slot loses or changes saved credentials, and no completed slot is reopened. */
  ghost predicate Retains(browser: BrowserConfig, before: map<string, string>, after: map<string, string>) {
    forall slot :: SavedFor(browser, before, slot).Some? ==>
      && SavedFor(browser, after, slot) == SavedFor(browser, before, slot)
      && (SavedComplete(browser, before, slot) ==> SavedComplete(browser, after, slot))
  }

  predicate JobSaved(browser: BrowserConfig, values: map<string, string>, job: Job) {
    && SavedFor(browser, values, SlotOf(job)) == Some(CredentialsOf(job))
    && (job.TargetJob? ==>
         && RecordPrefix(job.record.runId, job.record.scenarioId).Success?
         && MatchesSaved(values, RecordPrefix(job.record.runId, job.record.scenarioId).value, job.record))
  }

  ghost predicate PairsSaved(browser: BrowserConfig, values: map<string, string>, pairs: set<(Slot, Credentials)>) {
    forall slot, c :: (slot, c) in pairs ==> SavedFor(browser, values, slot) == Some(c)
  }

  ghost predicate MarkedExist(browser: BrowserConfig, values: map<string, string>, accounts: map<string, string>,
                              marked: set<Slot>) {
    forall slot :: slot in marked ==>
      && SavedFor(browser, values, slot).Some? && SavedComplete(browser, values, slot)
      && HasAccount(accounts, SavedFor(browser, values, slot).value)
  }

  ghost predicate CreatedSubmitted(w: World) {
    forall c :: c in w.created ==> HasAccount(w.accounts, c) && exists slot :: (slot, c) in w.submitted
  }

  predicate PhaseSaved(browser: BrowserConfig, values: map<string, string>, w: World) {
    match w.phase
    case Idle => true
    case SigningUp(job) => JobSaved(browser, values, job)
    case LoggingIn(job, thenMark) => thenMark ==> JobSaved(browser, values, job)
    case Marking(job) => JobSaved(browser, values, job) && HasAccount(w.accounts, CredentialsOf(job))
  }

  ghost predicate Invariant(config: EnvironmentConfig, w: World) {
    && config.browser.Some? && NamesSeparate(config.browser.value) && ReadFile(w.file).Success?
    && var browser, values := config.browser.value, ReadFile(w.file).value;
    && PairsSaved(browser, values, w.persisted) && PairsSaved(browser, values, w.submitted)
    && CreatedSubmitted(w) && MarkedExist(browser, values, w.accounts, w.marked) && PhaseSaved(browser, values, w)
    && (w.phase != Idle ==> ExactLocal(config))
  }

  /** A harness that has not run yet: any readable file and any foreign accounts. */
  predicate Start(config: EnvironmentConfig, w: World) {
    && config.browser.Some? && NamesSeparate(config.browser.value) && ReadFile(w.file).Success?
    && w.created == {} && w.persisted == {} && w.submitted == {} && w.marked == {} && w.phase == Idle
  }

  // ---------------------------------------------------------------- the writes of the protocol

  lemma RecordWriteRetains(browser: BrowserConfig, before: map<string, string>, prefix: string, fields: seq<FieldValue>)
    requires NamesSeparate(browser) && RECORD_PREFIX <= prefix && forall v :: v in fields ==> Plain(v.value)
    ensures forall role :: SavedFor(browser, before + ToMap(FieldUpdates(prefix, fields)), RoleSlot(role))
              == SavedFor(browser, before, RoleSlot(role))
    ensures forall role :: SavedComplete(browser, before, RoleSlot(role))
                           ==> SavedComplete(browser, before + ToMap(FieldUpdates(prefix, fields)), RoleSlot(role))
    ensures Writes(before, before + ToMap(FieldUpdates(prefix, fields)), prefix, FieldMap(fields))
  {
    hide NamesSeparate, Plain;
    PlanWrites(before, prefix, fields);
    var updates := ToMap(FieldUpdates(prefix, fields));
    forall role
      ensures NamesOf(browser, role).username !in updates && NamesOf(browser, role).password !in updates
              && NamesOf(browser, role).state !in updates
    {
      var n := NamesOf(browser, role);
      forall name | name in {n.username, n.password, n.state} ensures name !in updates {
        if name in updates {
          FieldUpdatesNames(prefix, fields, name);
          var f :| name == VariableName(prefix, f);
          RoleNameNotRecord(browser, role, prefix, f);
        }
      }
    }
  }

  /** A write to one record retains every slot when that record held nothing, or only later fields are written. */
  lemma RecordWrite(browser: BrowserConfig, before: map<string, string>, prefix: string, fields: seq<FieldValue>)
    requires NamesSeparate(browser) && RECORD_PREFIX <= prefix && forall v :: v in fields ==> Plain(v.value)
    requires !AnyStored(before, prefix) || FieldMap(fields).Keys <= {AccountState, IdpSubject, UserId}
    requires AnyStored(before, prefix) && AccountState in FieldMap(fields)
             ==> FieldMap(fields)[AccountState] == "complete"
    ensures Retains(browser, before, before + ToMap(FieldUpdates(prefix, fields)))
  {
    hide SavedFor, SavedComplete, Plain, FieldUpdates, NamesSeparate, AnyStored;
    var after := before + ToMap(FieldUpdates(prefix, fields));
    RecordWriteRetains(browser, before, prefix, fields);
    forall slot | SavedFor(browser, before, slot).Some?
      ensures SavedFor(browser, after, slot) == SavedFor(browser, before, slot)
      ensures SavedComplete(browser, before, slot) ==> SavedComplete(browser, after, slot)
    {
      match slot
      case Target(runId, scenarioId) => TargetRetained(browser, before, after, prefix, FieldMap(fields), runId,
                                                       scenarioId);
      case RoleSlot(_) =>
    }
  }

  lemma TargetRetained(browser: BrowserConfig, before: map<string, string>, after: map<string, string>, prefix: string,
                       fields: map<Field, string>, runId: string, scenarioId: string)
    requires Writes(before, after, prefix, fields)
    requires !AnyStored(before, prefix) || fields.Keys <= {AccountState, IdpSubject, UserId}
    requires AnyStored(before, prefix) && AccountState in fields ==> fields[AccountState] == "complete"
    requires SavedFor(browser, before, Target(runId, scenarioId)).Some?
    ensures SavedFor(browser, after, Target(runId, scenarioId)) == SavedFor(browser, before, Target(runId, scenarioId))
    ensures SavedComplete(browser, before, Target(runId, scenarioId))
            ==> SavedComplete(browser, after, Target(runId, scenarioId))
  {
    hide Stored, RecordPrefix;
    var p := RecordPrefix(runId, scenarioId).value;
    assert Stored(before, p, Username) != "";
    assert Stored(after, p, RunId) == Stored(before, p, RunId)
           && Stored(after, p, ScenarioId) == Stored(before, p, ScenarioId);
    assert Stored(after, p, Username) == Stored(before, p, Username)
           && Stored(after, p, Password) == Stored(before, p, Password);
  }

  lemma LoadTargetWrite(config: EnvironmentConfig, environ: Environ, before: map<string, string>, runId: string,
                        scenarioId: string, c: Credentials)
    requires config.browser.Some? && NamesSeparate(config.browser.value) && RecordPrefix(runId, scenarioId).Success?
    requires Plain(runId) && Plain(scenarioId) && PlainCredentials(c)
    requires LoadTargetPlan(config, environ, before, RecordPrefix(runId, scenarioId).value, runId, scenarioId,
                            c).Success?
    ensures var plan := LoadTargetPlan(config, environ, before, RecordPrefix(runId, scenarioId).value, runId,
                                       scenarioId, c).value;
            var after := before + ToMap(plan.updates);
            && Writable(plan.updates) && Retains(config.browser.value, before, after)
            && SlotOf(TargetJob(plan.value)) == Target(runId, scenarioId)
            && JobSaved(config.browser.value, after, TargetJob(plan.value))
  {
    hide Stored, RecordPrefix, Plain, FieldUpdates, NamesSeparate, Retained, UsernameConflict, FieldMap, DistinctFields;
    var prefix := RecordPrefix(runId, scenarioId).value;
    RecordNamesValid(runId, scenarioId, RunId);
    if AnyStored(before, prefix) {
      assert before + ToMap([]) == before;
      ProvenanceNonEmpty(runId, scenarioId);
    } else {
      NewTargetWrites(before, runId, scenarioId, c);
      NewFieldsPlain(runId, scenarioId, c);
      RecordWrite(config.browser.value, before, prefix, NewTargetFields(runId, scenarioId, c));
    }
  }

  lemma NewFieldsPlain(runId: string, scenarioId: string, c: Credentials)
    requires Plain(runId) && Plain(scenarioId) && PlainCredentials(c)
    ensures forall v :: v in NewTargetFields(runId, scenarioId, c) ==> Plain(v.value)
  {
    hide Plain;
    PlainStates();
  }

  lemma MarkTargetWrite(browser: BrowserConfig, before: map<string, string>, record: TargetRecord)
    requires NamesSeparate(browser) && JobSaved(browser, before, TargetJob(record))
    ensures var prefix := RecordPrefix(record.runId, record.scenarioId).value;
            && MarkTargetPlan(before, prefix, record).Success?
            && var plan := MarkTargetPlan(before, prefix, record).value;
            var after := before + ToMap(plan.updates);
            && Writable(plan.updates) && Retains(browser, before, after)
            && SavedComplete(browser, after, Target(record.runId, record.scenarioId))
  {
    hide Stored, RecordPrefix, FieldUpdates, NamesSeparate, Plain, Retains, AnyStored;
    var prefix := RecordPrefix(record.runId, record.scenarioId).value;
    var fields := [FieldValue(AccountState, "complete")];
    assert FieldMap(fields[1..]) == map[] && FieldMap(fields) == map[][AccountState := "complete"];
    PlainStates();
    RecordNamesValid(record.runId, record.scenarioId, RunId);
    FieldUpdatesWritable(record.runId, record.scenarioId, fields);
    RecordWrite(browser, before, prefix, fields);
    PlanWrites(before, prefix, fields);
  }

  lemma BindWrite(browser: BrowserConfig, before: map<string, string>, prefix: string, record: TargetRecord,
                  identity: Identity)
    requires NamesSeparate(browser) && RecordPrefix(record.runId, record.scenarioId) == Success(prefix)
    requires Plain(identity.subject) && Plain(identity.userId) && BindPlan(before, prefix, record, identity).Success?
    ensures var plan := BindPlan(before, prefix, record, identity).value;
            Writable(plan.updates) && Retains(browser, before, before + ToMap(plan.updates))
  {
    hide Stored, RecordPrefix, FieldUpdates, NamesSeparate, Plain, Retains, AnyStored, Retained, MatchesSaved;
    var fields := [FieldValue(IdpSubject, identity.subject), FieldValue(UserId, identity.userId)];
    var rest := fields[1..];
    assert FieldMap(rest[1..]) == map[] && DistinctFields(rest[1..]);
    assert FieldMap(rest) == map[][UserId := identity.userId] && DistinctFields(rest);
    RecordNamesValid(record.runId, record.scenarioId, RunId);
    FieldUpdatesWritable(record.runId, record.scenarioId, fields);
    RecordWrite(browser, before, prefix, fields);
  }

  // ---------------------------------------------------------------- the same for reusable roles

  /** A write to the variables of one role, which leaves every other variable alone. */
  ghost predicate RoleWrites(browser: BrowserConfig, role: Role, updates: seq<Assignment>) {
    forall name :: name in ToMap(updates) ==>
      name in {NamesOf(browser, role).username, NamesOf(browser, role).password, NamesOf(browser, role).state}
  }

  lemma RoleWriteElsewhere(browser: BrowserConfig, before: map<string, string>, role: Role, updates: seq<Assignment>,
                           slot: Slot)
    requires NamesSeparate(browser) && RoleWrites(browser, role, updates) && slot != RoleSlot(role)
    ensures SavedFor(browser, before + ToMap(updates), slot) == SavedFor(browser, before, slot)
    ensures SavedComplete(browser, before, slot) ==> SavedComplete(browser, before + ToMap(updates), slot)
  {
    hide RecordPrefix, NamesSeparate, NamesOf, Stored;
    match slot
    case RoleSlot(other) => RoleNamesApart(browser, other, role);
    case Target(runId, scenarioId) =>
      if RecordPrefix(runId, scenarioId).Success? {
        RecordNamesValid(runId, scenarioId, RunId);
        RoleWriteStored(browser, before, role, updates, RecordPrefix(runId, scenarioId).value);
      }
  }

  lemma RoleWriteStored(browser: BrowserConfig, before: map<string, string>, role: Role, updates: seq<Assignment>,
                        prefix: string)
    requires NamesSeparate(browser) && RoleWrites(browser, role, updates) && RECORD_PREFIX <= prefix
    ensures forall f :: Stored(before + ToMap(updates), prefix, f) == Stored(before, prefix, f)
  {
    hide NamesSeparate, NamesOf, VariableName;
    forall f ensures Stored(before + ToMap(updates), prefix, f) == Stored(before, prefix, f) {
      RoleNameNotRecord(browser, role, prefix, f);
    }
  }

  lemma NewRoleWrite(browser: BrowserConfig, before: map<string, string>, role: Role, c: Credentials)
    requires NamesSeparate(browser) && PlainCredentials(c) && SavedFor(browser, before, RoleSlot(role)).None?
    ensures var updates := NewRoleUpdates(NamesOf(browser, role), c);
            var after := before + ToMap(updates);
            && Writable(updates) && Retains(browser, before, after) && JobSaved(browser, after, RoleJob(role, c))
  {
    hide NamesSeparate, Plain, ValidName, NewRoleUpdates, ToMap, Distinct, Strip, NamesOf, Retains;
    var n := NamesOf(browser, role);
    var updates := NewRoleUpdates(n, c);
    RoleNamesApart(browser, role, role);
    PlainStates();
    NewPairFacts(n, c);
    PlainStripped(c.username);
    PlainStripped(c.password);
    RoleRetains(browser, before, role, updates);
  }

  lemma PlainStripped(s: string)
    requires Plain(s)
    ensures Strip(s) == s
  {
  }

  lemma RoleRetains(browser: BrowserConfig, before: map<string, string>, role: Role, updates: seq<Assignment>)
    requires NamesSeparate(browser) && RoleWrites(browser, role, updates)
    requires var after := before + ToMap(updates);
             SavedFor(browser, before, RoleSlot(role)).Some? ==>
               && SavedFor(browser, after, RoleSlot(role)) == SavedFor(browser, before, RoleSlot(role))
               && SavedComplete(browser, after, RoleSlot(role))
    ensures Retains(browser, before, before + ToMap(updates))
  {
    hide SavedFor, SavedComplete, NamesSeparate, RoleWrites;
    var after := before + ToMap(updates);
    forall slot | SavedFor(browser, before, slot).Some?
      ensures SavedFor(browser, after, slot) == SavedFor(browser, before, slot)
      ensures SavedComplete(browser, before, slot) ==> SavedComplete(browser, after, slot)
    {
      if slot != RoleSlot(role) {
        RoleWriteElsewhere(browser, before, role, updates, slot);
      }
    }
  }

  lemma CompleteStripped()
    ensures Strip("complete") == "complete"
  {
  }

  lemma MarkRoleWrite(browser: BrowserConfig, before: map<string, string>, role: Role, c: Credentials)
    requires NamesSeparate(browser) && JobSaved(browser, before, RoleJob(role, c))
    ensures MarkRolePlan(NamesOf(browser, role), before, c).Success?
    ensures var plan := MarkRolePlan(NamesOf(browser, role), before, c).value;
            var after := before + ToMap(plan.updates);
            Writable(plan.updates) && Retains(browser, before, after) && SavedComplete(browser, after, RoleSlot(role))
  {
    hide NamesSeparate, Plain, ValidName, Strip, RecordPrefix, Stored, Retains, NamesOf;
    var n := NamesOf(browser, role);
    var updates := [Assignment(n.state, "complete")];
    RoleNamesApart(browser, role, role);
    PlainStates();
    CompleteStripped();
    ToMapCons(updates[0], []);
    assert [updates[0]] + [] == updates && ToMap([]) == map[];
    RoleRetains(browser, before, role, updates);
  }

  // ---------------------------------------------------------------- every step keeps the invariant

  ghost predicate FileRetains(config: EnvironmentConfig, before: Option<string>, after: Option<string>)
    requires config.browser.Some? && ReadFile(before).Success?
  {
    ReadFile(after).Success? && Retains(config.browser.value, ReadFile(before).value, ReadFile(after).value)
  }

  lemma RetainsReflexive(browser: BrowserConfig, values: map<string, string>)
    ensures Retains(browser, values, values)
  {
  }

  predicate MarkedSaved(config: EnvironmentConfig, w: World, slot: Slot)
    requires config.browser.Some? && ReadFile(w.file).Success?
  {
    && SavedFor(config.browser.value, ReadFile(w.file).value, slot).Some?
    && SavedComplete(config.browser.value, ReadFile(w.file).value, slot)
    && HasAccount(w.accounts, SavedFor(config.browser.value, ReadFile(w.file).value, slot).value)
  }

  /** A step that only changes the file, retaining what is saved, and settles in a phase the file supports. */
  lemma InvariantMoves(config: EnvironmentConfig, w: World, w': World)
    requires Invariant(config, w) && FileRetains(config, w.file, w'.file)
    requires w'.accounts == w.accounts && w'.created == w.created && w'.submitted == w.submitted
    requires w'.persisted == w.persisted || exists slot, c ::
               w'.persisted == w.persisted + {(slot, c)}
               && SavedFor(config.browser.value, ReadFile(w'.file).value, slot) == Some(c)
    requires w'.marked == w.marked || exists slot :: w'.marked == w.marked + {slot} && MarkedSaved(config, w', slot)
    requires PhaseSaved(config.browser.value, ReadFile(w'.file).value, w') && (w'.phase != Idle ==> ExactLocal(config))
    ensures Invariant(config, w')
  {
    hide SavedFor, SavedComplete, ReadFile, NamesSeparate, PhaseSaved;
  }

  lemma StartTargetKeeps(config: EnvironmentConfig, w: World, environ: Environ, runId: string, scenarioId: string,
                         c: Credentials)
    requires Invariant(config, w) && w.phase.Idle? && Plain(runId) && Plain(scenarioId) && PlainCredentials(c)
    ensures Invariant(config, StartTarget(config, w, environ, runId, scenarioId, c))
    ensures FileRetains(config, w.file, StartTarget(config, w, environ, runId, scenarioId, c).file)
  {
    hide NamesSeparate, ReadFile, RecordPrefix, Plain, LoadTargetPlan, JobSaved, SavedFor, SavedComplete, WriteFile;
    RetainsReflexive(config.browser.value, ReadFile(w.file).value);
    var w' := StartTarget(config, w, environ, runId, scenarioId, c);
    if ExactLocal(config) && RecordPrefix(runId, scenarioId).Success? {
      var prefix := RecordPrefix(runId, scenarioId).value;
      var plan := LoadTargetPlan(config, environ, ReadFile(w.file).value, prefix, runId, scenarioId, c);
      if plan.Success? {
        LoadTargetWrite(config, environ, ReadFile(w.file).value, runId, scenarioId, c);
        CommitReads(w.file, plan.value);
        JobIsSaved(config.browser.value, ReadFile(Commit(w.file, plan).file).value, TargetJob(plan.value.value));
      }
    }
    InvariantMoves(config, w, w');
  }

  lemma JobIsSaved(browser: BrowserConfig, values: map<string, string>, job: Job)
    requires JobSaved(browser, values, job)
    ensures SavedFor(browser, values, SlotOf(job)) == Some(CredentialsOf(job))
  {
  }

  lemma LoadRoleKeeps(config: EnvironmentConfig, file: Option<string>, environ: Environ, role: Role, c: Credentials)
    requires config.browser.Some? && NamesSeparate(config.browser.value) && ReadFile(file).Success?
             && PlainCredentials(c)
    ensures var o := LoadRole(config, environ, file, role, c);
            && FileRetains(config, file, o.file) && (o.result.Success? ==> ExactLocal(config))
            && (o.result.Success? && o.result.value.state != External ==>
                 JobSaved(config.browser.value, ReadFile(o.file).value, RoleJob(role, o.result.value.credentials)))
  {
    hide NamesSeparate, ReadFile, Plain, LoadRolePlan, JobSaved, Retains, WriteFile, NamesOf, Get, RoleShared;
    var browser, values := config.browser.value, ReadFile(file).value;
    RetainsReflexive(browser, values);
    var plan := LoadRolePlan(browser, environ, values, role, c);
    if plan.Success? {
      LoadRoleWrite(browser, environ, values, role, c);
      CommitReads(file, plan.value);
    }
  }

  lemma StartRoleKeeps(config: EnvironmentConfig, w: World, environ: Environ, role: Role, c: Credentials)
    requires Invariant(config, w) && w.phase.Idle? && PlainCredentials(c)
    ensures Invariant(config, StartRole(config, w, environ, role, c))
    ensures FileRetains(config, w.file, StartRole(config, w, environ, role, c).file)
  {
    hide NamesSeparate, ReadFile, Plain, LoadRole, JobSaved, SavedFor, SavedComplete;
    var w' := StartRole(config, w, environ, role, c);
    RetainsReflexive(config.browser.value, ReadFile(w.file).value);
    LoadRoleKeeps(config, w.file, environ, role, c);
    var o := LoadRole(config, environ, w.file, role, c);
    if o.result.Success? && o.result.value.state != External {
      JobIsSaved(config.browser.value, ReadFile(o.file).value, RoleJob(role, o.result.value.credentials));
    }
    InvariantMoves(config, w, w');
  }

  lemma LoadRoleWrite(browser: BrowserConfig, environ: Environ, before: map<string, string>, role: Role, c: Credentials)
    requires NamesSeparate(browser) && PlainCredentials(c) && LoadRolePlan(browser, environ, before, role, c).Success?
    ensures var plan := LoadRolePlan(browser, environ, before, role, c).value;
            var after := before + ToMap(plan.updates);
            && Writable(plan.updates) && Retains(browser, before, after) && plan.value.state != External
            && JobSaved(browser, after, RoleJob(role, plan.value.credentials))
  {
    hide NamesSeparate, Plain, NamesOf, Get, RoleShared;
    if LoadRolePlan(browser, environ, before, role, c).value.updates == [] {
      assert before + ToMap([]) == before;
    } else {
      NewRoleWrite(browser, before, role, c);
    }
  }

  lemma FinishMarkKeeps(config: EnvironmentConfig, w: World, job: Job)
    requires Invariant(config, w) && w.phase == Marking(job)
    ensures var w' := FinishMark(config, w, job);
            Invariant(config, w') && FileRetains(config, w.file, w'.file) && SlotOf(job) in w'.marked
  {
    hide NamesSeparate, ReadFile, JobSaved, SavedFor, SavedComplete, WriteFile, NamesOf, MarkTargetPlan, MarkRolePlan,
      RecordPrefix;
    var browser, values := config.browser.value, ReadFile(w.file).value;
    var w' := FinishMark(config, w, job);
    JobIsSaved(browser, values, job);
    match job {
      case TargetJob(record) =>
        SavedPrefix(browser, values, record);
        MarkTargetWrite(browser, values, record);
        CommitReads(w.file, MarkTargetPlan(values, RecordPrefix(record.runId, record.scenarioId).value, record).value);
      case RoleJob(role, c) =>
        MarkRoleWrite(browser, values, role, c);
        CommitReads(w.file, MarkRolePlan(NamesOf(browser, role), values, c).value);
    }
    assert MarkedSaved(config, w', SlotOf(job));
    InvariantMoves(config, w, w');
  }

  lemma SavedPrefix(browser: BrowserConfig, values: map<string, string>, record: TargetRecord)
    requires JobSaved(browser, values, TargetJob(record))
    ensures RecordPrefix(record.runId, record.scenarioId).Success?
  {
  }

  lemma BindEventKeeps(config: EnvironmentConfig, w: World, event: Event)
    requires Invariant(config, w) && event.BindIdentity? && Next(config, w, event).Some?
    ensures Invariant(config, Next(config, w, event).value)
    ensures FileRetains(config, w.file, Next(config, w, event).value.file)
  {
    hide NamesSeparate, ReadFile, SavedFor, SavedComplete, WriteFile, BindPlan, RecordPrefix, Plain;
    var record := event.record;
    RetainsReflexive(config.browser.value, ReadFile(w.file).value);
    if ExactLocal(config) && BindGuard(record, event.runId, event.scenarioId, event.identity, event.reusable).None?
       && RecordPrefix(record.runId, record.scenarioId).Success? {
      var prefix := RecordPrefix(record.runId, record.scenarioId).value;
      var plan := BindPlan(ReadFile(w.file).value, prefix, record, event.identity);
      if plan.Success? {
        BindWrite(config.browser.value, ReadFile(w.file).value, prefix, record, event.identity);
        CommitReads(w.file, plan.value);
      }
    }
    InvariantMoves(config, w, Next(config, w, event).value);
  }

  lemma SubmitKeeps(config: EnvironmentConfig, w: World, creates: bool, phase: Phase)
    requires Invariant(config, w) && w.phase.SigningUp?
    requires creates ==> CredentialsOf(w.phase.job).username !in w.accounts
    requires phase == Idle || phase == LoggingIn(w.phase.job, true)
          || (phase == Marking(w.phase.job) && (creates || HasAccount(w.accounts, CredentialsOf(w.phase.job))))
    ensures Invariant(config, Submit(w, w.phase.job, creates, phase))
  {
    hide NamesSeparate, ReadFile, SavedFor, SavedComplete;
    var w' := Submit(w, w.phase.job, creates, phase);
    assert (SlotOf(w.phase.job), CredentialsOf(w.phase.job)) in w'.submitted;
    forall c | c in w'.created ensures HasAccount(w'.accounts, c) && exists slot :: (slot, c) in w'.submitted {
      if c in w.created {
        var slot :| (slot, c) in w.submitted;
        assert (slot, c) in w'.submitted;
      }
    }
  }

  lemma NextKeeps(config: EnvironmentConfig, w: World, event: Event)
    requires Invariant(config, w) && Next(config, w, event).Some?
    ensures Invariant(config, Next(config, w, event).value)
    ensures FileRetains(config, w.file, Next(config, w, event).value.file)
  {
    hide NamesSeparate, ReadFile, SavedFor, SavedComplete, Plain, StartTarget, StartRole, FinishMark;
    RetainsReflexive(config.browser.value, ReadFile(w.file).value);
    match event
    case AcquireTarget(environ, runId, scenarioId, c) => StartTargetKeeps(config, w, environ, runId, scenarioId, c);
    case AcquireRole(environ, role, c) => StartRoleKeeps(config, w, environ, role, c);
    case SignupReturns => SubmitKeeps(config, w, CredentialsOf(w.phase.job).username !in w.accounts,
                                      Marking(w.phase.job));
    case SignupReportsExisting => SubmitKeeps(config, w, false, LoggingIn(w.phase.job, true));
    case SignupFails(creates) => SubmitKeeps(config, w, creates, Idle);
    case Mark => FinishMarkKeeps(config, w, w.phase.job);
    case BindIdentity(_, _, _, _, _) => BindEventKeeps(config, w, event);
    case LoginReturns => 
    case LoginFails => 
    case Crash => 
    case OthersRegister(_, _) => 
  }

  // ---------------------------------------------------------------- every run

  lemma StartInvariant(config: EnvironmentConfig, w: World)
    requires Start(config, w)
    ensures Invariant(config, w)
  {
  }

  lemma {:induction false} RunKeeps(config: EnvironmentConfig, w: World, events: seq<Event>)
    requires Invariant(config, w) && Run(config, w, events).Some?
    ensures Invariant(config, Run(config, w, events).value)
    ensures FileRetains(config, w.file, Run(config, w, events).value.file)
    decreases |events|
  {
    hide Invariant, Next, ReadFile, SavedFor, SavedComplete;
    Readable(config, w);
    RetainsReflexive(config.browser.value, ReadFile(w.file).value);
    if events != [] {
      NextKeeps(config, w, events[0]);
      RunKeeps(config, Next(config, w, events[0]).value, events[1..]);
    }
  }

  lemma Readable(config: EnvironmentConfig, w: World)
    requires Invariant(config, w)
    ensures config.browser.Some? && ReadFile(w.file).Success?
  {
  }

  /**
   Over every run, with crashes anywhere: every account the harness created has its exact credentials in the
   file, no slot ever sees two credential pairs, and every record marked complete has an existing account.
   */
  lemma ProvisioningSafe(config: EnvironmentConfig, start: World, events: seq<Event>)
    requires Start(config, start) && Run(config, start, events).Some?
    ensures var w := Run(config, start, events).value;
            && ReadFile(w.file).Success?
            && var browser, values := config.browser.value, ReadFile(w.file).value;
            && (forall c :: c in w.created ==>
                  && c.username in w.accounts && w.accounts[c.username] == c.password
                  && exists slot :: SavedFor(browser, values, slot) == Some(c))
            && (forall slot, c, d :: (slot, c) in w.persisted + w.submitted && (slot, d) in w.persisted + w.submitted
                                     ==> c == d)
            && (forall slot :: slot in w.marked ==>
                 && SavedFor(browser, values, slot).Some? && SavedComplete(browser, values, slot)
                 && var c := SavedFor(browser, values, slot).value;
                 c.username in w.accounts && w.accounts[c.username] == c.password)
  {
    hide Run, ReadFile, SavedFor, SavedComplete, NamesSeparate, PhaseSaved;
    StartInvariant(config, start);
    RunKeeps(config, start, events);
    var w := Run(config, start, events).value;
    var browser, values := config.browser.value, ReadFile(w.file).value;
    forall c | c in w.created ensures exists slot :: SavedFor(browser, values, slot) == Some(c) {
      var slot :| (slot, c) in w.submitted;
      assert SavedFor(browser, values, slot) == Some(c);
    }
  }

  /** Whatever is saved for a slot before a run is what is saved for it afterwards. */
  lemma SavedCredentialsSurvive(config: EnvironmentConfig, w: World, events: seq<Event>, slot: Slot)
    requires Invariant(config, w) && Run(config, w, events).Some?
    requires SavedFor(config.browser.value, ReadFile(w.file).value, slot).Some?
    ensures ReadFile(Run(config, w, events).value.file).Success?
    ensures SavedFor(config.browser.value, ReadFile(Run(config, w, events).value.file).value, slot)
         == SavedFor(config.browser.value, ReadFile(w.file).value, slot)
  {
    hide Run, ReadFile, SavedFor, SavedComplete, Invariant;
    RunKeeps(config, w, events);
  }

  /** A retry never rotates credentials: whatever call follows, the job of a saved slot carries the saved pair. */
  lemma RetryReuses(config: EnvironmentConfig, w: World, event: Event, slot: Slot)
    requires Invariant(config, w) && Next(config, w, event).Some? && w.phase == Idle
    requires SavedFor(config.browser.value, ReadFile(w.file).value, slot).Some?
    ensures var phase := Next(config, w, event).value.phase;
            phase.SigningUp? && SlotOf(phase.job) == slot
            ==> Some(CredentialsOf(phase.job)) == SavedFor(config.browser.value, ReadFile(w.file).value, slot)
  {
    hide Next, ReadFile, SavedFor, SavedComplete, NamesSeparate;
    NextKeeps(config, w, event);
  }

  /** Once signup or login has returned, the mark is never refused: the record is still the saved one. */
  lemma MarkNeverRefused(config: EnvironmentConfig, w: World)
    requires Invariant(config, w) && w.phase.Marking?
    ensures Next(config, w, Mark).Some?
    ensures var w' := Next(config, w, Mark).value;
            && SlotOf(w.phase.job) in w'.marked && ReadFile(w'.file).Success?
            && SavedComplete(config.browser.value, ReadFile(w'.file).value, SlotOf(w.phase.job))
  {
    hide FinishMark, ReadFile, SavedFor, SavedComplete, NamesSeparate;
    FinishMarkKeeps(config, w, w.phase.job);
  }

  // ---------------------------------------------------------------- generated credentials

  predicate IsHex(c: char) {
    '0' <= c <= '9' || 'a' <= c <= 'f'
  }

  predicate IsPasswordChar(c: char) {
    IsAlnum(c) || c == '!' || c == '@' || c == '%' || c == '_' || c == '-'
  }

  /** The values `generate_local_credentials` can return. */
  predicate Generated(c: Credentials, token: string, secret: string) {
    && |token| == 24 && (forall i :: 0 <= i < 24 ==> IsHex(token[i]))
    && |secret| == 28 && (forall i :: 0 <= i < 28 ==> IsPasswordChar(secret[i]))
    && c.username == "ba-api-test-" + token + "@test.com" && c.password == "Ba9!" + secret
  }

  predicate Solid(s: string) {
    forall i :: 0 <= i < |s| ==> !IsSpace(s[i]) && s[i] != '\'' && s[i] != '"'
  }

  lemma SolidIsPlain(s: string)
    requires Solid(s)
    ensures Plain(s)
  {
  }

  lemma SolidConcat(a: string, b: string)
    requires Solid(a) && Solid(b)
    ensures Solid(a + b)
  {
  }

  /** Generated credentials always survive the file. */
  lemma GeneratedArePlain(c: Credentials, token: string, secret: string)
    requires Generated(c, token, secret)
    ensures PlainCredentials(c)
  {
    hide Plain;
    assert Solid(token) && Solid(secret);
    assert Solid("ba-api-test-") && Solid("@test.com") && Solid("Ba9!");
    SolidConcat("ba-api-test-", token);
    SolidConcat("ba-api-test-" + token, "@test.com");
    SolidConcat("Ba9!", secret);
    SolidIsPlain(c.username);
    SolidIsPlain(c.password);
  }
}
