/** The two browser acquisitions as procedures over the credential file and the identity provider. */
module Acquisition {
  import opened Wrappers
  import opened CredentialCodec
  import opened CredentialNames
  import opened CredentialStore
  import opened CredentialFacts
  import L = CredentialLifecycle
  import opened Provisioning

  datatype SignupOutcome = SignedUp | AlreadyExists | SignupBroke

  /** One call of the identity provider, with what it answered, or an interruption of the caller. */
  datatype Answer = SignupAnswer(credentials: Credentials, outcome: SignupOutcome)
                  | LoginAnswer(credentials: Credentials, ok: bool)
                  | Interruption

  /**
   Accounts by username. Signup and login may fail at any time, and signup may fail after creating the account.
   `answers` lists the calls and interruptions so far; a real provider need not keep them.
   */
  class IdentityProvider {
    var accounts: map<string, string>
    ghost var answers: seq<Answer>

    constructor (accounts: map<string, string>)
      ensures this.accounts == accounts && answers == []
    {
      this.accounts := accounts;
      answers := [];
    }

    method SignUp(c: Credentials) returns (outcome: SignupOutcome)
      modifies this
      ensures answers == old(answers) + [SignupAnswer(c, outcome)]
      ensures accounts == old(accounts)
              || (c.username !in old(accounts) && accounts == old(accounts)[c.username := c.password])
      ensures outcome.SignedUp? ==> HasAccount(accounts, c)
      ensures outcome.SignedUp? && c.username !in old(accounts) ==> accounts != old(accounts)
      ensures outcome.AlreadyExists? ==> c.username in old(accounts)
    {
      var broken: bool := *;
      var created: bool := *;
      if c.username in accounts {
        outcome := if broken then SignupBroke else AlreadyExists;
      } else if broken && !created {
        outcome := SignupBroke;
      } else {
        accounts := accounts[c.username := c.password];
        outcome := if broken then SignupBroke else SignedUp;
      }
      answers := answers + [SignupAnswer(c, outcome)];
    }

    method LogIn(c: Credentials) returns (ok: bool)
      modifies this`answers
      ensures answers == old(answers) + [LoginAnswer(c, ok)]
      ensures ok ==> HasAccount(accounts, c)
    {
      var up: bool := *;
      ok := up && HasAccount(accounts, c);
      answers := answers + [LoginAnswer(c, ok)];
    }

    /** Anything may stop the caller between two of its steps. */
    method Interrupts() returns (stopped: bool)
      modifies this`answers
      ensures answers == old(answers) + if stopped then [Interruption] else []
    {
      stopped := *;
      answers := answers + if stopped then [Interruption] else [];
    }
  }

  datatype AcquireError = NotPermitted | NotLocal | Saved(reason: StoreError) | SignupFailed | LoginFailed | Interrupted

  /** The calls that prove a pair: a signup, or a login after the signup reported an existing account. */
  predicate Proved(calls: seq<Answer>, c: Credentials) {
    calls == [SignupAnswer(c, SignedUp)] || calls == [SignupAnswer(c, AlreadyExists), LoginAnswer(c, true)]
  }

  /** The answers behind an error on the way to a proof. */
  predicate Unproved(calls: seq<Answer>, c: Credentials, error: AcquireError) {
    match error
    case SignupFailed => calls == [SignupAnswer(c, SignupBroke)]
    case LoginFailed => calls == [SignupAnswer(c, AlreadyExists), LoginAnswer(c, false)]
    case Interrupted =>
      calls != [] && calls[|calls| - 1] == Interruption && (|calls| == 1 || Proved(calls[..|calls| - 1], c))
    case _ => false
  }

  predicate Permitted(config: EnvironmentConfig) {
    config.authMode == BrowserPreprovisioned && config.allowMutation && config.allowDestructive
  }

  /**
   What an acquisition of a target returns, for the load `o` and the provider's answers: a refusal without any
   call, one login for a complete record, and signup or login before the mark for a pending one.
   */
  predicate TargetOutcome(config: EnvironmentConfig, o: Outcome<TargetRecord>, calls: seq<Answer>,
                          r: Result<TargetRecord, AcquireError>, file: Option<string>) {
    match o.result
    case Failure(e) => r == Failure(Saved(e)) && calls == [] && file == o.file
    case Success(record) =>
      var c := record.credentials;
      match r
      case Success(final) =>
        if record.state == Complete then final == record && calls == [LoginAnswer(c, true)] && file == o.file
        else final == record.(state := Complete) && Proved(calls, c) && file == MarkTarget(config, o.file, record).file
      case Failure(e) =>
        && file == o.file
        && if record.state == Complete then e == LoginFailed && calls == [LoginAnswer(c, false)]
           else Unproved(calls, c, e)
  }

  /** The same for a reusable role; a pair from the environment is only logged in. */
  predicate RoleOutcome(config: EnvironmentConfig, o: Outcome<RoleRecord>, role: Role, calls: seq<Answer>,
                        r: Result<Credentials, AcquireError>, file: Option<string>) {
    match o.result
    case Failure(e) => r == Failure(Saved(e)) && calls == [] && file == o.file
    case Success(record) =>
      var c := record.credentials;
      match r
      case Success(final) =>
        && final == c
        && if record.state != Pending then calls == [LoginAnswer(c, true)] && file == o.file
           else Proved(calls, c) && file == MarkRole(config, o.file, role, c).file
      case Failure(e) =>
        && file == o.file
        && if record.state != Pending then e == LoginFailed && calls == [LoginAnswer(c, false)]
           else Unproved(calls, c, e)
  }

  /** `world` and `events` record the run so far; a real run need not keep them. */
  class Harness {
    const config: EnvironmentConfig
    const store: CredentialFile
    const provider: IdentityProvider
    ghost const start: World
    ghost var events: seq<Event>
    ghost var world: World

    ghost predicate Valid()
      reads this, store, provider
    {
      && Start(config, start) && Run(config, start, events) == Some(world)
      && world.file == store.file && world.accounts == provider.accounts
    }

    constructor (config: EnvironmentConfig, store: CredentialFile, provider: IdentityProvider)
      requires config.browser.Some? && NamesSeparate(config.browser.value) && ReadFile(store.file).Success?
      ensures Valid() && world.phase == Idle && events == []
      ensures this.config == config && this.store == store && this.provider == provider
    {
      this.config, this.store, this.provider := config, store, provider;
      events := [];
      start := World(store.file, provider.accounts, {}, {}, {}, {}, Idle);
      world := World(store.file, provider.accounts, {}, {}, {}, {}, Idle);
    }

    /** Adds to the run the event that the store and the provider have just gone through. */
    ghost method Record(e: Event)
      requires Start(config, start) && Run(config, start, events) == Some(world)
      requires Next(config, world, e).Some?
      requires Next(config, world, e).value.file == store.file
               && Next(config, world, e).value.accounts == provider.accounts
      modifies this
      ensures Valid() && events == old(events) + [e] && Some(world) == Next(config, old(world), e)
    {
      hide Next, Start;
      RunAppend(config, start, events, e);
      world := Next(config, world, e).value;
      events := events + [e];
    }

    /** The saved or newly persisted record, before the identity provider hears of it. */
    method BeginTarget(environ: Environ, runId: string, scenarioId: string, generated: Credentials)
      returns (r: Result<TargetRecord, StoreError>)
      requires Valid() && world.phase == Idle && Plain(runId) && Plain(scenarioId) && PlainCredentials(generated)
      requires Permitted(config)
      modifies this, store
      ensures Valid() && old(events) <= events
      ensures Outcome(r, store.file) == LoadTarget(config, environ, old(store.file), runId, scenarioId, generated)
      ensures r.Failure? ==> world.phase == Idle
      ensures r.Success? ==> CarriesSaved(store.file, r.value)
      ensures r.Success? ==>
                && r.value.runId == runId && r.value.scenarioId == scenarioId
                && (Target(runId, scenarioId), r.value.credentials) in world.persisted
                && world.phase == (if r.value.state == Complete then LoggingIn(TargetJob(r.value), false)
                                     else SigningUp(TargetJob(r.value)))
                && (r.value.state == Complete ==>
                     && config.browser.Some? && ReadFile(store.file).Success?
                     && SavedComplete(config.browser.value, ReadFile(store.file).value, Target(runId, scenarioId)))
    {
      hide ReadFile, SavedFor, SavedComplete, Run, Start, LoadTarget, Plain, PlainCredentials;
      r := store.LoadOrCreateTarget(config, environ, runId, scenarioId, generated);
      Record(AcquireTarget(environ, runId, scenarioId, generated));
      if r.Success? {
        LoadedRecord(config, environ, old(store.file), runId, scenarioId, generated);
        LoadedCarries(config, environ, old(store.file), runId, scenarioId, generated);
      }
    }

    /** The mark after signup or login; the contract says that it is never refused. */
    method FinishTarget(record: TargetRecord) returns (r: Result<TargetRecord, StoreError>)
      requires Valid() && world.phase == Marking(TargetJob(record)) && CarriesSaved(store.file, record)
      modifies this, store
      ensures Valid() && world.phase == Idle && old(events) <= events
      ensures r == Success(record.(state := Complete)) && CarriesSaved(store.file, record.(state := Complete))
      ensures store.file == MarkTarget(config, old(store.file), record).file
      ensures Ready(config, store.file, provider.accounts, Target(record.runId, record.scenarioId), record.credentials)
    {
      hide ReadFile, SavedFor, SavedComplete, Run, Start, MarkTarget, Ready, Next, FinishMark, Invariant, CarriesSaved;
      RunInvariant(config, start, events);
      MarkSettles(config, world);
      MarkStep(config, world);
      MarkAccepted(config, world);
      MarkCarries(config, world.file, record);
      r := store.MarkTargetComplete(config, record);
      Record(Mark);
    }

    /** `acquire_disposable_browser_target` */
    method AcquireDisposableTarget(environ: Environ, runId: string, scenarioId: string, generated: Credentials)
      returns (r: Result<TargetRecord, AcquireError>)
      requires Valid() && world.phase == Idle && Plain(runId) && Plain(scenarioId) && PlainCredentials(generated)
      modifies this, store, provider
      ensures Valid() && world.phase == Idle && old(events) <= events
      ensures r.Success? ==>
                && r.value.runId == runId && r.value.scenarioId == scenarioId && r.value.state == Complete
                && Ready(config, store.file, provider.accounts, Target(runId, scenarioId), r.value.credentials)
                && CarriesSaved(store.file, r.value)
      ensures old(provider.answers) <= provider.answers
      ensures var o := LoadTarget(config, environ, old(store.file), runId, scenarioId, generated);
              var calls := provider.answers[|old(provider.answers)|..];
              if Permitted(config) then TargetOutcome(config, o, calls, r, store.file)
              else r == Failure(NotPermitted) && calls == [] && store.file == old(store.file)
    {
      hide ReadFile, SavedFor, SavedComplete, Run, Start, Plain, PlainCredentials, Ready, Next, CarriesSaved,
        LoadTarget, MarkTarget;
      if config.authMode != BrowserPreprovisioned || !config.allowMutation || !config.allowDestructive {
        return Failure(NotPermitted);
      }
      var loaded := BeginTarget(environ, runId, scenarioId, generated);
      if loaded.Failure? {
        return Failure(Saved(loaded.error));
      }
      var record := loaded.value;
      if record.state == Complete {
        r := LogInComplete(record);
        return;
      }
      var proved := SignUpOrLogIn(TargetJob(record));
      if proved.Failure? {
        return Failure(proved.error);
      }
      var completed := FinishTarget(record);
      if completed.Failure? {
        return Failure(Saved(completed.error));
      }
      return Success(completed.value);
    }

    /** One login with the pair of the job. */
    method LogIn(job: Job, thenMark: bool) returns (ok: bool)
      requires Valid() && world.phase == LoggingIn(job, thenMark)
      modifies this, provider`answers
      ensures Valid() && old(events) <= events
      ensures world.phase == if ok && thenMark then Marking(job) else Idle
      ensures ok ==> HasAccount(provider.accounts, CredentialsOf(job))
      ensures provider.answers == old(provider.answers) + [LoginAnswer(CredentialsOf(job), ok)]
    {
      hide ReadFile, SavedFor, SavedComplete, Run, Start, StartTarget, StartRole, FinishMark, BindTarget, Plain;
      ok := provider.LogIn(CredentialsOf(job));
      if ok {
        Record(LoginReturns);
      } else {
        Record(LoginFails);
      }
    }

    /** A complete record only needs its login. */
    method LogInComplete(record: TargetRecord) returns (r: Result<TargetRecord, AcquireError>)
      requires Valid() && world.phase == LoggingIn(TargetJob(record), false) && record.state == Complete
      requires (Target(record.runId, record.scenarioId), record.credentials) in world.persisted
      requires ReadFile(store.file).Success? && config.browser.Some?
      requires SavedComplete(config.browser.value, ReadFile(store.file).value, Target(record.runId, record.scenarioId))
      modifies this, provider`answers
      ensures Valid() && world.phase == Idle && old(events) <= events
      ensures r.Success? ==> r.value == record
      ensures r.Failure? ==> r.error == LoginFailed
      ensures provider.answers == old(provider.answers) + [LoginAnswer(record.credentials, r.Success?)]
      ensures r.Success? ==> Ready(config, store.file, provider.accounts, Target(record.runId, record.scenarioId),
                                   record.credentials)
    {
      hide ReadFile, SavedFor, SavedComplete, Run, Start, NamesSeparate, Next;
      RunInvariant(config, start, events);
      var ok := LogIn(TargetJob(record), false);
      return if ok then Success(record) else Failure(LoginFailed);
    }

    /** A point between two steps, where the call may be stopped. */
    method MayStop() returns (stopped: bool)
      requires Valid()
      modifies this, provider`answers
      ensures Valid() && old(events) <= events
      ensures world.phase == if stopped then Idle else old(world.phase)
      ensures provider.answers == old(provider.answers) + if stopped then [Interruption] else []
    {
      hide ReadFile, SavedFor, SavedComplete, Run, Start, StartTarget, StartRole, FinishMark, BindTarget, Plain;
      stopped := provider.Interrupts();
      if stopped {
        Record(Crash);
      }
    }

    /** One signup with the pair of the job. */
    method SignUp(job: Job) returns (outcome: SignupOutcome)
      requires Valid() && world.phase == SigningUp(job)
      modifies this, provider
      ensures Valid() && old(events) <= events
      ensures world.phase == match outcome
                             case SignedUp => Marking(job)
                             case AlreadyExists => LoggingIn(job, true)
                             case SignupBroke => Idle
      ensures provider.answers == old(provider.answers) + [SignupAnswer(CredentialsOf(job), outcome)]
    {
      hide ReadFile, SavedFor, SavedComplete, Run, Start, StartTarget, StartRole, FinishMark, BindTarget, Plain;
      outcome := provider.SignUp(CredentialsOf(job));
      match outcome {
        case SignupBroke => Record(SignupFails(provider.accounts != world.accounts));
        case SignedUp => Record(SignupReturns);
        case AlreadyExists => Record(SignupReportsExisting);
      }
    }

    /** Submits a pending pair to signup; an account that is already there has to accept its login instead. */
    method SignUpOrLogIn(job: Job) returns (r: Result<(), AcquireError>)
      requires Valid() && world.phase == SigningUp(job)
      modifies this, provider
      ensures Valid() && old(events) <= events
      ensures world.phase == if r.Success? then Marking(job) else Idle
      ensures old(provider.answers) <= provider.answers
      ensures var calls := provider.answers[|old(provider.answers)|..];
              match r
              case Success(_) => Proved(calls, CredentialsOf(job))
              case Failure(e) => Unproved(calls, CredentialsOf(job), e)
    {
      hide Valid, Run, Start, Next;
      var stopped := MayStop();
      if stopped {
        return Failure(Interrupted);
      }
      var outcome := SignUp(job);
      if outcome.SignupBroke? {
        return Failure(SignupFailed);
      }
      if outcome.AlreadyExists? {
        var ok := LogIn(job, true);
        if !ok {
          return Failure(LoginFailed);
        }
      }
      ghost var proof := provider.answers[|old(provider.answers)|..];
      stopped := MayStop();
      if stopped {
        assert provider.answers[|old(provider.answers)|..] == proof + [Interruption];
        assert (proof + [Interruption])[..|proof|] == proof;
        return Failure(Interrupted);
      }
      assert provider.answers[|old(provider.answers)|..] == proof;
      return Success(());
    }

    method BeginRole(environ: Environ, role: Role, generated: Credentials) returns (r: Result<RoleRecord, StoreError>)
      requires Valid() && world.phase == Idle && PlainCredentials(generated) && config.environmentType == "local"
      modifies this, store
      ensures Valid() && old(events) <= events
      ensures Outcome(r, store.file) == LoadRole(config, environ, old(store.file), role, generated)
      ensures r.Failure? ==> world.phase == Idle
      ensures r.Success? ==>
                var job := RoleJob(role, r.value.credentials);
                && world.phase == (if r.value.state != Pending then LoggingIn(job, false) else SigningUp(job))
                && (r.value.state == External
                    ==> store.file == old(store.file) && Supplied(config, environ, role, r.value.credentials))
                && (r.value.state == Complete ==> Kept(config, store.file, RoleSlot(role), r.value.credentials))
    {
      hide ReadFile, SavedFor, SavedComplete, Run, Start, LoadRole, Plain, PlainCredentials;
      r := store.LoadOrCreateRole(config, environ, role, generated);
      Record(AcquireRole(environ, role, generated));
      if r.Success? {
        LoadedRole(config, environ, old(store.file), role, generated);
        RunInvariant(config, start, events);
      }
    }

    method FinishRole(role: Role, c: Credentials) returns (r: Result<(), StoreError>)
      requires Valid() && world.phase == Marking(RoleJob(role, c))
      modifies this, store
      ensures Valid() && world.phase == Idle && old(events) <= events
      ensures r == Success(()) && Ready(config, store.file, provider.accounts, RoleSlot(role), c)
      ensures store.file == MarkRole(config, old(store.file), role, c).file
    {
      hide ReadFile, SavedFor, SavedComplete, Run, Start, MarkRole, Ready, Next, FinishMark, Invariant;
      RunInvariant(config, start, events);
      MarkSettles(config, world);
      MarkStep(config, world);
      MarkAccepted(config, world);
      r := store.MarkRoleComplete(config, role, c);
      Record(Mark);
    }

    /** The local branch of `acquire_browser_session`; a supplied pair never touches the file. */
    method AcquireBrowserSession(environ: Environ, role: Role, generated: Credentials) returns (r: Result<Credentials,
            AcquireError>)
      requires Valid() && world.phase == Idle && PlainCredentials(generated)
      modifies this, store, provider
      ensures Valid() && world.phase == Idle && old(events) <= events
      ensures r.Success? ==>
                || (Supplied(config, environ, role, r.value) && HasAccount(provider.accounts, r.value)
                    && store.file == old(store.file))
                || Ready(config, store.file, provider.accounts, RoleSlot(role), r.value)
      ensures old(provider.answers) <= provider.answers
      ensures var o := LoadRole(config, environ, old(store.file), role, generated);
              var calls := provider.answers[|old(provider.answers)|..];
              if config.environmentType == "local" then RoleOutcome(config, o, role, calls, r, store.file)
              else r == Failure(NotLocal) && calls == [] && store.file == old(store.file)
    {
      hide ReadFile, SavedFor, SavedComplete, Run, Start, Plain, PlainCredentials, LoadRole, MarkRole, Next;
      if config.environmentType != "local" {
        return Failure(NotLocal);
      }
      var loaded := BeginRole(environ, role, generated);
      if loaded.Failure? {
        return Failure(Saved(loaded.error));
      }
      var c := loaded.value.credentials;
      if loaded.value.state != Pending {
        var ok := LogIn(RoleJob(role, c), false);
        return if ok then Success(c) else Failure(LoginFailed);
      }
      var proved := SignUpOrLogIn(RoleJob(role, c));
      if proved.Failure? {
        return Failure(proved.error);
      }
      var completed := FinishRole(role, c);
      if completed.Failure? {
        return Failure(Saved(completed.error));
      }
      return Success(c);
    }
  }

  /** The slot's saved credentials are `c`, and it is complete. */
  ghost predicate Kept(config: EnvironmentConfig, file: Option<string>, slot: Slot, c: Credentials) {
    && config.browser.Some? && ReadFile(file).Success?
    && SavedFor(config.browser.value, ReadFile(file).value, slot) == Some(c)
    && SavedComplete(config.browser.value, ReadFile(file).value, slot)
  }

  /** In addition, the account exists. */
  ghost predicate Ready(config: EnvironmentConfig, file: Option<string>, accounts: map<string, string>, slot: Slot,
                        c: Credentials) {
    Kept(config, file, slot, c) && c.username in accounts && accounts[c.username] == c.password
  }

  /** The environment supplies both variables of the role. */
  predicate Supplied(config: EnvironmentConfig, environ: Environ, role: Role, c: Credentials) {
    && config.browser.Some? && c.username != "" && c.password != ""
    && var names := NamesOf(config.browser.value, role);
    c == Credentials(Get(environ, names.username), Get(environ, names.password))
  }

  lemma {:induction false} RunAppend(config: EnvironmentConfig, w: World, events: seq<Event>, e: Event)
    requires Run(config, w, events).Some?
    ensures Run(config, w, events + [e]) == Next(config, Run(config, w, events).value, e)
    decreases |events|
  {
    hide Next;
    if events == [] {
      assert (events + [e])[1..] == [];
    } else {
      assert (events + [e])[1..] == events[1..] + [e];
      RunAppend(config, Next(config, w, events[0]).value, events[1..], e);
    }
  }

  lemma RunInvariant(config: EnvironmentConfig, start: World, events: seq<Event>)
    requires Start(config, start) && Run(config, start, events).Some?
    ensures Invariant(config, Run(config, start, events).value)
  {
    hide Run, Invariant;
    StartInvariant(config, start);
    RunKeeps(config, start, events);
  }

  /** A mark succeeds and leaves its slot ready. */
  lemma MarkSettles(config: EnvironmentConfig, w: World)
    requires Invariant(config, w) && w.phase.Marking?
    ensures var w', slot, c := FinishMark(config, w, w.phase.job), SlotOf(w.phase.job), CredentialsOf(w.phase.job);
            w'.phase == Idle && Ready(config, w'.file, w'.accounts, slot, c)
  {
    hide FinishMark, ReadFile, SavedFor, SavedComplete, NamesSeparate;
    var w' := FinishMark(config, w, w.phase.job);
    FinishMarkKeeps(config, w, w.phase.job);
    JobIsSaved(config.browser.value, ReadFile(w.file).value, w.phase.job);
    MarkedPhase(config, w);
  }

  lemma MarkStep(config: EnvironmentConfig, w: World)
    requires w.phase.Marking?
    ensures Next(config, w, Mark) == Some(FinishMark(config, w, w.phase.job))
    ensures FinishMark(config, w, w.phase.job).accounts == w.accounts
    ensures FinishMark(config, w, w.phase.job).file ==
              match w.phase.job
              case TargetJob(record) => MarkTarget(config, w.file, record).file
              case RoleJob(role, c) => MarkRole(config, w.file, role, c).file
  {
    hide MarkTarget, MarkRole;
  }

  /** After signup or login the mark is accepted: the saved record is still the one that was loaded. */
  lemma MarkAccepted(config: EnvironmentConfig, w: World)
    requires Invariant(config, w) && w.phase.Marking?
    ensures match w.phase.job
            case TargetJob(record) => MarkTarget(config, w.file, record).result == Success(record.(state := Complete))
            case RoleJob(role, c) => MarkRole(config, w.file, role, c).result == Success(())
  {
    hide NamesSeparate, ReadFile, SavedFor, SavedComplete, WriteFile, RecordPrefix, FieldUpdates, Stored, Retains;
    var browser, values := config.browser.value, ReadFile(w.file).value;
    match w.phase.job {
      case TargetJob(record) =>
        SavedPrefix(browser, values, record);
        MarkTargetWrite(browser, values, record);
      case RoleJob(role, c) =>
        MarkRoleWrite(browser, values, role, c);
    }
  }

  lemma MarkedPhase(config: EnvironmentConfig, w: World)
    requires w.phase.Marking?
    ensures FinishMark(config, w, w.phase.job).phase == Idle
    ensures FinishMark(config, w, w.phase.job).accounts == w.accounts
  {
  }

  /** A loaded record carries the provenance it was asked for, and one that is complete is complete in the file. */
  lemma LoadedRecord(config: EnvironmentConfig, environ: Environ, file: Option<string>, runId: string,
                     scenarioId: string, c: Credentials)
    requires LoadTarget(config, environ, file, runId, scenarioId, c).result.Success?
    ensures var o := LoadTarget(config, environ, file, runId, scenarioId, c);
            var record := o.result.value;
            && record.runId == runId && record.scenarioId == scenarioId && config.browser.Some?
            && (record.state == Complete ==>
                 && ReadFile(o.file).Success?
                 && SavedComplete(config.browser.value, ReadFile(o.file).value, Target(runId, scenarioId)))
  {
    hide ReadFile, Stored, RecordPrefix, FieldUpdates, Retained, RoleUsername;
  }

  /** The record is the one that the file holds for its execution, bound identity included. */
  predicate CarriesSaved(file: Option<string>, record: TargetRecord) {
    && ReadFile(file).Success? && RecordPrefix(record.runId, record.scenarioId).Success?
    && RecordSaved(ReadFile(file).value, RecordPrefix(record.runId, record.scenarioId).value, record)
  }

  lemma LoadedCarries(config: EnvironmentConfig, environ: Environ, file: Option<string>, runId: string,
                      scenarioId: string, c: Credentials)
    requires Plain(runId) && Plain(scenarioId) && PlainCredentials(c)
    requires LoadTarget(config, environ, file, runId, scenarioId, c).result.Success?
    ensures var o := LoadTarget(config, environ, file, runId, scenarioId, c); CarriesSaved(o.file, o.result.value)
  {
    hide ReadFile, Stored, RecordPrefix, FieldUpdates, UsernameConflict, Plain, WriteFile;
    var prefix, values := RecordPrefix(runId, scenarioId).value, ReadFile(file).value;
    if !AnyStored(values, prefix) {
      NewRecordStored(file, values, runId, scenarioId, c);
    }
  }

  lemma NewRecordStored(file: Option<string>, values: map<string, string>, runId: string, scenarioId: string,
                        c: Credentials)
    requires ReadFile(file) == Success(values) && RecordPrefix(runId, scenarioId).Success?
    requires Plain(runId) && Plain(scenarioId) && PlainCredentials(c)
    requires !AnyStored(values, RecordPrefix(runId, scenarioId).value)
    ensures var record := TargetRecord(runId, scenarioId, c, Pending, None, None);
            var updates := FieldUpdates(RecordPrefix(runId, scenarioId).value, NewTargetFields(runId, scenarioId, c));
            CarriesSaved(Commit(file, Success(Plan(updates, record))).file, record)
  {
    hide ReadFile, Stored, RecordPrefix, FieldUpdates, Plain, Commit, NewTargetFields, FieldMap;
    var updates := FieldUpdates(RecordPrefix(runId, scenarioId).value, NewTargetFields(runId, scenarioId, c));
    L.NewTargetWrites(values, runId, scenarioId, c);
    CommitReads(file, Plan(updates, TargetRecord(runId, scenarioId, c, Pending, None, None)));
  }

  /** The mark changes the saved state and nothing else of the record. */
  lemma MarkCarries(config: EnvironmentConfig, file: Option<string>, record: TargetRecord)
    requires CarriesSaved(file, record) && MarkTarget(config, file, record).result.Success?
    ensures CarriesSaved(MarkTarget(config, file, record).file, record.(state := Complete))
  {
    hide ReadFile, Stored, RecordPrefix, FieldUpdates, Plain, WriteFile, FieldMap;
    var prefix, values := RecordPrefix(record.runId, record.scenarioId).value, ReadFile(file).value;
    var fields := [FieldValue(AccountState, "complete")];
    L.CompleteField();
    FieldUpdatesWritable(record.runId, record.scenarioId, fields);
    CommitReads(file, Plan(FieldUpdates(prefix, fields), record.(state := Complete)));
    forall f: Field
      ensures Stored(values + ToMap(FieldUpdates(prefix, fields)), prefix, f)
           == if f == AccountState then "complete" else Stored(values, prefix, f)
    {
      StoredAfter(values, prefix, fields, prefix, f);
    }
  }

  lemma LoadedRole(config: EnvironmentConfig, environ: Environ, file: Option<string>, role: Role, c: Credentials)
    requires LoadRole(config, environ, file, role, c).result.Success?
    ensures var o := LoadRole(config, environ, file, role, c);
            var record := o.result.value;
            && (record.state == External ==> Supplied(config, environ, role, record.credentials) && o.file == file)
            && (record.state == Complete ==>
                 && config.browser.Some? && ReadFile(o.file).Success?
                 && SavedComplete(config.browser.value, ReadFile(o.file).value, RoleSlot(role)))
  {
    hide ReadFile, Get, RoleShared, NamesOf;
  }
}
