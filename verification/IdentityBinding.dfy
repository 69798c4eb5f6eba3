/**
 Stability of the bound identity: callers that pass on the record returned by the last operation can never
 change a binding, and passing an older record is exactly what can.
 */
module IdentityBinding {
  import opened Wrappers
  import opened Text
  import opened CredentialCodec
  import opened CredentialRewrite
  import opened CredentialNames
  import opened CredentialStore
  import opened CredentialFacts
  import opened CredentialLifecycle

  datatype Execution = Execution(runId: string, scenarioId: string)

  /** The file, and for each execution the record its caller last received. */
  datatype Callers = Callers(file: Option<string>, held: map<Execution, TargetRecord>)

  datatype Call =
    | LoadCall(execution: Execution, environ: Environ, generated: Credentials)
    | MarkCall(execution: Execution)
    | BindCall(execution: Execution, identity: Identity, reusable: Reusable)

  function Receive(s: Callers, execution: Execution, outcome: Outcome<TargetRecord>): Callers {
    Callers(outcome.file, if outcome.result.Success? then s.held[execution := outcome.result.value] else s.held)
  }

  function Next(config: EnvironmentConfig, s: Callers, call: Call): Callers {
    var e := call.execution;
    match call
    case LoadCall(_, environ, c) => Receive(s, e, LoadTarget(config, environ, s.file, e.runId, e.scenarioId, c))
    case MarkCall(_) => if e in s.held then Receive(s, e, MarkTarget(config, s.file, s.held[e])) else s
    case BindCall(_, identity, reusable) =>
      if e in s.held then Receive(s, e,
                                  BindTarget(config, s.file, s.held[e], e.runId, e.scenarioId, identity, reusable))
                                    else s
  }

  function Calls(config: EnvironmentConfig, s: Callers, calls: seq<Call>): Callers
    decreases |calls|
  {
    if calls == [] then s else Calls(config, Next(config, s, calls[0]), calls[1..])
  }

  predicate PlainCall(call: Call) {
    match call
    case LoadCall(e, _, c) => Plain(e.runId) && Plain(e.scenarioId) && PlainText(c.username) && PlainText(c.password)
    case MarkCall(_) => true
    case BindCall(_, identity, _) => Plain(identity.subject) && Plain(identity.userId)
  }

  /** The held record is the saved one. */
  predicate UpToDate(values: map<string, string>, e: Execution, record: TargetRecord) {
    match RecordPrefix(e.runId, e.scenarioId)
    case Failure(_) => false
    case Success(prefix) =>
      record == SavedTarget(values, prefix) && record.runId == e.runId && record.scenarioId == e.scenarioId
  }

  ghost predicate Current(s: Callers) {
    SoundFile(s.file) && forall e :: e in s.held ==> UpToDate(ReadFile(s.file).value, e, s.held[e])
  }

  predicate BindingKept(before: map<string, string>, after: map<string, string>, p: string) {
    Stored(before, p, IdpSubject) != "" ==>
      && Stored(after, p, IdpSubject) == Stored(before, p, IdpSubject)
      && Stored(after, p, UserId) == Stored(before, p, UserId)
  }

  ghost predicate BindingsKept(before: Option<string>, after: Option<string>)
    requires ReadFile(before).Success? && ReadFile(after).Success?
  {
    forall p :: RECORD_PREFIX <= p ==> BindingKept(ReadFile(before).value, ReadFile(after).value, p)
  }

  /** Only the record under `prefix` has moved. */
  ghost predicate OnlyAt(before: map<string, string>, after: map<string, string>, prefix: string) {
    forall q, f :: q != prefix ==> Stored(after, q, f) == Stored(before, q, f)
  }

  lemma OthersUpToDate(before: map<string, string>, after: map<string, string>, prefix: string, e: Execution,
                       record: TargetRecord)
    requires OnlyAt(before, after, prefix) && UpToDate(before, e, record)
    requires RecordPrefix(e.runId, e.scenarioId) != Success(prefix)
    ensures UpToDate(after, e, record)
  {
    hide Stored, RecordPrefix;
  }

  /** Two executions with saved records never share a prefix, although the sanitiser is not injective. */
  lemma HeldApart(values: map<string, string>, e: Execution, record: TargetRecord, other: Execution,
                  record': TargetRecord)
    requires UpToDate(values, e, record) && UpToDate(values, other, record') && e != other
    ensures RecordPrefix(e.runId, e.scenarioId) != RecordPrefix(other.runId, other.scenarioId)
  {
  }

  // ---------------------------------------------------------------- the three decisions

  lemma LoadReturns(config: EnvironmentConfig, environ: Environ, before: map<string, string>, e: Execution,
                    c: Credentials)
    requires RecordPrefix(e.runId, e.scenarioId).Success?
    requires Plain(e.runId) && Plain(e.scenarioId) && Plain(c.username) && Plain(c.password)
    requires LoadTargetPlan(config, environ, before, RecordPrefix(e.runId, e.scenarioId).value, e.runId, e.scenarioId,
                            c).Success?
    ensures var prefix := RecordPrefix(e.runId, e.scenarioId).value;
            var plan := LoadTargetPlan(config, environ, before, prefix, e.runId, e.scenarioId, c).value;
            var after := before + ToMap(plan.updates);
            UpToDate(after, e, plan.value) && OnlyAt(before, after, prefix) && BindingKept(before, after, prefix)
  {
    hide Stored, RecordPrefix, Retained, UsernameConflict, FieldUpdates, Plain, FieldMap;
    var prefix := RecordPrefix(e.runId, e.scenarioId).value;
    if AnyStored(before, prefix) {
      assert before + ToMap([]) == before;
    } else {
      NewTargetWrites(before, e.runId, e.scenarioId, c);
    }
  }

  lemma MarkReturns(before: map<string, string>, e: Execution, record: TargetRecord)
    requires UpToDate(before, e, record)
    requires MarkTargetPlan(before, RecordPrefix(e.runId, e.scenarioId).value, record).Success?
    ensures var prefix := RecordPrefix(e.runId, e.scenarioId).value;
            var plan := MarkTargetPlan(before, prefix, record).value;
            var after := before + ToMap(plan.updates);
            UpToDate(after, e, plan.value) && OnlyAt(before, after, prefix) && BindingKept(before, after, prefix)
  {
    hide Stored, RecordPrefix, FieldUpdates, Plain;
    var fields := [FieldValue(AccountState, "complete")];
    assert FieldMap(fields[1..]) == map[] && FieldMap(fields) == map[][AccountState := "complete"];
    PlainStates();
    PlanWrites(before, RecordPrefix(e.runId, e.scenarioId).value, fields);
  }

  lemma BindReturns(before: map<string, string>, e: Execution, record: TargetRecord, identity: Identity)
    requires Sound(before) && UpToDate(before, e, record) && record.state == Complete
    requires PlainText(identity.subject) && PlainText(identity.userId)
    requires BindPlan(before, RecordPrefix(e.runId, e.scenarioId).value, record, identity).Success?
    ensures var prefix := RecordPrefix(e.runId, e.scenarioId).value;
            var plan := BindPlan(before, prefix, record, identity).value;
            var after := before + ToMap(plan.updates);
            UpToDate(after, e, plan.value) && OnlyAt(before, after, prefix) && BindingKept(before, after, prefix)
  {
    hide Stored, RecordPrefix, FieldUpdates, Plain, Retained;
    var prefix := RecordPrefix(e.runId, e.scenarioId).value;
    var fields := [FieldValue(IdpSubject, identity.subject), FieldValue(UserId, identity.userId)];
    var rest := fields[1..];
    assert FieldMap(rest[1..]) == map[] && FieldMap(rest) == map[][UserId := identity.userId];
    PlanWrites(before, prefix, fields);
    RecordNamesValid(e.runId, e.scenarioId, RunId);
    assert WellFormed(before, prefix);
  }

  // ---------------------------------------------------------------- runs

  lemma ReceiveKeeps(s: Callers, e: Execution, prefix: string, plan: Plan<TargetRecord>)
    requires Current(s) && RecordPrefix(e.runId, e.scenarioId) == Success(prefix) && Writable(plan.updates)
    requires SoundFile(Commit(s.file, Success(plan)).file) && Progress(s.file, Commit(s.file, Success(plan)).file)
    requires var before := ReadFile(s.file).value;
             var after := before + ToMap(plan.updates);
             UpToDate(after, e, plan.value) && OnlyAt(before, after, prefix) && BindingKept(before, after, prefix)
    ensures Current(Receive(s, e, Commit(s.file, Success(plan))))
    ensures BindingsKept(s.file, Commit(s.file, Success(plan)).file)
  {
    hide Stored, RecordPrefix, ReadFile, Sound, UpToDate, WriteFile, Advances;
    CommitReads(s.file, plan);
    RecordNamesValid(e.runId, e.scenarioId, RunId);
    var before, after := ReadFile(s.file).value, ReadFile(s.file).value + ToMap(plan.updates);
    forall k | k in s.held && k != e ensures UpToDate(after, k, s.held[k]) {
      HeldPrefix(before, after, prefix, k, s.held[k], e, plan.value);
    }
  }

  lemma HeldPrefix(before: map<string, string>, after: map<string, string>, prefix: string,
                   k: Execution, record: TargetRecord, e: Execution, record': TargetRecord)
    requires OnlyAt(before, after, prefix) && UpToDate(before, k, record) && k != e
    requires RecordPrefix(e.runId, e.scenarioId) == Success(prefix) && UpToDate(after, e, record')
    requires Advances(before, after, prefix)
    ensures UpToDate(after, k, record)
  {
    hide Stored, RecordPrefix;
    if RecordPrefix(k.runId, k.scenarioId) == Success(prefix) {
      ProvenanceNonEmpty(k.runId, k.scenarioId);
      assert false;
    }
    OthersUpToDate(before, after, prefix, k, record);
  }

  lemma NextKeeps(config: EnvironmentConfig, s: Callers, call: Call)
    requires Current(s) && PlainCall(call)
    ensures Current(Next(config, s, call)) && BindingsKept(s.file, Next(config, s, call).file)
  {
    hide Sound, ReadFile, RecordPrefix, Plain, LoadTargetPlan, MarkTargetPlan, BindPlan, UpToDate, Stored;
    var e := call.execution;
    match call
    case LoadCall(_, environ, c) => LoadCallKeeps(config, s, e, environ, c);
    case MarkCall(_) => if e in s.held { MarkCallKeeps(config, s, e); }
    case BindCall(_, identity, reusable) => if e in s.held { BindCallKeeps(config, s, e, identity, reusable); }
  }

  lemma LoadCallKeeps(config: EnvironmentConfig, s: Callers, e: Execution, environ: Environ, c: Credentials)
    requires Current(s) && PlainCall(LoadCall(e, environ, c))
    ensures var o := LoadTarget(config, environ, s.file, e.runId, e.scenarioId, c);
            SoundFile(o.file) && Current(Receive(s, e, o)) && BindingsKept(s.file, o.file)
  {
    hide Sound, ReadFile, RecordPrefix, Plain, LoadTargetPlan, UpToDate, Stored;
    LoadStepKeeps(config, s.file, environ, e.runId, e.scenarioId, c);
    if ExactLocal(config) && RecordPrefix(e.runId, e.scenarioId).Success? {
      var prefix := RecordPrefix(e.runId, e.scenarioId).value;
      var plan := LoadTargetPlan(config, environ, ReadFile(s.file).value, prefix, e.runId, e.scenarioId, c);
      if plan.Success? {
        LoadKeeps(config, environ, ReadFile(s.file).value, e.runId, e.scenarioId, c);
        LoadReturns(config, environ, ReadFile(s.file).value, e, c);
        ReceiveKeeps(s, e, prefix, plan.value);
      }
    }
  }

  lemma MarkCallKeeps(config: EnvironmentConfig, s: Callers, e: Execution)
    requires Current(s) && e in s.held
    ensures var o := MarkTarget(config, s.file, s.held[e]);
            SoundFile(o.file) && Current(Receive(s, e, o)) && BindingsKept(s.file, o.file)
  {
    hide Sound, ReadFile, RecordPrefix, MarkTargetPlan, UpToDate, Stored;
    var record := s.held[e];
    HeldProvenance(s, e);
    MarkStepKeeps(config, s.file, record);
    if ExactLocal(config) {
      var prefix := RecordPrefix(e.runId, e.scenarioId).value;
      var plan := MarkTargetPlan(ReadFile(s.file).value, prefix, record);
      if plan.Success? {
        MarkKeeps(ReadFile(s.file).value, prefix, record);
        MarkReturns(ReadFile(s.file).value, e, record);
        ReceiveKeeps(s, e, prefix, plan.value);
      }
    }
  }

  lemma BindCallKeeps(config: EnvironmentConfig, s: Callers, e: Execution, identity: Identity, reusable: Reusable)
    requires Current(s) && e in s.held && Plain(identity.subject) && Plain(identity.userId)
    ensures var o := BindTarget(config, s.file, s.held[e], e.runId, e.scenarioId, identity, reusable);
            SoundFile(o.file) && Current(Receive(s, e, o)) && BindingsKept(s.file, o.file)
  {
    hide Sound, ReadFile, RecordPrefix, BindPlan, UpToDate, Stored, Plain;
    var record := s.held[e];
    HeldProvenance(s, e);
    BindStepKeeps(config, s.file, BindStep(record, e.runId, e.scenarioId, identity, reusable));
    if ExactLocal(config) && BindGuard(record, e.runId, e.scenarioId, identity, reusable).None? {
      var prefix := RecordPrefix(e.runId, e.scenarioId).value;
      var plan := BindPlan(ReadFile(s.file).value, prefix, record, identity);
      if plan.Success? {
        BindKeeps(ReadFile(s.file).value, prefix, record, identity);
        BindReturns(ReadFile(s.file).value, e, record, identity);
        ReceiveKeeps(s, e, prefix, plan.value);
      }
    }
  }

  lemma HeldProvenance(s: Callers, e: Execution)
    requires Current(s) && e in s.held
    ensures s.held[e].runId == e.runId && s.held[e].scenarioId == e.scenarioId
    ensures RecordPrefix(e.runId, e.scenarioId).Success?
  {
  }

  /**
   Over every run in which callers pass on the record they last received, however the calls of different
   executions interleave, every held record is the saved one and no binding ever changes.
   */
  lemma {:induction false} BindingsNeverChange(config: EnvironmentConfig, s: Callers, calls: seq<Call>)
    requires Current(s) && forall c :: c in calls ==> PlainCall(c)
    ensures Current(Calls(config, s, calls)) && BindingsKept(s.file, Calls(config, s, calls).file)
    decreases |calls|
  {
    hide Sound, ReadFile, Next, PlainCall, BindingKept, UpToDate;
    if calls == [] {
      BindingsReflexive(s.file);
    } else {
      var next := Next(config, s, calls[0]);
      NextKeeps(config, s, calls[0]);
      assert forall c :: c in calls[1..] ==> c in calls;
      BindingsNeverChange(config, next, calls[1..]);
      var last := Calls(config, next, calls[1..]);
      forall p | RECORD_PREFIX <= p ensures BindingKept(ReadFile(s.file).value, ReadFile(last.file).value, p) {
        BindingTransitive(ReadFile(s.file).value, ReadFile(next.file).value, ReadFile(last.file).value, p);
      }
    }
  }

  /** Callers that hold nothing start from any file without disposable records. */
  lemma BindingsFromClean(config: EnvironmentConfig, file: Option<string>, calls: seq<Call>)
    requires CleanFile(file) && forall c :: c in calls ==> PlainCall(c)
    ensures Current(Calls(config, Callers(file, map[]), calls))
  {
    hide Sound, ReadFile, PlainCall, Calls;
    CleanFileSound(file);
    BindingsNeverChange(config, Callers(file, map[]), calls);
  }

  lemma BindingsReflexive(file: Option<string>)
    requires ReadFile(file).Success?
    ensures BindingsKept(file, file)
  {
  }

  lemma BindingTransitive(a: map<string, string>, b: map<string, string>, c: map<string, string>, p: string)
    requires BindingKept(a, b, p) && BindingKept(b, c, p)
    ensures BindingKept(a, c, p)
  {
  }

  /** In every such run, executions that hold a record never share a prefix, although the sanitiser is not injective. */
  lemma HeldNeverCollide(config: EnvironmentConfig, s: Callers, calls: seq<Call>, e: Execution, other: Execution)
    requires Current(s) && (forall c :: c in calls ==> PlainCall(c)) && e != other
    requires e in Calls(config, s, calls).held && other in Calls(config, s, calls).held
    ensures RecordPrefix(e.runId, e.scenarioId) != RecordPrefix(other.runId, other.scenarioId)
  {
    hide Calls, RecordPrefix, UpToDate, PlainCall, BindingsKept, Sound;
    BindingsNeverChange(config, s, calls);
    var end := Calls(config, s, calls);
    HeldApart(ReadFile(end.file).value, e, end.held[e], other, end.held[other]);
  }

  /** A bound record is exactly what `require_owned_disposable_identity` then accepts, for that identity only. */
  lemma BoundIsOwned(config: EnvironmentConfig, file: Option<string>, record: TargetRecord, runId: string,
                     scenarioId: string,
                     identity: Identity, reusable: Reusable, other: Identity)
    requires BindTarget(config, file, record, runId, scenarioId, identity, reusable).result.Success?
    ensures var bound := BindTarget(config, file, record, runId, scenarioId, identity, reusable).result.value;
            OwnershipError(bound, runId, scenarioId, other, reusable).None? <==> other == identity
  {
    hide ReadFile, RecordPrefix, MatchesSaved, Retained;
  }

  // ---------------------------------------------------------------- exactly when a binding can change

  /** A text that this record could be bound to: plain, no reusable identity, and no other record's. */
  predicate Free(values: map<string, string>, prefix: string, f: Field, taken: set<string>, v: string) {
    PlainText(v) && v !in taken && !Retained(values, f, VariableName(prefix, f), v)
  }

  /** The field of the record lets a binding to `v` through. */
  predicate Admits(values: map<string, string>, prefix: string, f: Field, field: Option<string>, taken: set<string>,
                   v: string) {
    Free(values, prefix, f, taken, v) && (field.Some? ==> field.value == v)
  }

  /** The field holds a text that nothing can be bound to. */
  predicate Blocked(values: map<string, string>, prefix: string, f: Field, field: Option<string>, taken: set<string>) {
    field.Some? && !Free(values, prefix, f, taken, field.value)
  }

  function BoundIdentity(values: map<string, string>, prefix: string): Identity {
    Identity(Stored(values, prefix, IdpSubject), Stored(values, prefix, UserId))
  }

  /** Exactly which plain identities a record is bound to. */
  lemma BindsIff(config: EnvironmentConfig, file: Option<string>, record: TargetRecord, identity: Identity,
                 reusable: Reusable)
    requires ExactLocal(config) && ReadFile(file).Success? && RecordPrefix(record.runId, record.scenarioId).Success?
    requires PlainText(identity.subject) && PlainText(identity.userId)
    ensures var values, prefix := ReadFile(file).value, RecordPrefix(record.runId, record.scenarioId).value;
            BindTarget(config, file, record, record.runId, record.scenarioId, identity, reusable).result.Success?
            <==> (&& MatchesSaved(values, prefix, record) && record.state == Complete
                  && Admits(values, prefix, IdpSubject, record.subject, reusable.subjects, identity.subject)
                  && Admits(values, prefix, UserId, record.userId, reusable.userIds, identity.userId))
  {
    hide Retained, MatchesSaved, ReadFile, RecordPrefix, VariableName;
  }

  /** No plain identity but the saved one can be bound through this record. */
  ghost predicate PinsBinding(config: EnvironmentConfig, file: Option<string>, record: TargetRecord, reusable: Reusable)
    requires ReadFile(file).Success? && RecordPrefix(record.runId, record.scenarioId).Success?
  {
    forall identity: Identity |
      && PlainText(identity.subject) && PlainText(identity.userId)
      && BindTarget(config, file, record, record.runId, record.scenarioId, identity, reusable).result.Success? ::
      identity == BoundIdentity(ReadFile(file).value, RecordPrefix(record.runId, record.scenarioId).value)
  }

  function Repeat(n: nat): (s: string)
    ensures |s| == n && forall i :: 0 <= i < n ==> s[i] == 'x'
  {
    if n == 0 then "" else "x" + Repeat(n - 1)
  }

  lemma RepeatPlain(n: nat)
    requires n > 0
    ensures PlainText(Repeat(n))
  {
  }

  lemma LongerThanAll(texts: set<string>) returns (n: nat)
    ensures forall t :: t in texts ==> |t| < n
  {
    n := 0;
    var rest := texts;
    while rest != {}
      invariant rest <= texts
      invariant forall t :: t in texts - rest ==> |t| < n
      decreases rest
    {
      var t :| t in rest;
      rest := rest - {t};
      if |t| >= n {
        n := |t| + 1;
      }
    }
  }

  /** A text that can be bound and is not the saved one. */
  lemma UnusedText(values: map<string, string>, prefix: string, f: Field, taken: set<string>) returns (v: string)
    ensures Free(values, prefix, f, taken, v) && v != Stored(values, prefix, f)
  {
    hide Plain, VariableName, Suffix, Strip;
    var n := LongerThanAll(values.Values + taken);
    v := Repeat(n + 1);
    RepeatPlain(n + 1);
    forall name | name in values ensures Strip(values[name]) != v {
      assert values[name] in values.Values;
      StripNoLonger(values[name]);
    }
  }

  lemma StripNoLonger(s: string)
    ensures |Strip(s)| <= |s|
  {
  }

  /**
   A record that a bind may use lets no other identity replace the saved one if and only if it carries exactly
   the saved identity, or a field that nothing can be bound to. Neither an unbound record nor one that carries
   an identity saved earlier protects the binding.
   */
  lemma PinsBindingIff(config: EnvironmentConfig, file: Option<string>, record: TargetRecord, reusable: Reusable)
    requires ExactLocal(config) && ReadFile(file).Success? && RecordPrefix(record.runId, record.scenarioId).Success?
    requires record.state == Complete
    requires MatchesSaved(ReadFile(file).value, RecordPrefix(record.runId, record.scenarioId).value, record)
    ensures var values, prefix := ReadFile(file).value, RecordPrefix(record.runId, record.scenarioId).value;
            var saved := BoundIdentity(values, prefix);
            PinsBinding(config, file, record, reusable)
            <==> (|| Blocked(values, prefix, IdpSubject, record.subject, reusable.subjects)
                  || Blocked(values, prefix, UserId, record.userId, reusable.userIds)
                  || (record.subject == Some(saved.subject) && record.userId == Some(saved.userId)))
  {
    hide ReadFile, RecordPrefix, MatchesSaved, BindTarget, Stored, Free, PlainText, ExactLocal;
    var values, prefix := ReadFile(file).value, RecordPrefix(record.runId, record.scenarioId).value;
    var saved := BoundIdentity(values, prefix);
    var s := UnusedText(values, prefix, IdpSubject, reusable.subjects);
    var u := UnusedText(values, prefix, UserId, reusable.userIds);
    s := if record.subject.Some? then record.subject.value else s;
    u := if record.userId.Some? then record.userId.value else u;
    FreeIsPlain(values, prefix, IdpSubject, reusable.subjects, s);
    FreeIsPlain(values, prefix, UserId, reusable.userIds, u);
    if PlainText(s) && PlainText(u) {
      BindsIff(config, file, record, Identity(s, u), reusable);
    }
    forall identity: Identity |
      && PlainText(identity.subject) && PlainText(identity.userId)
      && BindTarget(config, file, record, record.runId, record.scenarioId, identity, reusable).result.Success?
      ensures Admits(values, prefix, IdpSubject, record.subject, reusable.subjects, identity.subject)
      ensures Admits(values, prefix, UserId, record.userId, reusable.userIds, identity.userId)
    {
      BindsIff(config, file, record, identity, reusable);
    }
  }

  lemma FreeIsPlain(values: map<string, string>, prefix: string, f: Field, taken: set<string>, v: string)
    ensures Free(values, prefix, f, taken, v) ==> PlainText(v)
  {
  }

  // ---------------------------------------------------------------- colliding and unreadable provenance

  /** Two executions that sanitise to one prefix: the second is refused and the file stays, whatever else it holds. */
  lemma CollisionRefused(config: EnvironmentConfig, environ: Environ, file: Option<string>, saved: Execution,
                         other: Execution, c: Credentials)
    requires ReadFile(file).Success? && ExactLocal(config) && other != saved
    requires RecordPrefix(saved.runId, saved.scenarioId).Success?
    requires RecordPrefix(other.runId, other.scenarioId) == RecordPrefix(saved.runId, saved.scenarioId)
    requires var prefix := RecordPrefix(saved.runId, saved.scenarioId).value;
             Stored(ReadFile(file).value, prefix, RunId) == saved.runId
             && Stored(ReadFile(file).value, prefix, ScenarioId) == saved.scenarioId
    ensures var prefix, o := RecordPrefix(saved.runId, saved.scenarioId).value,
            LoadTarget(config, environ, file, other.runId, other.scenarioId, c);
            && o.result.Failure? && o.file == file
            && (Stored(ReadFile(file).value, prefix, Username) != ""
                && Stored(ReadFile(file).value, prefix, Password) != "" ==>
                  o.result.error == ProvenanceMismatch)
  {
    hide Stored, RecordPrefix, ReadFile;
    var prefix := RecordPrefix(saved.runId, saved.scenarioId).value;
    ProvenanceNonEmpty(saved.runId, saved.scenarioId);
    assert Stored(ReadFile(file).value, prefix, RunId) != "";
  }

  /** Ids with outer whitespace are refused whatever is saved under their names: stored texts are read back stripped. */
  lemma UnstrippedNeverReloads(config: EnvironmentConfig, environ: Environ, file: Option<string>, e: Execution,
                               c: Credentials)
    requires Strip(e.runId) != e.runId || Strip(e.scenarioId) != e.scenarioId
    requires RecordPrefix(e.runId, e.scenarioId).Success? && ReadFile(file).Success?
    requires AnyStored(ReadFile(file).value, RecordPrefix(e.runId, e.scenarioId).value)
    ensures LoadTarget(config, environ, file, e.runId, e.scenarioId, c).result.Failure?
  {
    hide RecordPrefix, ReadFile, Retained, UsernameConflict;
    var values, prefix := ReadFile(file).value, RecordPrefix(e.runId, e.scenarioId).value;
    StripIdempotent(if VariableName(prefix, RunId) in values then values[VariableName(prefix, RunId)] else "");
    StripIdempotent(if VariableName(prefix, ScenarioId) in values then values[VariableName(prefix, ScenarioId)]
                      else "");
  }
}
