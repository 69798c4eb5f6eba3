/** Reusing or rebuilding the frozen environment under a readiness marker. */
module Bootstrap {
  import opened Wrappers
  import opened Json
  import opened PackageNames
  import opened Inventories

  /** The three files the environment is built from. */
  datatype Inputs = Inputs(pythonPin: string, manifest: string, lock: string)

  datatype Contract = Contract(pythonPin: string, uvVersion: string, locked: set<Locked>)

  /** `BootstrapIdentity`; its schema version is always `1`. */
  datatype Identity = Identity(pythonVersion: string, pythonExecutable: string, uvVersion: string,
                               pinDigest: string, manifestDigest: string, lockDigest: string)

  /** `.venv`: `contents` stands for everything installed in it, `marker` for the JSON the marker file decodes to. */
  datatype Venv = Absent | PlainFile | Environment(marker: Option<Value>, contents: string)

  /** The programs and file system a bootstrap consults. */
  datatype Tools = Tools(
    contract: Inputs -> Option<Contract>,
    python: string -> Option<string>,
    inSync: (Inputs, string) -> bool,
    listing: string -> Option<Value>,
    here: string -> bool,
    digest: string -> string
  )

  // ---------------------------------------------------------------- the marker

  /** `json.dumps(asdict(identity), sort_keys=True)` */
  function Document(id: Identity): Value {
    Object([
      Member("lock_sha256", Text(id.lockDigest)),
      Member("manifest_sha256", Text(id.manifestDigest)),
      Member("python_executable", Text(id.pythonExecutable)),
      Member("python_pin_sha256", Text(id.pinDigest)),
      Member("python_version", Text(id.pythonVersion)),
      Member("schema_version", Number("1", false)),
      Member("uv_version", Text(id.uvVersion))])
  }

  /** What Python finds equal to `1` among decoded JSON values. */
  predicate EqualsOne(v: Value) {
    v == Bool(true) || (v.Number? && (v.text == "1" || v.text == "1.0"))
  }

  predicate HasEntry(members: seq<Member>, key: string, s: string) {
    Lookup(members, key) == Some(Text(s))
  }

  /** `value == asdict(identity)`: the same seven keys with equal values, in any order. */
  predicate MarkerMatches(marker: Option<Value>, id: Identity) {
    && marker.Some? && marker.value.Object? && |marker.value.members| == 7
    && var m := marker.value.members;
    && HasEntry(m, "lock_sha256", id.lockDigest) && HasEntry(m, "manifest_sha256", id.manifestDigest)
    && HasEntry(m, "python_executable", id.pythonExecutable) && HasEntry(m, "python_pin_sha256", id.pinDigest)
    && HasEntry(m, "python_version", id.pythonVersion) && HasEntry(m, "uv_version", id.uvVersion)
    && Lookup(m, "schema_version").Some? && EqualsOne(Lookup(m, "schema_version").value)
  }

  lemma {:induction false} LookupPast(members: seq<Member>, k: nat, key: string)
    requires k <= |members| && forall i :: 0 <= i < k ==> members[i].key != key
    ensures Lookup(members, key) == Lookup(members[k..], key)
  {
    if k > 0 {
      LookupPast(members[1..], k - 1, key);
      assert members[1..][k - 1..] == members[k..];
    } else {
      assert members[0..] == members;
    }
  }

  /** A marker matches the identity it was written for, and no other. */
  lemma MarkerReadsBack(written: Identity, id: Identity)
    ensures MarkerMatches(Some(Document(written)), id) <==> written == id
  {
    hide Lookup;
    var members := Document(written).members;
    assert UniqueKeys(members);
    LookupAt(members, 0);
    LookupAt(members, 1);
    LookupAt(members, 2);
    LookupAt(members, 3);
    LookupAt(members, 4);
    LookupAt(members, 5);
    LookupAt(members, 6);
  }

  // ---------------------------------------------------------------- a marker in any order

  const MARKER_KEYS := {"lock_sha256", "manifest_sha256", "python_executable", "python_pin_sha256", "python_version",
                        "schema_version", "uv_version"}

  /** What has to stand under each key; the version may be anything Python finds equal to 1. */
  predicate Entry(id: Identity, m: Member) {
    match m.key
    case "lock_sha256" => m.value == Text(id.lockDigest)
    case "manifest_sha256" => m.value == Text(id.manifestDigest)
    case "python_executable" => m.value == Text(id.pythonExecutable)
    case "python_pin_sha256" => m.value == Text(id.pinDigest)
    case "python_version" => m.value == Text(id.pythonVersion)
    case "uv_version" => m.value == Text(id.uvVersion)
    case "schema_version" => m.value == Bool(true) || (m.value.Number? && m.value.text in ["1", "1.0"])
    case _ => false
  }

  function KeysOf(members: seq<Member>): set<string> {
    if members == [] then {} else {members[0].key} + KeysOf(members[1..])
  }

  lemma {:induction false} KeysOfSize(members: seq<Member>)
    requires UniqueKeys(members)
    ensures |KeysOf(members)| == |members|
    ensures forall k :: k in KeysOf(members) <==> exists i :: 0 <= i < |members| && members[i].key == k
  {
    if members != [] {
      KeysOfSize(members[1..]);
      assert forall i :: 1 <= i < |members| ==> members[i] == members[1..][i - 1];
      assert members[0].key !in KeysOf(members[1..]);
    }
  }

  lemma {:induction false} FoundIff(members: seq<Member>, key: string)
    ensures Lookup(members, key).Some? <==> key in KeysOf(members)
    ensures Lookup(members, key).Some? ==> Member(key, Lookup(members, key).value) in members
  {
    if members != [] && members[0].key != key {
      FoundIff(members[1..], key);
    }
  }

  lemma MarkerKeysMany()
    ensures |MARKER_KEYS| == 7
  {
  }

  lemma SameSize(a: set<string>, b: set<string>)
    requires a <= b && |a| == |b|
    ensures a == b
  {
    assert |b - a| == 0;
  }

  /** All the lookups a match makes find an entry that is right. */
  predicate LookupsRight(members: seq<Member>, id: Identity) {
    forall key :: key in MARKER_KEYS ==>
      Lookup(members, key).Some? && Entry(id, Member(key, Lookup(members, key).value))
  }

  lemma MatchIsLookups(members: seq<Member>, id: Identity)
    ensures MarkerMatches(Some(Object(members)), id) <==> |members| == 7 && LookupsRight(members, id)
  {
    hide Lookup;
    assert "lock_sha256" in MARKER_KEYS && "manifest_sha256" in MARKER_KEYS && "python_executable" in MARKER_KEYS;
    assert "python_pin_sha256" in MARKER_KEYS && "python_version" in MARKER_KEYS && "uv_version" in MARKER_KEYS;
    assert "schema_version" in MARKER_KEYS;
  }

  /** A decoded marker matches exactly when it has the seven keys and each entry is right, in whatever order. */
  lemma MarkerMatchesIff(members: seq<Member>, id: Identity)
    requires UniqueKeys(members)
    ensures MarkerMatches(Some(Object(members)), id) <==>
            KeysOf(members) == MARKER_KEYS && forall i :: 0 <= i < |members| ==> Entry(id, members[i])
  {
    hide Lookup, Entry, MarkerMatches, KeysOf;
    MatchIsLookups(members, id);
    KeysOfSize(members);
    MarkerKeysMany();
    forall key
      ensures Lookup(members, key).Some? <==> key in KeysOf(members)
      ensures Lookup(members, key).Some? ==> Member(key, Lookup(members, key).value) in members
    {
      FoundIff(members, key);
    }
    if MarkerMatches(Some(Object(members)), id) {
      SameSize(MARKER_KEYS, KeysOf(members));
      forall i | 0 <= i < |members| ensures Entry(id, members[i]) {
        assert members[i].key in KeysOf(members);
        LookupAt(members, i);
      }
    }
  }

  // ---------------------------------------------------------------- one bootstrap, step by step

  /** `version.rsplit(".", maxsplit=1)[0]` */
  function Minor(version: string): string {
    BeforeLastDot(version, |version|)
  }

  function BeforeLastDot(version: string, n: nat): string
    requires n <= |version|
  {
    if n == 0 then version
    else if version[n - 1] == '.' then version[..n - 1]
    else BeforeLastDot(version, n - 1)
  }

  /** The identity of the environment that the inputs call for; none when the bootstrap must refuse. */
  function Wanted(tools: Tools, inputs: Inputs, runtime: string): Option<(Identity, Contract)> {
    match tools.contract(inputs)
    case None => None
    case Some(contract) =>
      if Minor(runtime) != Minor(contract.pythonPin) then None
      else match tools.python(contract.pythonPin)
        case None => None
        case Some(executable) =>
          Some((Identity(contract.pythonPin, executable, contract.uvVersion, tools.digest(inputs.pythonPin),
                         tools.digest(inputs.manifest), tools.digest(inputs.lock)), contract))
  }

  // ---------------------------------------------------------------- what an identity identifies

  predicate NoDot(s: string) {
    forall i :: 0 <= i < |s| ==> s[i] != '.'
  }

  lemma {:induction false} LastDot(version: string, stem: string, patch: string, n: nat)
    requires version == stem + "." + patch && NoDot(patch) && |stem| < n <= |version|
    ensures BeforeLastDot(version, n) == stem
  {
    if n == |stem| + 1 {
      assert version[|stem|] == '.' && version[..|stem|] == stem;
    } else {
      assert version[n - 1] == patch[n - 2 - |stem|];
      LastDot(version, stem, patch, n - 1);
    }
  }

  /** The minor line is what stands before the last dot. */
  lemma MinorOf(stem: string, patch: string)
    requires NoDot(patch)
    ensures Minor(stem + "." + patch) == stem
  {
    var version := stem + "." + patch;
    LastDot(version, stem, patch, |version|);
  }

  lemma {:induction false} MinorWithoutDot(version: string, n: nat)
    requires NoDot(version) && n <= |version|
    ensures BeforeLastDot(version, n) == version
  {
    if n > 0 {
      MinorWithoutDot(version, n - 1);
    }
  }

  /** An interpreter of another minor line is refused; one of the same line is accepted, whatever its patch. */
  lemma MinorLineDecides(tools: Tools, inputs: Inputs, contract: Contract, stem: string, patch: string,
                         runtimeStem: string, runtimePatch: string)
    requires tools.contract(inputs) == Some(contract) && contract.pythonPin == stem + "." + patch
    requires NoDot(patch) && NoDot(runtimePatch) && tools.python(contract.pythonPin).Some?
    ensures Wanted(tools, inputs, runtimeStem + "." + runtimePatch).Some? <==> runtimeStem == stem
  {
    MinorOf(stem, patch);
    MinorOf(runtimeStem, runtimePatch);
  }

  /** Two checkouts with the same sources: equal digests of the three files and equal pinned tools. */
  predicate SameSources(tools: Tools, a: Inputs, b: Inputs) {
    && tools.digest(a.pythonPin) == tools.digest(b.pythonPin)
    && tools.digest(a.manifest) == tools.digest(b.manifest)
    && tools.digest(a.lock) == tools.digest(b.lock)
    && tools.contract(a).Some? && tools.contract(b).Some?
    && tools.contract(a).value.pythonPin == tools.contract(b).value.pythonPin
    && tools.contract(a).value.uvVersion == tools.contract(b).value.uvVersion
  }

  /** Identities are equal exactly for equal sources; the interpreter path is that of the pinned version. */
  lemma IdentityMeansSources(tools: Tools, a: Inputs, runtimeA: string, b: Inputs, runtimeB: string)
    requires Wanted(tools, a, runtimeA).Some? && Wanted(tools, b, runtimeB).Some?
    ensures Wanted(tools, a, runtimeA).value.0 == Wanted(tools, b, runtimeB).value.0 <==> SameSources(tools, a, b)
    ensures Some(Wanted(tools, a, runtimeA).value.0.pythonExecutable)
         == tools.python(tools.contract(a).value.pythonPin)
    ensures Some(Wanted(tools, a, runtimeA).value.1) == tools.contract(a)
  {
  }

  /** What the marker of a checkout spells out, key by key. */
  lemma MarkerContents(tools: Tools, inputs: Inputs, runtime: string)
    requires Wanted(tools, inputs, runtime).Some?
    ensures var members, contract := Document(Wanted(tools, inputs, runtime).value.0).members,
                                     tools.contract(inputs).value;
            && |members| == 7
            && Member("python_pin_sha256", Text(tools.digest(inputs.pythonPin))) in members
            && Member("manifest_sha256", Text(tools.digest(inputs.manifest))) in members
            && Member("lock_sha256", Text(tools.digest(inputs.lock))) in members
            && Member("python_version", Text(contract.pythonPin)) in members
            && Member("uv_version", Text(contract.uvVersion)) in members
            && Member("python_executable", Text(tools.python(contract.pythonPin).value)) in members
            && Member("schema_version", Number("1", false)) in members
  {
    hide Minor;
    var members := Document(Wanted(tools, inputs, runtime).value.0).members;
    assert members[0] in members && members[1] in members && members[2] in members && members[3] in members;
    assert members[4] in members && members[5] in members && members[6] in members;
  }

  /** Both checks pass: the frozen sync check and the listing. */
  predicate Exact(tools: Tools, inputs: Inputs, contract: Contract, venv: Venv) {
    && venv.Environment?
    && tools.inSync(inputs, venv.contents)
    && var listing := tools.listing(venv.contents);
    listing.Some? && listing.value.Array? && OnlyLocked(listing.value.items, contract.locked, tools.here)
  }

  predicate Marked(venv: Venv, id: Identity) {
    venv.Environment? && MarkerMatches(venv.marker, id)
  }

  predicate Unmarked(venv: Venv) {
    venv.Environment? ==> venv.marker.None?
  }

  predicate Reusable(tools: Tools, inputs: Inputs, id: Identity, contract: Contract, venv: Venv) {
    Marked(venv, id) && Exact(tools, inputs, contract, venv)
  }

  /** Where a call stands; `Idle` is between calls. */
  datatype Phase =
    | Idle
    | Ready(id: Identity, contract: Contract)
    | Emptying(id: Identity, contract: Contract)
    | Removed(id: Identity, contract: Contract)
    | Synced(id: Identity, contract: Contract)
    | Verified(id: Identity, contract: Contract)
    | Returned(reused: bool, id: Identity, contract: Contract)

  datatype State = State(inputs: Inputs, venv: Venv, phase: Phase)

  ghost predicate Prepare(tools: Tools, s: State, s': State) {
    && s.phase.Idle? && s'.phase.Ready? && s'.venv == s.venv && s'.inputs == s.inputs
    && exists runtime :: Wanted(tools, s.inputs, runtime) == Some((s'.phase.id, s'.phase.contract))
  }

  predicate Reuse(tools: Tools, s: State, s': State) {
    && s.phase.Ready? && Reusable(tools, s.inputs, s.phase.id, s.phase.contract, s.venv)
    && s' == s.(phase := Returned(true, s.phase.id, s.phase.contract))
  }

  /** Removing a marker that is not there is no error; below a plain file it is one. */
  predicate Unlink(tools: Tools, s: State, s': State) {
    && s.phase.Ready? && !Reusable(tools, s.inputs, s.phase.id, s.phase.contract, s.venv) && !s.venv.PlainFile?
    && s'.venv == (if s.venv.Environment? then s.venv.(marker := None) else s.venv)
    && s' == State(s.inputs, s'.venv, Emptying(s.phase.id, s.phase.contract))
  }

  /** Deleting the tree file by file leaves any part of it behind. */
  predicate RemoveSome(s: State, s': State) {
    s.phase.Emptying? && s' == s.(venv := s'.venv) && Unmarked(s'.venv) && !s'.venv.PlainFile?
  }

  predicate Remove(s: State, s': State) {
    s.phase.Emptying? && s' == State(s.inputs, Absent, Removed(s.phase.id, s.phase.contract))
  }

  /** Synchronizing installs anything, but it is not what writes the marker. */
  predicate SyncSome(s: State, s': State) {
    s.phase.Removed? && s' == s.(venv := s'.venv) && Unmarked(s'.venv)
  }

  predicate Sync(s: State, s': State) {
    && s.phase.Removed? && Unmarked(s'.venv)
    && s' == State(s.inputs, s'.venv, Synced(s.phase.id, s.phase.contract))
  }

  predicate Verify(tools: Tools, s: State, s': State) {
    && s.phase.Synced? && Exact(tools, s.inputs, s.phase.contract, s.venv)
    && s' == s.(phase := Verified(s.phase.id, s.phase.contract))
  }

  /** `_write_marker` in one step */
  predicate WriteMarker(s: State, s': State) {
    && s.phase.Verified? && s.venv.Environment?
    && s' == State(s.inputs, s.venv.(marker := Some(Document(s.phase.id))),
                   Returned(false, s.phase.id, s.phase.contract))
  }

  /** The end of a call: a return, an error or a crash. */
  predicate Stop(s: State, s': State) {
    s' == s.(phase := Idle)
  }

  /** Anything may happen to the inputs and the environment between calls. */
  predicate Edit(s: State, s': State) {
    s.phase.Idle? && s'.phase.Idle?
  }

  ghost predicate Next(tools: Tools, s: State, s': State) {
    || Prepare(tools, s, s') || Reuse(tools, s, s') || Unlink(tools, s, s') || RemoveSome(s, s') || Remove(s, s')
    || SyncSome(s, s') || Sync(s, s') || Verify(tools, s, s') || WriteMarker(s, s') || Stop(s, s') || Edit(s, s')
  }

  ghost predicate Run(tools: Tools, run: seq<State>) {
    && run != [] && run[0].phase.Idle?
    && forall i :: 0 <= i < |run| - 1 ==> Next(tools, run[i], run[i + 1])
  }

  // ---------------------------------------------------------------- every run

  predicate Rebuilding(phase: Phase) {
    phase.Emptying? || phase.Removed? || phase.Synced? || phase.Verified?
  }

  /** The identity and contract of a call are those its inputs call for. */
  ghost predicate Current(tools: Tools, s: State, id: Identity, contract: Contract) {
    exists runtime :: Wanted(tools, s.inputs, runtime) == Some((id, contract))
  }

  ghost predicate Safe(tools: Tools, s: State) {
    && (!s.phase.Idle? ==> Current(tools, s, s.phase.id, s.phase.contract))
    && (Rebuilding(s.phase) ==> Unmarked(s.venv))
    && (s.phase.Verified? ==> Exact(tools, s.inputs, s.phase.contract, s.venv))
    && (s.phase.Returned? ==> Reusable(tools, s.inputs, s.phase.id, s.phase.contract, s.venv))
  }

  lemma NextSafe(tools: Tools, s: State, s': State)
    requires Safe(tools, s) && Next(tools, s, s')
    ensures Safe(tools, s')
  {
    hide MarkerMatches, Document, Wanted, OnlyLocked;
    if WriteMarker(s, s') {
      MarkerReadsBack(s.phase.id, s.phase.id);
    }
  }

  /**
   * With crashes at every step and any edits between calls: no marker exists while an environment is being
   * rebuilt, and every normal return leaves an environment that passes both checks under a marker that
   * matches the identity of the current inputs.
   */
  lemma {:induction false} RunSafe(tools: Tools, run: seq<State>, k: nat)
    requires Run(tools, run) && k < |run|
    ensures Safe(tools, run[k])
  {
    if k > 0 {
      RunSafe(tools, run, k - 1);
      NextSafe(tools, run[k - 1], run[k]);
    }
  }

  /** Outside edits that take markers away, but bring none. */
  predicate NoForgery(run: seq<State>) {
    forall i :: 0 <= i < |run| - 1 && Edit(run[i], run[i + 1]) ==> KeepsOrDrops(run[i].venv, run[i + 1].venv)
  }

  predicate KeepsOrDrops(venv: Venv, venv': Venv) {
    venv'.Environment? && venv'.marker.Some? ==> venv.Environment? && venv.marker == venv'.marker
  }

  /** The step that wrote `marker`, from an environment that had just passed both checks. */
  predicate WrittenAt(tools: Tools, run: seq<State>, j: nat, marker: Value) {
    && j + 1 < |run| && WriteMarker(run[j], run[j + 1])
    && marker == Document(run[j].phase.id)
    && Exact(tools, run[j].inputs, run[j].phase.contract, run[j].venv)
  }

  lemma {:induction false} MarkerOrigin(tools: Tools, run: seq<State>, k: nat) returns (j: nat)
    requires Run(tools, run) && NoForgery(run) && Unmarked(run[0].venv)
    requires k < |run| && run[k].venv.Environment? && run[k].venv.marker.Some?
    ensures j < k && WrittenAt(tools, run, j, run[k].venv.marker.value)
  {
    hide MarkerMatches, Document, Wanted, OnlyLocked, Exact;
    RunSafe(tools, run, k - 1);
    if WriteMarker(run[k - 1], run[k]) {
      j := k - 1;
    } else {
      assert KeepsOrDrops(run[k - 1].venv, run[k].venv);
      j := MarkerOrigin(tools, run, k - 1);
    }
  }

  /**
   * When nobody else writes markers, a marker that stands for an identity was written by a call that wanted
   * this very identity, right after that call had checked the environment it had just rebuilt.
   */
  lemma MarkerMeansChecked(tools: Tools, run: seq<State>, k: nat, id: Identity) returns (j: nat)
    requires Run(tools, run) && NoForgery(run) && Unmarked(run[0].venv)
    requires k < |run| && Marked(run[k].venv, id)
    ensures j < k && run[j].phase.Verified? && run[j].phase.id == id
    ensures Current(tools, run[j], id, run[j].phase.contract)
    ensures Exact(tools, run[j].inputs, run[j].phase.contract, run[j].venv)
    ensures forall contract :: Current(tools, run[k], id, contract) ==> SameSources(tools, run[j].inputs, run[k].inputs)
  {
    hide Exact, Wanted, Document, SameSources;
    j := MarkerOrigin(tools, run, k);
    RunSafe(tools, run, j);
    MarkerReadsBack(run[j].phase.id, id);
    var runtime :| Wanted(tools, run[j].inputs, runtime) == Some((id, run[j].phase.contract));
    forall contract | Current(tools, run[k], id, contract)
      ensures SameSources(tools, run[j].inputs, run[k].inputs)
    {
      var present :| Wanted(tools, run[k].inputs, present) == Some((id, contract));
      IdentityMeansSources(tools, run[j].inputs, runtime, run[k].inputs, present);
    }
  }

  // ---------------------------------------------------------------- when a bootstrap can return

  /** Nobody else changes the inputs or the environment. */
  predicate Untouched(run: seq<State>) {
    forall i :: 0 <= i < |run| - 1 && Edit(run[i], run[i + 1]) ==> run[i + 1] == run[i]
  }

  /** An undisturbed run from `s` in which a call returns normally. */
  ghost predicate Returns(tools: Tools, s: State, run: seq<State>) {
    Run(tools, run) && Untouched(run) && run[0] == s && run[|run| - 1].phase.Returned?
  }

  /** The inputs are accepted, and an environment with these contents passes both checks. */
  predicate Buildable(tools: Tools, inputs: Inputs, runtime: string, contents: string) {
    && Wanted(tools, inputs, runtime).Some?
    && Exact(tools, inputs, Wanted(tools, inputs, runtime).value.1, Environment(None, contents))
  }

  /** A call keeps the inputs, and as long as `.venv` is a plain file it gets no further than its own checks. */
  lemma {:induction false} UndisturbedRun(tools: Tools, run: seq<State>, k: nat)
    requires Run(tools, run) && Untouched(run) && k < |run|
    ensures run[k].inputs == run[0].inputs
    ensures run[0].venv.PlainFile? ==> run[k].venv == run[0].venv && (run[k].phase.Idle? || run[k].phase.Ready?)
  {
    hide Wanted, Exact, MarkerMatches, Document, Untouched;
    if k > 0 {
      UndisturbedRun(tools, run, k - 1);
      UndisturbedStep(run, k - 1);
      assert Next(tools, run[k - 1], run[k]);
    }
  }

  lemma UndisturbedStep(run: seq<State>, i: nat)
    requires Untouched(run) && i + 1 < |run|
    ensures Edit(run[i], run[i + 1]) ==> run[i + 1] == run[i]
  {
  }

  lemma ReturnedBuildable(tools: Tools, s: State, run: seq<State>)
    requires Returns(tools, s, run)
    ensures !s.venv.PlainFile? && exists runtime, contents :: Buildable(tools, s.inputs, runtime, contents)
  {
    hide Wanted, Exact, MarkerMatches, Document, Next, Untouched;
    var end := run[|run| - 1];
    UndisturbedRun(tools, run, |run| - 1);
    RunSafe(tools, run, |run| - 1);
    var runtime :| Wanted(tools, end.inputs, runtime) == Some((end.phase.id, end.phase.contract));
    ExactIsEnvironment(tools, end.inputs, end.phase.contract, end.venv);
    ExactIgnoresMarker(tools, end.inputs, end.phase.contract, end.venv, None);
    assert Buildable(tools, s.inputs, runtime, end.venv.contents);
  }

  lemma BuildableReturns(tools: Tools, s: State, runtime: string, contents: string) returns (run: seq<State>)
    requires s.phase.Idle? && !s.venv.PlainFile? && Buildable(tools, s.inputs, runtime, contents)
    ensures Returns(tools, s, run)
  {
    hide Wanted, Exact, MarkerMatches, Document;
    var (id, contract) := Wanted(tools, s.inputs, runtime).value;
    var ready := s.(phase := Ready(id, contract));
    assert Prepare(tools, s, ready);
    if Reusable(tools, s.inputs, id, contract, s.venv) {
      run := [s, ready, s.(phase := Returned(true, id, contract))];
    } else {
      var bare := if s.venv.Environment? then s.venv.(marker := None) else s.venv;
      var built := Environment(None, contents);
      var emptying := State(s.inputs, bare, Emptying(id, contract));
      var removed := State(s.inputs, Absent, Removed(id, contract));
      var synced := State(s.inputs, built, Synced(id, contract));
      var verified := State(s.inputs, built, Verified(id, contract));
      var done := State(s.inputs, built.(marker := Some(Document(id))), Returned(false, id, contract));
      assert Unlink(tools, ready, emptying) && Remove(emptying, removed) && Sync(removed, synced);
      assert Verify(tools, synced, verified) && WriteMarker(verified, done);
      run := [s, ready, emptying, removed, synced, verified, done];
    }
  }

  /**
   An undisturbed call can return normally if and only if `.venv` is not a plain file, the inputs are accepted
   and some environment passes the checks. A plain file is never replaced, although the removal step provides
   for one: taking the marker from below it fails first.
   */
  lemma ReturnsIff(tools: Tools, s: State)
    requires s.phase.Idle?
    ensures (exists run :: Returns(tools, s, run))
       <==> !s.venv.PlainFile? && exists runtime, contents :: Buildable(tools, s.inputs, runtime, contents)
  {
    hide Returns, Buildable;
    if run :| Returns(tools, s, run) {
      ReturnedBuildable(tools, s, run);
    }
    if runtime, contents :| !s.venv.PlainFile? && Buildable(tools, s.inputs, runtime, contents) {
      var run := BuildableReturns(tools, s, runtime, contents);
    }
  }

  // ---------------------------------------------------------------- the procedure

  /** `Stopped`: an interruption, or a failing tool. */
  datatype Outcome = Reused | Rebuilt | Refused | Stopped

  predicate Normal(outcome: Outcome) {
    outcome.Reused? || outcome.Rebuilt?
  }

  /** What happens to a call from outside, in order. */
  datatype Happening = Interruption | RemovalBroke(rest: Venv) | SyncAnswer(ok: bool, venv: Venv)

  /** The operating system and uv; `happenings` lists what they did to the calls so far. */
  class Surroundings {
    ghost var happenings: seq<Happening>

    constructor ()
      ensures happenings == []
    {
      happenings := [];
    }

    method Interrupts() returns (stopped: bool)
      modifies this
      ensures happenings == old(happenings) + if stopped then [Interruption] else []
    {
      stopped := *;
      happenings := happenings + if stopped then [Interruption] else [];
    }

    /** `shutil.rmtree`: the whole tree, or when it is stopped half-way any part of it is left. */
    method RemoveTree() returns (left: Option<Venv>)
      modifies this
      ensures left.Some? ==> Unmarked(left.value) && !left.value.PlainFile?
      ensures happenings == old(happenings) + if left.Some? then [RemovalBroke(left.value)] else []
    {
      var broken: bool := *;
      var gone: bool := *;
      var rest: string := *;
      left := if !broken then None else Some(if gone then Absent else Environment(None, rest));
      happenings := happenings + if left.Some? then [RemovalBroke(left.value)] else [];
    }

    /** `uv sync`: installs anything, but it is not what writes the marker. */
    method Synchronize() returns (ok: bool, venv: Venv)
      modifies this
      ensures Unmarked(venv) && happenings == old(happenings) + [SyncAnswer(ok, venv)]
    {
      ok := *;
      var nothing: bool := *;
      var installed: string := *;
      venv := if nothing then Absent else Environment(None, installed);
      happenings := happenings + [SyncAnswer(ok, venv)];
    }
  }

  /** How a rebuild ends, for what happened to it: only a synchronized environment that passes the checks is marked. */
  predicate RebuildCourse(tools: Tools, inputs: Inputs, id: Identity, contract: Contract, happened: seq<Happening>,
                          outcome: Outcome, after: Venv) {
    && happened != []
    && match happened[0]
       case Interruption => false
       case RemovalBroke(rest) => |happened| == 1 && outcome == Stopped && after == rest
       case SyncAnswer(ok, venv) =>
         if !ok then |happened| == 1 && outcome == Stopped && after == venv
         else if !Exact(tools, inputs, contract, venv) then |happened| == 1 && outcome == Refused && after == venv
         else if |happened| == 1 then outcome == Rebuilt && after == Environment(Some(Document(id)), venv.contents)
         else happened[1..] == [Interruption] && outcome == Stopped && after == venv
  }

  /** How a call ends: refused or reused without touching anything, or by a rebuild. */
  predicate Course(tools: Tools, inputs: Inputs, runtime: string, before: Venv, happened: seq<Happening>,
                   outcome: Outcome, after: Venv) {
    if happened == [Interruption] then outcome == Stopped && after == before
    else match Wanted(tools, inputs, runtime)
      case None => happened == [] && outcome == Refused && after == before
      case Some((id, contract)) =>
        if Reusable(tools, inputs, id, contract, before) then happened == [] && outcome == Reused && after == before
        else if before.PlainFile? then happened == [] && outcome == Refused && after == before
        else RebuildCourse(tools, inputs, id, contract, happened, outcome, after)
  }

  /** The repository directory; `trace` is the run so far. */
  class Checkout {
    const tools: Tools
    const outside: Surroundings
    var inputs: Inputs
    var venv: Venv
    ghost var trace: seq<State>

    ghost predicate At(phase: Phase)
      reads this
    {
      Run(tools, trace) && trace[|trace| - 1] == State(inputs, venv, phase)
    }

    constructor (tools: Tools, outside: Surroundings, inputs: Inputs, venv: Venv)
      ensures this.tools == tools && this.outside == outside && this.inputs == inputs && this.venv == venv
      ensures At(Idle) && trace == [State(inputs, venv, Idle)]
    {
      this.tools, this.outside, this.inputs, this.venv := tools, outside, inputs, venv;
      trace := [State(inputs, venv, Idle)];
    }

    /** Adds the present state to the trace as the next step. */
    ghost method Record(phase: Phase)
      requires Run(tools, trace) && Next(tools, trace[|trace| - 1], State(inputs, venv, phase))
      modifies this`trace
      ensures At(phase) && trace == old(trace) + [State(inputs, venv, phase)]
    {
      hide Next;
      trace := trace + [State(inputs, venv, phase)];
    }

    /** Somebody else changes the directory between calls. */
    method Change(inputs': Inputs, venv': Venv)
      requires At(Idle)
      modifies this
      ensures At(Idle) && inputs == inputs' && venv == venv'
      ensures trace == old(trace) + [State(inputs, venv, Idle)]
    {
      inputs, venv := inputs', venv';
      Record(Idle);
    }

    method ChecksPass(contract: Contract) returns (ok: bool)
      ensures ok <==> Exact(tools, inputs, contract, venv)
    {
      if !venv.Environment? || !tools.inSync(inputs, venv.contents) {
        return false;
      }
      ok := HasOnlyLockedPackages(tools.listing(venv.contents), contract.locked, tools.here);
    }

    /**
     `bootstrap_environment`. It may be stopped at any step and then leaves whatever stands at that step. What
     happens to it from outside decides how it ends.
     */
    method BootstrapEnvironment(runtime: string) returns (outcome: Outcome)
      requires At(Idle)
      modifies this, outside
      ensures At(Idle) && old(trace) < trace && inputs == old(inputs) && old(outside.happenings) <= outside.happenings
      ensures Course(tools, inputs, runtime, old(venv), outside.happenings[|old(outside.happenings)|..], outcome, venv)
      ensures Normal(outcome) ==>
                && Wanted(tools, inputs, runtime).Some?
                && var (id, contract) := Wanted(tools, inputs, runtime).value;
                Reusable(tools, inputs, id, contract, venv)
      ensures !Normal(outcome) ==> venv == old(venv) || Unmarked(venv)
    {
      hide Exact, MarkerMatches, Document, Wanted, Run, Current, Next;
      var stopped := outside.Interrupts();
      if stopped {
        StopsAnywhere(tools, State(inputs, venv, Idle));
        Record(Idle);
        assert outside.happenings[|old(outside.happenings)|..] == [Interruption];
        return Stopped;
      }
      assert outside.happenings[|old(outside.happenings)|..] == [];
      var wanted := Wanted(tools, inputs, runtime);
      if wanted.None? {
        StopsAnywhere(tools, State(inputs, venv, Idle));
        Record(Idle);
        return Refused;
      }
      var (id, contract) := wanted.value;
      Prepares(tools, State(inputs, venv, Idle), runtime);
      Record(Ready(id, contract));

      if venv.Environment? && MarkerMatches(venv.marker, id) {
        var ok := ChecksPass(contract);
        if ok {
          Reuses(tools, State(inputs, venv, Ready(id, contract)));
          Record(Returned(true, id, contract));
          StopsAnywhere(tools, State(inputs, venv, Returned(true, id, contract)));
          Record(Idle);
          return Reused;
        }
      }
      if venv.PlainFile? {
        StopsAnywhere(tools, State(inputs, venv, Ready(id, contract)));
        Record(Idle);
        return Refused;
      }
      outcome := Rebuild(id, contract);
    }

    /** Removes the marker, then the environment. */
    method RemoveEnvironment(id: Identity, contract: Contract) returns (stopped: bool)
      requires At(Ready(id, contract)) && !venv.PlainFile? && !Reusable(tools, inputs, id, contract, venv)
      modifies this, outside
      ensures old(trace) < trace && inputs == old(inputs) && Unmarked(venv)
      ensures At(if stopped then Idle else Removed(id, contract))
      ensures outside.happenings == old(outside.happenings) + if stopped then [RemovalBroke(venv)] else []
    {
      hide Exact, MarkerMatches, Document, Wanted, Run, Current, Reusable;
      if venv.Environment? {
        venv := venv.(marker := None);
      }
      Record(Emptying(id, contract));
      var left := outside.RemoveTree();
      stopped := left.Some?;
      if stopped {
        venv := left.value;
        Record(Emptying(id, contract));
        Record(Idle);
      } else {
        venv := Absent;
        Record(Removed(id, contract));
      }
    }

    method Synchronize(id: Identity, contract: Contract) returns (stopped: bool)
      requires At(Removed(id, contract)) && Unmarked(venv)
      modifies this, outside
      ensures old(trace) < trace && inputs == old(inputs) && Unmarked(venv)
      ensures At(if stopped then Idle else Synced(id, contract))
      ensures outside.happenings == old(outside.happenings) + [SyncAnswer(!stopped, venv)]
    {
      hide Exact, MarkerMatches, Document, Wanted, Run, Current, Reusable;
      var ok, installed := outside.Synchronize();
      venv := installed;
      stopped := !ok;
      if stopped {
        Record(Removed(id, contract));
        Record(Idle);
      } else {
        Record(Synced(id, contract));
      }
    }

    /** Checks what was synchronized and only then writes the marker. */
    method CheckAndMark(id: Identity, contract: Contract) returns (outcome: Outcome)
      requires At(Synced(id, contract)) && Unmarked(venv)
      modifies this, outside
      ensures At(Idle) && old(trace) < trace && inputs == old(inputs)
      ensures old(outside.happenings) <= outside.happenings
      ensures var happened := outside.happenings[|old(outside.happenings)|..];
              if !Exact(tools, inputs, contract, old(venv)) then
                happened == [] && outcome == Refused && venv == old(venv)
              else if happened == [] then
                outcome == Rebuilt && Exact(tools, inputs, contract, venv)
                && venv == Environment(Some(Document(id)), old(venv).contents)
              else happened == [Interruption] && outcome == Stopped && venv == old(venv)
    {
      hide Exact, MarkerMatches, Document, Wanted, Run, Current, Reusable;
      var ok := ChecksPass(contract);
      if !ok {
        Record(Idle);
        return Refused;
      }
      ExactIsEnvironment(tools, inputs, contract, venv);
      Record(Verified(id, contract));
      var stopped := outside.Interrupts();
      if stopped {
        Record(Idle);
        return Stopped;
      }
      ExactIgnoresMarker(tools, inputs, contract, venv, Some(Document(id)));
      venv := venv.(marker := Some(Document(id)));
      Record(Returned(false, id, contract));
      Record(Idle);
      return Rebuilt;
    }

    /** The part of `bootstrap_environment` from removing the marker on. */
    method Rebuild(id: Identity, contract: Contract) returns (outcome: Outcome)
      requires At(Ready(id, contract)) && !venv.PlainFile? && !Reusable(tools, inputs, id, contract, venv)
      modifies this, outside
      ensures At(Idle) && old(trace) < trace && inputs == old(inputs) && old(outside.happenings) <= outside.happenings
      ensures RebuildCourse(tools, inputs, id, contract, outside.happenings[|old(outside.happenings)|..], outcome, venv)
      ensures outcome.Rebuilt? ==> Reusable(tools, inputs, id, contract, venv)
      ensures !outcome.Rebuilt? ==> !outcome.Reused? && Unmarked(venv)
    {
      hide Exact, MarkerMatches, Document, Wanted, Run, Current, Next;
      var stopped := RemoveEnvironment(id, contract);
      if stopped {
        return Stopped;
      }
      stopped := Synchronize(id, contract);
      if stopped {
        return Stopped;
      }
      outcome := CheckAndMark(id, contract);
      MarkerReadsBack(id, id);
    }

    /** After a normal return, and with nothing changed in between, the next call finds nothing to rebuild. */
    method BootstrapTwice(runtime: string) returns (first: Outcome, second: Outcome)
      requires At(Idle)
      modifies this, outside
      ensures At(Idle)
      ensures Normal(first) ==> second.Reused? || second.Stopped?
    {
      hide Exact, MarkerMatches, Document, Wanted, Run;
      first := BootstrapEnvironment(runtime);
      second := BootstrapEnvironment(runtime);
    }
  }

  lemma StopsAnywhere(tools: Tools, s: State)
    ensures Next(tools, s, s.(phase := Idle))
  {
  }

  lemma Prepares(tools: Tools, s: State, runtime: string)
    requires s.phase.Idle? && Wanted(tools, s.inputs, runtime).Some?
    ensures var (id, contract) := Wanted(tools, s.inputs, runtime).value;
            Next(tools, s, s.(phase := Ready(id, contract)))
  {
    hide Wanted;
    var (id, contract) := Wanted(tools, s.inputs, runtime).value;
    assert Prepare(tools, s, s.(phase := Ready(id, contract)));
  }

  lemma Reuses(tools: Tools, s: State)
    requires s.phase.Ready? && Reusable(tools, s.inputs, s.phase.id, s.phase.contract, s.venv)
    ensures Next(tools, s, s.(phase := Returned(true, s.phase.id, s.phase.contract)))
  {
    hide Reusable;
  }

  lemma ExactIsEnvironment(tools: Tools, inputs: Inputs, contract: Contract, venv: Venv)
    requires Exact(tools, inputs, contract, venv)
    ensures venv.Environment?
  {
  }

  lemma ExactIgnoresMarker(tools: Tools, inputs: Inputs, contract: Contract, venv: Venv, marker: Option<Value>)
    requires venv.Environment?
    ensures Exact(tools, inputs, contract, venv.(marker := marker)) <==> Exact(tools, inputs, contract, venv)
  {
  }
}
