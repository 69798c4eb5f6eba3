# Budget Analyzer API test harness: verified model

This project models the parts of the API test harness that carry state or promise an exact result, and
proves what they promise.

* **Saved credentials** (`Text`, `CredentialCodec`, `CredentialRewrite`, `CredentialNames`, `CredentialStore`,
  `AssignmentLines`, `PrefixCollisions`, `CredentialFacts`, `Refusals`, `CredentialAdmission`, `CredentialLifecycle`, `IdentityBinding`,
  `StaleBindings`, `WrittenVariables`, `ProvenanceReload`, `RoleReload`). `.env.local` is a hand-edited text file that is read into a map and
  rewritten line by line. Records of disposable accounts live in it under names built from a run id and a
  scenario id, and go from absent to pending, complete and bound.
* **Provisioning** (`Provisioning`, `Acquisition`, `RetryAcceptance`). Persist credentials, sign up or log in, mark complete, with a
  crash possible between and inside all steps and an identity provider that may do anything it can do.
* **Request pacing** (`RatePolicies`, `Pacing`, `Backlog`, `FlowObserver`). Four fixed-interval pacers shared by threads, the
  classification of paths, and the observer that matches browser responses with reservations.
* **Exact transformations** (`Utf8Prefix`, `PathTemplates`, `ParameterSources`, `ResponseSchemas`, `ResponseLookups`,
  `Redaction`). UTF-8 truncation, path
  templates, JSON pointers, redaction of JSON bodies.
* **Dependency evidence** (`PackageNames`, `Sequences`, `Sorting`, `DependencyTree`, `DependencyGraph`, `TreeOrder`,
  `TreeMeaning`, `Exports`,
  `Inventories`). The renaming of the dependency graph, the two export splitters, the two inventory checks.
* **Bootstrap** (`Bootstrap`). Reuse or rebuild of the frozen environment under a readiness marker.

Code that changes things step by step is a class or a method with loops, proved against specification functions;
the theorems are lemmas about those functions. Protocols are state machines: a run is a list of events, crashes and
outside interference included, and the classes `Acquisition.Harness` and `Bootstrap.Checkout` carry a ghost trace
that is a run of their machine.

## Results that differ from what one might expect

* A written value reads back as itself if and only if it is plain: stripped, without line separator, without a
  comment start and without matching outer quotes (`CredentialCodec.ReadsBackIffPlain`, and for any file and any
  other updates `WrittenVariables.WrittenReadsBackIffPlain`). The protocol theorems ask for plain ids, subjects and
  user ids; generated credentials always are (`Provisioning.GeneratedArePlain`).
* `bind_disposable_identity` compares the new identity with the record it is handed, not with the file. A usable
  record protects the saved identity if and only if it carries exactly that identity, or a field that nothing can be
  bound to (`IdentityBinding.PinsBindingIff`). Records returned by earlier operations need not: one that is still
  unbound replaces the identity, and one that carries a replaced identity puts it back
  (`StaleBindings.StaleRecordsReplace`). Callers that pass on the record they last received never replace one
  (`IdentityBinding.BindingsNeverChange`).
* A record that was just created can be loaded again if and only if its run id and its scenario id are plain
  (`ProvenanceReload.ReloadsIffPlain`); `a #b` is an id that is saved and then refused
  (`ProvenanceReload.StrandedRecord`). Ids with outer whitespace are refused whatever is saved for them
  (`IdentityBinding.UnstrippedNeverReloads`).
* Distinct executions share a record prefix exactly when the alphanumeric runs of their joined ids agree up to case
  (`PrefixCollisions.SamePrefixIff`), as those of `a`, `b_c` and `a_b`, `c` do (`CredentialNames.SanitiserCollides`);
  the second one is refused (`IdentityBinding.CollisionRefused`).
* A target that was handed out is handed out again if and only if no role has come to resolve to its username
  (`RetryAcceptance.TargetRetryIff`): the load of a role does not compare its username with those of saved targets,
  and a run that creates a role under such a username strands the target (`RetryAcceptance.RoleStrandsTarget`).
* The configuration accepts variable names that the file cannot hold, namely those with letters outside ASCII
  (`RoleReload.AcceptedValidIff`), and names that coincide. A generated role pair is in the file if and only if the
  role's own three names are distinct and recognised (`RoleReload.CreatedPairSavedIff`), and its next load returns it
  if and only if, moreover, no other role resolves to its username (`RoleReload.RoleReloadsIff`). Otherwise the
  account that signup creates has no readable credentials (`RoleReload.FirstAccountSavedIff`,
  `RoleReload.UnrecognisedNameStrands`) or its role cannot be loaded again (`RoleReload.SharedNamesStrand`).
* The two fallbacks to the `default` response differ exactly where the status is present with a value that counts as
  false, an empty object or null among them, and that is not also the default
  (`ResponseSchemas.FallbacksAgreeIff`). It never matters once the schema step is reached
  (`ResponseSchemas.PointerMeansSchema`).
* The id of a package is its canonical name, `==` and its version, but neither is checked: a name that contains `==`
  can share its id with another package (`TreeMeaning.IdsCollide`), exactly when the id can be cut a second time
  (`TreeMeaning.IdIsUniqueIff`). Without an equals sign in the names it never happens (`TreeMeaning.SharedIdIff`).
* The environment check of the bootstrap lets editable third-party packages pass, the inventory parser does not
  (`Inventories.AcceptedIff`, `Inventories.EditableSlipsThrough`).
* An undisturbed bootstrap can return normally if and only if the inputs are accepted, some environment passes the
  checks, and `.venv` is not a plain file (`Bootstrap.ReturnsIff`): removing the marker below a plain file raises
  before the removal step, which provides for plain files, is reached.

## Model

| member | source | states |
|---|---|---|
| CredentialCodec.ReadAssignments | src/api_tests/local_credentials.py:536-554 | the reading loop computes the specified map, or fails on a repeated name |
| CredentialCodec.ReadTextMeaning | src/api_tests/local_credentials.py:536-554 | reading fails exactly on a repeated name and otherwise returns every assignment and nothing else |
| CredentialCodec.CollectIsUnion | src/api_tests/local_credentials.py:541-553 | filling the dictionary from any start succeeds iff the names are new and distinct, and then is a union |
| CredentialCodec.NameThenEquals | src/api_tests/local_credentials.py:21-23 | the assignment pattern recognises a written variable under exactly its name |
| CredentialCodec.ParseValueFixed | src/api_tests/local_credentials.py:557-564 | a raw value is its own meaning iff it is stripped, has no comment and no matching outer quotes |
| CredentialCodec.ReadsBackIffPlain | src/api_tests/local_credentials.py:557-584 | a written variable reads back as itself iff its value is plain |
| AssignmentLines.AssignmentIff | src/api_tests/local_credentials.py:21-23 | the assignment pattern matches exactly the lines laid out as blanks, an optional `export`, a name, blanks, an equals sign and a raw value, and takes that name and value |
| AssignmentLines.QuotedValue | src/api_tests/local_credentials.py:557-560 | between blanks, a value in matching quotes is read as exactly the text between them |
| AssignmentLines.UnquotedValue | src/api_tests/local_credentials.py:558-564 | a value without quotes is read up to its first space followed by a number sign, and stripped |
| AssignmentLines.ReadIff | src/api_tests/local_credentials.py:536-554 | a readable file holds a value for a name iff some line of that layout assigns it |
| AssignmentLines.ReadableIff | src/api_tests/local_credentials.py:541-552 | a file is readable iff no two of its lines assign the same name |
| AssignmentLines.FirstRepeated | src/api_tests/local_credentials.py:543-552 | a refusal names the variable of the first line that assigns one again |
| AssignmentLines.QuotedLineReads | src/api_tests/local_credentials.py:536-564 | a file of one line, indented or not, exported or not, with any blanks around the equals sign and a quoted value: the mapping from its name to the text between the quotes |
| AssignmentLines.UnquotedLineReads | src/api_tests/local_credentials.py:536-564 | the same for a value without quotes: up to its comment, without the blanks around it |
| CredentialRewrite.RewriteText | src/api_tests/local_credentials.py:567-584 | the rewriting loop, popping what it places, computes the specified text |
| CredentialRewrite.NameAgrees | src/api_tests/local_credentials.py:543-547 | the reading loop and the rewriting loop see the same variable on every physical line |
| CredentialRewrite.ReadAfterUpdate | src/api_tests/local_credentials.py:536-584 | reading after writing is map override; no duplicate appears and no other name changes |
| CredentialRewrite.LinesKept | src/api_tests/local_credentials.py:567-584 | every line that assigns no updated name stays in place and unchanged, apart from a newline closing the last one; exactly the unplaced updates are appended |
| WrittenVariables.SeparatedText | src/api_tests/local_credentials.py:582-584 | a blank line separates the appended variables iff something is appended and the last kept line is not white space throughout |
| CredentialRewrite.UpdateIdempotent | src/api_tests/local_credentials.py:567-584 | writing the same updates twice gives the text of the first write |
| CredentialNames.NamesInjective | src/api_tests/local_credentials.py:457-466 | a variable name determines its prefix and its field, so records never overlap |
| CredentialNames.RecordNamesValid | src/api_tests/local_credentials.py:448-466 | every record variable has a name the assignment pattern recognises |
| CredentialNames.SanitiserCollides | src/api_tests/local_credentials.py:448-454 | two distinct executions with one record prefix |
| PrefixCollisions.SamePrefixIff | src/api_tests/local_credentials.py:448-454 | two executions share a prefix iff their ids are not empty and the maximal alphanumeric runs of the joined ids, at least one, agree up to ASCII case |
| PrefixCollisions.NamingIff | src/api_tests/local_credentials.py:448-454 | the naming scheme refuses exactly empty ids, and ids without any ASCII letter or digit |
| PrefixCollisions.NamesSpelledOut | src/api_tests/local_credentials.py:448-466 | the prefix is the reserved one and the upper-cased alphanumeric runs joined by underscores, and each of the seven variables is the prefix with its suffix |
| PrefixCollisions.TokenIsUpper | src/api_tests/local_credentials.py:451-454 | a sanitised text has no lower-case letter |
| PrefixCollisions.SanitisedIsGlue | src/api_tests/local_credentials.py:451 | the sanitised text is the alphanumeric runs joined by single underscores |
| PrefixCollisions.WordsOfGlue | src/api_tests/local_credentials.py:451 | splitting a sanitised text gives its runs back, so nothing but separators and case is lost |
| CredentialStore.CredentialFile.Read | src/api_tests/local_credentials.py:536-554 | reading the file object gives the specified values; a missing file is empty |
| CredentialStore.CredentialFile.Update | src/api_tests/local_credentials.py:567-584 | one rewrite replaces the file by the specified text |
| CredentialStore.CredentialFile.LoadOrCreateTarget | src/api_tests/local_credentials.py:51-138 | result and new file of loading or creating a disposable record, all refusals included |
| CredentialStore.CredentialFile.MarkTargetComplete | src/api_tests/local_credentials.py:141-161 | result and new file of the mark; a changed record is refused and the file kept |
| CredentialStore.CredentialFile.BindIdentity | src/api_tests/local_credentials.py:164-225 | result and new file of the binding, all refusals included |
| CredentialStore.CredentialFile.LoadOrCreateRole | src/api_tests/local_credentials.py:258-343 | result and new file for a reusable role: environment pair, saved pair or new pending pair |
| CredentialStore.CredentialFile.MarkRoleComplete | src/api_tests/local_credentials.py:346-365 | result and new file of marking a role; a changed pair is refused |
| Refusals.OnlyExactLocalTargets | src/api_tests/local_credentials.py:247-255 | outside the exact local environment every call for a target is refused and the file stays; inside, none for that reason |
| Refusals.OnlyExactLocalRoles | src/api_tests/local_credentials.py:247-255 | the same for the calls for a role |
| Refusals.LoadTargetRefusal | src/api_tests/local_credentials.py:51-138 | a load of a target succeeds iff nothing is wrong with the call, the file, the saved record or the username; it then hands out the saved record in all seven fields or a new one whose five variables it writes; a refusal names a defect that is there and writes nothing |
| Refusals.MarkTargetRefusal | src/api_tests/local_credentials.py:141-161 | a mark succeeds iff the record is still saved in all five fields; it changes one field of one record; a refusal names a defect that is there and writes nothing |
| Refusals.BindRefusal | src/api_tests/local_credentials.py:164-225 | a binding succeeds iff nothing is wrong with the call, the saved record or the identity, and returns the record with the identity; a refusal names a defect that is there and writes nothing |
| Refusals.OwnedIff | src/api_tests/local_credentials.py:228-244 | an identity is accepted as owned iff the record is the complete one of this execution, bound to it, and it is not reusable; each error names a defect that is there |
| Refusals.LoadRoleRefusal | src/api_tests/local_credentials.py:258-343 | a load of a role succeeds iff nothing is wrong with its variables and no other role resolves to its username; it hands out the environment pair, the saved pair with its state, or the generated pair; a refusal names a defect that is there and writes nothing |
| Refusals.MarkRoleRefusal | src/api_tests/local_credentials.py:346-365 | a role is marked iff the file still holds its pair, and its state variable is all that is written |
| Refusals.RoleUsernameIff | src/api_tests/local_credentials.py:401-434 | the username a role resolves to: of a complete environment pair, or without any environment value of a complete saved pair; half a pair resolves to nothing |
| Refusals.RetainedIff | src/api_tests/local_credentials.py:492-502 | a value is retained iff a variable of another record with the same suffix holds it |
| CredentialFacts.CommitReads | src/api_tests/local_credentials.py:536-584 | every readable file stays readable, and its values change by exactly the committed updates |
| CredentialFacts.StoredAfter | src/api_tests/local_credentials.py:128-137 | after a write to one record exactly the written fields of that record have changed |
| CredentialFacts.FieldUpdatesWritable | src/api_tests/local_credentials.py:457-466 | the updates of a record always have distinct, recognisable names |
| CredentialAdmission.LoadTargetIff | src/api_tests/local_credentials.py:82-127 | a load succeeds iff its username is free and what is saved under its names is a well-formed record of this execution; refusals write nothing |
| CredentialAdmission.LoadedRoleDistinct | src/api_tests/local_credentials.py:401-434 | a loaded role resolves to the username it returns, and no other role does |
| CredentialAdmission.LoadedRoleIsSaved | src/api_tests/local_credentials.py:291-343 | pair and state of a role not supplied by the environment are those in the file, and a write happens only where all its variables were blank |
| CredentialAdmission.MarkRoleIff | src/api_tests/local_credentials.py:346-365 | a role is marked iff the file still holds its pair, and only its state changes |
| RoleReload.AcceptedValidIff | src/api_tests/config.py:18-24 | a name the configuration accepts is recognised by the assignment pattern iff it is ASCII |
| RoleReload.WrittenRead | src/api_tests/local_credentials.py:335-342 | what a readable file gives under each of the role's names after a pair was written, coinciding and unrecognised names included |
| RoleReload.CreatedPairSavedIff | src/api_tests/local_credentials.py:326-343 | after a load that created a pair, the file holds it under the role's names iff those are three distinct recognised names |
| RoleReload.RoleReloadsIff | src/api_tests/local_credentials.py:258-343 | the next load in the same environment returns the created pair and writes nothing iff the names are distinct and recognised and no other role resolves to the new username; it is refused if a name is not recognised |
| RoleReload.UnrecognisedNameStrands | src/api_tests/local_credentials.py:258-343 | with a username variable named `É` a pair is created, not saved, and its next load refused |
| RoleReload.SharedNamesStrand | src/api_tests/local_credentials.py:401-434 | with two roles on the same variables the created pair is saved and its next load does not return it |
| RoleReload.FirstAccountSavedIff | src/api_tests/auth.py:132-160 | the account of a first signup has its credentials in the file iff the role's names are distinct and recognised |
| CredentialAdmission.RolesStayApart | src/api_tests/local_credentials.py:258-365 | over every run of role loads and marks no two roles come to share a username and none changes its own |
| CredentialLifecycle.WriteKeepsSound | src/api_tests/local_credentials.py:492-502 | a well-formed write of texts no other record retains keeps all records well formed and pairwise apart |
| CredentialLifecycle.StepKeeps | src/api_tests/local_credentials.py:51-225 | one load, mark or bind, with any record passed in, keeps every record sound and only advances it |
| CredentialLifecycle.LifecycleRun | src/api_tests/local_credentials.py:51-225 | over every run: records absent or well formed, usernames, subjects and user ids pairwise distinct, credentials never rewritten, states only forward |
| CredentialLifecycle.LifecycleFromClean | src/api_tests/local_credentials.py:51-225 | from any readable file without disposable records, a missing one included, every run leaves every record sound |
| IdentityBinding.NextKeeps | src/api_tests/local_credentials.py:51-225 | one call with the latest record keeps every held record equal to the saved one and every binding |
| IdentityBinding.BindingsNeverChange | src/api_tests/local_credentials.py:164-225 | over every interleaving of calls that pass on the latest record no binding ever changes |
| IdentityBinding.BindingsFromClean | src/api_tests/local_credentials.py:51-225 | callers that start from a file without disposable records always hold exactly the saved records |
| IdentityBinding.BindsIff | src/api_tests/local_credentials.py:177-217 | exactly which plain identities a record is bound to |
| IdentityBinding.PinsBindingIff | src/api_tests/local_credentials.py:177-217 | a usable record lets no other identity replace the saved one iff it carries exactly the saved identity or a field that nothing can be bound to |
| StaleBindings.StaleRecordsReplace | src/api_tests/local_credentials.py:210-217 | from a missing file on, binds through two records that earlier calls returned move a saved identity to another one and back |
| IdentityBinding.BoundIsOwned | src/api_tests/local_credentials.py:228-244 | what a binding returns is accepted as owned for the bound identity and for no other |
| IdentityBinding.HeldNeverCollide | src/api_tests/local_credentials.py:82-104 | over every such run, executions that hold records have different prefixes |
| IdentityBinding.CollisionRefused | src/api_tests/local_credentials.py:82-104 | whatever else a readable file holds, an execution that sanitises to a taken prefix is refused and the file stays |
| IdentityBinding.UnstrippedNeverReloads | src/api_tests/local_credentials.py:82-104 | ids with outer whitespace are refused whatever is saved under their names |
| WrittenVariables.ReadsCut | src/api_tests/local_credentials.py:536-584 | whatever the file held and whatever else is written, reading finds for a written variable what the parser makes of its value up to the first line break |
| WrittenVariables.WrittenReadsBackIffPlain | src/api_tests/local_credentials.py:536-584 | in any readable result of a write, a written variable reads back as itself iff its value is plain |
| ProvenanceReload.ReloadsIffPlain | src/api_tests/local_credentials.py:82-138 | after a load that created a record, the next load of the execution succeeds iff both ids are plain, and then returns that record and writes nothing |
| ProvenanceReload.FreshCreates | src/api_tests/local_credentials.py:121-138 | on a missing file every execution with a prefix creates its record |
| ProvenanceReload.StrandedRecord | src/api_tests/local_credentials.py:82-138 | the run id `a #b` is saved and its reload refused |
| Provisioning.NextKeeps | src/api_tests/auth.py:44-161 | every step, crashes included, keeps the protocol invariant and all saved credentials |
| Provisioning.AnythingMayHappen | src/api_tests/auth.py:64-161 | at every point the machine leaves its surroundings every freedom: crashes, foreign registrations of any free name, each outcome of a signup, failing logins |
| Provisioning.NothingOutside | src/api_tests/auth.py:55-63 | where the mode or the permissions are missing, or outside a local environment, an acquisition does nothing |
| Provisioning.ProvisioningSafe | src/api_tests/auth.py:64-161 | over every run: every created account has its exact credentials in the file, one pair at most per slot, every marked slot has an existing account |
| Provisioning.SavedCredentialsSurvive | src/api_tests/auth.py:64-161 | whatever is saved for a slot before a run is saved for it afterwards |
| Provisioning.RetryReuses | src/api_tests/auth.py:64-80 | a retry submits the saved pair, never a new one |
| RetryAcceptance.NextRetryable | src/api_tests/auth.py:44-161 | every step keeps every handed-out record well formed, its own and unshared |
| RetryAcceptance.TargetRetryIff | src/api_tests/auth.py:64-77 | at every point of every run, loading a handed-out target is accepted iff no role resolves to its username, and hands out the same pair without a write |
| RetryAcceptance.RoleRetryIff | src/api_tests/auth.py:132-145 | the same for a role the environment does not supply: accepted iff no other role resolves to its username |
| RetryAcceptance.RoleStrandsTarget | src/api_tests/auth.py:64-77 | a run in which a role created under a target's username is accepted and the retry of the target refused |
| Provisioning.MarkNeverRefused | src/api_tests/auth.py:83-87 | after signup or login the mark always succeeds and completes the saved record |
| Provisioning.GeneratedArePlain | src/api_tests/local_credentials.py:368-372 | generated usernames and passwords always survive the file |
| Acquisition.Harness.AcquireDisposableTarget | src/api_tests/auth.py:44-87 | every execution is a run of the machine; success means complete, existing at the provider, and equal to the saved record in all seven fields, the bound identity included; result, file and provider calls follow from the load: a refusal makes no call, a complete record one login, a pending one signup or login and then the mark |
| Acquisition.Harness.AcquireBrowserSession | src/api_tests/auth.py:115-161 | the same for a reusable role; a pair from the environment is only logged in and leaves the file alone; outside a local environment nothing is called or written |
| Acquisition.Harness.SignUpOrLogIn | src/api_tests/auth.py:79-82 | one signup, and one login exactly when it reported an existing account; success and each error follow from these answers |
| Acquisition.Harness.FinishTarget | src/api_tests/auth.py:83-87 | the mark of a target is never refused and leaves the record complete |
| Acquisition.Harness.FinishRole | src/api_tests/auth.py:151-160 | the mark of a role is never refused and leaves the pair complete |
| Acquisition.MarkAccepted | src/api_tests/local_credentials.py:505-522 | in every state the protocol can mark from, the saved record equals the record carried along |
| RatePolicies.AtMostOnePolicy | src/api_tests/client.py:40-70 | no path matches two policies |
| RatePolicies.ClassifiedIff | src/api_tests/client.py:73-75 | a path is classified as a policy iff the policy matches it |
| RatePolicies.ClassifiedByFamily | src/api_tests/client.py:40-75 | which policy paces a path: the path is a literal family of the policy, or continues one with a slash; for all four policies |
| RatePolicies.OrderIrrelevant | src/api_tests/client.py:65-75 | first-match classification does not depend on the order of the table |
| Pacing.NextKeeps | src/api_tests/client.py:97-104 | every atomic step of every thread keeps releases spaced and the lock discipline |
| Pacing.RunKeeps | src/api_tests/client.py:97-128 | the same over every interleaving and every passage of time |
| Pacing.ReleasesApart | src/api_tests/client.py:97-104 | the k-th later release is at least k intervals later, in every run |
| Pacing.WindowBound | src/api_tests/client.py:91-104 | spaced releases fill any closed window at most floor(length * rate) + 1 times |
| Pacing.RunWindowBound | src/api_tests/client.py:97-128 | no pacer of any run exceeds that bound in any window |
| Pacing.BucketStaysFull | README.md:63-75 | a bucket that refills at least as fast as the pace is full at every release |
| Pacing.AllowanceNeverExceeded | README.md:63-75 | at every release of every run the ingress bucket of that policy has a token |
| Pacing.SleepBound | src/api_tests/client.py:99-103 | no wait sleeps longer than one interval, and it sleeps iff the last release is less than one interval old |
| Pacing.RatesOfAllowance | README.md:63-75 | each pace is four fifths of the ingress allowance of its policy: 0.8, 1.6, 4 and 8 requests per second |
| Pacing.SharedPacing | src/api_tests/client.py:131-141 | the process-wide pacing has one unused pacer per policy, at the rate of that policy |
| Backlog.DelayedWaitIsExact | src/api_tests/client.py:97-104 | in every run with exact sleeps, under any interleaving, a wait that found a delay is released exactly one interval after the last release |
| Backlog.ExactBacklog | src/api_tests/client.py:97-104 | in every prompt run, n waits queued before the reserved time: the next n releases come exactly 1, 2, ..., n intervals after the last one |
| Backlog.NextTight | src/api_tests/client.py:99-103 | with exact sleeps every sleeper sleeps until exactly the reserved time |
| Backlog.NeverStuck | src/api_tests/client.py:97-104 | a prompt run never gets stuck: while somebody waits, some prompt step advances a wait |
| Pacing.OtherWaitsUnseen | src/api_tests/client.py:118-128 | in every run, waits for paths of other policies or of none leave a pacer exactly as it was |
| Pacing.RequestPacer.Wait | src/api_tests/client.py:97-104 | one wait adds one release, spaced from the last; it sleeps exactly from its start to the reserved time, and not at all on first use or when that time has passed |
| Pacing.GatewayRequestPacing.Wait | src/api_tests/client.py:125-128 | for each pacer by the literal families it serves: exactly a path in one of them adds a release, any other leaves it untouched; outside all families not even the clock is read |
| FlowObserver.BrowserFlowObserver.ContinueRequest | src/api_tests/browser_login.py:397-418 | a continued request is a step of the flow: reserved first, then open |
| FlowObserver.BrowserFlowObserver.RecordResponse | src/api_tests/browser_login.py:88-106 | a response to an open request is a step of the flow and keeps every response accounted for |
| FlowObserver.BrowserFlowObserver.CheckPaced | src/api_tests/browser_login.py:111-122 | the removing loop passes iff the limited paths are contained in the reservations with multiplicity, else names the first path without one, and passes whenever all responses answered open requests |
| FlowObserver.LimitedIff | src/api_tests/browser_login.py:113-116 | a response counts iff it is same-origin and its path lies in one of the five literal families, whatever its status |
| FlowObserver.Containment | src/api_tests/browser_login.py:111-122 | passing is multiset containment |
| FlowObserver.PassesIffInjection | src/api_tests/browser_login.py:111-122 | passing is the existence of an injection from limited responses to reservations of equal paths |
| FlowObserver.AnsweredRunsPass | src/api_tests/browser_login.py:397-418 | the check never fails in a run where each response follows its own continued request |
| FlowObserver.NewObserverPasses | src/api_tests/browser_login.py:79-122 | from a new observer on, it passes at every point of every such run |
| Utf8Prefix.CutKeepsWhole | src/api_tests/logging.py:143-147 | decoding a cut encoding keeps exactly the characters whose encoding fits |
| Utf8Prefix.TruncateIsLongestPrefix | src/api_tests/logging.py:143-147 | the result is the longest prefix whose encoding fits the limit |
| Utf8Prefix.DecodeEncode | src/api_tests/logging.py:143-147 | decoding inverts encoding |
| PathTemplates.AcceptedIff | src/api_tests/openapi.py:291-304 | the accepted templates are exactly brace-free text with distinct non-empty placeholders |
| PathTemplates.BalancedIff | src/api_tests/openapi.py:294-298 | the brace counts agree iff no brace stands outside a placeholder |
| PathTemplates.ParseUnique | src/api_tests/openapi.py:36 | a written-out template is read back as the same segments |
| PathTemplates.InTurnIsFill | src/api_tests/openapi.py:316-320 | replacing placeholders one after the other in place is simultaneous substitution |
| PathTemplates.FillFacts | src/api_tests/openapi.py:316-320 | no brace remains and no slash is added |
| PathTemplates.QuoteFacts | src/api_tests/openapi.py:361-367 | a quoted value has no brace and no slash, and unquoting returns it |
| PathTemplates.ParameterValueInert | src/api_tests/openapi.py:348-380 | every parameter value, example or fallback, has no brace and no slash |
| PathTemplates.CollectParameters | src/api_tests/openapi.py:326-345 | the collecting loop computes the specified declarations or the first error |
| PathTemplates.MaterializePath | src/api_tests/openapi.py:291-320 | the whole procedure computes the specified path or error |
| PathTemplates.MaterializedMeaning | src/api_tests/openapi.py:291-380 | it succeeds iff the template is accepted and matches the declarations, and then returns the filled template without braces or added slashes |
| ParameterSources.RawParametersIff | src/api_tests/openapi.py:326-329 | the declarations of a path item or operation are its `parameters` member, or none where it is absent |
| ParameterSources.DeclareMeans | src/api_tests/openapi.py:332-344 | an entry adds the path parameter it introduces iff it is required and its name is new and not empty, any other entry adds nothing; a refusal names a defect that is there |
| ParameterSources.ParameterValueIff | src/api_tests/openapi.py:348-380 | the value of a parameter: its own example, or where that is unset the one of its schema, percent-encoded; without any example the fallback of its type |
| ParameterSources.ValueRefusal | src/api_tests/openapi.py:354-380 | a parameter without a value has the defect the error names |
| ParameterSources.QuoteOne | src/api_tests/openapi.py:367 | letters, digits, hyphen, period, underscore and tilde stand for themselves; of any other character every byte becomes a percent sign and two upper-case hex digits |
| ParameterSources.QuoteConcat | src/api_tests/openapi.py:367 | quoting goes character by character |
| ResponseSchemas.UnescapeEscape | src/api_tests/schemas.py:197-198 | unescaping inverts escaping, and an escaped key never splits |
| ResponseSchemas.EscapeUnescape | src/api_tests/schemas.py:197-198 | escaping inverts unescaping on well-escaped tokens |
| ResponseSchemas.FindOperationAgrees | src/api_tests/schemas.py:130-137 | the two independent searches stop at the same operation |
| ResponseSchemas.PointerMeansSchema | src/api_tests/schemas.py:34-84 | whenever the schema step is reached, resolving the built pointer gives the schema the other lookup returns |
| ResponseSchemas.FallbacksAgreeIff | src/api_tests/openapi.py:404 | the truthiness fallback and the key fallback pick the same entry iff the status is absent, counts as true, or equals the default |
| ResponseSchemas.NullStatusDiffers | src/api_tests/openapi.py:404 | a null status next to a default on which they differ |
| ResponseLookups.FoundIff | src/api_tests/schemas.py:130-137 | an operation is found iff some path item has one under one of the five methods with this id |
| ResponseLookups.DocumentedIff | src/api_tests/schemas.py:121-162 | which response is documented: the one under the status, or under `default` where the status is absent, with the pointer to the key that was used |
| ResponseLookups.JsonMediaIff | src/api_tests/schemas.py:165-180 | the JSON content of a response is the object under `application/json` of its `content` |
| ResponseLookups.SchemaIff | src/api_tests/openapi.py:391-415 | which schema the other lookup returns: of the status unless that counts as false, then of the default |
| Redaction.NothingWithheldLeaks | src/api_tests/logging.py:150-166 | two bodies are logged alike iff they differ only under withheld keys, at any depth, or in texts that clean to the same |
| Redaction.WithheldIff | src/api_tests/logging.py:28-41 | exactly which keys are withheld, in letters of either case: those that mention one of seven words, six identity references, and six profile keys in a profile |
| Redaction.RedactedMember | src/api_tests/logging.py:150-161 | a logged object has the same keys in the same order; a withheld value is replaced by the marker, any other is redacted |
| Redaction.RedactedItem | src/api_tests/logging.py:162-163 | a logged list has the redacted items in order |
| PackageNames.CanonicalizeIdempotent | src/api_tests/dependency_contract.py:49-51 | canonical names are fixed points |
| PackageNames.CanonicalParts | src/api_tests/dependency_contract.py:49-51 | canonicalising lowers the letters of a word and turns any run of separators into one hyphen |
| PackageNames.CaseIrrelevant | src/api_tests/dependency_contract.py:49-51 | names that differ in the case of letters only have one canonical form |
| DependencyTree.CollectEntries | src/api_tests/dependency_evidence.py:335-353 | the collecting loop gives every node its stable id or the first error |
| DependencyTree.BuildNodes | src/api_tests/dependency_evidence.py:355-383 | the second loop renames the references of all nodes in id order |
| DependencyTree.ParseDependencyTree | src/api_tests/dependency_evidence.py:325-402 | the whole procedure computes the specified tree or error |
| DependencyGraph.CollectIff | src/api_tests/dependency_evidence.py:335-353 | collecting succeeds iff every node has an identity and the stable ids are distinct |
| DependencyGraph.RenamingIsInjective | src/api_tests/dependency_evidence.py:770-793 | the renaming is one to one |
| DependencyGraph.NodesOfCorrespond | src/api_tests/dependency_evidence.py:355-383 | nodes and input entries correspond, with the multiplicity of every edge |
| DependencyGraph.ParsedTreeIsomorphic | src/api_tests/dependency_evidence.py:325-402 | the parsed tree is the input graph under an injective renaming, without lost, merged or dangling references |
| TreeMeaning.IdentityIff | src/api_tests/dependency_evidence.py:770-793 | which kind and id an item is given, or none, said of its members: for each of the five kinds |
| TreeMeaning.IdDeterminesKind | src/api_tests/dependency_evidence.py:770-793 | nodes of different kinds never share an id |
| TreeMeaning.SharedIdIff | src/api_tests/dependency_evidence.py:777-787 | two packages whose names have no equals sign share an id iff their canonical names and versions agree |
| TreeMeaning.IdIsUniqueIff | src/api_tests/dependency_evidence.py:777-787 | the id of a package determines its canonical name and version iff it cannot be cut a second time into a canonical name, `==` and a version |
| TreeMeaning.IdsCollide | src/api_tests/dependency_evidence.py:777-787 | two packages with different names and versions and one id |
| TreeMeaning.PackagesOfTree | src/api_tests/dependency_evidence.py:346-353 | the packages of a parsed tree are exactly the canonical names and stripped versions of the items of kind `package` whose source is not editable |
| TreeMeaning.NodeFromInput | src/api_tests/dependency_evidence.py:339-383 | every node of a parsed tree has the id and kind of an item of the input |
| TreeMeaning.NodeOfInput | src/api_tests/dependency_evidence.py:339-383 | every item of the input has its node |
| TreeMeaning.ParsesIff | src/api_tests/dependency_evidence.py:325-402 | a tree is parsed iff every item has an identity, no two share one, every reference and root names a node, and the packages have distinct canonical names and versions that are not empty |
| TreeOrder.NormalizeIff | src/api_tests/dependency_evidence.py:114-134 | records are accepted iff none is empty and the canonical names are distinct |
| TreeOrder.NormalizePermuted | src/api_tests/dependency_evidence.py:114-134 | the normalised records do not depend on input order |
| TreeOrder.NodeOrderIrrelevant | src/api_tests/dependency_evidence.py:325-402 | reordering nodes and roots changes nothing |
| TreeOrder.ReferenceOrderIrrelevant | src/api_tests/dependency_evidence.py:325-402 | reordering the references inside nodes changes nothing |
| TreeOrder.OrderIrrelevant | src/api_tests/dependency_evidence.py:325-402 | the document does not depend on any input order |
| Exports.RequirementBlocks | src/api_tests/dependency_evidence.py:871-887 | the first splitter fails iff the significant lines start with a continuation, and else returns the stripped groups |
| Exports.HashedBlocks | src/api_tests/dependency_contract.py:449-465 | the second splitter returns the same groups joined, below the orphans, and counts those |
| Exports.GroupsMeaning | src/api_tests/dependency_contract.py:450-465 | the groups cut up all significant lines below the orphans; each is one requirement with all its continuations |
| Exports.GroupingUnique | src/api_tests/dependency_evidence.py:871-887 | there is only one such grouping |
| Exports.SplittersAgree | src/api_tests/dependency_evidence.py:871-887 | both splitters give the unique grouping, up to joining, on every export without an orphan |
| Exports.PinReadsBack | src/api_tests/dependency_contract.py:21-23 | the pinned-requirement pattern reads back any name and version, whatever follows |
| Exports.PinIff | src/api_tests/dependency_contract.py:21-23 | the pattern matches exactly the blocks that start with a name, two equals signs and a version, and takes these |
| Exports.WellPinnedIff | src/api_tests/dependency_contract.py:470-475 | a block is in order iff it is pinned and carries a SHA-256 hash |
| Exports.ValidateHashedExport | src/api_tests/dependency_contract.py:446-491 | exactly the issues of orphans, blocks and, where those are in order, of the compared sets; none iff no orphan, at least one block, every block pinned and hashed, and exactly the locked requirements |
| Inventories.HasOnlyLockedPackages | src/api_tests/local_bootstrap.py:387-416 | the loop accepts iff names are distinct, the project is rooted here and everything else is locked |
| Inventories.OnlyLockedIff | src/api_tests/local_bootstrap.py:395-416 | what the check asks of a listing, said of its members: every element a record, no two of one canonical name, one of them the project, and each the project from here or locked at its version |
| Inventories.OthersFixedIff | src/api_tests/dependency_inventory.py:151-160 | no other package is editable: the location is absent or null for all of them |
| Inventories.ParseInstalledPackages | src/api_tests/dependency_inventory.py:125-170 | the loop reports the first problem, or returns the project and every other record |
| Inventories.AcceptedIff | src/api_tests/dependency_inventory.py:128-170 | the parser accepts iff the environment check accepts and no other package is editable |
| Inventories.EditableSlipsThrough | src/api_tests/local_bootstrap.py:395-416 | a listing the check accepts and the parser refuses, for every lock with a canonical third-party name |
| Inventories.NothingLost | src/api_tests/dependency_inventory.py:131-170 | installed packages and project together are as many as the records |
| Inventories.InstalledIsLocked | src/api_tests/dependency_inventory.py:151-170 | what an accepted listing reports is locked, complete, and has distinct names |
| Bootstrap.MarkerReadsBack | src/api_tests/local_bootstrap.py:361-366 | a marker matches the identity it was written for and no other |
| Bootstrap.MarkerMatchesIff | src/api_tests/local_bootstrap.py:361-366 | a decoded marker matches iff it has exactly the seven keys, in any order, with the right text under each and a schema version that Python finds equal to 1 |
| Bootstrap.IdentityMeansSources | src/api_tests/local_bootstrap.py:347-358 | two identities are equal iff the digests of python pin, manifest and lock and the pinned Python and uv versions are pairwise equal; the interpreter is that of the pinned version |
| Bootstrap.MinorLineDecides | src/api_tests/local_bootstrap.py:75-84 | an interpreter is accepted iff its version and the pinned one agree before the last dot |
| Bootstrap.MarkerContents | src/api_tests/local_bootstrap.py:347-358 | what the marker spells out under each of its seven keys |
| Bootstrap.NextSafe | src/api_tests/local_bootstrap.py:90-119 | every step keeps the marker discipline |
| Bootstrap.RunSafe | src/api_tests/local_bootstrap.py:90-119 | with crashes and edits anywhere: no marker while rebuilding, and every normal return leaves a checked environment under a matching marker |
| Bootstrap.MarkerMeansChecked | src/api_tests/local_bootstrap.py:109-119 | unless somebody else writes markers, a matching marker was written for this identity right after the checks had passed, from inputs with the same three digests and the same pinned tools as the present ones |
| Bootstrap.ReturnsIff | src/api_tests/local_bootstrap.py:90-119 | an undisturbed call can return normally iff `.venv` is not a plain file, the inputs are accepted and some contents pass both checks |
| Bootstrap.UndisturbedRun | src/api_tests/local_bootstrap.py:101-102 | over a plain file no undisturbed run gets beyond the first checks |
| Bootstrap.Checkout.ChecksPass | src/api_tests/local_bootstrap.py:96-98 | both checks pass iff the environment is exact |
| Bootstrap.Checkout.BootstrapEnvironment | src/api_tests/local_bootstrap.py:65-119 | every execution is a run; the environment it finds and what happens to it from outside decide how it ends: refused or reused with nothing touched, stopped with what the interruption left, refused unmarked, or rebuilt, checked and marked |
| Bootstrap.Checkout.BootstrapTwice | src/api_tests/local_bootstrap.py:65-119 | after a normal return the next call reuses, unless it is stopped |

## Left out

- Browser automation, HTTP, cookies, TLS and hosted forms: signup and login are nondeterministic steps that return only if the account exists with the submitted password and report an existing account only if there is one.
- File modes, temporary files and `os.replace`: each write of the credential file or the marker is one atomic step, and reading a directory or an unreadable file is not modelled.
- Subprocesses: the results of uv are parameters over the environment's contents, the same for equal contents; tools that fail are part of the outcome `Stopped`.
- The text of error messages; errors are values, and "subject taken" and "user id taken" are one value.
- Floating-point rounding in the pacers: times and rates are reals.
- URL splitting: `matches`, the pacing and the observer take the path.
- CredentialCodec.ReadsBackIffPlain: values with a byte that does not decode as UTF-8 do not occur, because texts are sequences of Unicode scalar values.
- CredentialRewrite.LinesKept: line endings are compared after the newline translation of `read_text`, so a file with CRLF endings is rewritten with LF.
- CredentialLifecycle.LifecycleRun: asks for plain ids, subjects and user ids and for non-empty plain generated credentials; with other texts a write need not read back.
- CredentialLifecycle.LifecycleRun: a role that is created later is not compared with disposable usernames, because the code does not compare them either (RetryAcceptance.RoleStrandsTarget).
- Provisioning.ProvisioningSafe: requires the configured variable names to be ASCII, distinct and outside the reserved names; the configuration checks their form only in part and does not compare them. RoleReload.CreatedPairSavedIff and RoleReload.RoleReloadsIff give the exact conditions for one role; which overlaps between roles and records stay harmless over whole runs is not characterised.
- RoleReload.AcceptedValidIff: the character classes of `str.isalpha` and `str.isalnum` outside ASCII are parameters.
- ProvenanceReload.ReloadsIffPlain: requires that no role keeps its pair in the record namespace, which the code does not check.
- CredentialAdmission.RolesStayApart: the environment variables stay the same during a run.
- Provisioning.ProvisioningSafe: acquisitions run one after the other; two processes that interleave their reads and writes of one file are not modelled.
- Provisioning.ProvisioningSafe: the non-local branch of `acquire_browser_session`, which never touches the file, and the supplied sessions are not modelled.
- Utf8Prefix.TruncateIsLongestPrefix: strings with lone surrogates, on which encoding raises, are not modelled.
- PackageNames.CanonicalizeIdempotent: lower-casing covers ASCII letters; other letters pass unchanged.
- Redaction.NothingWithheldLeaks: case folding covers ASCII letters, the redactor of plain text is a parameter, and header and query redaction are not modelled.
- ResponseSchemas.PointerMeansSchema: keys with `%` would be decoded in a URI fragment (section 6 of RFC 6901); pointers are resolved as plain strings here.
- TreeMeaning.SharedIdIff: asks for names without an equals sign; for any names TreeMeaning.IdIsUniqueIff gives the exact condition.
- Inventories.ParseInstalledPackages: the installed packages are a set; their sorting is not modelled, and whether a path resolves to the root is a parameter.
- Exports.ValidateHashedExport: reported differences are sets; their formatting is not modelled.
- Bootstrap.RunSafe: the inputs and the environment change between calls, not during one, other than through the call's own steps.
- Bootstrap.Checkout.BootstrapEnvironment: installing uv and the managed Python and checking the lock appear as the resolved interpreter path and as the possibility to stop before anything is touched.
- `parse_lock_export`, `parse_installed_inventory`, `compare_exact_packages`, audit and SBOM parsing: map comparisons and field checks of the kinds already covered.
- `coverage.py`, `session_gateway_inventory.py`, `openapi_drift.py`, `config.py`, `pytest_plugin.py`, request builders, response assertions and command-line entry points: set partitions, comparisons and policy branches.
- Bootstrap.MarkerReadsBack: a marker file that is not UTF-8, on which reading raises an error that the code does not catch, is not modelled.
