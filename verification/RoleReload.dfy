/** Which configured variable names let a generated role pair be read again. */
module RoleReload {
  import opened Wrappers
  import opened Text
  import opened CredentialCodec
  import opened CredentialRewrite
  import opened CredentialStore
  import opened CredentialFacts
  import opened Provisioning
  import opened WrittenVariables
  import L = CredentialLifecycle

  // ---------------------------------------------------------------- names the configuration accepts

  /**
   `validate_env_var_name` on a stripped value; `alpha` and `alnum` stand for the character classes of
   `str.isalpha` and `str.isalnum`.
   */
  predicate Accepted(name: string, alpha: char -> bool, alnum: char -> bool) {
    && name != "" && alpha(name[0])
    && (exists i :: 0 <= i < |name| && name[i] != '_')
    && forall i :: 0 <= i < |name| ==> name[i] == '_' || alnum(name[i])
  }

  predicate IsAscii(c: char) {
    c as int < 128
  }

  /** On ASCII the classes are the letters, and the letters and digits. */
  ghost predicate Classes(alpha: char -> bool, alnum: char -> bool) {
    forall c | IsAscii(c) :: alpha(c) == IsLetter(c) && alnum(c) == (IsLetter(c) || IsDigit(c))
  }

  /** An accepted name can be read from the file exactly when it is ASCII. */
  lemma AcceptedValidIff(name: string, alpha: char -> bool, alnum: char -> bool)
    requires Classes(alpha, alnum) && Accepted(name, alpha, alnum)
    ensures ValidName(name) <==> forall i :: 0 <= i < |name| ==> IsAscii(name[i])
  {
    forall i | 0 <= i < |name| ensures IsNameChar(name[i]) <==> IsAscii(name[i]) {
      assert name[i] == '_' || alnum(name[i]);
    }
  }

  // ---------------------------------------------------------------- a created pair

  /** The role's own variables are three names that the assignment pattern recognises. */
  predicate OwnNames(names: RoleNames) {
    && ValidName(names.username) && ValidName(names.password)
    && names.username != names.password && names.username != names.state && names.password != names.state
  }

  /** Generated values differ from one another and from the state that is written beside them. */
  predicate TellApart(c: Credentials) {
    PlainCredentials(c) && c.username != c.password && c.username != "pending" && c.password != "pending"
  }

  lemma GeneratedTellApart(c: Credentials, token: string, secret: string)
    requires Generated(c, token, secret)
    ensures TellApart(c)
  {
    GeneratedArePlain(c, token, secret);
    assert c.username[0] == 'b' && c.password[0] == 'B' && "pending"[0] == 'p';
  }

  /** The load finds the role blank, in the environment and in the file, and creates its pair. */
  ghost predicate Creates(config: EnvironmentConfig, environ: Environ, file: Option<string>, role: Role,
                          c: Credentials) {
    && config.browser.Some? && ReadFile(file).Success?
    && LoadRole(config, environ, file, role, c).result.Success?
    && var names := NamesOf(config.browser.value, role);
    Get(environ, names.username) == "" == Get(environ, names.password)
    && Get(ReadFile(file).value, names.username) == ""
  }

  lemma CreatedPair(config: EnvironmentConfig, environ: Environ, file: Option<string>, role: Role, c: Credentials)
    requires Creates(config, environ, file, role, c)
    ensures var names := NamesOf(config.browser.value, role);
            && ExactLocal(config)
            && LoadRole(config, environ, file, role, c)
               == Outcome(Success(RoleRecord(c, Pending)), Some(UpdatedText(Content(file), NewRoleUpdates(names, c))))
  {
    hide ReadFile, Get, NamesOf, RoleShared, NewRoleUpdates, UpdatedText, Content;
    NewPairFacts(NamesOf(config.browser.value, role), c);
  }

  lemma StateNameValid(browser: BrowserConfig, role: Role)
    ensures ValidName(NamesOf(browser, role).state)
  {
    hide ValidName;
    match role
    case Primary => PrimaryStateValid();
    case Secondary => SecondaryStateValid();
    case Admin => AdminStateValid();
  }

  lemma PrimaryStateValid()
    ensures ValidName("BA_PRIMARY_TEST_ACCOUNT_STATE")
  {
  }

  lemma SecondaryStateValid()
    ensures ValidName("BA_SECONDARY_TEST_ACCOUNT_STATE")
  {
  }

  lemma AdminStateValid()
    ensures ValidName("BA_ADMIN_TEST_ACCOUNT_STATE")
  {
  }

  lemma {:induction false} OfLinesValid(lines: seq<string>)
    ensures forall a :: a in OfLines(lines) ==> ValidName(a.name)
  {
    hide MatchAssignment, ValidName;
    if lines != [] {
      OfLinesValid(lines[1..]);
    }
  }

  /** Reading never gives a variable whose name the pattern does not recognise. */
  lemma ReadNamesValid(file: Option<string>, name: string)
    requires ReadFile(file).Success? && name in ReadFile(file).value
    ensures ValidName(name)
  {
    hide Content, ValidName, OfLines, ReadText;
    ReadTextMeaning(Content(file));
    OfLinesValid(SplitKeep(Content(file)));
    ToMapMember(Assignments(Content(file)), name);
  }

  /** What the file reads under one of the role's names after the pair was written. */
  function Written(names: RoleNames, c: Credentials, name: string): string {
    if !ValidName(name) then ""
    else if name == names.state then "pending"
    else if name == names.password then c.password
    else c.username
  }

  lemma WrittenRead(file: Option<string>, names: RoleNames, c: Credentials, name: string)
    requires TellApart(c) && name in {names.username, names.password, names.state}
    requires ReadFile(Some(UpdatedText(Content(file), NewRoleUpdates(names, c)))).Success?
    ensures Get(ReadFile(Some(UpdatedText(Content(file), NewRoleUpdates(names, c)))).value, name)
              == Written(names, c, name)
  {
    hide ReadFile, UpdatedText, Content, NewRoleUpdates, Plain, ValidName, ParseValue, Cut, Strip, ToMap;
    var updates := NewRoleUpdates(names, c);
    NewPairFacts(names, c);
    if ValidName(name) {
      ToMapMember(updates, name);
      var a := Assignment(name, ToMap(updates)[name]);
      ReadsCut(Content(file), updates, a);
      L.PlainStates();
      CutKeepsPlain(a.value);
      PlainStripped(a.value);
    } else {
      var values := ReadFile(Some(UpdatedText(Content(file), updates))).value;
      if name in values {
        ReadNamesValid(Some(UpdatedText(Content(file), updates)), name);
      }
    }
  }

  /** A pair over the role's own names is exactly one more entry per name. */
  lemma OwnNamesRead(file: Option<string>, names: RoleNames, c: Credentials)
    requires ReadFile(file).Success? && OwnNames(names) && ValidName(names.state) && PlainCredentials(c)
    ensures ReadFile(Some(UpdatedText(Content(file), NewRoleUpdates(names, c))))
         == Success(ReadFile(file).value + ToMap(NewRoleUpdates(names, c)))
  {
    hide ReadFile, UpdatedText, Content, NewRoleUpdates, Plain, ValidName, ToMap;
    var updates := NewRoleUpdates(names, c);
    NewPairFacts(names, c);
    L.PlainStates();
    CommitReads(file, Plan(updates, ()));
  }

  // ---------------------------------------------------------------- the exact condition

  /** Some other role would resolve to the new username. */
  ghost predicate Crowded(browser: BrowserConfig, environ: Environ, values: map<string, string>, role: Role,
                          c: Credentials) {
    RoleShared(browser, environ, values + ToMap(NewRoleUpdates(NamesOf(browser, role), c)), role, c.username)
  }

  /** The file holds the pair under the role's names. */
  predicate PairSaved(browser: BrowserConfig, file: Option<string>, role: Role, c: Credentials) {
    ReadFile(file).Success? && SavedFor(browser, ReadFile(file).value, RoleSlot(role)) == Some(c)
  }

  /** A created pair is in the file if and only if the role's own three names are distinct and recognised. */
  lemma CreatedPairSavedIff(config: EnvironmentConfig, environ: Environ, file: Option<string>, role: Role,
                            c: Credentials)
    requires Creates(config, environ, file, role, c) && TellApart(c)
    ensures PairSaved(config.browser.value, LoadRole(config, environ, file, role, c).file, role, c)
       <==> OwnNames(NamesOf(config.browser.value, role))
  {
    hide ReadFile, UpdatedText, Content, NewRoleUpdates, Plain, ValidName, LoadRole, Get, NamesOf, Creates;
    CreatesReadable(config, environ, file, role, c);
    CreatedPair(config, environ, file, role, c);
    var browser := config.browser.value;
    var names := NamesOf(browser, role);
    StateNameValid(browser, role);
    var after := Some(UpdatedText(Content(file), NewRoleUpdates(names, c)));
    if OwnNames(names) {
      OwnNamesRead(file, names, c);
    }
    if ReadFile(after).Success? {
      WrittenRead(file, names, c, names.username);
      WrittenRead(file, names, c, names.password);
    }
  }

  lemma CreatesReadable(config: EnvironmentConfig, environ: Environ, file: Option<string>, role: Role, c: Credentials)
    requires Creates(config, environ, file, role, c)
    ensures config.browser.Some? && ReadFile(file).Success?
    ensures var names := NamesOf(config.browser.value, role);
            Get(environ, names.username) == "" == Get(environ, names.password)
  {
  }

  /** What a load finds that reads nothing from the environment. */
  lemma BlankLoad(config: EnvironmentConfig, environ: Environ, file: Option<string>, role: Role, c: Credentials)
    requires ExactLocal(config) && config.browser.Some? && ReadFile(file).Success?
    requires var names := NamesOf(config.browser.value, role);
             Get(environ, names.username) == "" == Get(environ, names.password)
             && Get(ReadFile(file).value, names.state) == "pending"
    ensures var browser, values, o := config.browser.value, ReadFile(file).value,
            LoadRole(config, environ, file, role, c);
            var names := NamesOf(browser, role);
            var saved := Credentials(Get(values, names.username), Get(values, names.password));
            && (o.result.Success? <==>
                  && saved.username != "" && saved.password != ""
                     && !RoleShared(browser, environ, values, role, saved.username))
            && (o.result.Success? ==> o == Outcome(Success(RoleRecord(saved, Pending)), file))
  {
    hide ReadFile, NamesOf, RoleShared, NewRoleUpdates, Strip;
  }

  lemma UnreadableLoad(config: EnvironmentConfig, environ: Environ, file: Option<string>, role: Role, c: Credentials)
    requires ReadFile(file).Failure?
    ensures LoadRole(config, environ, file, role, c).result.Failure?
  {
    hide ReadFile, NamesOf, Get, LoadRolePlan, RoleShared;
  }

  /**
   After a load that created a role's pair, the next load in the same environment returns that pair and writes
   nothing if and only if the role's three names are distinct, its two configured ones are recognised by the
   assignment pattern, and no other role resolves to the new username. With a name that is not recognised the
   next load is refused.
   */
  lemma RoleReloadsIff(config: EnvironmentConfig, environ: Environ, file: Option<string>, role: Role, c: Credentials,
                       again: Credentials)
    requires Creates(config, environ, file, role, c) && TellApart(c)
    ensures ReadFile(file).Success? && config.browser.Some?
    ensures var browser, o := config.browser.value, LoadRole(config, environ, file, role, c);
            var names, next := NamesOf(browser, role), LoadRole(config, environ, o.file, role, again);
            && (next == o <==> OwnNames(names) && !Crowded(browser, environ, ReadFile(file).value, role, c))
            && (!ValidName(names.username) || !ValidName(names.password) ==> next.result.Failure?)
  {
    hide ReadFile, UpdatedText, Content, NewRoleUpdates, Plain, ValidName, LoadRole, Get, NamesOf, Creates,
      RoleShared, ExactLocal, ToMap;
    CreatesReadable(config, environ, file, role, c);
    CreatedPair(config, environ, file, role, c);
    var browser := config.browser.value;
    var names := NamesOf(browser, role);
    StateNameValid(browser, role);
    var after := Some(UpdatedText(Content(file), NewRoleUpdates(names, c)));
    if OwnNames(names) {
      OwnNamesRead(file, names, c);
    }
    if ReadFile(after).Success? {
      WrittenRead(file, names, c, names.username);
      WrittenRead(file, names, c, names.password);
      WrittenRead(file, names, c, names.state);
      BlankLoad(config, environ, after, role, again);
    } else {
      UnreadableLoad(config, environ, after, role, again);
    }
  }

  // ---------------------------------------------------------------- names that strand a role

  lemma BlankCreates(config: EnvironmentConfig, role: Role, c: Credentials)
    requires ExactLocal(config) && config.browser.Some? && TellApart(c)
    ensures Creates(config, map[], None, role, c)
  {
    assert ReadFile(None) == Success(map[]);
    hide ReadFile, NamesOf, NewRoleUpdates, UpdatedText, Strip;
  }

  /** `É`, a letter but no ASCII one. */
  const ACUTE := "\U{00C9}"

  /** A username variable named `É`: the pair is created and its next load refused. */
  lemma UnrecognisedNameStrands(config: EnvironmentConfig, c: Credentials, again: Credentials)
    requires ExactLocal(config) && config.browser.Some? && config.browser.value.primaryUsername == ACUTE && TellApart(c)
    ensures var o := LoadRole(config, map[], None, Primary, c);
            && o.result == Success(RoleRecord(c, Pending))
            && LoadRole(config, map[], o.file, Primary, again).result.Failure?
            && !PairSaved(config.browser.value, o.file, Primary, c)
  {
    hide LoadRole, Creates, PairSaved, TellApart, ExactLocal;
    assert !IsNameChar(ACUTE[0]);
    BlankCreates(config, Primary, c);
    CreatedPair(config, map[], None, Primary, c);
    RoleReloadsIff(config, map[], None, Primary, c, again);
    CreatedPairSavedIff(config, map[], None, Primary, c);
  }

  /** Two roles with the same variables: the first pair is created and its next load refused. */
  lemma SharedNamesStrand(config: EnvironmentConfig, c: Credentials, again: Credentials)
    requires ExactLocal(config) && config.browser.Some? && TellApart(c)
    requires OwnNames(NamesOf(config.browser.value, Primary))
    requires config.browser.value.secondaryUsername == config.browser.value.primaryUsername
    requires config.browser.value.secondaryPassword == config.browser.value.primaryPassword
    ensures var o := LoadRole(config, map[], None, Primary, c);
            && o.result == Success(RoleRecord(c, Pending)) && PairSaved(config.browser.value, o.file, Primary, c)
            && LoadRole(config, map[], o.file, Primary, again) != o
  {
    hide LoadRole, Creates, PairSaved, ExactLocal, ReadFile, TellApart, NamesOf, OwnNames, Crowded;
    BlankCreates(config, Primary, c);
    CreatesReadable(config, map[], None, Primary, c);
    CreatedPair(config, map[], None, Primary, c);
    RoleReloadsIff(config, map[], None, Primary, c, again);
    CreatedPairSavedIff(config, map[], None, Primary, c);
    SharedCrowds(config.browser.value, ReadFile(None).value, c);
  }

  lemma SharedCrowds(browser: BrowserConfig, values: map<string, string>, c: Credentials)
    requires OwnNames(NamesOf(browser, Primary)) && TellApart(c)
    requires browser.secondaryUsername == browser.primaryUsername
             && browser.secondaryPassword == browser.primaryPassword
    ensures Crowded(browser, map[], values, Primary, c)
  {
    hide NewRoleUpdates, Plain, ToMap, ValidName, Strip;
    var names := NamesOf(browser, Primary);
    var after := values + ToMap(NewRoleUpdates(names, c));
    NewPairFacts(names, c);
    PlainStripped(c.username);
    PlainStripped(c.password);
    assert Get(after, names.username) == c.username && Get(after, names.password) == c.password;
    assert RoleUsername(NamesOf(browser, Secondary), map[], after) == Some(c.username);
  }

  // ---------------------------------------------------------------- the first account of a run

  /**
   A harness that starts without a file and signs up one role has the credentials of the account it created in
   the file if and only if the role's own names are distinct and recognised.
   */
  lemma FirstAccountSavedIff(config: EnvironmentConfig, role: Role, c: Credentials)
    requires ExactLocal(config) && config.browser.Some? && TellApart(c)
    ensures var start := World(None, map[], {}, {}, {}, {}, Idle);
            var end := Run(config, start, [AcquireRole(map[], role, c), SignupReturns]);
            && end.Some? && end.value.created == {c} && HasAccount(end.value.accounts, c)
            && (PairSaved(config.browser.value, end.value.file, role, c)
                <==> OwnNames(NamesOf(config.browser.value, role)))
  {
    hide LoadRole, Creates, PairSaved, NewRoleUpdates, UpdatedText, Content, Plain, NamesOf, OwnNames;
    BlankCreates(config, role, c);
    CreatedPair(config, map[], None, role, c);
    CreatedPairSavedIff(config, map[], None, role, c);
    var start := World(None, map[], {}, {}, {}, {}, Idle);
    var events := [AcquireRole(map[], role, c), SignupReturns];
    var w1 := Next(config, start, events[0]).value;
    var w2 := Next(config, w1, SignupReturns).value;
    assert events[1..] == [SignupReturns] && [SignupReturns][1..] == [];
    assert Run(config, w2, []) == Some(w2);
    assert Run(config, w1, [SignupReturns]) == Run(config, w2, []);
  }
}
