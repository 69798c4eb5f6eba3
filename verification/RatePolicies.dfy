/** The four public rate policies, chosen by path family. */
module RatePolicies {
  import opened Wrappers

  datatype PolicyName = LoginInitiation | LoginCompletion | SessionOperations | ApiRequests

  datatype Policy = Policy(name: PolicyName, families: seq<string>, requestsPerSecond: real)

  const POLICIES: seq<Policy> := [
    Policy(LoginInitiation, ["/oauth2"], 0.8),
    Policy(LoginCompletion, ["/login/oauth2"], 1.6),
    Policy(SessionOperations, ["/auth", "/logout"], 4.0),
    Policy(ApiRequests, ["/api"], 8.0)
  ]

  /** The row of the table with this name. */
  function PolicyNamed(name: PolicyName): (p: Policy)
    ensures p in POLICIES && p.name == name
  {
    match name
    case LoginInitiation => POLICIES[0]
    case LoginCompletion => POLICIES[1]
    case SessionOperations => POLICIES[2]
    case ApiRequests => POLICIES[3]
  }

  /** The sustained allowance of the ingress for each policy, in requests per second. */
  function Allowance(name: PolicyName): real {
    match name
    case LoginInitiation => 1.0
    case LoginCompletion => 2.0
    case SessionOperations => 5.0
    case ApiRequests => 10.0
  }

  predicate Under(family: string, path: string) {
    path == family || family + "/" <= path
  }

  predicate Matches(policy: Policy, path: string) {
    exists i :: 0 <= i < |policy.families| && Under(policy.families[i], path)
  }

  function FirstMatch(table: seq<Policy>, path: string): Option<Policy> {
    if table == [] then None
    else if Matches(table[0], path) then Some(table[0])
    else FirstMatch(table[1..], path)
  }

  /** `classify_public_rate_policy` */
  function Classify(path: string): Option<Policy> {
    FirstMatch(POLICIES, path)
  }

  // ---------------------------------------------------------------- the policies are disjoint

  lemma FamilyIsPrefix(family: string, path: string, i: nat)
    requires i < |family|
    ensures Under(family, path) ==> i < |path| && path[i] == family[i]
  {
    assert (family + "/")[i] == family[i];
  }

  /** Two families that disagree at some position never both cover a path. */
  lemma FamiliesExclude(f: string, g: string, path: string, i: nat)
    requires i < |f| && i < |g| && f[i] != g[i]
    ensures !(Under(f, path) && Under(g, path))
  {
    FamilyIsPrefix(f, path, i);
    FamilyIsPrefix(g, path, i);
  }

  predicate HasFamily(policy: Policy, path: string, a: string, b: string) {
    Matches(policy, path) ==> Under(a, path) || Under(b, path)
  }

  lemma Families(path: string)
    ensures HasFamily(POLICIES[0], path, "/oauth2", "/oauth2")
    ensures HasFamily(POLICIES[1], path, "/login/oauth2", "/login/oauth2")
    ensures HasFamily(POLICIES[2], path, "/auth", "/logout")
    ensures HasFamily(POLICIES[3], path, "/api", "/api")
  {
    hide Under;
  }

  /** Every path belongs to at most one policy. */
  lemma AtMostOnePolicy(path: string, i: nat, j: nat)
    requires i < j < 4
    ensures !(Matches(POLICIES[i], path) && Matches(POLICIES[j], path))
  {
    hide Under, Matches;
    Families(path);
    FamiliesExclude("/oauth2", "/login/oauth2", path, 1);
    FamiliesExclude("/oauth2", "/auth", path, 1);
    FamiliesExclude("/oauth2", "/logout", path, 1);
    FamiliesExclude("/oauth2", "/api", path, 1);
    FamiliesExclude("/login/oauth2", "/auth", path, 1);
    FamiliesExclude("/login/oauth2", "/logout", path, 4);
    FamiliesExclude("/login/oauth2", "/api", path, 1);
    FamiliesExclude("/auth", "/api", path, 2);
    FamiliesExclude("/logout", "/api", path, 1);
  }

  lemma {:induction false} FirstMatchMeaning(table: seq<Policy>, path: string)
    ensures match FirstMatch(table, path)
            case Some(p) => p in table && Matches(p, path)
            case None => forall p :: p in table ==> !Matches(p, path)
  {
    hide Matches;
    if table != [] && !Matches(table[0], path) {
      FirstMatchMeaning(table[1..], path);
    }
  }

  lemma ClassifiedIff(path: string, policy: Policy)
    ensures Classify(path) == Some(policy) <==> policy in POLICIES && Matches(policy, path)
  {
    hide Matches;
    FirstMatchMeaning(POLICIES, path);
    if policy in POLICIES && Matches(policy, path) {
      var i :| 0 <= i < 4 && POLICIES[i] == policy;
      var found := Classify(path).value;
      var j :| 0 <= j < 4 && POLICIES[j] == found;
      if i < j {
        AtMostOnePolicy(path, i, j);
      } else if j < i {
        AtMostOnePolicy(path, j, i);
      }
    }
  }

  /** First-match classification does not depend on the order of the table, nor on repeated rows. */
  lemma OrderIrrelevant(table: seq<Policy>, path: string)
    requires forall p :: p in table <==> p in POLICIES
    ensures FirstMatch(table, path) == Classify(path)
  {
    hide Matches, Classify;
    FirstMatchMeaning(table, path);
    match FirstMatch(table, path)
    case Some(p) => ClassifiedIff(path, p);
    case None =>
      if Classify(path).Some? {
        ClassifiedIff(path, Classify(path).value);
      }
  }

  // ---------------------------------------------------------------- the path boundaries

  /** The family itself, or anything below it. */
  ghost predicate Covers(family: string, path: string) {
    exists rest :: path == family + rest && (rest == "" || rest[0] == '/')
  }

  lemma UnderIff(family: string, path: string)
    ensures Under(family, path) <==> Covers(family, path)
  {
    if rest :| path == family + rest && (rest == "" || rest[0] == '/') {
      assert rest == "" || path == family + "/" + rest[1..];
    }
    if path == family {
      assert path == family + "";
    } else if family + "/" <= path {
      assert path == family + path[|family|..] && path[|family|] == (family + "/")[|family|];
    }
  }

  predicate PacedAs(path: string, name: PolicyName) {
    Classify(path).Some? && Classify(path).value.name == name
  }

  /** The path families of the ingress: which paths each policy paces. */
  lemma ClassifiedByFamily(path: string)
    ensures PacedAs(path, LoginInitiation) <==> Covers("/oauth2", path)
    ensures PacedAs(path, LoginCompletion) <==> Covers("/login/oauth2", path)
    ensures PacedAs(path, SessionOperations) <==> Covers("/auth", path) || Covers("/logout", path)
    ensures PacedAs(path, ApiRequests) <==> Covers("/api", path)
  {
    hide Under, Covers, Classify, Matches;
    forall name: PolicyName ensures PacedAs(path, name) <==> Matches(PolicyNamed(name), path) {
      PacedIff(path, name);
    }
    MatchesFamilies(path);
    UnderIff("/oauth2", path);
    UnderIff("/login/oauth2", path);
    UnderIff("/auth", path);
    UnderIff("/logout", path);
    UnderIff("/api", path);
  }

  lemma PacedIff(path: string, name: PolicyName)
    ensures PacedAs(path, name) <==> Matches(PolicyNamed(name), path)
  {
    hide Classify, Matches;
    ClassifiedIff(path, PolicyNamed(name));
    if PacedAs(path, name) {
      ClassifiedIff(path, Classify(path).value);
      assert Classify(path).value == PolicyNamed(name);
    }
  }

  lemma MatchesFamilies(path: string)
    ensures Matches(POLICIES[0], path) <==> Under("/oauth2", path)
    ensures Matches(POLICIES[1], path) <==> Under("/login/oauth2", path)
    ensures Matches(POLICIES[2], path) <==> Under("/auth", path) || Under("/logout", path)
    ensures Matches(POLICIES[3], path) <==> Under("/api", path)
  {
    hide Under;
    FamilyMatches(POLICIES[0], path, 0);
    FamilyMatches(POLICIES[1], path, 0);
    FamilyMatches(POLICIES[2], path, 0);
    FamilyMatches(POLICIES[2], path, 1);
    FamilyMatches(POLICIES[3], path, 0);
    Families(path);
  }

  lemma FamilyMatches(policy: Policy, path: string, i: nat)
    requires i < |policy.families|
    ensures Under(policy.families[i], path) ==> Matches(policy, path)
  {
  }
}
