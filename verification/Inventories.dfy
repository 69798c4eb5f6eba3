/** The two checks of an installed-package listing against the lock. */
module Inventories {
  import opened Wrappers
  import opened Json
  import opened PackageNames

  datatype Inventory = Inventory(projectVersion: string, installed: set<Locked>)

  datatype InventoryError =
    | NotArray | NotObject(index: nat) | NotStrings(index: nat) | DuplicateName(name: string)
    | ProjectNotEditable | ProjectOutside
    | ThirdPartyEditable(name: string) | NotLocked(requirement: Locked) | ProjectMissing

  predicate HasText(v: Value, key: string)
    requires v.Object?
  {
    var found := Lookup(v.members, key);
    found.Some? && found.value.Text?
  }

  predicate IsRecord(v: Value) {
    v.Object? && HasText(v, "name") && HasText(v, "version")
  }

  function NameOf(v: Value): string
    requires IsRecord(v)
  {
    Canonicalize(Lookup(v.members, "name").value.s)
  }

  function VersionOf(v: Value): string
    requires IsRecord(v)
  {
    Lookup(v.members, "version").value.s
  }

  function Requirement(v: Value): Locked
    requires IsRecord(v)
  {
    Locked(NameOf(v), VersionOf(v))
  }

  /** `value.get("editable_project_location")`; a missing member and `null` both give no location. */
  function Location(v: Value): Option<Value>
    requires v.Object?
  {
    var found := Lookup(v.members, "editable_project_location");
    if found == Some(Null) then None else found
  }

  /** `here` tells whether a path resolves to the repository root. */
  predicate Rooted(v: Value, here: string -> bool)
    requires v.Object?
  {
    Location(v).Some? && Location(v).value.Text? && here(Location(v).value.s)
  }

  predicate IsProject(v: Value)
    requires IsRecord(v)
  {
    NameOf(v) == PROJECT_NAME
  }

  predicate AllRecords(values: seq<Value>) {
    forall i :: 0 <= i < |values| ==> IsRecord(values[i])
  }

  predicate DistinctNames(values: seq<Value>)
    requires AllRecords(values)
  {
    forall i, j :: 0 <= i < j < |values| ==> NameOf(values[i]) != NameOf(values[j])
  }

  predicate HasProject(values: seq<Value>)
    requires AllRecords(values)
  {
    exists i :: 0 <= i < |values| && IsProject(values[i])
  }

  /** The project, if it is this record, is installed from the root; anything else is locked at its version. */
  predicate Permitted(v: Value, locked: set<Locked>, here: string -> bool)
    requires IsRecord(v)
  {
    if IsProject(v) then Rooted(v, here) else Requirement(v) in locked
  }

  /** One editable project at the root and otherwise only locked packages, each named once. */
  predicate OnlyLocked(values: seq<Value>, locked: set<Locked>, here: string -> bool) {
    && AllRecords(values) && DistinctNames(values) && HasProject(values)
    && forall i :: 0 <= i < |values| ==> Permitted(values[i], locked, here)
  }

  /** No package but the project is editable. */
  predicate OthersFixed(values: seq<Value>)
    requires AllRecords(values)
  {
    forall i :: 0 <= i < |values| && !IsProject(values[i]) ==> Location(values[i]).None?
  }

  /** The records other than the project's. */
  function ThirdParty(values: seq<Value>): set<Locked>
    requires AllRecords(values)
  {
    if values == [] then {}
    else
      var n := |values| - 1;
      ThirdParty(values[..n]) + if IsProject(values[n]) then {} else {Requirement(values[n])}
  }

  // ---------------------------------------------------------------- the environment check

  /** `_environment_has_only_locked_packages`; `listing` is absent when the command or its JSON failed. */
  method HasOnlyLockedPackages(listing: Option<Value>, locked: set<Locked>, here: string -> bool) returns (ok: bool)
    ensures ok <==> listing.Some? && listing.value.Array? && OnlyLocked(listing.value.items, locked, here)
  {
    hide Canonicalize, Lookup;
    if listing.None? || !listing.value.Array? {
      return false;
    }
    var values := listing.value.items;
    var found := false;
    var names: set<string> := {};
    for i := 0 to |values|
      invariant AllRecords(values[..i]) && DistinctNames(values[..i])
      invariant forall j :: 0 <= j < i ==> Permitted(values[j], locked, here)
      invariant names == set j | 0 <= j < i :: NameOf(values[j])
      invariant found <==> HasProject(values[..i])
    {
      var value := values[i];
      if !value.Object? || !HasText(value, "name") || !HasText(value, "version") {
        return false;
      }
      if NameOf(value) in names {
        return false;
      }
      names := names + {NameOf(value)};
      if IsProject(value) {
        if !Rooted(value, here) {
          return false;
        }
        found := true;
      } else if Requirement(value) !in locked {
        return false;
      }
      assert values[..i + 1] == values[..i] + [value];
      assert found <==> HasProject(values[..i + 1]) by {
        assert values[..i + 1][i] == value;
        assert forall j :: 0 <= j < i ==> values[..i + 1][j] == values[..i][j];
      }
    }
    assert values[..|values|] == values;
    return found;
  }

  // ---------------------------------------------------------------- the inventory parser

  predicate NamedBefore(values: seq<Value>, i: nat, name: string)
    requires i <= |values|
  {
    exists j :: 0 <= j < i && IsRecord(values[j]) && NameOf(values[j]) == name
  }

  /** What is wrong with record `i` of the listing. */
  function Problem(values: seq<Value>, i: nat, locked: set<Locked>, here: string -> bool): Option<InventoryError>
    requires i < |values|
  {
    var v := values[i];
    if !v.Object? then Some(NotObject(i))
    else if !IsRecord(v) then Some(NotStrings(i))
    else if NamedBefore(values, i, NameOf(v)) then Some(DuplicateName(NameOf(v)))
    else if IsProject(v) then
      if Location(v).None? || !Location(v).value.Text? then Some(ProjectNotEditable)
      else if !here(Location(v).value.s) then Some(ProjectOutside)
      else None
    else if Location(v).Some? then Some(ThirdPartyEditable(NameOf(v)))
    else if Requirement(v) !in locked then Some(NotLocked(Requirement(v)))
    else None
  }

  /** The first problem among the records from `i` on. */
  function FirstProblem(values: seq<Value>, i: nat, locked: set<Locked>, here: string -> bool): Option<InventoryError>
    requires i <= |values|
    decreases |values| - i
  {
    if i == |values| then None
    else
      var p := Problem(values, i, locked, here);
      if p.Some? then p else FirstProblem(values, i + 1, locked, here)
  }

  /** `_parse_installed_packages` on decoded input: an accepted listing is returned whole. */
  method ParseInstalledPackages(decoded: Value, locked: set<Locked>, here: string -> bool)
    returns (r: Result<Inventory, InventoryError>)
    ensures !decoded.Array? ==> r == Failure(NotArray)
    ensures decoded.Array? ==>
              var values := decoded.items;
              var first := FirstProblem(values, 0, locked, here);
              if first.Some? then r == Failure(first.value)
              else && AllRecords(values)
                   && (r.Failure? ==> r.error == ProjectMissing && !HasProject(values))
                   && (r.Success? ==> && r.value.installed == ThirdParty(values)
                                      && exists i :: && 0 <= i < |values| && IsProject(values[i])
                                                     && r.value.projectVersion == VersionOf(values[i]))
  {
    hide Canonicalize, Lookup;
    if !decoded.Array? {
      return Failure(NotArray);
    }
    var values := decoded.items;
    var project: Option<string> := None;
    var installed: set<Locked> := {};
    var seen: set<string> := {};
    for i := 0 to |values|
      invariant AllRecords(values[..i])
      invariant seen == set j | 0 <= j < i :: NameOf(values[j])
      invariant installed == ThirdParty(values[..i])
      invariant FirstProblem(values, i, locked, here) == FirstProblem(values, 0, locked, here)
      invariant project.None? ==> forall j :: 0 <= j < i ==> !IsProject(values[j])
      invariant project.Some? ==> exists j :: 0 <= j < i && IsProject(values[j])
                                              && project.value == VersionOf(values[j])
    {
      var value := values[i];
      if !value.Object? {
        return Failure(NotObject(i));
      }
      if !HasText(value, "name") || !HasText(value, "version") {
        return Failure(NotStrings(i));
      }
      var name := NameOf(value);
      assert name in seen <==> NamedBefore(values, i, name);
      if name in seen {
        return Failure(DuplicateName(name));
      }
      seen := seen + {name};
      var location := Location(value);
      assert values[..i + 1][..i] == values[..i];
      if name == PROJECT_NAME {
        if location.None? || !location.value.Text? {
          return Failure(ProjectNotEditable);
        }
        if !here(location.value.s) {
          return Failure(ProjectOutside);
        }
        project := Some(VersionOf(value));
        continue;
      }
      if location.Some? {
        return Failure(ThirdPartyEditable(name));
      }
      var package := Locked(name, VersionOf(value));
      if package !in locked {
        return Failure(NotLocked(package));
      }
      installed := installed + {package};
    }
    assert values[..|values|] == values;
    if project.None? {
      return Failure(ProjectMissing);
    }
    return Success(Inventory(project.value, installed));
  }

  // ---------------------------------------------------------------- what the parser accepts

  lemma {:induction false} NoProblems(values: seq<Value>, i: nat, locked: set<Locked>, here: string -> bool)
    requires i <= |values|
    ensures FirstProblem(values, i, locked, here).None?
       <==> forall j :: i <= j < |values| ==> Problem(values, j, locked, here).None?
    decreases |values| - i
  {
    hide Problem;
    if i < |values| {
      NoProblems(values, i + 1, locked, here);
    }
  }

  ghost predicate Accepted(values: seq<Value>, locked: set<Locked>, here: string -> bool) {
    FirstProblem(values, 0, locked, here).None? && AllRecords(values) && HasProject(values)
  }

  /**
   * The parser refines the environment check: it accepts a listing exactly when the check does and, in
   * addition, no other package is editable.
   */
  lemma AcceptedIff(values: seq<Value>, locked: set<Locked>, here: string -> bool)
    ensures Accepted(values, locked, here) <==> OnlyLocked(values, locked, here) && OthersFixed(values)
  {
    hide Canonicalize, Lookup;
    NoProblems(values, 0, locked, here);
    if Accepted(values, locked, here) {
      forall i | 0 <= i < |values|
        ensures Permitted(values[i], locked, here) && (!IsProject(values[i]) ==> Location(values[i]).None?)
      {
        assert Problem(values, i, locked, here).None?;
      }
      forall i, j | 0 <= i < j < |values| ensures NameOf(values[i]) != NameOf(values[j]) {
        assert Problem(values, j, locked, here).None?;
      }
    }
    if OnlyLocked(values, locked, here) && OthersFixed(values) {
      forall i | 0 <= i < |values| ensures Problem(values, i, locked, here).None? {
        assert Permitted(values[i], locked, here);
      }
    }
  }

  /** An editable third-party package at a locked version: the environment check lets it pass, the parser does not. */
  lemma EditableSlipsThrough(locked: set<Locked>, here: string -> bool, root: string, other: string, version: string)
    requires here(root) && other != PROJECT_NAME && Canonicalize(other) == other && Locked(other, version) in locked
    ensures exists values :: OnlyLocked(values, locked, here) && !Accepted(values, locked, here)
  {
    hide Canonicalize, Lookup, Listed;
    var project, package := Listed(PROJECT_NAME, version, root), Listed(other, version, root);
    var values := [project, package];
    ProjectCanonical();
    ListedParts(PROJECT_NAME, version, root);
    ListedParts(other, version, root);
    assert IsProject(values[0]) && !IsProject(values[1]);
    AcceptedIff(values, locked, here);
  }

  /** An editable record as the listing writes it. */
  function Listed(name: string, version: string, location: string): Value {
    Object([Member("name", Text(name)), Member("version", Text(version)),
            Member("editable_project_location", Text(location))])
  }

  lemma ListedParts(name: string, version: string, location: string)
    ensures IsRecord(Listed(name, version, location))
    ensures Requirement(Listed(name, version, location)) == Locked(Canonicalize(name), version)
    ensures Location(Listed(name, version, location)) == Some(Text(location))
  {
    hide Canonicalize;
    var members := Listed(name, version, location).members;
    assert Lookup(members[1..], "version") == Some(Text(version));
    assert Lookup(members[2..], "editable_project_location") == Some(Text(location));
    assert Lookup(members[1..], "editable_project_location") == Some(Text(location)) by {
      assert members[1..][1..] == members[2..];
    }
  }

  lemma ProjectCanonical()
    ensures Canonicalize(PROJECT_NAME) == PROJECT_NAME
  {
    CanonicalFixed(PROJECT_NAME);
  }

  lemma {:induction false} ThirdPartyNames(values: seq<Value>, p: Locked)
    requires AllRecords(values)
    ensures p in ThirdParty(values)
       <==> exists i :: 0 <= i < |values| && !IsProject(values[i]) && Requirement(values[i]) == p
  {
    hide NameOf, VersionOf;
    if values != [] {
      var n := |values| - 1;
      ThirdPartyNames(values[..n], p);
      assert forall i :: 0 <= i < n ==> values[..n][i] == values[i];
    }
  }

  /** No record is lost: the installed packages and the project together are as many as the records. */
  lemma {:induction false} NothingLost(values: seq<Value>)
    requires AllRecords(values) && DistinctNames(values)
    ensures |ThirdParty(values)| + (if HasProject(values) then 1 else 0) == |values|
  {
    hide NameOf, VersionOf;
    if values != [] {
      var n := |values| - 1;
      var before := values[..n];
      assert forall i :: 0 <= i < n ==> before[i] == values[i];
      NothingLost(before);
      ThirdPartyNames(before, Requirement(values[n]));
      assert HasProject(values) <==> HasProject(before) || IsProject(values[n]);
      if IsProject(values[n]) {
        assert !HasProject(before);
      }
    }
  }

  /** Everything an accepted listing reports as installed is locked, and all of it is reported. */
  lemma InstalledIsLocked(values: seq<Value>, locked: set<Locked>, here: string -> bool)
    requires Accepted(values, locked, here)
    ensures ThirdParty(values) <= locked
    ensures |ThirdParty(values)| + 1 == |values|
    ensures forall p, q :: p in ThirdParty(values) && q in ThirdParty(values) && p.name == q.name ==> p == q
    ensures forall p :: p in ThirdParty(values) ==> p.name != PROJECT_NAME
  {
    hide Problem, FirstProblem, Location, Canonicalize, Lookup, ThirdParty;
    AcceptedIff(values, locked, here);
    NothingLost(values);
    forall p | p in ThirdParty(values) ensures p in locked && p.name != PROJECT_NAME {
      ThirdPartyNames(values, p);
    }
    forall p, q | p in ThirdParty(values) && q in ThirdParty(values) && p.name == q.name ensures p == q {
      ThirdPartyNames(values, p);
      ThirdPartyNames(values, q);
    }
  }

  // ---------------------------------------------------------------- what a listing has to hold

  /** A record of this name and version, as the listing spells them. */
  predicate Lists(v: Value, name: string, version: string) {
    v.Object? && Holds(v.members, "name", Text(name)) && Holds(v.members, "version", Text(version))
  }

  /** The record is installed in editable form from a path that resolves to the root. */
  ghost predicate FromHere(v: Value, here: string -> bool) {
    v.Object? && exists path :: Holds(v.members, "editable_project_location", Text(path)) && here(path)
  }

  predicate NotEditable(v: Value) {
    v.Object? && (Lacks(v.members, "editable_project_location") || Holds(v.members, "editable_project_location", Null))
  }

  lemma RecordKeyed(v: Value, here: string -> bool)
    requires v.Object?
    ensures forall name, version :: Lists(v, name, version) <==>
              IsRecord(v) && Lookup(v.members, "name").value.s == name
              && Lookup(v.members, "version").value.s == version
    ensures Rooted(v, here) <==> FromHere(v, here)
    ensures Location(v).None? <==> NotEditable(v)
  {
    hide Lookup, Holds, Lacks;
    Keyed(v.members, "name");
    Keyed(v.members, "version");
    Keyed(v.members, "editable_project_location");
  }

  ghost predicate IsListed(v: Value) {
    exists name, version :: Lists(v, name, version)
  }

  ghost predicate IsOurs(v: Value) {
    exists name, version :: Lists(v, name, version) && Canonicalize(name) == "budget-analyzer-api-tests"
  }

  /** The project from here, or a package at its locked version. */
  ghost predicate MayStand(v: Value, locked: set<Locked>, here: string -> bool) {
    forall name, version :: Lists(v, name, version) ==>
      if Canonicalize(name) == "budget-analyzer-api-tests" then FromHere(v, here)
      else Locked(Canonicalize(name), version) in locked
  }

  ghost predicate SameName(v: Value, w: Value) {
    exists m, n, x, y :: Lists(v, m, x) && Lists(w, n, y) && Canonicalize(m) == Canonicalize(n)
  }

  lemma ListsIff(v: Value, locked: set<Locked>, here: string -> bool)
    ensures IsRecord(v) <==> IsListed(v)
    ensures IsRecord(v) ==> forall name, version :: Lists(v, name, version) ==>
                              NameOf(v) == Canonicalize(name) && VersionOf(v) == version
    ensures IsRecord(v) ==> (IsProject(v) <==> IsOurs(v)) && (Permitted(v, locked, here) <==> MayStand(v, locked, here))
  {
    hide Lookup, Holds, Lacks, Canonicalize, FromHere, Rooted;
    if v.Object? {
      RecordKeyed(v, here);
      if IsRecord(v) {
        assert Lists(v, Lookup(v.members, "name").value.s, Lookup(v.members, "version").value.s);
      }
    }
  }

  lemma SameNameIff(v: Value, w: Value)
    requires IsRecord(v) && IsRecord(w)
    ensures NameOf(v) == NameOf(w) <==> SameName(v, w)
  {
    hide IsRecord, NameOf, VersionOf, Lists, Canonicalize;
    ListsIff(v, {}, _ => false);
    ListsIff(w, {}, _ => false);
  }

  /**
   The environment check asks for exactly this: every element is a record, no two have one name, one of them is
   the project, and each is the project from here or a package at its locked version.
   */
  lemma OnlyLockedIff(values: seq<Value>, locked: set<Locked>, here: string -> bool)
    ensures OnlyLocked(values, locked, here) <==>
              && (forall i :: 0 <= i < |values| ==> IsListed(values[i]) && MayStand(values[i], locked, here))
              && (exists i :: 0 <= i < |values| && IsOurs(values[i]))
              && forall i, j :: 0 <= i < j < |values| ==> !SameName(values[i], values[j])
  {
    hide IsRecord, NameOf, Permitted, IsProject, IsListed, IsOurs, MayStand, SameName;
    forall i | 0 <= i < |values|
      ensures IsRecord(values[i]) <==> IsListed(values[i])
      ensures IsRecord(values[i]) ==> (IsProject(values[i]) <==> IsOurs(values[i]))
                                      && (Permitted(values[i], locked, here) <==> MayStand(values[i], locked, here))
    {
      ListsIff(values[i], locked, here);
    }
    if AllRecords(values) {
      forall i, j | 0 <= i < j < |values|
        ensures NameOf(values[i]) == NameOf(values[j]) <==> SameName(values[i], values[j])
      {
        SameNameIff(values[i], values[j]);
      }
    }
  }

  /** No package but the project is editable, said of the members. */
  lemma OthersFixedIff(values: seq<Value>)
    requires AllRecords(values)
    ensures OthersFixed(values) <==> forall i :: 0 <= i < |values| && !IsOurs(values[i]) ==> NotEditable(values[i])
  {
    hide Location, NotEditable, IsProject, IsOurs;
    forall i | 0 <= i < |values|
      ensures IsProject(values[i]) <==> IsOurs(values[i])
      ensures Location(values[i]).None? <==> NotEditable(values[i])
    {
      ListsIff(values[i], {}, _ => false);
      RecordKeyed(values[i], _ => false);
    }
  }
}
