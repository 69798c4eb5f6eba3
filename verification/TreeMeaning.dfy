/** What the nodes and packages of a parsed tree are, said of the members of the decoded input. */
module TreeMeaning {
  import opened Wrappers
  import opened Text
  import opened Json
  import opened Sorting
  import opened PackageNames
  import opened DependencyTree
  import opened DependencyGraph
  import opened TreeOrder

  // ---------------------------------------------------------------- node kinds

  predicate Named(item: seq<Member>, name: string, version: string) {
    Holds(item, "name", Value.Text(name)) && Holds(item, "version", Value.Text(version))
  }

  /** An ordinary distribution: kind `package`, and a source that is not editable. */
  ghost predicate PackageNode(item: seq<Member>, name: string, version: string) {
    && Named(item, name, version) && Holds(item, "kind", Value.Text("package"))
    && exists source :: Holds(item, "source", Object(source)) && Lacks(source, "editable")
  }

  ghost predicate ProjectNode(item: seq<Member>, name: string, version: string) {
    && Named(item, name, version) && Holds(item, "kind", Value.Text("package")) && Canonicalize(name) == PROJECT_NAME
    && exists source :: Holds(item, "source", Object(source)) && !Lacks(source, "editable")
  }

  ghost predicate GroupNode(item: seq<Member>, group: string) {
    && (exists name, version :: Named(item, name, version))
    && exists kind :: Holds(item, "kind", Object(kind)) && Holds(kind, "group", Value.Text(group))
  }

  ghost predicate ExtraNode(item: seq<Member>, name: string, version: string, extra: string) {
    && Named(item, name, version)
    && exists kind :: Holds(item, "kind", Object(kind)) && Holds(kind, "extra", Value.Text(extra))
                      && !exists group :: Holds(kind, "group", Value.Text(group))
  }

  function PackageId(name: string, version: string): string {
    "package:" + Canonicalize(name) + "==" + version
  }

  /** The item stands for a node with this id and kind. */
  ghost predicate Describes(item: seq<Member>, id: string, kind: Kind) {
    match kind
    case Workspace => Holds(item, "kind", Value.Text("workspace")) && id == "workspace"
    case Package => exists name, version :: PackageNode(item, name, version) && id == PackageId(name, version)
    case Project => exists name, version :: ProjectNode(item, name, version)
                                            && id == "project:" + PROJECT_NAME + "==" + version
    case Group => exists group :: GroupNode(item, group) && id == "group:" + group
    case Extra => exists name, version, extra :: ExtraNode(item, name, version, extra)
                                                 && id == "extra:" + Canonicalize(name) + "[" + extra + "]==" + version
  }

  /** The lookups an identity depends on. */
  lemma ItemKeyed(item: seq<Member>)
    ensures forall v :: Lookup(item, "kind") == Some(v) <==> Holds(item, "kind", v)
    ensures forall v :: Lookup(item, "name") == Some(v) <==> Holds(item, "name", v)
    ensures forall v :: Lookup(item, "version") == Some(v) <==> Holds(item, "version", v)
    ensures forall v :: Lookup(item, "source") == Some(v) <==> Holds(item, "source", v)
  {
    hide Lookup, Holds;
    Keyed(item, "kind");
    Keyed(item, "name");
    Keyed(item, "version");
    Keyed(item, "source");
  }

  lemma NestedKeyed(item: seq<Member>)
    ensures Lookup(item, "source").Some? && Lookup(item, "source").value.Object? ==>
              var source := Lookup(item, "source").value.members;
              Lookup(source, "editable") == None <==> Lacks(source, "editable")
    ensures Lookup(item, "kind").Some? && Lookup(item, "kind").value.Object? ==>
              var kind := Lookup(item, "kind").value.members;
              && (forall v :: Lookup(kind, "group") == Some(v) <==> Holds(kind, "group", v))
              && (forall v :: Lookup(kind, "extra") == Some(v) <==> Holds(kind, "extra", v))
  {
    hide Lookup, Holds, Lacks;
    if Lookup(item, "source").Some? && Lookup(item, "source").value.Object? {
      Keyed(Lookup(item, "source").value.members, "editable");
    }
    if Lookup(item, "kind").Some? && Lookup(item, "kind").value.Object? {
      Keyed(Lookup(item, "kind").value.members, "group");
      Keyed(Lookup(item, "kind").value.members, "extra");
    }
  }

  lemma IdentityDescribes(item: seq<Member>, id: string, kind: Kind)
    requires NodeIdentity(item) == Success(Identity(id, kind))
    ensures Describes(item, id, kind)
  {
    hide Lookup, Holds, Lacks, Canonicalize;
    ItemKeyed(item);
    NestedKeyed(item);
    if !kind.Workspace? {
      var name, version := Lookup(item, "name").value.s, Lookup(item, "version").value.s;
      assert Named(item, name, version);
      match kind {
        case Package =>
          assert PackageNode(item, name, version);
        case Project =>
          assert ProjectNode(item, name, version);
        case Group =>
          var inner := Lookup(item, "kind").value.members;
          assert GroupNode(item, Lookup(inner, "group").value.s);
        case Extra =>
          var inner := Lookup(item, "kind").value.members;
          assert ExtraNode(item, name, version, Lookup(inner, "extra").value.s);
      }
    }
  }

  lemma DescribesIdentity(item: seq<Member>, id: string, kind: Kind)
    requires Describes(item, id, kind)
    ensures NodeIdentity(item) == Success(Identity(id, kind))
  {
    hide Lookup, Holds, Lacks, Canonicalize;
    ItemKeyed(item);
    NestedKeyed(item);
  }

  /** Which identity an item is given, or that it has none. */
  lemma IdentityIff(item: seq<Member>, id: string, kind: Kind)
    ensures NodeIdentity(item) == Success(Identity(id, kind)) <==> Describes(item, id, kind)
  {
    hide NodeIdentity, Describes;
    if NodeIdentity(item) == Success(Identity(id, kind)) {
      IdentityDescribes(item, id, kind);
    }
    if Describes(item, id, kind) {
      DescribesIdentity(item, id, kind);
    }
  }

  // ---------------------------------------------------------------- what an id identifies

  lemma IdStart(item: seq<Member>, id: string, kind: Kind)
    requires Describes(item, id, kind)
    ensures |id| >= 2
    ensures id[0] == (match kind case Workspace => 'w' case Package => 'p' case Project => 'p' case Group => 'g'
                      case Extra => 'e')
    ensures kind.Package? ==> id[1] == 'a'
    ensures kind.Project? ==> id[1] == 'r'
  {
    hide Holds, Canonicalize, PackageNode, ProjectNode, GroupNode, ExtraNode;
  }

  /** Nodes of different kinds never share an id. */
  lemma IdDeterminesKind(a: seq<Member>, b: seq<Member>, id: string, kind: Kind, kind': Kind)
    requires Describes(a, id, kind) && Describes(b, id, kind')
    ensures kind == kind'
  {
    hide Describes;
    IdStart(a, id, kind);
    IdStart(b, id, kind');
  }

  predicate NoEquals(s: string) {
    forall i :: 0 <= i < |s| ==> s[i] != '='
  }

  lemma SplitAtEquals(n: string, v: string, n': string, v': string)
    requires NoEquals(n) && NoEquals(n') && n + "==" + v == n' + "==" + v'
    ensures n == n' && v == v'
  {
    var s := n + "==" + v;
    assert s[|n|] == '=' && s[|n'|] == '=';
    assert forall i :: 0 <= i < |n| ==> s[i] == n[i];
    assert forall i :: 0 <= i < |n'| ==> s[i] == n'[i];
    assert n == s[..|n|] && v == s[|n| + 2..];
    assert n' == s[..|n'|] && v' == s[|n'| + 2..];
  }

  lemma {:induction false} CanonicalNoEquals(name: string)
    requires NoEquals(name)
    ensures NoEquals(Canonicalize(name))
    decreases |name|
  {
    if name != "" {
      if IsSeparator(name[0]) {
        DropNoEquals(name[1..]);
        CanonicalNoEquals(DropSeparators(name[1..]));
      } else {
        CanonicalNoEquals(name[1..]);
      }
    }
  }

  lemma {:induction false} DropNoEquals(s: string)
    requires NoEquals(s)
    ensures NoEquals(DropSeparators(s))
  {
    if s != "" && IsSeparator(s[0]) {
      DropNoEquals(s[1..]);
    }
  }

  /** Two packages get one id if and only if their canonical names and their versions agree. */
  lemma SharedIdIff(name: string, version: string, name': string, version': string)
    requires NoEquals(name) && NoEquals(name')
    ensures PackageId(name, version) == PackageId(name', version')
       <==> Canonicalize(name) == Canonicalize(name') && version == version'
  {
    hide Canonicalize;
    var n, n' := Canonicalize(name), Canonicalize(name');
    CanonicalNoEquals(name);
    CanonicalNoEquals(name');
    if PackageId(name, version) == PackageId(name', version') {
      assert n + "==" + version == PackageId(name, version)[8..];
      assert n' + "==" + version' == PackageId(name', version')[8..];
      SplitAtEquals(n, version, n', version');
    }
  }

  /** The only place where the text after the prefix can be cut into a canonical name, `==` and a version. */
  predicate CutsOnce(n: string, version: string) {
    var s := n + "==" + version;
    forall k :: 0 <= k <= |s| - 2 && s[k] == '=' && s[k + 1] == '=' && Canonicalize(s[..k]) == s[..k] ==> k == |n|
  }

  lemma CutOnceIsUnique(n: string, version: string, n': string, version': string)
    requires CutsOnce(n, version) && Canonicalize(n') == n' && n' + "==" + version' == n + "==" + version
    ensures n' == n && version' == version
  {
    hide Canonicalize;
    var s, s' := n + "==" + version, n' + "==" + version';
    assert s'[..|n'|] == n' && s'[|n'|] == '=' && s'[|n'| + 1] == '=' && s'[|n'| + 2..] == version';
    assert s[..|n|] == n && s[|n| + 2..] == version;
  }

  lemma SecondCut(n: string, version: string) returns (n': string, version': string)
    requires !CutsOnce(n, version)
    ensures Canonicalize(n') == n' && n' != n && n' + "==" + version' == n + "==" + version
  {
    hide Canonicalize;
    var s := n + "==" + version;
    var k :| 0 <= k <= |s| - 2 && s[k] == '=' && s[k + 1] == '=' && Canonicalize(s[..k]) == s[..k] && k != |n|;
    n', version' := s[..k], s[k + 2..];
    assert |n'| == k && s == n' + "==" + version';
  }

  lemma SameIdSameText(name: string, version: string, name': string, version': string)
    ensures PackageId(name, version) == PackageId(name', version')
       <==> Canonicalize(name) + "==" + version == Canonicalize(name') + "==" + version'
  {
    hide Canonicalize;
    assert PackageId(name, version) == "package:" + (Canonicalize(name) + "==" + version);
    assert PackageId(name', version') == "package:" + (Canonicalize(name') + "==" + version');
    assert PackageId(name, version)[8..] == Canonicalize(name) + "==" + version;
    assert PackageId(name', version')[8..] == Canonicalize(name') + "==" + version';
  }

  /**
   Names are any texts here, and one that contains `==` can share its id with another package: exactly when its
   id can be cut a second time.
   */
  lemma IdIsUniqueIff(name: string, version: string)
    ensures (forall name', version' :: PackageId(name', version') == PackageId(name, version)
                                       ==> Canonicalize(name') == Canonicalize(name) && version' == version)
       <==> CutsOnce(Canonicalize(name), version)
  {
    hide Canonicalize, PackageId, CutsOnce;
    var n := Canonicalize(name);
    if CutsOnce(n, version) {
      forall name', version' | PackageId(name', version') == PackageId(name, version)
        ensures Canonicalize(name') == n && version' == version
      {
        SameIdSameText(name, version, name', version');
        CanonicalizeIdempotent(name');
        CutOnceIsUnique(n, version, Canonicalize(name'), version');
      }
    } else {
      var n', version' := SecondCut(n, version);
      SameIdSameText(name, version, n', version');
    }
  }

  lemma IdsCollide()
    ensures PackageId("a==b", "c") == PackageId("a", "b==c")
  {
    CanonicalFixed("a==b");
    CanonicalFixed("a");
    assert "a==b" + "==" + "c" == "a" + "==" + "b==c";
  }

  // ---------------------------------------------------------------- the parsed tree

  /** Some node of the input is this ordinary distribution. */
  ghost predicate HasPackage(resolution: seq<Member>, name: string, version: string) {
    exists i :: 0 <= i < |resolution| && resolution[i].value.Object?
                && PackageNode(resolution[i].value.members, name, version)
  }

  lemma PackageEntry(m: Member, name: string, version: string)
    requires Identified(m)
    ensures PackageNode(m.value.members, name, version) <==>
              && EntryOf(m).identity.kind == Package
              && TextAt(EntryOf(m).item, "name") == name && TextAt(EntryOf(m).item, "version") == version
  {
    hide NodeIdentity, Holds, Lacks, Canonicalize, Lookup;
    var item, e := m.value.members, EntryOf(m);
    ItemKeyed(item);
    IdentityDescribes(item, e.identity.id, e.identity.kind);
    if PackageNode(item, name, version) {
      assert Describes(item, PackageId(name, version), Package);
      DescribesIdentity(item, PackageId(name, version), Package);
    }
  }

  lemma {:induction false} RecordsMember(entries: seq<Entry>, name: string, version: string)
    ensures PackageRecord(name, version) in Records(entries) <==>
            exists e :: e in entries && e.identity.kind == Package
                        && TextAt(e.item, "name") == name && TextAt(e.item, "version") == version
  {
    hide TextAt;
    if entries != [] {
      RecordsMember(entries[1..], name, version);
      assert forall e :: e in entries <==> e == entries[0] || e in entries[1..];
    }
  }

  lemma RecordsOf(resolution: seq<Member>, name: string, version: string)
    requires AllIdentified(resolution)
    ensures PackageRecord(name, version) in Records(EntriesOf(resolution)) <==> HasPackage(resolution, name, version)
  {
    hide Records, TextAt, PackageNode, NodeIdentity;
    var entries := EntriesOf(resolution);
    RecordsMember(entries, name, version);
    forall i | 0 <= i < |resolution|
      ensures PackageNode(resolution[i].value.members, name, version)
         <==> entries[i].identity.kind == Package && TextAt(entries[i].item, "name") == name
              && TextAt(entries[i].item, "version") == version
    {
      PackageEntry(resolution[i], name, version);
    }
    if HasPackage(resolution, name, version) {
      var i :| 0 <= i < |resolution| && resolution[i].value.Object?
               && PackageNode(resolution[i].value.members, name, version);
      assert entries[i] in entries;
    }
  }

  lemma {:induction false} ListedMember(names: seq<string>, versions: map<string, string>, p: PackageRecord)
    requires forall n :: n in names ==> n in versions
    ensures p in Listed(names, versions) <==> p.name in names && versions[p.name] == p.version
  {
    if names != [] {
      ListedMember(names[1..], versions, p);
    }
  }

  lemma NormalizedMember(records: seq<PackageRecord>, p: PackageRecord)
    requires NormalizeRecords(records).Success?
    ensures p in NormalizeRecords(records).value <==> exists r :: r in records && NormalRecord(r) == p
  {
    hide NormalizeRecords, Versions, NormalRecord, Sort;
    NormalizedParts(records);
    VersionsFrom(records, map[], false);
    var versions := Versions(records, map[], false).value;
    SortMembers(NamesOf(records), p.name);
    ListedMember(Sort(NamesOf(records)), versions, p);
    if p.name in NamesOf(records) && versions[p.name] == p.version {
      var i :| 0 <= i < |records| && NamesOf(records)[i] == p.name;
      assert records[i] in records;
    }
    if r :| r in records && NormalRecord(r) == p {
      var i :| 0 <= i < |records| && records[i] == r;
      assert NamesOf(records)[i] == p.name;
    }
  }

  /** The packages of a tree are exactly the ordinary distributions of the input, by canonical name and version. */
  lemma PackagesOfTree(resolution: seq<Member>, roots: seq<Value>, p: PackageRecord)
    requires ParseTree(resolution, roots).Success?
    ensures p in ParseTree(resolution, roots).value.packages <==>
            exists name, version :: HasPackage(resolution, name, version)
                                    && p == PackageRecord(Canonicalize(Strip(name)), Strip(version))
  {
    hide ParseTree, HasPackage, Records, NormalizeRecords, Canonicalize, Strip, EntriesOf, AllIdentified, Collectable;
    TreeParts(resolution, roots);
    CollectableIdentified(resolution);
    var records := Records(EntriesOf(resolution));
    NormalizedMember(records, p);
    forall name, version
      ensures PackageRecord(name, version) in records <==> HasPackage(resolution, name, version)
    {
      RecordsOf(resolution, name, version);
    }
    if r :| r in records && NormalRecord(r) == p {
      assert r == PackageRecord(r.name, r.version) && HasPackage(resolution, r.name, r.version);
    }
    if name, version :| HasPackage(resolution, name, version)
                        && p == PackageRecord(Canonicalize(Strip(name)), Strip(version)) {
      assert NormalRecord(PackageRecord(name, version)) == p;
    }
  }

  lemma MatchDescribes(f: map<string, string>, m: Member, n: Node)
    requires Identified(m) && NodeMatches(f, EntryOf(m), n)
    ensures m.value.Object? && Describes(m.value.members, n.id, n.kind)
  {
    hide NodeIdentity, Describes, AllKnown, Mapped, Sorted, DependencyList;
    IdentityDescribes(m.value.members, n.id, n.kind);
  }

  lemma TreeNodes(resolution: seq<Member>, roots: seq<Value>)
    requires UniqueKeys(resolution) && ParseTree(resolution, roots).Success?
    ensures AllIdentified(resolution)
    ensures NodesCorrespond(Renaming(EntriesOf(resolution)), EntriesOf(resolution),
                            ParseTree(resolution, roots).value.nodes)
  {
    hide ParseTree, NodesCorrespond, AllIdentified, Collectable, Injective, AllKnown, Mapped, Sorted;
    ParsedTreeIsomorphic(resolution, roots);
    CollectableIdentified(resolution);
  }

  lemma EntryOfNode(f: map<string, string>, entries: seq<Entry>, nodes: seq<Node>, n: Node) returns (i: nat)
    requires NodesCorrespond(f, entries, nodes) && n in nodes
    ensures i < |entries| && NodeMatches(f, entries[i], n)
  {
    hide NodeMatches;
    var e :| e in entries && NodeMatches(f, e, n);
    i :| 0 <= i < |entries| && entries[i] == e;
  }

  /** Every node of a tree describes an item of the input. */
  lemma NodeFromInput(resolution: seq<Member>, roots: seq<Value>, n: Node)
    requires UniqueKeys(resolution) && ParseTree(resolution, roots).Success?
    requires n in ParseTree(resolution, roots).value.nodes
    ensures exists m :: m in resolution && m.value.Object? && Describes(m.value.members, n.id, n.kind)
  {
    hide ParseTree, NodeIdentity, Describes, NodeMatches, Renaming, NodesCorrespond, EntriesOf, EntryOf, Identified;
    TreeNodes(resolution, roots);
    var f, entries := Renaming(EntriesOf(resolution)), EntriesOf(resolution);
    var i := EntryOfNode(f, entries, ParseTree(resolution, roots).value.nodes, n);
    var m := resolution[i];
    MatchDescribes(f, m, n);
  }

  /** Every item of the input has its node. */
  lemma NodeOfInput(resolution: seq<Member>, roots: seq<Value>, m: Member)
    requires UniqueKeys(resolution) && ParseTree(resolution, roots).Success? && m in resolution
    ensures m.value.Object?
    ensures exists n :: n in ParseTree(resolution, roots).value.nodes && Describes(m.value.members, n.id, n.kind)
  {
    hide ParseTree, NodeIdentity, Describes, NodeMatches, Renaming, SortedById, EntriesOf, EntryOf, Identified;
    TreeNodes(resolution, roots);
    var f, entries := Renaming(EntriesOf(resolution)), EntriesOf(resolution);
    var i :| 0 <= i < |resolution| && resolution[i] == m;
    assert entries[i] in entries;
    var n :| n in ParseTree(resolution, roots).value.nodes && NodeMatches(f, entries[i], n);
    MatchDescribes(f, m, n);
  }

  // ---------------------------------------------------------------- when parsing succeeds

  predicate HasKey(resolution: seq<Member>, key: string) {
    exists m :: m in resolution && m.key == key
  }

  /** An object that names a node of the resolution under `id`. */
  ghost predicate Refers(resolution: seq<Member>, v: Value) {
    v.Object? && exists key :: Holds(v.members, "id", Value.Text(key)) && HasKey(resolution, key)
  }

  /** The item's dependencies are left out, or a list of references to nodes. */
  ghost predicate Linked(resolution: seq<Member>, item: seq<Member>) {
    || Lacks(item, "dependencies")
    || exists references :: Holds(item, "dependencies", Array(references))
                            && forall v :: v in references ==> Refers(resolution, v)
  }

  lemma RenamingKeys(resolution: seq<Member>, key: string)
    requires UniqueKeys(resolution) && AllIdentified(resolution)
    ensures key in Renaming(EntriesOf(resolution)) <==> HasKey(resolution, key)
  {
    hide NodeIdentity, Renaming, OriginalsDistinct, UniqueKeys;
    var entries := EntriesOf(resolution);
    EntriesDistinct(resolution);
    RenamingMeaning(entries);
    if key in Renaming(entries) {
      var e :| e in entries && e.original == key;
      var i :| 0 <= i < |entries| && entries[i] == e;
      assert resolution[i] in resolution;
    }
    if m :| m in resolution && m.key == key {
      var i :| 0 <= i < |resolution| && resolution[i] == m;
      assert entries[i] in entries;
    }
  }

  lemma KnownIff(resolution: seq<Member>, v: Value)
    requires UniqueKeys(resolution) && AllIdentified(resolution)
    ensures Known(Renaming(EntriesOf(resolution)), v) <==> Refers(resolution, v)
  {
    hide Renaming, EntriesOf, AllIdentified, Lookup, Holds, HasKey, UniqueKeys;
    if v.Object? {
      Keyed(v.members, "id");
      forall key ensures key in Renaming(EntriesOf(resolution)) <==> HasKey(resolution, key) {
        RenamingKeys(resolution, key);
      }
    }
  }

  lemma RenamedIff(resolution: seq<Member>, references: seq<Value>)
    requires UniqueKeys(resolution) && AllIdentified(resolution)
    ensures Renamed(EntriesOf(resolution), references).Success?
       <==> forall v :: v in references ==> Refers(resolution, v)
  {
    hide Renaming, EntriesOf, OriginalsDistinct, AllIdentified, Known, Refers, Renamed, StableId, UniqueKeys;
    var entries := EntriesOf(resolution);
    EntriesDistinct(resolution);
    RenamingMeaning(entries);
    RenamedMeaning(entries, Renaming(entries), references);
    forall v ensures Known(Renaming(entries), v) <==> Refers(resolution, v) {
      KnownIff(resolution, v);
    }
  }

  lemma NodeIff(resolution: seq<Member>, e: Entry)
    requires UniqueKeys(resolution) && AllIdentified(resolution)
    ensures NodeOf(EntriesOf(resolution), e).Success? <==> Linked(resolution, e.item)
  {
    hide EntriesOf, AllIdentified, Refers, Renamed, Lookup, Holds, Lacks, UniqueKeys;
    Keyed(e.item, "dependencies");
    if DependencyList(e.item).Some? {
      RenamedIff(resolution, DependencyList(e.item).value);
    }
    RenamedIff(resolution, []);
  }

  lemma {:induction false} NodesOfIff(entries: seq<Entry>, ids: seq<string>)
    requires forall id :: id in ids ==> HasStable(entries, id)
    ensures NodesOf(entries, ids).Success? <==>
            forall id :: id in ids ==> NodeOf(entries, ByStable(entries, id)).Success?
    decreases |ids|
  {
    hide HasStable, NodeOf, ByStable;
    if ids != [] {
      assert HasStable(entries, ids[0]);
      NodesOfIff(entries, ids[1..]);
      assert forall id :: id in ids <==> id == ids[0] || id in ids[1..];
      if NodeOf(entries, ByStable(entries, ids[0])).Failure? {
        assert ids[0] in ids;
      }
    }
  }

  lemma AllNodesIff(resolution: seq<Member>)
    requires UniqueKeys(resolution) && Collectable(resolution)
    ensures forall id :: id in Sort(Ids(EntriesOf(resolution))) ==> HasStable(EntriesOf(resolution), id)
    ensures NodesOf(EntriesOf(resolution), Sort(Ids(EntriesOf(resolution)))).Success?
       <==> forall i :: 0 <= i < |resolution| ==> Linked(resolution, resolution[i].value.members)
  {
    hide Ids, Sort, NoRepeats, Linked, NodeOf, NodesOf, HasStable, ByStable, NodeIdentity, UniqueKeys;
    var entries := EntriesOf(resolution);
    var ids := Sort(Ids(entries));
    SortedIdsKnown(entries);
    NodesOfIff(entries, ids);
    forall i | 0 <= i < |resolution|
      ensures entries[i].identity.id in ids && ByStable(entries, entries[i].identity.id) == entries[i]
      ensures NodeOf(entries, entries[i]).Success? <==> Linked(resolution, resolution[i].value.members)
    {
      FoundById(entries, entries[i]);
      NodeIff(resolution, entries[i]);
    }
    forall id | id in ids ensures exists i :: 0 <= i < |entries| && entries[i] == ByStable(entries, id) {
      assert ByStable(entries, id) in entries;
    }
  }

  /**
   A tree is parsed exactly when every item has an identity and no two share one, every reference and root names
   a node, and the packages have names and versions that are not empty and canonical names that are distinct.
   */
  lemma ParsesIff(resolution: seq<Member>, roots: seq<Value>)
    requires UniqueKeys(resolution)
    ensures ParseTree(resolution, roots).Success? <==>
              && Collectable(resolution)
              && (forall i :: 0 <= i < |resolution| ==> Linked(resolution, resolution[i].value.members))
              && (forall v :: v in roots ==> Refers(resolution, v))
              && Nonempty(Records(EntriesOf(resolution)))
              && NoRepeats(NamesOf(Records(EntriesOf(resolution))))
  {
    hide Collect, NodesOf, Renamed, NormalizeRecords, Sort, Ids, HasStable, Records, EntriesOf, AllIdentified,
      Linked, Refers, Nonempty, NoRepeats, NamesOf, UniqueKeys;
    CollectIff(resolution);
    if Collectable(resolution) {
      var entries := EntriesOf(resolution);
      AllNodesIff(resolution);
      RenamedIff(resolution, roots);
      NormalizeIff(Records(entries));
    }
  }
}
