/** Renaming the selected dependency graph to stable, path-free node ids. */
module DependencyTree {
  import opened Wrappers
  import opened Text
  import opened Json
  import opened Sorting
  import opened PackageNames

  datatype Kind = Workspace | Project | Package | Group | Extra

  datatype Node = Node(id: string, kind: Kind, dependencies: seq<string>)

  datatype PackageRecord = PackageRecord(name: string, version: string)

  datatype Tree = Tree(packages: seq<PackageRecord>, roots: seq<string>, nodes: seq<Node>)

  datatype TreeError =
    | MalformedNode | MissingIdentity | MissingSource | UnexpectedEditable | UnsupportedKind | DuplicateNode(id: string)
    | InvalidDependencies(id: string) | MalformedReference | UnknownReference
    | EmptyRecord | DuplicateRecords

  datatype Identity = Identity(id: string, kind: Kind)

  /** `_tree_node_identity` */
  function NodeIdentity(item: seq<Member>): Result<Identity, TreeError> {
    var kind := Lookup(item, "kind");
    if kind == Some(Value.Text("workspace")) then Success(Identity("workspace", Workspace))
    else match (Lookup(item, "name"), Lookup(item, "version"))
      case (Some(Text(name)), Some(Text(version))) =>
        var normalized := Canonicalize(name);
        (match kind
        case Some(Text(k)) =>
          if k != "package" then Failure(UnsupportedKind)
          else (match Lookup(item, "source")
            case Some(Object(source)) =>
              if Lookup(source, "editable").Some? then
                if normalized != PROJECT_NAME then Failure(UnexpectedEditable)
                else Success(Identity("project:" + normalized + "==" + version, Project))
              else Success(Identity("package:" + normalized + "==" + version, Package))
            case _ => Failure(MissingSource))
        case Some(Object(k)) =>
          (match (Lookup(k, "group"), Lookup(k, "extra"))
          case (Some(Text(group)), _) => Success(Identity("group:" + group, Group))
          case (_, Some(Text(extra))) => Success(Identity("extra:" + normalized + "[" + extra + "]==" + version, Extra))
          case _ => Failure(UnsupportedKind))
        case _ => Failure(UnsupportedKind))
      case _ => Failure(MissingIdentity)
  }

  /** A resolution entry with the stable id it was given. */
  datatype Entry = Entry(original: string, identity: Identity, item: seq<Member>)

  predicate HasStable(entries: seq<Entry>, id: string) {
    exists i :: 0 <= i < |entries| && entries[i].identity.id == id
  }

  function CollectOne(done: seq<Entry>, m: Member): Result<seq<Entry>, TreeError> {
    match m.value
    case Object(item) =>
      (match NodeIdentity(item)
      case Failure(e) => Failure(e)
      case Success(identity) =>
        if HasStable(done, identity.id) then Failure(DuplicateNode(identity.id))
        else Success(done + [Entry(m.key, identity, item)]))
    case _ => Failure(MalformedNode)
  }

  function Collect(done: seq<Entry>, members: seq<Member>): Result<seq<Entry>, TreeError>
    decreases |members|
  {
    if members == [] then Success(done)
    else match CollectOne(done, members[0])
      case Failure(e) => Failure(e)
      case Success(next) => Collect(next, members[1..])
  }

  /** `stable_ids[original]` */
  function StableId(entries: seq<Entry>, original: string): Option<string> {
    if entries == [] then None
    else if entries[0].original == original then Some(entries[0].identity.id)
    else StableId(entries[1..], original)
  }

  /** `node_values[stable_id]` */
  function ByStable(entries: seq<Entry>, id: string): (e: Entry)
    requires HasStable(entries, id)
    ensures e in entries && e.identity.id == id
  {
    if entries[0].identity.id == id then entries[0] else ByStable(entries[1..], id)
  }

  /** The stable ids behind a list of `{"id": ...}` references, in order. */
  function Renamed(entries: seq<Entry>, references: seq<Value>): Result<seq<string>, TreeError> {
    if references == [] then Success([])
    else match references[0]
      case Object(r) =>
        (match Lookup(r, "id")
        case Some(Text(original)) =>
          (match StableId(entries, original)
          case None => Failure(UnknownReference)
          case Some(id) =>
            (match Renamed(entries, references[1..])
            case Failure(e) => Failure(e)
            case Success(rest) => Success([id] + rest)))
        case _ => Failure(MalformedReference))
      case _ => Failure(MalformedReference)
  }

  function DependencyList(item: seq<Member>): Option<seq<Value>> {
    match Lookup(item, "dependencies")
    case None => Some([])
    case Some(Array(items)) => Some(items)
    case _ => None
  }

  function NodeOf(entries: seq<Entry>, e: Entry): Result<Node, TreeError> {
    match DependencyList(e.item)
    case None => Failure(InvalidDependencies(e.identity.id))
    case Some(references) =>
      (match Renamed(entries, references)
      case Failure(x) => Failure(x)
      case Success(ids) => Success(Node(e.identity.id, e.identity.kind, Sort(ids))))
  }

  function NodesOf(entries: seq<Entry>, ids: seq<string>): Result<seq<Node>, TreeError>
    requires forall id :: id in ids ==> HasStable(entries, id)
  {
    if ids == [] then Success([])
    else match NodeOf(entries, ByStable(entries, ids[0]))
      case Failure(e) => Failure(e)
      case Success(node) =>
        (match NodesOf(entries, ids[1..])
        case Failure(e) => Failure(e)
        case Success(rest) => Success([node] + rest))
  }

  function Ids(entries: seq<Entry>): (r: seq<string>)
    ensures |r| == |entries| && forall i :: 0 <= i < |r| ==> r[i] == entries[i].identity.id
  {
    if entries == [] then [] else [entries[0].identity.id] + Ids(entries[1..])
  }

  function TextAt(item: seq<Member>, key: string): string {
    match Lookup(item, key) case Some(Text(s)) => s case _ => ""
  }

  /** `package_records`: the names and versions as written. */
  function Records(entries: seq<Entry>): seq<PackageRecord> {
    if entries == [] then []
    else if entries[0].identity.kind == Package then
      [PackageRecord(TextAt(entries[0].item, "name"), TextAt(entries[0].item, "version"))] + Records(entries[1..])
    else Records(entries[1..])
  }

  function NormalRecord(r: PackageRecord): PackageRecord {
    PackageRecord(Canonicalize(Strip(r.name)), Strip(r.version))
  }

  /** The normalised versions by name; a repeated name keeps its first version and is reported afterwards. */
  function Versions(records: seq<PackageRecord>, versions: map<string, string>,
                    repeated: bool): Result<map<string, string>, TreeError>
    decreases |records|
  {
    if records == [] then if repeated then Failure(DuplicateRecords) else Success(versions)
    else
      var r := NormalRecord(records[0]);
      if r.name == "" || r.version == "" then Failure(EmptyRecord)
      else if r.name in versions then Versions(records[1..], versions, true)
      else Versions(records[1..], versions[r.name := r.version], repeated)
  }

  function NamesOf(records: seq<PackageRecord>): (r: seq<string>)
    ensures |r| == |records| && forall i :: 0 <= i < |r| ==> r[i] == NormalRecord(records[i]).name
  {
    if records == [] then [] else [NormalRecord(records[0]).name] + NamesOf(records[1..])
  }

  function Listed(names: seq<string>, versions: map<string, string>): seq<PackageRecord>
    requires forall n :: n in names ==> n in versions
  {
    if names == [] then [] else [PackageRecord(names[0], versions[names[0]])] + Listed(names[1..], versions)
  }

  lemma {:induction false} VersionsKeys(records: seq<PackageRecord>, versions: map<string, string>, repeated: bool)
    requires Versions(records, versions, repeated).Success?
    ensures forall n :: n in NamesOf(records) ==> n in Versions(records, versions, repeated).value
    ensures forall n :: n in versions ==>
              n in Versions(records, versions, repeated).value
              && Versions(records, versions, repeated).value[n] == versions[n]
    decreases |records|
  {
    hide NormalRecord;
    if records != [] {
      var r := NormalRecord(records[0]);
      if r.name in versions {
        VersionsKeys(records[1..], versions, true);
      } else {
        VersionsKeys(records[1..], versions[r.name := r.version], repeated);
      }
    }
  }

  /** `normalize_package_records` */
  function NormalizeRecords(records: seq<PackageRecord>): Result<seq<PackageRecord>, TreeError> {
    match Versions(records, map[], false)
    case Failure(e) => Failure(e)
    case Success(versions) =>
      VersionsKeys(records, map[], false);
      assert forall n :: n in Sort(NamesOf(records)) ==> n in versions by {
        forall n | n in Sort(NamesOf(records)) ensures n in versions {
          SortMembers(NamesOf(records), n);
        }
      }
      Success(Listed(Sort(NamesOf(records)), versions))
  }

  lemma SortedIdsKnown(entries: seq<Entry>)
    ensures forall id :: id in Sort(Ids(entries)) ==> HasStable(entries, id)
  {
    forall id | id in Sort(Ids(entries)) ensures HasStable(entries, id) {
      SortMembers(Ids(entries), id);
      var i :| 0 <= i < |entries| && Ids(entries)[i] == id;
    }
  }

  /** `parse_dependency_tree` on decoded input */
  function ParseTree(resolution: seq<Member>, roots: seq<Value>): Result<Tree, TreeError> {
    match Collect([], resolution)
    case Failure(e) => Failure(e)
    case Success(entries) =>
      SortedIdsKnown(entries);
      (match NodesOf(entries, Sort(Ids(entries)))
      case Failure(e) => Failure(e)
      case Success(nodes) =>
        (match Renamed(entries, roots)
        case Failure(e) => Failure(e)
        case Success(stableRoots) =>
          (match NormalizeRecords(Records(entries))
          case Failure(e) => Failure(e)
          case Success(packages) => Success(Tree(packages, Sort(stableRoots), nodes)))))
  }

  // ---------------------------------------------------------------- the loops

  method CollectEntries(resolution: seq<Member>) returns (r: Result<seq<Entry>, TreeError>)
    ensures r == Collect([], resolution)
  {
    var entries: seq<Entry> := [];
    assert resolution[0..] == resolution;
    for i := 0 to |resolution|
      invariant Collect(entries, resolution[i..]) == Collect([], resolution)
    {
      assert resolution[i..][0] == resolution[i] && resolution[i..][1..] == resolution[i + 1..];
      match CollectOne(entries, resolution[i])
      case Failure(e) => return Failure(e);
      case Success(next) => entries := next;
    }
    return Success(entries);
  }

  function Prefixed(done: seq<Node>, rest: Result<seq<Node>, TreeError>): Result<seq<Node>, TreeError> {
    match rest case Failure(e) => Failure(e) case Success(nodes) => Success(done + nodes)
  }

  lemma PrefixedStep(entries: seq<Entry>, done: seq<Node>, ids: seq<string>)
    requires ids != [] && forall id :: id in ids ==> HasStable(entries, id)
    ensures match NodeOf(entries, ByStable(entries, ids[0]))
            case Failure(e) => Prefixed(done, NodesOf(entries, ids)) == Failure(e)
            case Success(node) => Prefixed(done, NodesOf(entries, ids))
                                      == Prefixed(done + [node], NodesOf(entries, ids[1..]))
  {
    hide HasStable, NodeOf;
    match NodeOf(entries, ByStable(entries, ids[0]))
    case Failure(_) =>
    case Success(node) =>
      if NodesOf(entries, ids[1..]).Success? {
        var rest := NodesOf(entries, ids[1..]).value;
        assert done + ([node] + rest) == (done + [node]) + rest;
      }
  }

  method BuildNodes(entries: seq<Entry>) returns (r: Result<seq<Node>, TreeError>)
    ensures forall id :: id in Sort(Ids(entries)) ==> HasStable(entries, id)
    ensures r == NodesOf(entries, Sort(Ids(entries)))
  {
    hide HasStable, NodeOf;
    SortedIdsKnown(entries);
    var ids := Sort(Ids(entries));
    var nodes: seq<Node> := [];
    assert ids[0..] == ids && Prefixed([], NodesOf(entries, ids))
             == NodesOf(entries, ids) by { EmptyPrefix(NodesOf(entries, ids)); }
    for i := 0 to |ids|
      invariant forall id :: id in ids[i..] ==> HasStable(entries, id)
      invariant Prefixed(nodes, NodesOf(entries, ids[i..])) == NodesOf(entries, ids)
    {
      assert ids[i..][0] == ids[i] && ids[i..][1..] == ids[i + 1..];
      PrefixedStep(entries, nodes, ids[i..]);
      match NodeOf(entries, ByStable(entries, ids[i]))
      case Failure(e) => return Failure(e);
      case Success(node) => nodes := nodes + [node];
    }
    assert nodes + [] == nodes;
    return Success(nodes);
  }

  lemma EmptyPrefix(rest: Result<seq<Node>, TreeError>)
    ensures Prefixed([], rest) == rest
  {
    if rest.Success? {
      assert [] + rest.value == rest.value;
    }
  }

  method ParseDependencyTree(resolution: seq<Member>, roots: seq<Value>) returns (r: Result<Tree, TreeError>)
    ensures r == ParseTree(resolution, roots)
  {
    var entries := CollectEntries(resolution);
    if entries.Failure? {
      return Failure(entries.error);
    }
    var nodes := BuildNodes(entries.value);
    if nodes.Failure? {
      return Failure(nodes.error);
    }
    var stableRoots := Renamed(entries.value, roots);
    if stableRoots.Failure? {
      return Failure(stableRoots.error);
    }
    var packages := NormalizeRecords(Records(entries.value));
    if packages.Failure? {
      return Failure(packages.error);
    }
    return Success(Tree(packages.value, Sort(stableRoots.value), nodes.value));
  }
}
