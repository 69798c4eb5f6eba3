/** The dependency-tree document does not depend on the order of nodes, references or roots in the input. */
module TreeOrder {
  import opened Wrappers
  import opened Json
  import opened Sequences
  import opened Sorting
  import opened PackageNames
  import opened DependencyTree
  import opened DependencyGraph

  // ---------------------------------------------------------------- reordering a concatenated image

  function FlatMap<T, U>(f: T -> seq<U>, s: seq<T>): seq<U> {
    if s == [] then [] else f(s[0]) + FlatMap(f, s[1..])
  }

  lemma {:induction false} FlatMapConcat<T, U>(f: T -> seq<U>, a: seq<T>, b: seq<T>)
    ensures FlatMap(f, a + b) == FlatMap(f, a) + FlatMap(f, b)
    decreases |a|
  {
    if a == [] {
      assert a + b == b;
    } else {
      assert (a + b)[0] == a[0] && (a + b)[1..] == a[1..] + b;
      FlatMapConcat(f, a[1..], b);
      assert f(a[0]) + (FlatMap(f, a[1..]) + FlatMap(f, b)) == FlatMap(f, a) + FlatMap(f, b);
    }
  }

  lemma FlatMapOne<T, U>(f: T -> seq<U>, a: seq<T>, x: T, b: seq<T>)
    ensures multiset(FlatMap(f, a + [x] + b)) == multiset(f(x)) + multiset(FlatMap(f, a + b))
  {
    FlatMapConcat(f, a + [x], b);
    FlatMapConcat(f, a, [x]);
    FlatMapConcat(f, a, b);
    assert [x][1..] == [] && FlatMap(f, [x]) == f(x) + [];
  }

  lemma TakeOut<T>(s: seq<T>, t: seq<T>) returns (k: nat)
    requires s != [] && multiset(s) == multiset(t)
    ensures k < |t| && t[k] == s[0] && multiset(s[1..]) == multiset(DropAt(t, k))
  {
    var x := s[0];
    assert s == [x] + s[1..];
    assert x in multiset(t);
    k :| 0 <= k < |t| && t[k] == x;
    DropAtContents(t, k);
    assert multiset(s) == multiset(s[1..]) + multiset{x};
    assert multiset(s[1..]) == multiset(s) - multiset{x};
  }

  lemma {:induction false} FlatMapPermuted<T, U>(f: T -> seq<U>, s: seq<T>, t: seq<T>)
    requires multiset(s) == multiset(t)
    ensures multiset(FlatMap(f, s)) == multiset(FlatMap(f, t))
    decreases |s|
  {
    if s == [] {
      assert |multiset(t)| == 0;
    } else {
      var k := TakeOut(s, t);
      FlatMapPermuted(f, s[1..], DropAt(t, k));
      FlatMapOne(f, t[..k], t[k], t[k + 1..]);
      assert t == t[..k] + [t[k]] + t[k + 1..];
    }
  }

  lemma SameMembers<T>(s: seq<T>, t: seq<T>, x: T)
    requires multiset(s) == multiset(t)
    ensures x in s <==> x in t
  {
    assert x in multiset(s) <==> x in multiset(t);
  }

  // ---------------------------------------------------------------- the parts of the parse as images

  function EntryOrNone(m: Member): seq<Entry> {
    if Identified(m) then [EntryOf(m)] else []
  }

  lemma {:induction false} EntriesImage(members: seq<Member>)
    requires AllIdentified(members)
    ensures EntriesOf(members) == FlatMap(EntryOrNone, members)
  {
    hide NodeIdentity, Identified;
    if members != [] {
      IdentifiedTail(members);
      EntriesImage(members[1..]);
    }
  }

  function IdOfEntry(e: Entry): seq<string> {
    [e.identity.id]
  }

  function NameOfRecord(r: PackageRecord): seq<string> {
    [NormalRecord(r).name]
  }

  function KeyOf(m: Member): seq<string> {
    [m.key]
  }

  lemma {:induction false} IdsImage(entries: seq<Entry>)
    ensures Ids(entries) == FlatMap(IdOfEntry, entries)
  {
    if entries != [] {
      IdsImage(entries[1..]);
    }
  }

  function RecordOrNone(e: Entry): seq<PackageRecord> {
    if e.identity.kind == Package then [PackageRecord(TextAt(e.item, "name"), TextAt(e.item, "version"))] else []
  }

  lemma {:induction false} RecordsImage(entries: seq<Entry>)
    ensures Records(entries) == FlatMap(RecordOrNone, entries)
  {
    if entries != [] {
      RecordsImage(entries[1..]);
    }
  }

  lemma {:induction false} NamesImage(records: seq<PackageRecord>)
    ensures NamesOf(records) == FlatMap(NameOfRecord, records)
  {
    if records != [] {
      NamesImage(records[1..]);
    }
  }

  // ---------------------------------------------------------------- package records

  predicate Nonempty(records: seq<PackageRecord>) {
    forall r :: r in records ==> NormalRecord(r).name != "" && NormalRecord(r).version != ""
  }

  lemma {:induction false} VersionsFrom(records: seq<PackageRecord>, versions: map<string, string>, repeated: bool)
    ensures Versions(records, versions, repeated).Success? <==>
              !repeated && Nonempty(records) && NoRepeats(NamesOf(records)) && forall n :: n in NamesOf(records)
                                                                                           ==> n !in versions
    ensures Versions(records, versions, repeated).Success? ==>
              var v := Versions(records, versions, repeated).value;
              && (forall n :: n in v <==> n in versions || n in NamesOf(records))
              && (forall n :: n in versions ==> v[n] == versions[n])
              && (forall r :: r in records
                              ==> NormalRecord(r).name in v && v[NormalRecord(r).name] == NormalRecord(r).version)
    decreases |records|
  {
    hide NormalRecord;
    if records != [] {
      var r, names := NormalRecord(records[0]), NamesOf(records[1..]);
      assert NamesOf(records) == [r.name] + names;
      NonemptyTail(records);
      RepeatsTail(r.name, names);
      if r.name != "" && r.version != "" {
        VersionsFrom(records[1..], if r.name in versions then versions else versions[r.name := r.version], repeated
                     || r.name in versions);
        assert r.name in NamesOf(records);
      }
    }
  }

  lemma NonemptyTail(records: seq<PackageRecord>)
    requires records != []
    ensures Nonempty(records) <==> NormalRecord(records[0]).name != "" && NormalRecord(records[0]).version != ""
                                   && Nonempty(records[1..])
  {
    hide NormalRecord;
    assert forall r :: r in records <==> r == records[0] || r in records[1..];
  }

  lemma RepeatsTail(x: string, rest: seq<string>)
    ensures NoRepeats([x] + rest) <==> x !in rest && NoRepeats(rest)
  {
    var s := [x] + rest;
    assert forall i :: 0 <= i < |rest| ==> s[i + 1] == rest[i];
    if x in rest {
      var i :| 0 <= i < |rest| && rest[i] == x;
      assert s[0] == s[i + 1];
    }
    if NoRepeats(s) {
      forall i, j | 0 <= i < j < |rest| ensures rest[i] != rest[j] {
        assert s[i + 1] != s[j + 1];
      }
    }
  }

  /** Normalising succeeds exactly on non-empty names and versions with distinct names. */
  lemma NormalizeIff(records: seq<PackageRecord>)
    ensures NormalizeRecords(records).Success? <==> Nonempty(records) && NoRepeats(NamesOf(records))
  {
    hide Versions, NormalRecord;
    VersionsFrom(records, map[], false);
  }

  lemma {:induction false} ListedSame(names: seq<string>, a: map<string, string>, b: map<string, string>)
    requires forall n :: n in names ==> n in a && n in b && a[n] == b[n]
    ensures Listed(names, a) == Listed(names, b)
  {
    if names != [] {
      ListedSame(names[1..], a, b);
    }
  }

  lemma NamesPermuted(records: seq<PackageRecord>, records': seq<PackageRecord>)
    requires multiset(records) == multiset(records')
    ensures multiset(NamesOf(records)) == multiset(NamesOf(records'))
  {
    hide NormalRecord;
    NamesImage(records);
    NamesImage(records');
    FlatMapPermuted(NameOfRecord, records, records');
  }

  lemma PermutedNoRepeats(s: seq<string>, t: seq<string>)
    requires multiset(s) == multiset(t) && NoRepeats(s)
    ensures NoRepeats(t)
  {
    if i, j :| 0 <= i < j < |t| && t[i] == t[j] {
      TwiceCounted(t, i, j);
      NoRepeatsCount(s, t[i]);
      assert false;
    }
  }

  lemma VersionsAgree(records: seq<PackageRecord>, records': seq<PackageRecord>, n: string)
    requires (forall r :: r in records ==> r in records') && n in NamesOf(records)
    requires Versions(records, map[], false).Success? && Versions(records', map[], false).Success?
    ensures var v, v' := Versions(records, map[], false).value, Versions(records', map[], false).value;
            n in v && n in v' && v[n] == v'[n]
  {
    hide Versions, NormalRecord, NoRepeats;
    VersionsFrom(records, map[], false);
    VersionsFrom(records', map[], false);
    var i :| 0 <= i < |records| && NamesOf(records)[i] == n;
    var r := records[i];
    assert r in records && r in records' && NormalRecord(r).name == n;
    var j :| 0 <= j < |records'| && records'[j] == r;
    assert NamesOf(records')[j] == n;
  }

  lemma NormalizedParts(records: seq<PackageRecord>)
    requires NormalizeRecords(records).Success?
    ensures Versions(records, map[], false).Success?
    ensures forall n :: n in Sort(NamesOf(records)) ==> n in Versions(records, map[], false).value
    ensures NormalizeRecords(records).value == Listed(Sort(NamesOf(records)), Versions(records, map[], false).value)
  {
    hide Versions, Sort;
    VersionsKeys(records, map[], false);
    forall n | n in Sort(NamesOf(records)) ensures n in Versions(records, map[], false).value {
      SortMembers(NamesOf(records), n);
    }
  }

  lemma NormalizePermuted(records: seq<PackageRecord>, records': seq<PackageRecord>)
    requires multiset(records) == multiset(records') && NormalizeRecords(records).Success?
    ensures NormalizeRecords(records') == NormalizeRecords(records)
  {
    hide Versions, NormalRecord, NoRepeats, NormalizeRecords, Sort, NamesOf;
    NormalizeIff(records);
    NamesPermuted(records, records');
    PermutedNoRepeats(NamesOf(records), NamesOf(records'));
    forall r ensures r in records <==> r in records' {
      SameMembers(records, records', r);
    }
    NormalizeIff(records');
    NormalizedParts(records);
    NormalizedParts(records');
    SortByContents(NamesOf(records), NamesOf(records'));
    forall n | n in Sort(NamesOf(records))
      ensures Versions(records, map[], false).value[n] == Versions(records', map[], false).value[n]
    {
      SortMembers(NamesOf(records), n);
      VersionsAgree(records, records', n);
    }
    ListedSame(Sort(NamesOf(records)), Versions(records, map[], false).value, Versions(records', map[], false).value);
  }

  // ---------------------------------------------------------------- reordering nodes and roots

  lemma StableIdPermuted(entries: seq<Entry>, entries': seq<Entry>, k: string)
    requires OriginalsDistinct(entries) && OriginalsDistinct(entries')
    requires forall e :: e in entries <==> e in entries'
    ensures StableId(entries, k) == StableId(entries', k)
  {
    hide Renaming, StableId, OriginalsDistinct;
    RenamingMeaning(entries);
    RenamingMeaning(entries');
    if k in Renaming(entries) {
      var e :| e in entries && e.original == k;
      assert e in entries';
    }
    if k in Renaming(entries') {
      var e :| e in entries' && e.original == k;
      assert e in entries;
    }
  }

  lemma {:induction false} RenamedSame(entries: seq<Entry>, entries': seq<Entry>, references: seq<Value>)
    requires forall k :: StableId(entries, k) == StableId(entries', k)
    ensures Renamed(entries, references) == Renamed(entries', references)
  {
    if references != [] {
      RenamedSame(entries, entries', references[1..]);
    }
  }

  lemma {:induction false} NodesOfSame(entries: seq<Entry>, entries': seq<Entry>, ids: seq<string>)
    requires forall id :: id in ids ==> HasStable(entries, id) && HasStable(entries', id)
    requires forall id :: id in ids
                          ==> NodeOf(entries, ByStable(entries, id)) == NodeOf(entries', ByStable(entries', id))
    ensures NodesOf(entries, ids) == NodesOf(entries', ids)
    decreases |ids|
  {
    hide HasStable, NodeOf, ByStable;
    if ids != [] {
      NodesOfSame(entries, entries', ids[1..]);
    }
  }

  lemma KeysDistinctMultiset(a: seq<Member>, b: seq<Member>)
    requires multiset(a) == multiset(b) && UniqueKeys(a)
    ensures UniqueKeys(b)
  {
    FlatMapPermuted(KeyOf, a, b);
    KeysImage(a);
    KeysImage(b);
    PermutedNoRepeats(FlatMap(KeyOf, a), FlatMap(KeyOf, b));
  }

  lemma {:induction false} KeysImage(a: seq<Member>)
    ensures |FlatMap(KeyOf, a)| == |a|
    ensures forall i :: 0 <= i < |a| ==> FlatMap(KeyOf, a)[i] == a[i].key
  {
    if a != [] {
      KeysImage(a[1..]);
    }
  }

  lemma AllIdentifiedPermuted(a: seq<Member>, b: seq<Member>)
    requires multiset(a) == multiset(b) && AllIdentified(a)
    ensures AllIdentified(b)
  {
    hide Identified;
    forall i | 0 <= i < |b| ensures Identified(b[i]) {
      SameMembers(a, b, b[i]);
    }
  }

  lemma ReferencesPermuted(entries: seq<Entry>, references: seq<Value>, references': seq<Value>)
    requires multiset(references) == multiset(references') && OriginalsDistinct(entries)
    requires Renamed(entries, references).Success?
    ensures Renamed(entries, references').Success?
    ensures Sort(Renamed(entries, references).value) == Sort(Renamed(entries, references').value)
  {
    hide Renamed, Renaming, StableId, OriginalsDistinct, Known, Sort;
    var f := Renaming(entries);
    RenamingMeaning(entries);
    RenamedMeaning(entries, f, references);
    RenamedMeaning(entries, f, references');
    forall i | 0 <= i < |references'| ensures Known(f, references'[i]) {
      SameMembers(references, references', references'[i]);
    }
    MappedPermuted(f, references, references');
    SortByContents(Mapped(f, references), Mapped(f, references'));
  }

  function MappedOrNone(f: map<string, string>): Value -> seq<string> {
    v => if Known(f, v) then [f[Target(v)]] else []
  }

  lemma {:induction false} MappedImage(f: map<string, string>, references: seq<Value>)
    requires AllKnown(f, references)
    ensures Mapped(f, references) == FlatMap(MappedOrNone(f), references)
    decreases |references|
  {
    if references != [] {
      KnownTail(f, references);
      MappedImage(f, references[1..]);
    }
  }

  lemma MappedPermuted(f: map<string, string>, references: seq<Value>, references': seq<Value>)
    requires AllKnown(f, references) && AllKnown(f, references') && multiset(references) == multiset(references')
    ensures multiset(Mapped(f, references)) == multiset(Mapped(f, references'))
  {
    MappedImage(f, references);
    MappedImage(f, references');
    FlatMapPermuted(MappedOrNone(f), references, references');
  }

  /** The entries of a reordered resolution: the same ones, so every lookup gives the same answer. */
  lemma EntriesPermuted(a: seq<Member>, b: seq<Member>)
    requires multiset(a) == multiset(b) && UniqueKeys(a) && Collectable(a)
    ensures Collectable(b) && multiset(EntriesOf(a)) == multiset(EntriesOf(b))
    ensures OriginalsDistinct(EntriesOf(a)) && OriginalsDistinct(EntriesOf(b))
    ensures Sort(Ids(EntriesOf(a))) == Sort(Ids(EntriesOf(b)))
  {
    hide Identified, NoRepeats, OriginalsDistinct, Sort, UniqueKeys;
    AllIdentifiedPermuted(a, b);
    KeysDistinctMultiset(a, b);
    EntriesDistinct(a);
    EntriesDistinct(b);
    EntriesImage(a);
    EntriesImage(b);
    FlatMapPermuted(EntryOrNone, a, b);
    IdsImage(EntriesOf(a));
    IdsImage(EntriesOf(b));
    FlatMapPermuted(IdOfEntry, EntriesOf(a), EntriesOf(b));
    PermutedNoRepeats(Ids(EntriesOf(a)), Ids(EntriesOf(b)));
    SortByContents(Ids(EntriesOf(a)), Ids(EntriesOf(b)));
  }

  lemma NodePermuted(entries: seq<Entry>, entries': seq<Entry>, id: string)
    requires OriginalsDistinct(entries) && OriginalsDistinct(entries') && NoRepeats(Ids(entries))
    requires forall e :: e in entries <==> e in entries'
    requires HasStable(entries, id) && HasStable(entries', id)
    ensures NodeOf(entries, ByStable(entries, id)) == NodeOf(entries', ByStable(entries', id))
  {
    hide StableId, Renamed, OriginalsDistinct, NoRepeats, HasStable;
    var e, e' := ByStable(entries, id), ByStable(entries', id);
    SameIdSameEntry(entries, e, e');
    forall k ensures StableId(entries, k) == StableId(entries', k) {
      StableIdPermuted(entries, entries', k);
    }
    if DependencyList(e.item).Some? {
      RenamedSame(entries, entries', DependencyList(e.item).value);
    }
  }

  /** Reordering the nodes of the resolution and the roots changes nothing. */
  lemma NodeOrderIrrelevant(a: seq<Member>, roots: seq<Value>, b: seq<Member>, roots': seq<Value>)
    requires UniqueKeys(a) && multiset(a) == multiset(b) && multiset(roots) == multiset(roots')
    requires ParseTree(a, roots).Success?
    ensures ParseTree(b, roots') == ParseTree(a, roots)
  {
    hide ParseTree, Identified, NoRepeats, OriginalsDistinct, Sort, Renamed, NodesOf, HasStable, Ids, EntriesOf,
      NodeOf, NormalizeRecords, AllIdentified;
    TreeParts(a, roots);
    CollectableParts(a);
    EntriesPermuted(a, b);
    CollectableParts(b);
    var x, y := EntriesOf(a), EntriesOf(b);
    forall e ensures e in x <==> e in y {
      SameMembers(x, y, e);
    }
    SortedIdsKnown(x);
    SortedIdsKnown(y);
    forall id | id in Sort(Ids(x)) ensures NodeOf(x, ByStable(x, id)) == NodeOf(y, ByStable(y, id)) {
      NodePermuted(x, y, id);
    }
    NodesOfSame(x, y, Sort(Ids(x)));
    ReferencesPermuted(x, roots, roots');
    forall k ensures StableId(x, k) == StableId(y, k) {
      StableIdPermuted(x, y, k);
    }
    RenamedSame(x, y, roots');
    RecordsImage(x);
    RecordsImage(y);
    FlatMapPermuted(RecordOrNone, x, y);
    NormalizePermuted(Records(x), Records(y));
    AssembleTree(b, roots', ParseTree(a, roots).value);
  }

  lemma CollectableParts(members: seq<Member>)
    requires Collectable(members)
    ensures AllIdentified(members) && NoRepeats(Ids(EntriesOf(members)))
  {
  }

  /** The converse of taking a successful parse apart. */
  lemma AssembleTree(resolution: seq<Member>, roots: seq<Value>, tree: Tree)
    requires Collectable(resolution)
    requires forall id :: id in Sort(Ids(EntriesOf(resolution))) ==> HasStable(EntriesOf(resolution), id)
    requires NodesOf(EntriesOf(resolution), Sort(Ids(EntriesOf(resolution)))) == Success(tree.nodes)
    requires Renamed(EntriesOf(resolution), roots).Success?
             && tree.roots == Sort(Renamed(EntriesOf(resolution), roots).value)
    requires NormalizeRecords(Records(EntriesOf(resolution))) == Success(tree.packages)
    ensures ParseTree(resolution, roots) == Success(tree)
  {
    hide Collect, NodesOf, Renamed, NormalizeRecords, Sort, Ids, HasStable, Collectable, Records, EntriesOf;
    CollectIff(resolution);
  }

  // ---------------------------------------------------------------- reordering references inside a node

  /** The same node with its dependency references in another order. */
  ghost predicate Similar(m: Member, m': Member) {
    && m.key == m'.key && m.value.Object? && m'.value.Object?
    && (forall key :: key != "dependencies" ==> Lookup(m.value.members, key) == Lookup(m'.value.members, key))
    && (DependencyList(m.value.members).Some? <==> DependencyList(m'.value.members).Some?)
    && (DependencyList(m.value.members).Some? ==>
         multiset(DependencyList(m.value.members).value) == multiset(DependencyList(m'.value.members).value))
  }

  ghost predicate AllSimilar(a: seq<Member>, b: seq<Member>) {
    |a| == |b| && forall i :: 0 <= i < |a| ==> Similar(a[i], b[i])
  }

  lemma SimilarIdentity(m: Member, m': Member)
    requires Similar(m, m') && Identified(m)
    ensures Identified(m') && EntryOf(m').original == EntryOf(m).original && EntryOf(m').identity == EntryOf(m).identity
    ensures RecordOrNone(EntryOf(m)) == RecordOrNone(EntryOf(m'))
  {
    hide DependencyList, Canonicalize;
    var x, y := m.value.members, m'.value.members;
    assert Lookup(x, "kind") == Lookup(y, "kind") && Lookup(x, "name") == Lookup(y, "name");
    assert Lookup(x, "version") == Lookup(y, "version") && Lookup(x, "source") == Lookup(y, "source");
    assert NodeIdentity(x) == NodeIdentity(y);
  }

  /** Entries that agree in everything but the order of their references. */
  ghost predicate EntriesSimilar(x: seq<Entry>, y: seq<Entry>) {
    && |x| == |y|
    && forall i :: 0 <= i < |x| ==>
         && x[i].original == y[i].original && x[i].identity == y[i].identity && RecordOrNone(x[i]) == RecordOrNone(y[i])
         && (DependencyList(x[i].item).Some? <==> DependencyList(y[i].item).Some?)
         && (DependencyList(x[i].item).Some?
             ==> multiset(DependencyList(x[i].item).value) == multiset(DependencyList(y[i].item).value))
  }

  lemma SimilarEntries(a: seq<Member>, b: seq<Member>)
    requires AllSimilar(a, b) && AllIdentified(a)
    ensures AllIdentified(b) && EntriesSimilar(EntriesOf(a), EntriesOf(b))
  {
    hide NodeIdentity, DependencyList, RecordOrNone;
    forall i | 0 <= i < |a|
      ensures Identified(b[i]) && EntryOf(b[i]).original == EntryOf(a[i]).original
              && EntryOf(b[i]).identity == EntryOf(a[i]).identity
      ensures Identified(b[i]) && RecordOrNone(EntryOf(a[i])) == RecordOrNone(EntryOf(b[i]))
    {
      SimilarIdentity(a[i], b[i]);
    }
  }

  lemma {:induction false} SimilarLookups(x: seq<Entry>, y: seq<Entry>)
    requires EntriesSimilar(x, y)
    ensures Ids(x) == Ids(y) && Records(x) == Records(y)
    ensures forall k :: StableId(x, k) == StableId(y, k)
    decreases |x|
  {
    hide DependencyList;
    if x != [] {
      assert EntriesSimilar(x[1..], y[1..]);
      SimilarLookups(x[1..], y[1..]);
      SimilarRecords(x, y);
    }
  }

  lemma SimilarRecords(x: seq<Entry>, y: seq<Entry>)
    requires x != [] && y != [] && RecordOrNone(x[0]) == RecordOrNone(y[0]) && Records(x[1..]) == Records(y[1..])
    requires x[0].identity == y[0].identity
    ensures Records(x) == Records(y)
  {
    hide TextAt;
  }

  lemma {:induction false} SimilarByStable(x: seq<Entry>, y: seq<Entry>, id: string) returns (i: nat)
    requires EntriesSimilar(x, y) && HasStable(x, id)
    ensures HasStable(y, id) && i < |x| && ByStable(x, id) == x[i] && ByStable(y, id) == y[i]
    decreases |x|
  {
    hide DependencyList, RecordOrNone;
    var k :| 0 <= k < |x| && x[k].identity.id == id;
    assert y[k].identity.id == id;
    if x[0].identity.id == id {
      i := 0;
    } else {
      assert x[k] == x[1..][k - 1] && EntriesSimilar(x[1..], y[1..]);
      var j := SimilarByStable(x[1..], y[1..], id);
      i := j + 1;
    }
  }

  lemma SimilarNode(x: seq<Entry>, y: seq<Entry>, id: string)
    requires EntriesSimilar(x, y) && OriginalsDistinct(x) && HasStable(x, id)
    requires NodeOf(x, ByStable(x, id)).Success?
    ensures HasStable(y, id) && NodeOf(y, ByStable(y, id)) == NodeOf(x, ByStable(x, id))
  {
    hide RecordOrNone, Renamed, StableId, HasStable, OriginalsDistinct, Sort, DependencyList;
    var i := SimilarByStable(x, y, id);
    SimilarLookups(x, y);
    var references, references' := DependencyList(x[i].item).value, DependencyList(y[i].item).value;
    ReferencesPermuted(x, references, references');
    RenamedSame(x, y, references');
  }

  lemma {:induction false} SimilarNodes(x: seq<Entry>, y: seq<Entry>, ids: seq<string>)
    requires EntriesSimilar(x, y) && OriginalsDistinct(x)
    requires (forall id :: id in ids ==> HasStable(x, id)) && NodesOf(x, ids).Success?
    ensures (forall id :: id in ids ==> HasStable(y, id)) && NodesOf(y, ids) == NodesOf(x, ids)
    decreases |ids|
  {
    hide EntriesSimilar, HasStable, NodeOf, OriginalsDistinct, ByStable;
    if ids != [] {
      SimilarNode(x, y, ids[0]);
      SimilarNodes(x, y, ids[1..]);
    }
  }

  lemma ReferenceOrderIrrelevant(a: seq<Member>, b: seq<Member>, roots: seq<Value>)
    requires UniqueKeys(a) && AllSimilar(a, b) && ParseTree(a, roots).Success?
    ensures ParseTree(b, roots) == ParseTree(a, roots)
  {
    hide ParseTree, Identified, NoRepeats, OriginalsDistinct, Sort, Renamed, NodesOf, HasStable, Ids, EntriesOf,
      NormalizeRecords, Records,
         AllIdentified, EntriesSimilar, AllSimilar, UniqueKeys;
    TreeParts(a, roots);
    CollectableParts(a);
    EntriesDistinct(a);
    SimilarEntries(a, b);
    var x, y := EntriesOf(a), EntriesOf(b);
    SimilarLookups(x, y);
    RenamedSame(x, y, roots);
    SimilarNodes(x, y, Sort(Ids(x)));
    AssembleTree(b, roots, ParseTree(a, roots).value);
  }

  /**
   The document is the same for any order of nodes, of the references inside each node, and of the roots:
   `between` is `a` with its nodes reordered, `b` is `between` with references reordered inside nodes.
   */
  lemma OrderIrrelevant(a: seq<Member>, roots: seq<Value>, between: seq<Member>, b: seq<Member>, roots': seq<Value>)
    requires UniqueKeys(a) && multiset(a) == multiset(between) && AllSimilar(between, b)
             && multiset(roots) == multiset(roots')
    requires ParseTree(a, roots).Success?
    ensures ParseTree(b, roots') == ParseTree(a, roots)
  {
    hide ParseTree, AllSimilar;
    NodeOrderIrrelevant(a, roots, between, roots');
    KeysDistinctMultiset(a, between);
    ReferenceOrderIrrelevant(between, b, roots');
  }
}
