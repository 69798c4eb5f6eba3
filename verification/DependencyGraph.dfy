/**
 What the renamed dependency tree means: on success it is isomorphic to the input graph, and it does not
 depend on the order in which the input lists nodes, references and roots.
 */
module DependencyGraph {
  import opened Wrappers
  import opened Json
  import opened Sorting
  import opened DependencyTree

  // ---------------------------------------------------------------- which resolutions are collected

  predicate Identified(m: Member) {
    m.value.Object? && NodeIdentity(m.value.members).Success?
  }

  predicate AllIdentified(members: seq<Member>) {
    forall i :: 0 <= i < |members| ==> Identified(members[i])
  }

  function EntryOf(m: Member): Entry
    requires Identified(m)
  {
    Entry(m.key, NodeIdentity(m.value.members).value, m.value.members)
  }

  function EntriesOf(members: seq<Member>): (r: seq<Entry>)
    requires AllIdentified(members)
    ensures |r| == |members| && forall i :: 0 <= i < |r| ==> r[i] == EntryOf(members[i])
  {
    if members == [] then [] else [EntryOf(members[0])] + EntriesOf(members[1..])
  }

  /** Every node has an identity and no two nodes share a stable id. */
  predicate Collectable(members: seq<Member>) {
    && AllIdentified(members)
    && NoRepeats(Ids(EntriesOf(members)))
  }

  lemma {:induction false} CollectFrom(done: seq<Entry>, members: seq<Member>)
    requires NoRepeats(Ids(done))
    ensures Collect(done, members).Success? <==>
              AllIdentified(members) && NoRepeats(Ids(done + EntriesOf(members)))
    ensures Collect(done, members).Success? ==> Collect(done, members).value == done + EntriesOf(members)
    decreases |members|
  {
    hide NodeIdentity, AllIdentified, NoRepeats, EntriesOf, HasStable;
    NothingIdentified();
    if members == [] {
      assert done + EntriesOf(members) == done;
    } else {
      IdentifiedTail(members);
      if Identified(members[0]) {
        CollectFirst(done, members);
        var e := EntryOf(members[0]);
        IdsAppend(done, e);
        if !HasStable(done, e.identity.id) {
          CollectFrom(done + [e], members[1..]);
        } else if AllIdentified(members) {
          RepeatedStable(done, e, EntriesOf(members[1..]));
        }
      }
    }
  }

  lemma NothingIdentified()
    ensures AllIdentified([]) && EntriesOf([]) == []
  {
  }

  lemma IdentifiedTail(members: seq<Member>)
    requires members != []
    ensures AllIdentified(members) <==> Identified(members[0]) && AllIdentified(members[1..])
  {
    hide Identified;
    assert forall i :: 1 <= i < |members| ==> members[i] == members[1..][i - 1];
  }

  lemma CollectFirst(done: seq<Entry>, members: seq<Member>)
    requires members != [] && Identified(members[0])
    ensures AllIdentified(members)
            ==> done + EntriesOf(members) == done + [EntryOf(members[0])] + EntriesOf(members[1..])
  {
    hide NodeIdentity, Identified;
    if AllIdentified(members) {
      assert done + ([EntryOf(members[0])] + EntriesOf(members[1..]))
               == done + [EntryOf(members[0])] + EntriesOf(members[1..]);
    }
  }

  lemma IdsAppend(done: seq<Entry>, e: Entry)
    requires NoRepeats(Ids(done))
    ensures NoRepeats(Ids(done + [e])) <==> !HasStable(done, e.identity.id)
  {
    var ids := Ids(done + [e]);
    assert forall i :: 0 <= i < |done| ==> ids[i] == Ids(done)[i];
    assert ids[|done|] == e.identity.id;
  }

  lemma RepeatedStable(done: seq<Entry>, e: Entry, rest: seq<Entry>)
    requires HasStable(done, e.identity.id)
    ensures !NoRepeats(Ids(done + [e] + rest))
  {
    var i :| 0 <= i < |done| && done[i].identity.id == e.identity.id;
    var ids := Ids(done + [e] + rest);
    assert ids[i] == (done + [e] + rest)[i].identity.id == ids[|done|];
  }

  /** Collecting succeeds exactly on such resolutions, and keeps one entry per node. */
  lemma CollectIff(members: seq<Member>)
    ensures Collect([], members).Success? <==> Collectable(members)
    ensures Collectable(members) ==> Collect([], members) == Success(EntriesOf(members))
  {
    hide NodeIdentity, Collect;
    CollectFrom([], members);
    if AllIdentified(members) {
      assert [] + EntriesOf(members) == EntriesOf(members);
    }
  }

  // ---------------------------------------------------------------- the renaming

  /** The stable id of each original id. */
  function Renaming(entries: seq<Entry>): map<string, string> {
    if entries == [] then map[] else Renaming(entries[1..])[entries[0].original := entries[0].identity.id]
  }

  predicate OriginalsDistinct(entries: seq<Entry>) {
    forall i, j :: 0 <= i < j < |entries| ==> entries[i].original != entries[j].original
  }

  lemma {:induction false} RenamingMeaning(entries: seq<Entry>)
    requires OriginalsDistinct(entries)
    ensures forall k :: StableId(entries, k) == if k in Renaming(entries) then Some(Renaming(entries)[k]) else None
    ensures forall e :: e in entries
                        ==> e.original in Renaming(entries) && Renaming(entries)[e.original] == e.identity.id
    ensures forall k :: k in Renaming(entries) ==> exists e :: e in entries && e.original == k
  {
    if entries != [] {
      var rest := entries[1..];
      RenamingMeaning(rest);
      assert forall i :: 1 <= i < |entries| ==> entries[i] == rest[i - 1];
      assert entries[0] in entries;
      forall k | k in Renaming(entries) ensures exists e :: e in entries && e.original == k {
        RenamedFrom(entries, k);
      }
    }
  }

  lemma {:induction false} RenamedFrom(entries: seq<Entry>, k: string)
    requires k in Renaming(entries)
    ensures exists e :: e in entries && e.original == k
  {
    if entries[0].original == k {
      assert entries[0] in entries;
    } else {
      RenamedFrom(entries[1..], k);
      var e :| e in entries[1..] && e.original == k;
      assert e in entries;
    }
  }

  predicate IsReference(v: Value) {
    v.Object? && Lookup(v.members, "id").Some? && Lookup(v.members, "id").value.Text?
  }

  function Target(v: Value): string
    requires IsReference(v)
  {
    Lookup(v.members, "id").value.s
  }

  /** A well-formed reference to a known node. */
  predicate Known(f: map<string, string>, v: Value) {
    IsReference(v) && Target(v) in f
  }

  predicate AllKnown(f: map<string, string>, references: seq<Value>) {
    forall i :: 0 <= i < |references| ==> Known(f, references[i])
  }

  /** The renamed targets, in order. */
  function Mapped(f: map<string, string>, references: seq<Value>): (r: seq<string>)
    requires AllKnown(f, references)
    ensures |r| == |references| && forall i :: 0 <= i < |r| ==> r[i] == f[Target(references[i])]
  {
    if references == [] then [] else [f[Target(references[0])]] + Mapped(f, references[1..])
  }

  lemma KnownTail(f: map<string, string>, references: seq<Value>)
    requires references != []
    ensures AllKnown(f, references) <==> Known(f, references[0]) && AllKnown(f, references[1..])
  {
    hide Known;
    assert forall i :: 1 <= i < |references| ==> references[i] == references[1..][i - 1];
  }

  lemma {:induction false} RenamedMeaning(entries: seq<Entry>, f: map<string, string>, references: seq<Value>)
    requires forall k :: StableId(entries, k) == if k in f then Some(f[k]) else None
    ensures Renamed(entries, references).Success? <==> AllKnown(f, references)
    ensures Renamed(entries, references).Success? ==> Renamed(entries, references).value == Mapped(f, references)
  {
    if references != [] {
      KnownTail(f, references);
      RenamedMeaning(entries, f, references[1..]);
    }
  }

  /** The node built for an entry is the entry's node with its dependencies renamed, each as often as it occurs. */
  predicate NodeMatches(f: map<string, string>, e: Entry, node: Node) {
    && node.id == e.identity.id && node.kind == e.identity.kind
    && DependencyList(e.item).Some?
    && AllKnown(f, DependencyList(e.item).value)
    && multiset(node.dependencies) == multiset(Mapped(f, DependencyList(e.item).value))
    && Sorted(node.dependencies)
  }

  lemma NodeOfMatches(entries: seq<Entry>, f: map<string, string>, e: Entry)
    requires forall k :: StableId(entries, k) == if k in f then Some(f[k]) else None
    requires NodeOf(entries, e).Success?
    ensures NodeMatches(f, e, NodeOf(entries, e).value)
  {
    hide Known, Renamed, StableId;
    var references := DependencyList(e.item).value;
    RenamedMeaning(entries, f, references);
    SortSorted(Renamed(entries, references).value);
  }

  lemma {:induction false} NodesOfMatch(entries: seq<Entry>, f: map<string, string>, ids: seq<string>)
    requires forall k :: StableId(entries, k) == if k in f then Some(f[k]) else None
    requires forall id :: id in ids ==> HasStable(entries, id)
    requires NodesOf(entries, ids).Success?
    ensures var nodes := NodesOf(entries, ids).value;
            |nodes| == |ids| && forall i :: 0 <= i < |ids|
                                            ==> nodes[i].id == ids[i]
                                                && NodeMatches(f, ByStable(entries, ids[i]), nodes[i])
    decreases |ids|
  {
    hide StableId, NodeMatches, NodeOf, HasStable;
    if ids != [] {
      NodesOfMatch(entries, f, ids[1..]);
      NodeOfMatches(entries, f, ByStable(entries, ids[0]));
      MatchedId(f, ByStable(entries, ids[0]), NodeOf(entries, ByStable(entries, ids[0])).value);
    }
  }

  lemma MatchedId(f: map<string, string>, e: Entry, node: Node)
    requires NodeMatches(f, e, node)
    ensures node.id == e.identity.id
  {
  }

  lemma {:induction false} ByStableAt(entries: seq<Entry>, i: nat)
    requires NoRepeats(Ids(entries)) && i < |entries|
    ensures HasStable(entries, entries[i].identity.id) && ByStable(entries, entries[i].identity.id) == entries[i]
  {
    if i > 0 {
      assert Ids(entries)[0] != Ids(entries)[i];
      assert forall j :: 1 <= j < |entries| ==> Ids(entries)[j] == Ids(entries[1..])[j - 1];
      ByStableAt(entries[1..], i - 1);
    }
  }

  // ---------------------------------------------------------------- isomorphism

  lemma RenamingInjective(entries: seq<Entry>, a: string, b: string)
    requires OriginalsDistinct(entries) && NoRepeats(Ids(entries))
    requires a in Renaming(entries) && b in Renaming(entries) && Renaming(entries)[a] == Renaming(entries)[b]
    ensures a == b
  {
    hide Renaming, StableId, NoRepeats, OriginalsDistinct;
    RenamingMeaning(entries);
    var d :| d in entries && d.original == a;
    var e :| e in entries && e.original == b;
    SameIdSameEntry(entries, d, e);
  }

  lemma SameIdSameEntry(entries: seq<Entry>, d: Entry, e: Entry)
    requires NoRepeats(Ids(entries)) && d in entries && e in entries && d.identity.id == e.identity.id
    ensures d == e
  {
    var i :| 0 <= i < |entries| && entries[i] == d;
    var j :| 0 <= j < |entries| && entries[j] == e;
    assert Ids(entries)[i] == Ids(entries)[j];
  }

  /** The sorted ids: the same ones, without repetition, in order. */
  lemma SortedIds(entries: seq<Entry>)
    requires NoRepeats(Ids(entries))
    ensures |Sort(Ids(entries))| == |entries| && Sorted(Sort(Ids(entries)))
    ensures forall i, j :: 0 <= i < j < |Sort(Ids(entries))| ==> Sort(Ids(entries))[i] != Sort(Ids(entries))[j]
  {
    hide Sorted;
    var ids := Ids(entries);
    SortSorted(ids);
    assert |multiset(Sort(ids))| == |multiset(ids)|;
    if i, j :| 0 <= i < j < |Sort(ids)| && Sort(ids)[i] == Sort(ids)[j] {
      TwiceCounted(Sort(ids), i, j);
      NoRepeatsCount(ids, Sort(ids)[i]);
      assert false;
    }
  }

  lemma TwiceCounted(s: seq<string>, i: nat, j: nat)
    requires i < j < |s| && s[i] == s[j]
    ensures multiset(s)[s[i]] >= 2
  {
    assert s == s[..j] + [s[j]] + s[j + 1..];
    assert s[i] in s[..j];
  }

  /** The nodes of the tree and the entries correspond one to one. */
  ghost predicate NodesCorrespond(f: map<string, string>, entries: seq<Entry>, nodes: seq<Node>) {
    && |nodes| == |entries|
    && (forall e :: e in entries ==> exists n :: n in nodes && NodeMatches(f, e, n))
    && (forall n :: n in nodes ==> exists e :: e in entries && NodeMatches(f, e, n))
    && SortedById(nodes)
  }

  /** Strictly increasing ids. */
  predicate SortedById(nodes: seq<Node>) {
    forall i, j :: 0 <= i < j < |nodes| ==> nodes[i].id != nodes[j].id && Leq(nodes[i].id, nodes[j].id)
  }

  lemma NodesOfCorrespond(entries: seq<Entry>, f: map<string, string>)
    requires forall k :: StableId(entries, k) == if k in f then Some(f[k]) else None
    requires NoRepeats(Ids(entries))
    requires (forall id :: id in Sort(Ids(entries)) ==> HasStable(entries, id))
             && NodesOf(entries, Sort(Ids(entries))).Success?
    ensures NodesCorrespond(f, entries, NodesOf(entries, Sort(Ids(entries))).value)
  {
    hide NodesOf, NodeMatches, StableId, Leq, NoRepeats, Ids, ByStable, Sort, Sorted;
    SortedIds(entries);
    var ids := Sort(Ids(entries));
    NodesOfMatch(entries, f, ids);
    var nodes := NodesOf(entries, ids).value;
    forall e | e in entries ensures exists n :: n in nodes && NodeMatches(f, e, n) {
      FoundById(entries, e);
      MatchingNode(f, entries, ids, nodes, e);
    }
    forall n | n in nodes ensures exists e :: e in entries && NodeMatches(f, e, n) {
      MatchingEntry(f, entries, ids, nodes, n);
    }
    NodeOrder(ids, nodes);
  }

  lemma NodeOrder(ids: seq<string>, nodes: seq<Node>)
    requires |nodes| == |ids| && forall i :: 0 <= i < |ids| ==> nodes[i].id == ids[i]
    requires Sorted(ids) && forall i, j :: 0 <= i < j < |ids| ==> ids[i] != ids[j]
    ensures SortedById(nodes)
  {
    hide Leq;
  }

  lemma MatchingNode(f: map<string, string>, entries: seq<Entry>, ids: seq<string>, nodes: seq<Node>, e: Entry)
    requires (forall id :: id in ids ==> HasStable(entries, id)) && |nodes| == |ids|
    requires forall i :: 0 <= i < |ids| ==> NodeMatches(f, ByStable(entries, ids[i]), nodes[i])
    requires e.identity.id in ids && HasStable(entries, e.identity.id) && ByStable(entries, e.identity.id) == e
    ensures exists n :: n in nodes && NodeMatches(f, e, n)
  {
    hide NodeMatches, ByStable, HasStable;
    var j :| 0 <= j < |ids| && ids[j] == e.identity.id;
    assert nodes[j] in nodes && NodeMatches(f, e, nodes[j]);
  }

  lemma MatchingEntry(f: map<string, string>, entries: seq<Entry>, ids: seq<string>, nodes: seq<Node>, n: Node)
    requires (forall id :: id in ids ==> HasStable(entries, id)) && |nodes| == |ids|
    requires forall i :: 0 <= i < |ids| ==> NodeMatches(f, ByStable(entries, ids[i]), nodes[i])
    requires n in nodes
    ensures exists e :: e in entries && NodeMatches(f, e, n)
  {
    hide NodeMatches, HasStable;
    var j :| 0 <= j < |nodes| && nodes[j] == n;
    assert ids[j] in ids;
    var e := ByStable(entries, ids[j]);
    assert e in entries && NodeMatches(f, e, n);
  }

  lemma FoundById(entries: seq<Entry>, e: Entry)
    requires NoRepeats(Ids(entries)) && e in entries
    ensures HasStable(entries, e.identity.id) && ByStable(entries, e.identity.id) == e
    ensures e.identity.id in Sort(Ids(entries))
  {
    var i :| 0 <= i < |entries| && entries[i] == e;
    ByStableAt(entries, i);
    assert Ids(entries)[i] in Ids(entries);
    SortMembers(Ids(entries), e.identity.id);
  }

  predicate Injective(f: map<string, string>) {
    forall a, b :: a in f && b in f && f[a] == f[b] ==> a == b
  }

  /** `f` renames the graph of entries and roots to the tree: nodes one to one, edges and roots with multiplicity. */
  ghost predicate IsIsomorphism(f: map<string, string>, entries: seq<Entry>, roots: seq<Value>, tree: Tree) {
    && (forall e :: e in entries ==> e.original in f && f[e.original] == e.identity.id)
    && (forall k :: k in f ==> exists e :: e in entries && e.original == k)
    && Injective(f) && NodesCorrespond(f, entries, tree.nodes)
    && AllKnown(f, roots) && multiset(tree.roots) == multiset(Mapped(f, roots)) && Sorted(tree.roots)
  }

  lemma EntriesDistinct(resolution: seq<Member>)
    requires UniqueKeys(resolution) && AllIdentified(resolution)
    ensures OriginalsDistinct(EntriesOf(resolution))
  {
    hide NodeIdentity;
  }

  /** What a successful parse put together. */
  lemma TreeParts(resolution: seq<Member>, roots: seq<Value>)
    requires ParseTree(resolution, roots).Success?
    ensures Collectable(resolution)
    ensures var entries, tree := EntriesOf(resolution), ParseTree(resolution, roots).value;
            && (forall id :: id in Sort(Ids(entries)) ==> HasStable(entries, id))
            && NodesOf(entries, Sort(Ids(entries))) == Success(tree.nodes)
            && Renamed(entries, roots).Success? && tree.roots == Sort(Renamed(entries, roots).value)
            && NormalizeRecords(Records(entries)) == Success(tree.packages)
  {
    hide NodeIdentity, Collect, NodesOf, Renamed, NormalizeRecords, Sort, Ids, HasStable, Collectable, Records;
    CollectIff(resolution);
    CollectableIdentified(resolution);
    SortedIdsKnown(EntriesOf(resolution));
  }

  lemma CollectableIdentified(members: seq<Member>)
    ensures Collectable(members) ==> AllIdentified(members)
  {
  }

  lemma RenamingIsInjective(entries: seq<Entry>)
    requires OriginalsDistinct(entries) && NoRepeats(Ids(entries))
    ensures Injective(Renaming(entries))
  {
    hide Renaming, OriginalsDistinct, NoRepeats;
    forall a, b | a in Renaming(entries) && b in Renaming(entries)
    && Renaming(entries)[a] == Renaming(entries)[b] ensures a == b {
      RenamingInjective(entries, a, b);
    }
  }

  lemma EntriesIsomorphic(entries: seq<Entry>, roots: seq<Value>, tree: Tree)
    requires OriginalsDistinct(entries) && NoRepeats(Ids(entries))
    requires forall id :: id in Sort(Ids(entries)) ==> HasStable(entries, id)
    requires NodesOf(entries, Sort(Ids(entries))) == Success(tree.nodes)
    requires Renamed(entries, roots).Success? && tree.roots == Sort(Renamed(entries, roots).value)
    ensures IsIsomorphism(Renaming(entries), entries, roots, tree)
  {
    hide Renamed, NodesOf, NodesCorrespond, Renaming, StableId, NoRepeats, OriginalsDistinct, HasStable, Injective,
      AllKnown, Mapped, Ids, Sort, Sorted;
    var f := Renaming(entries);
    RenamingMeaning(entries);
    RenamingIsInjective(entries);
    NodesOfCorrespond(entries, f);
    RenamedMeaning(entries, f, roots);
    SortSorted(Renamed(entries, roots).value);
  }

  /** On success the tree is the input graph under an injective renaming; nothing is lost, merged or left dangling. */
  lemma ParsedTreeIsomorphic(resolution: seq<Member>, roots: seq<Value>)
    requires UniqueKeys(resolution) && ParseTree(resolution, roots).Success?
    ensures Collectable(resolution)
    ensures IsIsomorphism(Renaming(EntriesOf(resolution)), EntriesOf(resolution), roots,
                          ParseTree(resolution, roots).value)
  {
    hide ParseTree, NodeIdentity, Identified, Renamed, NodesOf, IsIsomorphism, NoRepeats, OriginalsDistinct, Sort,
      Ids, HasStable;
    TreeParts(resolution, roots);
    EntriesDistinct(resolution);
    EntriesIsomorphic(EntriesOf(resolution), roots, ParseTree(resolution, roots).value);
  }
}
