/** Decoded JSON as the harness sees it: objects are ordered mappings with distinct keys. */
module Json {
  import opened Wrappers

  datatype Member = Member(key: string, value: Value)

  /** `text` is what `str` makes of a number. */
  datatype Value =
    | Null
    | Bool(b: bool)
    | Number(text: string, isZero: bool)
    | Text(s: string)
    | Array(items: seq<Value>)
    | Object(members: seq<Member>)

  /** `mapping.get(key)` on an object's members */
  function Lookup(members: seq<Member>, key: string): Option<Value> {
    if members == [] then None
    else if members[0].key == key then Some(members[0].value)
    else Lookup(members[1..], key)
  }

  predicate UniqueKeys(members: seq<Member>) {
    forall i, j :: 0 <= i < j < |members| ==> members[i].key != members[j].key
  }

  /** Python truthiness */
  predicate Falsy(v: Value) {
    match v
    case Null => true
    case Bool(b) => !b
    case Number(_, isZero) => isZero
    case Text(s) => s == ""
    case Array(items) => items == []
    case Object(members) => members == []
  }

  lemma LookupAt(members: seq<Member>, i: nat)
    requires UniqueKeys(members) && i < |members|
    ensures Lookup(members, members[i].key) == Some(members[i].value)
  {
    if i > 0 {
      LookupAt(members[1..], i - 1);
    }
  }

  /** The object has this member, and no earlier one under its key. */
  predicate Holds(members: seq<Member>, key: string, v: Value) {
    exists i :: 0 <= i < |members| && members[i] == Member(key, v) && forall j :: 0 <= j < i ==> members[j].key != key
  }

  predicate Lacks(members: seq<Member>, key: string) {
    forall i :: 0 <= i < |members| ==> members[i].key != key
  }

  lemma {:induction false} LookupIff(members: seq<Member>, key: string, v: Value)
    ensures Lookup(members, key) == Some(v) <==> Holds(members, key, v)
    ensures Lookup(members, key) == None <==> Lacks(members, key)
  {
    if members != [] && members[0].key != key {
      LookupIff(members[1..], key, v);
      assert forall i :: 1 <= i < |members| ==> members[i] == members[1..][i - 1];
      if i :| 0 <= i < |members[1..]| && members[1..][i] == Member(key, v)
              && forall j :: 0 <= j < i ==> members[1..][j].key != key {
        assert members[i + 1] == Member(key, v);
      }
    }
  }

  /** What the lookups of one key find, said of the members. */
  lemma Keyed(members: seq<Member>, key: string)
    ensures forall v :: Lookup(members, key) == Some(v) <==> Holds(members, key, v)
    ensures Lookup(members, key) == None <==> Lacks(members, key)
  {
    hide Lookup, Holds, Lacks;
    forall v ensures Lookup(members, key) == Some(v) <==> Holds(members, key, v) {
      LookupIff(members, key, v);
    }
    LookupIff(members, key, Null);
  }
}
