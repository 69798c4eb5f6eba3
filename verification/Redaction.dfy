/** Redaction of logged JSON bodies. */
module Redaction {
  import opened Text
  import opened Json

  const REDACTED := "[REDACTED]"

  const SENSITIVE_PARTS := ["authorization", "cookie", "email", "username", "password", "client_secret",
                            "access_token", "refresh_token", "id_token", "token"]
  const IDENTITY_KEYS := ["createdby", "deactivatedby", "deletedby", "ownerid", "updatedby", "userid"]
  const PROFILE_KEYS := ["displayname", "email", "id", "idpsub", "name", "sub"]

  function Fold(key: string): (r: string)
    ensures |r| == |key|
  {
    if key == "" then "" else [LowerChar(key[0])] + Fold(key[1..])
  }

  /** Whether the value under `key` is withheld. */
  predicate Withheld(key: string, profile: bool) {
    || (exists i :: 0 <= i < |SENSITIVE_PARTS| && Contains(Fold(key), SENSITIVE_PARTS[i]))
    || Fold(key) in IDENTITY_KEYS
    || (profile && Fold(key) in PROFILE_KEYS)
  }

  /** `_redact_json`; `clean` is the redactor of plain text. */
  function Redact(v: Value, profile: bool, clean: string -> string): Value
    decreases v
  {
    match v
    case Object(members) => Object(RedactMembers(members, profile, clean))
    case Array(items) => Array(RedactItems(items, profile, clean))
    case Text(s) => Text(clean(s))
    case _ => v
  }

  function RedactMembers(members: seq<Member>, profile: bool, clean: string -> string): seq<Member>
    decreases members
  {
    if members == [] then []
    else
      var m := members[0];
      [Member(m.key, if Withheld(m.key, profile) then Text(REDACTED) else Redact(m.value, profile, clean))]
      + RedactMembers(members[1..], profile, clean)
  }

  function RedactItems(items: seq<Value>, profile: bool, clean: string -> string): seq<Value>
    decreases items
  {
    if items == [] then []
    else [Redact(items[0], profile, clean)] + RedactItems(items[1..], profile, clean)
  }

  /** Equal but for what stands under withheld keys, at any depth, and for texts that clean to the same. */
  predicate Indistinguishable(v: Value, w: Value, profile: bool, clean: string -> string)
    decreases v
  {
    match (v, w)
    case (Object(m), Object(n)) => MembersAlike(m, n, profile, clean)
    case (Array(x), Array(y)) => ItemsAlike(x, y, profile, clean)
    case (Text(s), Text(t)) => clean(s) == clean(t)
    case _ => v == w
  }

  predicate MembersAlike(m: seq<Member>, n: seq<Member>, profile: bool, clean: string -> string)
    decreases m
  {
    && |m| == |n|
    && (m == [] ||
        (&& m[0].key == n[0].key
         && (Withheld(m[0].key, profile) || Indistinguishable(m[0].value, n[0].value, profile, clean))
         && MembersAlike(m[1..], n[1..], profile, clean)))
  }

  predicate ItemsAlike(x: seq<Value>, y: seq<Value>, profile: bool, clean: string -> string)
    decreases x
  {
    && |x| == |y|
    && (x == [] || (Indistinguishable(x[0], y[0], profile, clean) && ItemsAlike(x[1..], y[1..], profile, clean)))
  }

  /** Two payloads are logged alike exactly when they differ in withheld values only: none of them reaches the log. */
  lemma {:induction false} NothingWithheldLeaks(v: Value, w: Value, profile: bool, clean: string -> string)
    ensures Redact(v, profile, clean) == Redact(w, profile, clean) <==> Indistinguishable(v, w, profile, clean)
    decreases v
  {
    hide Withheld;
    match (v, w)
    case (Object(m), Object(n)) => MembersLoggedAlike(m, n, profile, clean);
    case (Array(x), Array(y)) => ItemsLoggedAlike(x, y, profile, clean);
    case _ =>
  }

  lemma {:induction false} MembersLoggedAlike(m: seq<Member>, n: seq<Member>, profile: bool, clean: string -> string)
    ensures RedactMembers(m, profile, clean) == RedactMembers(n, profile, clean) <==> MembersAlike(m, n, profile, clean)
    decreases m
  {
    hide Withheld;
    if m != [] && n != [] {
      var a, b := RedactMembers(m, profile, clean), RedactMembers(n, profile, clean);
      NothingWithheldLeaks(m[0].value, n[0].value, profile, clean);
      MembersLoggedAlike(m[1..], n[1..], profile, clean);
      RestLength(m, profile, clean);
      RestLength(n, profile, clean);
      assert a == [a[0]] + a[1..] && b == [b[0]] + b[1..];
    }
  }

  lemma {:induction false} RestLength(m: seq<Member>, profile: bool, clean: string -> string)
    ensures |RedactMembers(m, profile, clean)| == |m|
    ensures m != [] ==> RedactMembers(m, profile, clean)[1..] == RedactMembers(m[1..], profile, clean)
  {
    hide Withheld, Redact;
    if m != [] {
      RestLength(m[1..], profile, clean);
    }
  }

  lemma {:induction false} ItemsLoggedAlike(x: seq<Value>, y: seq<Value>, profile: bool, clean: string -> string)
    ensures RedactItems(x, profile, clean) == RedactItems(y, profile, clean) <==> ItemsAlike(x, y, profile, clean)
    decreases x
  {
    if x != [] && y != [] {
      var a, b := RedactItems(x, profile, clean), RedactItems(y, profile, clean);
      NothingWithheldLeaks(x[0], y[0], profile, clean);
      ItemsLoggedAlike(x[1..], y[1..], profile, clean);
      assert a[1..] == RedactItems(x[1..], profile, clean) && b[1..] == RedactItems(y[1..], profile, clean);
      ItemsLength(x, profile, clean);
      ItemsLength(y, profile, clean);
      assert a == [a[0]] + a[1..] && b == [b[0]] + b[1..];
    }
  }

  lemma {:induction false} ItemsLength(x: seq<Value>, profile: bool, clean: string -> string)
    ensures |RedactItems(x, profile, clean)| == |x|
  {
    hide Redact;
    if x != [] {
      ItemsLength(x[1..], profile, clean);
    }
  }

  // ---------------------------------------------------------------- what is withheld, and what is not

  /** From `i` on the key spells the lower-case word, in letters of either case. */
  predicate Spells(key: string, word: string, i: nat) {
    i + |word| <= |key| && forall k :: 0 <= k < |word| ==> LowerChar(key[i + k]) == word[k]
  }

  predicate Mentions(key: string, word: string) {
    exists i :: 0 <= i <= |key| && Spells(key, word, i)
  }

  predicate Is(key: string, word: string) {
    |key| == |word| && Spells(key, word, 0)
  }

  lemma {:induction false} FoldAt(key: string, i: nat)
    requires i < |key|
    ensures Fold(key)[i] == LowerChar(key[i])
  {
    if i > 0 {
      FoldAt(key[1..], i - 1);
    }
  }

  lemma FoldFrom(key: string, i: nat)
    requires i <= |key|
    ensures |Fold(key)[i..]| == |key| - i
    ensures forall k :: 0 <= k < |key| - i ==> Fold(key)[i..][k] == LowerChar(key[i + k])
  {
    hide Fold, LowerChar;
    forall k | 0 <= k < |key| - i ensures Fold(key)[i..][k] == LowerChar(key[i + k]) {
      FoldAt(key, i + k);
    }
  }

  lemma PrefixIff(word: string, s: string)
    ensures word <= s <==> |word| <= |s| && forall k :: 0 <= k < |word| ==> s[k] == word[k]
  {
    if |word| <= |s| && forall k :: 0 <= k < |word| ==> s[k] == word[k] {
      assert s[..|word|] == word;
    }
  }

  lemma SpellsIff(key: string, word: string, i: nat)
    requires i <= |key|
    ensures word <= Fold(key)[i..] <==> Spells(key, word, i)
  {
    hide Fold, LowerChar;
    FoldFrom(key, i);
    PrefixIff(word, Fold(key)[i..]);
  }

  lemma MentionsIff(key: string, word: string)
    ensures Contains(Fold(key), word) <==> Mentions(key, word)
  {
    hide Spells, Fold;
    if i :| 0 <= i <= |Fold(key)| && word <= Fold(key)[i..] {
      SpellsIff(key, word, i);
    }
    if i :| 0 <= i <= |key| && Spells(key, word, i) {
      SpellsIff(key, word, i);
    }
  }

  lemma IsIff(key: string, word: string)
    ensures Fold(key) == word <==> Is(key, word)
  {
    hide Spells;
    SpellsIff(key, word, 0);
    assert Fold(key)[0..] == Fold(key);
  }

  lemma LongerWord(key: string, word: string, part: string, from: nat)
    requires from + |part| <= |word| && word[from..from + |part|] == part && Mentions(key, word)
    ensures Mentions(key, part)
  {
    var i :| 0 <= i <= |key| && Spells(key, word, i);
    forall k | 0 <= k < |part| ensures LowerChar(key[i + from + k]) == part[k] {
      assert part[k] == word[from..from + |part|][k];
    }
    assert Spells(key, part, i + from);
  }

  /** One of these words is enough; the three longer token names of the pattern add nothing to `token`. */
  predicate NamesSecret(key: string) {
    || Mentions(key, "authorization") || Mentions(key, "cookie") || Mentions(key, "email") || Mentions(key, "username")
    || Mentions(key, "password") || Mentions(key, "client_secret") || Mentions(key, "token")
  }

  predicate NamesIdentity(key: string) {
    || Is(key, "createdby") || Is(key, "deactivatedby") || Is(key, "deletedby") || Is(key, "ownerid")
    || Is(key, "updatedby") || Is(key, "userid")
  }

  predicate NamesProfile(key: string) {
    || Is(key, "displayname") || Is(key, "email") || Is(key, "id") || Is(key, "idpsub") || Is(key, "name")
    || Is(key, "sub")
  }

  /** Exactly which keys are withheld, in letters of either case. */
  lemma WithheldIff(key: string, profile: bool)
    ensures Withheld(key, profile) <==> NamesSecret(key) || NamesIdentity(key) || (profile && NamesProfile(key))
  {
    hide Contains, Fold, Mentions, Is;
    SecretIff(key);
    KeysIff(key);
  }

  lemma SecretIff(key: string)
    ensures (exists i :: 0 <= i < |SENSITIVE_PARTS| && Contains(Fold(key), SENSITIVE_PARTS[i])) <==> NamesSecret(key)
  {
    hide Contains, Fold, Mentions;
    forall i | 0 <= i < |SENSITIVE_PARTS|
      ensures Contains(Fold(key), SENSITIVE_PARTS[i]) <==> Mentions(key, SENSITIVE_PARTS[i])
    {
      MentionsIff(key, SENSITIVE_PARTS[i]);
    }
    TokenNames(key);
    assert SENSITIVE_PARTS[0] == "authorization" && SENSITIVE_PARTS[1] == "cookie" && SENSITIVE_PARTS[2] == "email";
    assert SENSITIVE_PARTS[3] == "username" && SENSITIVE_PARTS[4] == "password";
    assert SENSITIVE_PARTS[5] == "client_secret" && SENSITIVE_PARTS[9] == "token";
  }

  lemma TokenNames(key: string)
    ensures Mentions(key, "access_token") || Mentions(key, "refresh_token") || Mentions(key, "id_token")
            ==> Mentions(key, "token")
  {
    hide Mentions;
    if Mentions(key, "access_token") {
      LongerWord(key, "access_token", "token", 7);
    }
    if Mentions(key, "refresh_token") {
      LongerWord(key, "refresh_token", "token", 8);
    }
    if Mentions(key, "id_token") {
      LongerWord(key, "id_token", "token", 3);
    }
  }

  lemma KeysIff(key: string)
    ensures Fold(key) in IDENTITY_KEYS <==> NamesIdentity(key)
    ensures Fold(key) in PROFILE_KEYS <==> NamesProfile(key)
  {
    hide Fold, Is;
    forall word ensures Fold(key) == word <==> Is(key, word) {
      IsIff(key, word);
    }
  }

  /** A logged object has the same keys in the same order; a withheld value is replaced, any other is redacted. */
  lemma {:induction false} RedactedMember(members: seq<Member>, profile: bool, clean: string -> string, i: nat)
    requires i < |members|
    ensures |RedactMembers(members, profile, clean)| == |members|
    ensures RedactMembers(members, profile, clean)[i].key == members[i].key
    ensures RedactMembers(members, profile, clean)[i].value
         == if Withheld(members[i].key, profile) then Text("[REDACTED]") else Redact(members[i].value, profile, clean)
  {
    hide Withheld, Redact;
    RestLength(members, profile, clean);
    if i > 0 {
      RedactedMember(members[1..], profile, clean, i - 1);
    }
  }

  lemma {:induction false} RedactedItem(items: seq<Value>, profile: bool, clean: string -> string, i: nat)
    requires i < |items|
    ensures |RedactItems(items, profile, clean)| == |items|
    ensures RedactItems(items, profile, clean)[i] == Redact(items[i], profile, clean)
  {
    hide Redact;
    ItemsLength(items, profile, clean);
    if i > 0 {
      RedactedItem(items[1..], profile, clean, i - 1);
    }
  }
}
