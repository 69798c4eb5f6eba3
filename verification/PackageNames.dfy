/** Distribution names as they are compared. */
module PackageNames {
  import opened Text

  const PROJECT_NAME := "budget-analyzer-api-tests"

  /** A requirement at its one locked version. */
  datatype Locked = Locked(name: string, version: string)

  predicate IsSeparator(c: char) {
    c == '-' || c == '_' || c == '.'
  }

  function DropSeparators(s: string): (r: string)
    ensures |r| <= |s| && (r == "" || !IsSeparator(r[0]))
  {
    if s != "" && IsSeparator(s[0]) then DropSeparators(s[1..]) else s
  }

  /** `canonicalize_name`: separator runs become one hyphen, letters become lower case. */
  function Canonicalize(name: string): string
    decreases |name|
  {
    if name == "" then ""
    else if IsSeparator(name[0]) then "-" + Canonicalize(DropSeparators(name[1..]))
    else [LowerChar(name[0])] + Canonicalize(name[1..])
  }

  lemma {:induction false} CanonicalStart(name: string)
    ensures name == "" || !IsSeparator(name[0]) ==> Canonicalize(name) == "" || !IsSeparator(Canonicalize(name)[0])
  {
  }

  /** Canonical names are fixed points, so comparing them is comparing names up to spelling. */
  lemma {:induction false} CanonicalizeIdempotent(name: string)
    ensures Canonicalize(Canonicalize(name)) == Canonicalize(name)
    decreases |name|
  {
    if name != "" {
      if IsSeparator(name[0]) {
        var rest := DropSeparators(name[1..]);
        CanonicalizeIdempotent(rest);
        CanonicalStart(rest);
        assert ("-" + Canonicalize(rest))[1..] == Canonicalize(rest);
        assert DropSeparators(Canonicalize(rest)) == Canonicalize(rest);
      } else {
        CanonicalizeIdempotent(name[1..]);
        assert ([LowerChar(name[0])] + Canonicalize(name[1..]))[1..] == Canonicalize(name[1..]);
      }
    }
  }

  /** Lower-case names with single hyphens are their own canonical form. */
  lemma {:induction false} CanonicalFixed(name: string)
    requires forall i :: 0 <= i < |name| ==> LowerChar(name[i]) == name[i] && (IsSeparator(name[i]) ==> name[i] == '-')
    requires forall i :: 0 <= i < |name| - 1 ==> !(IsSeparator(name[i]) && IsSeparator(name[i + 1]))
    ensures Canonicalize(name) == name
  {
    if name != "" {
      CanonicalFixed(name[1..]);
      assert name == [name[0]] + name[1..];
    }
  }

  // ---------------------------------------------------------------- which spellings mean the same name

  predicate NoSeparator(s: string) {
    forall i :: 0 <= i < |s| ==> s[i] !in "-_."
  }

  predicate AllSeparators(s: string) {
    forall i :: 0 <= i < |s| ==> s[i] in "-_."
  }

  lemma {:induction false} DropAll(run: string, rest: string)
    requires AllSeparators(run) && (rest == "" || rest[0] !in "-_.")
    ensures DropSeparators(run + rest) == rest
  {
    if run == "" {
      assert run + rest == rest;
    } else {
      assert (run + rest)[1..] == run[1..] + rest;
      DropAll(run[1..], rest);
    }
  }

  /** A word only changes the case of its letters, and any run of separators counts as one hyphen. */
  lemma {:induction false} CanonicalParts(word: string, run: string, rest: string)
    requires NoSeparator(word) && AllSeparators(run) && (rest == "" || rest[0] !in "-_.")
    ensures run != "" ==> Canonicalize(word + run + rest) == Canonicalize(word) + "-" + Canonicalize(rest)
    ensures |Canonicalize(word)| == |word|
    ensures forall i :: 0 <= i < |word| ==>
              Canonicalize(word)[i] == if 'A' <= word[i] <= 'Z' then word[i] - 'A' + 'a' else word[i]
  {
    var s := word + run + rest;
    if word != "" {
      assert s[1..] == word[1..] + run + rest;
      CanonicalParts(word[1..], run, rest);
      assert s[0] == word[0] && !IsSeparator(word[0]);
    } else if run != "" {
      assert s[0] == run[0] && s[1..] == run[1..] + rest;
      DropAll(run[1..], rest);
    }
  }

  lemma {:induction false} DropSame(a: string, b: string)
    requires SameLetters(a, b)
    ensures SameLetters(DropSeparators(a), DropSeparators(b))
  {
    if a != "" && IsSeparator(a[0]) {
      DropSame(a[1..], b[1..]);
    }
  }

  /** The case of letters never matters. */
  lemma {:induction false} CaseIrrelevant(a: string, b: string)
    requires SameLetters(a, b)
    ensures Canonicalize(a) == Canonicalize(b)
    decreases |a|
  {
    if a != "" {
      if IsSeparator(a[0]) {
        DropSame(a[1..], b[1..]);
        CaseIrrelevant(DropSeparators(a[1..]), DropSeparators(b[1..]));
      } else {
        CaseIrrelevant(a[1..], b[1..]);
      }
    }
  }
}
