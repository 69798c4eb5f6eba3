/** Taking one element out of a list. */
module Sequences {

  function DropAt<T>(s: seq<T>, k: nat): seq<T>
    requires k < |s|
  {
    s[..k] + s[k + 1..]
  }

  lemma DropAtContents<T>(s: seq<T>, k: nat)
    requires k < |s|
    ensures multiset(s) == multiset(DropAt(s, k)) + multiset{s[k]}
  {
    assert s == s[..k] + [s[k]] + s[k + 1..];
  }
}
