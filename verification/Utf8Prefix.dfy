/** Truncating text to a number of UTF-8 bytes by cutting the encoding and decoding what is left. */
module Utf8Prefix {
  import opened Wrappers

  type Byte = b: int | 0 <= b < 256

  /** The encoding of one character (section 3 of RFC 3629). */
  function EncodeChar(c: char): (r: seq<Byte>)
    ensures 1 <= |r| <= 4
  {
    var u := c as int;
    if u < 0x80 then [u]
    else if u < 0x800 then [0xC0 + u / 64, 0x80 + u % 64]
    else if u < 0x10000 then [0xE0 + u / 4096, 0x80 + u / 64 % 64, 0x80 + u % 64]
    else [0xF0 + u / 262144, 0x80 + u / 4096 % 64, 0x80 + u / 64 % 64, 0x80 + u % 64]
  }

  function Encode(s: string): seq<Byte> {
    if s == "" then [] else EncodeChar(s[0]) + Encode(s[1..])
  }

  predicate IsContinuation(b: Byte) {
    0x80 <= b < 0xC0
  }

  predicate IsScalar(u: int) {
    0 <= u < 0xD800 || 0xE000 <= u < 0x11_0000
  }

  function Two(a: int, b: int): int {
    (a - 0xC0) * 64 + (b - 0x80)
  }

  function Three(a: int, b: int, c: int): int {
    (a - 0xE0) * 4096 + (b - 0x80) * 64 + (c - 0x80)
  }

  function Four(a: int, b: int, c: int, d: int): int {
    (a - 0xF0) * 262144 + (b - 0x80) * 4096 + (c - 0x80) * 64 + (d - 0x80)
  }

  /** The character a byte sequence starts with, if it starts with a well-formed one. */
  function DecodeFirst(b: seq<Byte>): (r: Option<char>)
    requires b != []
    ensures r.Some? ==> |EncodeChar(r.value)| <= |b|
  {
    if b[0] < 0x80 then Some(b[0] as char)
    else if 0xC2 <= b[0] < 0xE0 && |b| >= 2 && IsContinuation(b[1]) then
      Some(Two(b[0], b[1]) as char)
    else if 0xE0 <= b[0] < 0xF0 && |b| >= 3 && IsContinuation(b[1]) && IsContinuation(b[2]) then
      var u := Three(b[0], b[1], b[2]);
      if u >= 0x800 && IsScalar(u) then Some(u as char) else None
    else if 0xF0 <= b[0] < 0xF5 && |b| >= 4 && IsContinuation(b[1]) && IsContinuation(b[2]) && IsContinuation(b[3]) then
      var u := Four(b[0], b[1], b[2], b[3]);
      if u >= 0x10000 && IsScalar(u) then Some(u as char) else None
    else None
  }

  /**
   `decode("utf-8", errors="ignore")`. Skipping an ill-formed part as a whole or byte by byte gives the same
   text, because the skipped bytes after the first are continuation bytes.
   */
  function DecodeIgnore(b: seq<Byte>): string
    decreases |b|
  {
    if b == [] then ""
    else match DecodeFirst(b)
      case Some(c) => [c] + DecodeIgnore(b[|EncodeChar(c)|..])
      case None => DecodeIgnore(b[1..])
  }

  /** The Python slice `b[:limit]`. */
  function Cut(b: seq<Byte>, limit: int): seq<Byte> {
    if limit >= |b| then b
    else if limit >= 0 then b[..limit]
    else if |b| + limit >= 0 then b[..|b| + limit]
    else []
  }

  /** `_utf8_prefix` */
  function Truncate(value: string, limit: int): string {
    var encoded := Encode(value);
    if |encoded| <= limit then value else DecodeIgnore(Cut(encoded, limit))
  }

  // ---------------------------------------------------------------- one character

  lemma SplitThree(u: int)
    requires 0 <= u
    ensures Three(0xE0 + u / 4096, 0x80 + u / 64 % 64, 0x80 + u % 64) == u
  {
    assert u / 64 / 64 == u / 4096;
  }

  lemma SplitFour(u: int)
    requires 0 <= u
    ensures Four(0xF0 + u / 262144, 0x80 + u / 4096 % 64, 0x80 + u / 64 % 64, 0x80 + u % 64) == u
  {
    assert u / 64 / 64 == u / 4096 && u / 4096 / 64 == u / 262144;
  }

  lemma DecodeFirstEncoded(c: char, rest: seq<Byte>)
    ensures DecodeFirst(EncodeChar(c) + rest) == Some(c)
  {
    hide Three, Four;
    var u := c as int;
    var b := EncodeChar(c) + rest;
    assert IsScalar(u);
    if 0x800 <= u < 0x10000 {
      SplitThree(u);
      assert b[0] == 0xE0 + u / 4096 && b[1] == 0x80 + u / 64 % 64 && b[2] == 0x80 + u % 64;
    } else if 0x10000 <= u {
      SplitFour(u);
      assert b[0] == 0xF0 + u / 262144 && b[1] == 0x80 + u / 4096 % 64 && b[2] == 0x80 + u / 64 % 64
             && b[3] == 0x80 + u % 64;
    }
  }

  lemma {:induction false} ContinuationsVanish(b: seq<Byte>)
    requires forall i :: 0 <= i < |b| ==> IsContinuation(b[i])
    ensures DecodeIgnore(b) == ""
    decreases |b|
  {
    if b != [] {
      ContinuationsVanish(b[1..]);
    }
  }

  /** A character cut in the middle of its encoding leaves nothing behind. */
  lemma CutCharVanishes(c: char, k: nat)
    requires k < |EncodeChar(c)|
    ensures DecodeIgnore(EncodeChar(c)[..k]) == ""
  {
    if k > 0 {
      var b := EncodeChar(c)[..k];
      assert forall i :: 1 <= i < k ==> b[i] == EncodeChar(c)[i] && IsContinuation(b[i]);
      assert DecodeFirst(b).None?;
      ContinuationsVanish(b[1..]);
    }
  }

  // ---------------------------------------------------------------- the cut text

  lemma EncodeLonger(s: string, k: nat)
    requires k < |s|
    ensures |Encode(s[..k])| < |Encode(s[..k + 1])|
  {
    if k > 0 {
      EncodeLonger(s[1..], k - 1);
      assert s[..k][1..] == s[1..][..k - 1] && s[..k + 1][1..] == s[1..][..k];
    }
  }

  lemma {:induction false} EncodeMonotone(s: string, j: nat, k: nat)
    requires j < k <= |s|
    ensures |Encode(s[..j])| < |Encode(s[..k])|
    decreases k
  {
    EncodeLonger(s, k - 1);
    if j < k - 1 {
      EncodeMonotone(s, j, k - 1);
    }
  }

  /** Cutting the encoding anywhere keeps exactly the characters whose encoding fits. */
  lemma {:induction false} CutKeepsWhole(s: string, n: nat) returns (k: nat)
    requires n <= |Encode(s)|
    ensures k <= |s| && DecodeIgnore(Encode(s)[..n]) == s[..k]
    ensures |Encode(s[..k])| <= n
    ensures k < |s| ==> n < |Encode(s[..k + 1])|
    decreases |s|
  {
    hide EncodeChar, DecodeFirst;
    if s == "" {
      k := 0;
    } else {
      var first, rest := EncodeChar(s[0]), Encode(s[1..]);
      var b := Encode(s)[..n];
      if n < |first| {
        k := 0;
        assert b == first[..n];
        CutCharVanishes(s[0], n);
        FirstLonger(s, 0);
      } else {
        var k' := CutKeepsWhole(s[1..], n - |first|);
        k := k' + 1;
        assert b == first + rest[..n - |first|];
        DecodeFirstEncoded(s[0], rest[..n - |first|]);
        assert b[|first|..] == rest[..n - |first|];
        FirstLonger(s, k');
        if k < |s| {
          FirstLonger(s, k);
        }
        assert s[..k] == [s[0]] + s[1..][..k'];
      }
    }
  }

  lemma FirstLonger(s: string, k: nat)
    requires k < |s|
    ensures Encode(s[..k + 1]) == EncodeChar(s[0]) + Encode(s[1..][..k])
  {
    assert s[..k + 1][1..] == s[1..][..k];
  }

  /** The limit in bytes: a negative one counts from the end, as slices do. */
  function EffectiveLimit(value: string, limit: int): nat {
    if limit >= 0 then limit else if |Encode(value)| + limit >= 0 then |Encode(value)| + limit else 0
  }

  /**
   The result is the longest prefix whose encoding fits: it is a prefix, it fits, and no longer prefix does.
   */
  lemma TruncateIsLongestPrefix(value: string, limit: int)
    ensures var r := Truncate(value, limit);
            && r <= value
            && |Encode(r)| <= EffectiveLimit(value, limit)
            && (forall k :: 0 <= k <= |value| && |Encode(value[..k])| <= EffectiveLimit(value, limit) ==> k <= |r|)
  {
    hide EncodeChar, DecodeFirst, DecodeIgnore;
    var n := EffectiveLimit(value, limit);
    if |Encode(value)| <= limit {
      assert value[..|value|] == value;
    } else {
      assert Cut(Encode(value), limit) == Encode(value)[..n];
      var kept := CutKeepsWhole(value, n);
      forall k | 0 <= k <= |value| && |Encode(value[..k])| <= n ensures k <= kept {
        if k > kept {
          if k > kept + 1 {
            EncodeMonotone(value, kept + 1, k);
          }
          assert false;
        }
      }
    }
  }

  /** Decoding inverts encoding. */
  lemma DecodeEncode(s: string)
    ensures DecodeIgnore(Encode(s)) == s
  {
    var k := CutKeepsWhole(s, |Encode(s)|);
    assert Encode(s)[..|Encode(s)|] == Encode(s) && s[..|s|] == s;
    if k < |s| {
      if k + 1 < |s| {
        EncodeMonotone(s, k + 1, |s|);
      }
      assert false;
    }
  }
}
