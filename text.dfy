/** The two string helpers the table filter relies on: the in-place upper-casing
    helper `toupper(std::string&)` and `std::string::find`. Strings are sequences
    of characters; case folding is that of C's `toupper` in the default locale. */
module Text {
  import opened Options

  predicate IsLower(c: char) {
    'a' <= c <= 'z'
  }

  /** C's `toupper` on one character: ASCII lower-case letters become upper-case,
      every other character is left alone. */
  function UpperChar(c: char): (u: char)
    ensures !IsLower(u)
    ensures !IsLower(c) ==> u == c
    ensures IsLower(c) ==> 'A' <= u <= 'Z' && u as int + 32 == c as int
  {
    if IsLower(c) then (c as int - 32) as char else c
  }

  /** The upper-cased copy of `s`, character by character. */
  function Upper(s: string): (r: string)
    ensures |r| == |s|
    ensures forall i :: 0 <= i < |s| ==> r[i] == UpperChar(s[i])
  {
    if s == [] then [] else [UpperChar(s[0])] + Upper(s[1..])
  }

  /** `toupper(std::string& s)`: rewrites the characters of `s` in place. */
  method ToUpperInPlace(s: array<char>)
    modifies s
    ensures s[..] == Upper(old(s[..]))
  {
    var i := 0;
    while i < s.Length
      invariant 0 <= i <= s.Length
      invariant forall k :: 0 <= k < i ==> s[k] == UpperChar(old(s[k]))
      invariant forall k :: i <= k < s.Length ==> s[k] == old(s[k])
    {
      s[i] := UpperChar(s[i]);
      i := i + 1;
    }
  }

  /** `needle` sits in `hay` starting at position `i`. */
  predicate OccursAt(needle: string, hay: string, i: nat) {
    i + |needle| <= |hay| && hay[i..i + |needle|] == needle
  }

  ghost predicate IsSubstring(needle: string, hay: string) {
    exists i: nat :: OccursAt(needle, hay, i)
  }

  /** `hay.find(needle, from)`: the first position at or after `from` where
      `needle` occurs, or None for `npos`. */
  function FindFrom(hay: string, needle: string, from: nat): (r: Option<nat>)
    decreases |hay| - from
    ensures r.Some? ==> from <= r.value && OccursAt(needle, hay, r.value)
    ensures r.Some? ==> forall j: nat :: from <= j < r.value ==> !OccursAt(needle, hay, j)
    ensures r.None? ==> forall j: nat :: from <= j ==> !OccursAt(needle, hay, j)
  {
    if from + |needle| > |hay| then None
    else if hay[from..from + |needle|] == needle then Some(from)
    else FindFrom(hay, needle, from + 1)
  }

  function Find(hay: string, needle: string): Option<nat> {
    FindFrom(hay, needle, 0)
  }

  /** `find` reports a position exactly when the needle is a substring, and
      the position it reports is the first occurrence. */
  lemma FindIsFirstOccurrence(hay: string, needle: string)
    ensures Find(hay, needle).Some? <==> IsSubstring(needle, hay)
    ensures Find(hay, needle).Some? ==>
              OccursAt(needle, hay, Find(hay, needle).value) &&
              forall j: nat :: j < Find(hay, needle).value ==> !OccursAt(needle, hay, j)
  {
    if IsSubstring(needle, hay) {
      var i: nat :| OccursAt(needle, hay, i);
    }
  }

  /** Every substring of a text without lower-case letters is itself without
      lower-case letters. */
  lemma {:induction false} SubstringOfUpperHasNoLower(needle: string, hay: string, i: nat)
    requires OccursAt(needle, hay, i)
    requires forall k :: 0 <= k < |hay| ==> !IsLower(hay[k])
    ensures forall k :: 0 <= k < |needle| ==> !IsLower(needle[k])
  {
    forall k | 0 <= k < |needle|
      ensures !IsLower(needle[k])
    {
      assert needle[k] == hay[i..i + |needle|][k] == hay[i + k];
    }
  }
}
