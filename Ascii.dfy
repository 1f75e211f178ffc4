/**
 * ASCII lowercasing, the model of JavaScript's `String.prototype.toLowerCase`
 * on the header names this library sees.  Header field names are
 * case-insensitive (section 5.1 of RFC 9110); the library realises that by
 * lowercasing every name before it looks anything up.
 */
module Ascii {

  predicate IsUpperChar(c: char) {
    'A' <= c <= 'Z'
  }

  function ToLowerChar(c: char): (d: char)
    ensures !IsUpperChar(d)
    ensures !IsUpperChar(c) ==> d == c
    ensures IsUpperChar(c) ==> 'a' <= d <= 'z' && d as int - c as int == 'a' as int - 'A' as int
  {
    if IsUpperChar(c) then (c as int - 'A' as int + 'a' as int) as char else c
  }

  /** A name with no upper-case ASCII letter. */
  predicate IsLower(s: string) {
    forall i :: 0 <= i < |s| ==> !IsUpperChar(s[i])
  }

  function ToLower(s: string): (r: string)
    ensures |r| == |s|
    ensures forall i :: 0 <= i < |s| ==> r[i] == ToLowerChar(s[i])
    ensures IsLower(r)
  {
    seq(|s|, i requires 0 <= i < |s| => ToLowerChar(s[i]))
  }

  /** `names.map((name) => name.toLowerCase())` */
  function LowerAll(names: seq<string>): (r: seq<string>)
    ensures |r| == |names|
    ensures forall i :: 0 <= i < |names| ==> r[i] == ToLower(names[i])
  {
    seq(|names|, i requires 0 <= i < |names| => ToLower(names[i]))
  }

  predicate AllLower(names: seq<string>) {
    forall i :: 0 <= i < |names| ==> IsLower(names[i])
  }

  /** Lowercasing leaves an already lower-case name alone. */
  lemma LowerOfLower(s: string)
    requires IsLower(s)
    ensures ToLower(s) == s
  {
    assert forall i :: 0 <= i < |s| ==> ToLower(s)[i] == s[i];
  }

  /** Lowercasing twice is lowercasing once (index.js:68 lowercases raw names a second time). */
  lemma LowerAllIdempotent(names: seq<string>)
    ensures LowerAll(LowerAll(names)) == LowerAll(names)
    ensures AllLower(LowerAll(names))
  {
    forall i | 0 <= i < |names|
      ensures LowerAll(LowerAll(names))[i] == LowerAll(names)[i]
    {
      LowerOfLower(ToLower(names[i]));
    }
  }

  /** A list that is already lower case is its own lowercasing. */
  lemma LowerAllOfLower(names: seq<string>)
    requires AllLower(names)
    ensures LowerAll(names) == names
  {
    forall i | 0 <= i < |names|
      ensures LowerAll(names)[i] == names[i]
    {
      LowerOfLower(names[i]);
    }
  }
}
