/**
 * The two string operations the type registry relies on:
 * `String.prototype.toLowerCase`, restricted to the ASCII letters, and
 * `String.prototype.endsWith`.
 */
module Strings {

  predicate IsUpper(c: char) {
    'A' <= c <= 'Z'
  }

  /** A string with no upper-case ASCII letter in it. */
  predicate IsLowerCase(s: string) {
    forall i :: 0 <= i < |s| ==> !IsUpper(s[i])
  }

  /** Lower-cases one character: upper-case ASCII letters move down by 32, everything else is kept. */
  function LowerChar(c: char): (r: char)
    ensures !IsUpper(r)
    ensures r == c <==> !IsUpper(c)
    ensures IsUpper(c) ==> r as int - c as int == 'a' as int - 'A' as int
  {
    if IsUpper(c) then (c as int + ('a' as int - 'A' as int)) as char else c
  }

  /** `s.toLowerCase()`. */
  function ToLowerCase(s: string): (r: string)
    ensures |r| == |s|
  {
    if s == [] then [] else [LowerChar(s[0])] + ToLowerCase(s[1..])
  }

  /** Lower-casing works position by position and leaves no upper-case letter. */
  lemma {:induction false} ToLowerCaseSpec(s: string)
    ensures forall i :: 0 <= i < |s| ==> ToLowerCase(s)[i] == LowerChar(s[i])
    ensures IsLowerCase(ToLowerCase(s))
  {
    if s != [] {
      ToLowerCaseSpec(s[1..]);
      assert ToLowerCase(s) == [LowerChar(s[0])] + ToLowerCase(s[1..]);
    }
  }

  /** Lower-casing leaves a string that is already lower-case as it is. */
  lemma LowerCaseIsFixed(s: string)
    requires IsLowerCase(s)
    ensures ToLowerCase(s) == s
  {
    ToLowerCaseSpec(s);
    var r := ToLowerCase(s);
    assert forall i :: 0 <= i < |s| ==> r[i] == s[i];
  }

  /** `s.endsWith(suffix)`. */
  predicate EndsWith(s: string, suffix: string) {
    |suffix| <= |s| && s[|s| - |suffix|..] == suffix
  }

  /** Ending in a one-character suffix means being non-empty with that last character. */
  lemma EndsWithChar(s: string, c: char)
    ensures EndsWith(s, [c]) <==> |s| > 0 && s[|s| - 1] == c
  {
    if |s| > 0 && s[|s| - 1] == c {
      assert s[|s| - 1..] == [c];
    }
  }
}
