/**
 * The operations of .NET's System.String that the binder uses:
 * `Contains(string)`, which compares ordinally; `IndexOf(string)`, which in
 * .NET compares with the current culture and is modelled here ordinally; and
 * `Substring(0, n)`, a prefix slice.
 * .NET strings are sequences of UTF-16 code units. Here a string is a
 * `seq<char>`, whose elements are Unicode scalar values: indices count
 * scalar values, a character outside the Basic Multilingual Plane is one
 * element rather than two, and a lone surrogate cannot be written at all.
 * The comma is a single code unit in both views, so the text before the
 * first comma is the same in both for every name the model can represent.
 */
module Text {

  /** `sub` occurs in `s` starting at index `i`, compared character by character. */
  predicate OccursAt(s: string, sub: string, i: int) {
    0 <= i && i + |sub| <= |s| && s[i..i + |sub|] == sub
  }

  /** An occurrence at index `i >= 1` of `s` is one at index `i - 1` of `s` without its first character. */
  lemma OccursAtTail(s: string, sub: string)
    requires |s| > 0
    ensures forall i :: 1 <= i ==> (OccursAt(s, sub, i) <==> OccursAt(s[1..], sub, i - 1))
  {
  }

  /**
   * `s.IndexOf(sub)`: the first index at which `sub` occurs in `s`, or -1
   * when it occurs nowhere. The empty string occurs at index 0.
   */
  function IndexOf(s: string, sub: string): (r: int)
    ensures -1 <= r <= |s|
    ensures r >= 0 ==> OccursAt(s, sub, r)
    ensures r < 0 ==> forall i :: !OccursAt(s, sub, i)
    ensures forall i :: 0 <= i < r ==> !OccursAt(s, sub, i)
    decreases |s|
  {
    if |s| < |sub| then
      -1
    else if s[..|sub|] == sub then
      0
    else
      assert !OccursAt(s, sub, 0) by { assert s[0..|sub|] == s[..|sub|]; }
      OccursAtTail(s, sub);
      var k := IndexOf(s[1..], sub);
      if k < 0 then -1 else k + 1
  }

  /** `s.Contains(sub)`: `sub` occurs somewhere in `s`. */
  function Contains(s: string, sub: string): (b: bool)
    ensures b <==> exists i :: OccursAt(s, sub, i)
  {
    IndexOf(s, sub) >= 0
  }

  /** A string that occurs in a prefix of `s` occurs in `s` at the same index. */
  lemma OccursInPrefix(s: string, n: nat, sub: string, i: int)
    requires n <= |s|
    requires OccursAt(s[..n], sub, i)
    ensures OccursAt(s, sub, i)
  {
  }

  /** The part of `s` before the first occurrence of a non-empty `sub` does not contain `sub`. */
  lemma PrefixBeforeFirstOccurrence(s: string, sub: string)
    requires |sub| > 0
    requires IndexOf(s, sub) >= 0
    ensures !Contains(s[..IndexOf(s, sub)], sub)
  {
    var k := IndexOf(s, sub);
    if Contains(s[..k], sub) {
      var i :| OccursAt(s[..k], sub, i);
      OccursInPrefix(s, k, sub, i);
    }
  }

  /** A prefix of a string that does not contain `sub` does not contain it either. */
  lemma PrefixKeepsAbsence(s: string, n: nat, sub: string)
    requires n <= |s|
    requires !Contains(s, sub)
    ensures !Contains(s[..n], sub)
  {
    if Contains(s[..n], sub) {
      var i :| OccursAt(s[..n], sub, i);
      OccursInPrefix(s, n, sub, i);
    }
  }
}
