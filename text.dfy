/** Case-insensitive comparison of names, as Java's `String.equalsIgnoreCase`
    performs it on the letters A-Z. */
module Text {

  /** Lower-case an ASCII upper-case letter; every other character is kept. */
  function Lower(ch: char): char {
    if 'A' <= ch <= 'Z' then (ch as int + 32) as char else ch
  }

  /** The string with every character lower-cased. */
  function Fold(s: string): (r: string)
    ensures |r| == |s|
    ensures forall i :: 0 <= i < |s| ==> r[i] == Lower(s[i])
  {
    seq(|s|, i requires 0 <= i < |s| => Lower(s[i]))
  }

  /** Two names are equal ignoring case when their folded forms coincide. */
  predicate EqualsIgnoreCase(a: string, b: string) {
    Fold(a) == Fold(b)
  }

  /** The character-by-character reading of `EqualsIgnoreCase`: same length and
      every pair of characters equal after lower-casing. */
  lemma EqualsIgnoreCaseCharwise(a: string, b: string)
    ensures EqualsIgnoreCase(a, b) <==>
      (|a| == |b| && forall i :: 0 <= i < |a| ==> Lower(a[i]) == Lower(b[i]))
  {
    if |a| == |b| && forall i :: 0 <= i < |a| ==> Lower(a[i]) == Lower(b[i]) {
      assert forall i :: 0 <= i < |a| ==> Fold(a)[i] == Fold(b)[i];
    }
  }
}
