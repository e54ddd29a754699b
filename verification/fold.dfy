/** Case-insensitive string comparison, restricted to the ASCII letters. */
module Fold {

  /** Maps an upper-case ASCII letter to its lower-case form and leaves every
      other character alone. */
  function Lower(c: char): char {
    if 'A' <= c <= 'Z' then (c as int - 'A' as int + 'a' as int) as char else c
  }

  /** The two strings are equal once ASCII letters are folded to lower case. */
  predicate EqualFold(a: string, b: string) {
    |a| == |b| && forall i :: 0 <= i < |a| ==> Lower(a[i]) == Lower(b[i])
  }

  /** Folding identifies exactly the upper- and lower-case form of a letter. */
  lemma LowerFoldsCase(c: char, d: char)
    requires c != d
    ensures Lower(c) == Lower(d) <==>
      ('A' <= c <= 'Z' && d as int == c as int + 32) ||
      ('A' <= d <= 'Z' && c as int == d as int + 32)
  {
  }

  /** Case-insensitive equality is an equivalence relation, so a search tag
      can be replaced by any string it equals up to case. */
  lemma EqualFoldIsEquivalence(a: string, b: string, c: string)
    ensures EqualFold(a, a)
    ensures EqualFold(a, b) ==> EqualFold(b, a)
    ensures EqualFold(a, b) && EqualFold(b, c) ==> EqualFold(a, c)
  {
  }
}
