/** Locating recipes in the collection: by identifier (first or last match)
    and by tag (an order-preserving filter). */
module Matching {
  import opened Recipes
  import opened Fold

  /** The lowest index carrying `id`, or -1 when there is none. */
  function FirstMatch(s: seq<Recipe>, id: string): (k: int)
    ensures k == -1 <==> !HasId(s, id)
    ensures k != -1 ==> IsFirstMatch(s, id, k)
    decreases |s|
  {
    if |s| == 0 then -1
    else if s[0].id == id then 0
    else
      var k := FirstMatch(s[1..], id);
      if k == -1 then -1 else k + 1
  }

  /** The highest index carrying `id`, or -1 when there is none. */
  function LastMatch(s: seq<Recipe>, id: string): (k: int)
    ensures k == -1 <==> !HasId(s, id)
    ensures k != -1 ==> IsLastMatch(s, id, k)
    decreases |s|
  {
    if |s| == 0 then -1
    else if s[|s| - 1].id == id then |s| - 1
    else LastMatch(s[..|s| - 1], id)
  }

  /** Some tag of `r` equals `tag` up to case. */
  predicate HasTag(r: Recipe, tag: string) {
    exists j :: 0 <= j < |r.tags| && EqualFold(r.tags[j], tag)
  }

  /** `a` is obtained from `b` by deleting elements, order kept. */
  predicate IsSubsequence<T(==)>(a: seq<T>, b: seq<T>)
    decreases |b|
  {
    if |a| == 0 then true
    else if |b| == 0 then false
    else if a[0] == b[0] then IsSubsequence(a[1..], b[1..])
    else IsSubsequence(a, b[1..])
  }

  /** The recipes of `s` that carry `tag`, in collection order. Every kept
      recipe carries the tag; `FilterIsSubsequence` and `FilterCounts` say
      that nothing qualifying is dropped and that order is kept. */
  function Filter(s: seq<Recipe>, tag: string): (r: seq<Recipe>)
    ensures forall i :: 0 <= i < |r| ==> HasTag(r[i], tag)
    ensures |r| <= |s|
    decreases |s|
  {
    if |s| == 0 then []
    else
      var rest := Filter(s[1..], tag);
      if HasTag(s[0], tag) then [s[0]] + rest else rest
  }

  /** The filter result is obtained from the collection by deleting
      recipes, order kept. */
  lemma {:induction false} FilterIsSubsequence(s: seq<Recipe>, tag: string)
    ensures IsSubsequence(Filter(s, tag), s)
    decreases |s|
  {
    if |s| != 0 {
      var rest := Filter(s[1..], tag);
      FilterIsSubsequence(s[1..], tag);
      if HasTag(s[0], tag) {
        assert ([s[0]] + rest)[1..] == rest;
      } else if |rest| != 0 {
        assert rest[0] != s[0];
      }
    }
  }

  /** `r` holds every recipe of `s` that carries `tag` exactly as often as
      `s` does, and no other recipe. */
  ghost predicate KeepsQualifying(r: seq<Recipe>, s: seq<Recipe>, tag: string) {
    forall x :: multiset(r)[x] == if HasTag(x, tag) then multiset(s)[x] else 0
  }

  /** Every qualifying recipe is kept as often as the collection holds it,
      and no other recipe is kept. */
  lemma {:induction false} FilterCounts(s: seq<Recipe>, tag: string)
    ensures KeepsQualifying(Filter(s, tag), s, tag)
    decreases |s|
  {
    if |s| != 0 {
      assert s == [s[0]] + s[1..];
      FilterCounts(s[1..], tag);
    }
  }

  /** A single recipe survives filtering exactly when it carries the tag. */
  lemma FilterSingle(x: Recipe, tag: string)
    ensures Filter([x], tag) == if HasTag(x, tag) then [x] else []
  {
    assert [x][1..] == [];
  }

  /** Filtering a concatenation filters each part. */
  lemma {:induction false} FilterAppend(a: seq<Recipe>, b: seq<Recipe>, tag: string)
    ensures Filter(a + b, tag) == Filter(a, tag) + Filter(b, tag)
    decreases |a|
  {
    if |a| == 0 {
      assert a + b == b;
    } else {
      assert (a + b)[1..] == a[1..] + b;
      FilterAppend(a[1..], b, tag);
    }
  }

  /** Extending a prefix of the collection by one recipe extends its filter
      by that recipe when, and only when, it carries the tag. */
  lemma FilterExtend(s: seq<Recipe>, i: int, tag: string)
    requires 0 <= i < |s|
    ensures Filter(s[..i + 1], tag) == Filter(s[..i], tag) + if HasTag(s[i], tag) then [s[i]] else []
  {
    assert s[..i + 1] == s[..i] + [s[i]];
    FilterAppend(s[..i], [s[i]], tag);
    FilterSingle(s[i], tag);
  }

  /** A recipe is kept exactly when it carries the tag. */
  lemma {:induction false} FilterMembership(s: seq<Recipe>, tag: string, x: Recipe)
    ensures x in Filter(s, tag) <==> x in s && HasTag(x, tag)
  {
    var r := Filter(s, tag);
    FilterCounts(s, tag);
    assert multiset(r)[x] == if HasTag(x, tag) then multiset(s)[x] else 0;
    assert x in r <==> multiset(r)[x] > 0;
    assert x in s <==> multiset(s)[x] > 0;
  }
}
