/** The recipe record kept by the in-memory service, and the predicates about
    identifiers that the handlers are specified with. */
module Recipes {

  /** A point in time. The handlers only copy timestamps around, so the
      wall-clock and monotonic readings of a Go time value are reduced to one
      integer instant. */
  type Time = int

  /** One stored recipe, field for field as it is serialised to JSON. */
  datatype Recipe = Recipe(
    id: string,
    name: string,
    tags: seq<string>,
    ingredients: seq<string>,
    instructions: seq<string>,
    publishedAt: Time)

  /** Some recipe of `s` carries the identifier `id`. */
  predicate HasId(s: seq<Recipe>, id: string) {
    exists j :: 0 <= j < |s| && s[j].id == id
  }

  /** `k` is the lowest index of `s` whose recipe carries `id`. */
  predicate IsFirstMatch(s: seq<Recipe>, id: string, k: int) {
    && 0 <= k < |s|
    && s[k].id == id
    && forall j :: 0 <= j < k ==> s[j].id != id
  }

  /** `k` is the highest index of `s` whose recipe carries `id`. */
  predicate IsLastMatch(s: seq<Recipe>, id: string, k: int) {
    && 0 <= k < |s|
    && s[k].id == id
    && forall j :: k < j < |s| ==> s[j].id != id
  }

  /** No two recipes of `s` share an identifier. The service intends this
      (identifiers are generated at creation) but does not enforce it. */
  predicate UniqueIds(s: seq<Recipe>) {
    forall i, j :: 0 <= i < j < |s| ==> s[i].id != s[j].id
  }
}
