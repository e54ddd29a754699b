/** Properties that relate several handler calls: how identifiers stay
    unique, which handler undoes which, what a lookup sees after a write,
    and how update and delete part ways when identifiers are duplicated. */
module Properties {
  import opened Recipes
  import opened Fold
  import opened Http
  import opened Matching
  import opened Handlers

  /** With unique identifiers the first and the last match coincide, so
      update and delete address the same recipe. */
  lemma UniqueFirstIsLast(s: seq<Recipe>, id: string)
    requires UniqueIds(s)
    ensures FirstMatch(s, id) == LastMatch(s, id)
  {
    var f, l := FirstMatch(s, id), LastMatch(s, id);
    if f != -1 {
      assert IsFirstMatch(s, id, f) && IsLastMatch(s, id, l);
    }
  }

  /** Appending a recipe under a fresh identifier keeps identifiers unique. */
  lemma CreateKeepsIdsUnique(s: seq<Recipe>, body: Bind, freshId: string, now: Time)
    requires UniqueIds(s) && !HasId(s, freshId)
    ensures UniqueIds(Create(s, body, freshId, now).store)
  {
    var t := Create(s, body, freshId, now).store;
    if body.Bound? {
      forall i, j | 0 <= i < j < |t| ensures t[i].id != t[j].id {
        if j == |s| {
          assert t[i] == s[i];
        } else {
          assert t[i] == s[i] && t[j] == s[j];
        }
      }
    }
  }

  /** Removing a recipe keeps identifiers unique. */
  lemma DeleteKeepsIdsUnique(s: seq<Recipe>, id: string)
    requires UniqueIds(s)
    ensures UniqueIds(Delete(s, id).store)
  {
    var k := FirstMatch(s, id);
    if k != -1 {
      var t := Delete(s, id).store;
      assert t == s[..k] + s[k + 1..];
      forall i, j | 0 <= i < j < |t| ensures t[i].id != t[j].id {
        var i' := if i < k then i else i + 1;
        var j' := if j < k then j else j + 1;
        assert t[i] == s[i'] && t[j] == s[j'];
      }
    }
  }

  /** The update body's own identifier is stored verbatim, so an update keeps
      identifiers unique exactly when that identifier is the path identifier
      or belongs to no stored recipe. */
  lemma UpdateKeepsIdsUniqueIff(s: seq<Recipe>, id: string, recipe: Recipe)
    requires UniqueIds(s) && HasId(s, id)
    ensures UniqueIds(Update(s, id, Bound(recipe)).store) <==> recipe.id == id || !HasId(s, recipe.id)
  {
    var k := LastMatch(s, id);
    var t := Update(s, id, Bound(recipe)).store;
    assert t == s[k := recipe];
    if recipe.id == id || !HasId(s, recipe.id) {
      forall i, j | 0 <= i < j < |t| ensures t[i].id != t[j].id {
        if i == k {
          assert t[j] == s[j];
        } else if j == k {
          assert t[i] == s[i];
        } else {
          assert t[i] == s[i] && t[j] == s[j];
        }
      }
    } else {
      var m :| 0 <= m < |s| && s[m].id == recipe.id;
      assert m != k;
      assert t[m].id == t[k].id;
    }
  }

  /** Deleting the identifier a create just generated restores the
      collection. */
  lemma DeleteUndoesCreate(s: seq<Recipe>, recipe: Recipe, freshId: string, now: Time)
    requires !HasId(s, freshId)
    ensures Delete(Create(s, Bound(recipe), freshId, now).store, freshId).store == s
  {
    var t := Create(s, Bound(recipe), freshId, now).store;
    assert t == s + [t[|s|]];
    assert forall j :: 0 <= j < |s| ==> t[j].id != freshId;
    assert IsFirstMatch(t, freshId, |s|);
    var k := FirstMatch(t, freshId);
    assert k == |s|;
  }

  /** A recipe just created under a fresh identifier is what a get for that
      identifier returns. */
  lemma GetAfterCreate(s: seq<Recipe>, recipe: Recipe, freshId: string, now: Time)
    requires !HasId(s, freshId)
    ensures Get(Create(s, Bound(recipe), freshId, now).store, freshId).reply
         == Create(s, Bound(recipe), freshId, now).reply
  {
    var t := Create(s, Bound(recipe), freshId, now).store;
    assert forall j :: 0 <= j < |s| ==> t[j].id != freshId;
    assert IsFirstMatch(t, freshId, |s|);
  }

  /** With unique identifiers, an update whose body keeps the path identifier
      is what a later get for that identifier returns. */
  lemma GetAfterUpdate(s: seq<Recipe>, id: string, recipe: Recipe)
    requires UniqueIds(s) && HasId(s, id) && recipe.id == id
    ensures Get(Update(s, id, Bound(recipe)).store, id).reply == Reply(StatusOK, One(recipe))
  {
    UpdateKeepsIdsUniqueIff(s, id, recipe);
    var k := LastMatch(s, id);
    var t := Update(s, id, Bound(recipe)).store;
    assert t[k] == recipe;
    UniqueFirstIsLast(t, id);
    assert IsLastMatch(t, id, k);
  }

  /** With unique identifiers, an update whose body carries a different
      identifier makes the path identifier unreachable. */
  lemma UpdateMovesId(s: seq<Recipe>, id: string, recipe: Recipe)
    requires UniqueIds(s) && HasId(s, id) && recipe.id != id
    ensures Get(Update(s, id, Bound(recipe)).store, id).reply == Reply(StatusNotFound, Error(NotFoundMessage))
  {
    var k := LastMatch(s, id);
    var t := Update(s, id, Bound(recipe)).store;
    assert t == s[k := recipe];
    forall j | 0 <= j < |t| ensures t[j].id != id {
      if j != k {
        assert t[j] == s[j];
      }
    }
  }

  /** With unique identifiers, a deleted identifier is no longer found. */
  lemma GetAfterDelete(s: seq<Recipe>, id: string)
    requires UniqueIds(s)
    ensures Get(Delete(s, id).store, id).reply.status == StatusNotFound
  {
    var k := FirstMatch(s, id);
    if k != -1 {
      var t := Delete(s, id).store;
      assert t == s[..k] + s[k + 1..];
      forall j | 0 <= j < |t| ensures t[j].id != id {
        if j < k {
          assert t[j] == s[j];
        } else {
          assert t[j] == s[j + 1];
        }
      }
    }
  }

  /** When two recipes share `id`, update overwrites the later one and leaves
      the earlier in place, while delete removes the earlier one and keeps the
      later; get reports the earlier one. */
  lemma DuplicateIdTieBreak(s: seq<Recipe>, id: string, recipe: Recipe, i: int, j: int)
    requires 0 <= i < j < |s| && s[i].id == id && s[j].id == id
    ensures Update(s, id, Bound(recipe)).store[i] == s[i]
    ensures Delete(s, id).store[j - 1] == s[j]
    ensures Get(s, id).reply.body == One(s[FirstMatch(s, id)])
    ensures FirstMatch(s, id) <= i < j <= LastMatch(s, id)
  {
    var f, l := FirstMatch(s, id), LastMatch(s, id);
    assert IsFirstMatch(s, id, f) && IsLastMatch(s, id, l);
    var t := Delete(s, id).store;
    assert t[j - 1] == s[j];
  }

  /** The search query is compared up to case: queries equal up to case give
      the same reply. */
  lemma {:induction false} SearchIgnoresQueryCase(s: seq<Recipe>, tag1: string, tag2: string)
    requires EqualFold(tag1, tag2)
    ensures Search(s, tag1) == Search(s, tag2)
  {
    FilterIgnoresQueryCase(s, tag1, tag2);
  }

  lemma {:induction false} FilterIgnoresQueryCase(s: seq<Recipe>, tag1: string, tag2: string)
    requires EqualFold(tag1, tag2)
    ensures Filter(s, tag1) == Filter(s, tag2)
    decreases |s|
  {
    if |s| != 0 {
      forall t | t in s[0].tags ensures EqualFold(t, tag1) <==> EqualFold(t, tag2) {
        EqualFoldIsEquivalence(t, tag1, tag2);
        EqualFoldIsEquivalence(t, tag2, tag1);
        EqualFoldIsEquivalence(tag1, tag2, t);
      }
      assert HasTag(s[0], tag1) <==> HasTag(s[0], tag2);
      FilterIgnoresQueryCase(s[1..], tag1, tag2);
    }
  }

  /** A search after a create sees the earlier results followed by the new
      recipe when it carries the tag. */
  lemma SearchAfterCreate(s: seq<Recipe>, recipe: Recipe, freshId: string, now: Time, tag: string)
    ensures var c := Create(s, Bound(recipe), freshId, now);
      Search(c.store, tag).reply.body.recipes
        == Search(s, tag).reply.body.recipes + (if HasTag(recipe, tag) then [c.store[|s|]] else [])
  {
    var c := Create(s, Bound(recipe), freshId, now);
    assert c.store == s + [c.store[|s|]];
    FilterAppend(s, [c.store[|s|]], tag);
    FilterSingle(c.store[|s|], tag);
  }
}
