/** The handlers written the way the service writes them: index loops over
    the collection with a -1 sentinel, an early `break` or `return`, and a
    `found` flag. Each method is proved to agree with its functional
    counterpart in `Handlers`. */
module Loops {
  import opened Recipes
  import opened Fold
  import opened Http
  import opened Matching
  import Handlers

  /** PUT /recipes/{id}: binds, then scans the whole collection without
      stopping, so the index left behind is the last match. */
  method UpdateRecipe(recipes: seq<Recipe>, id: string, body: Bind)
    returns (recipes': seq<Recipe>, reply: Reply)
    ensures Outcome(recipes', reply) == Handlers.Update(recipes, id, body)
  {
    if body.BindError? {
      return recipes, Reply(StatusBadRequest, Error(body.error));
    }
    var index := -1;
    for i := 0 to |recipes|
      invariant index == -1 <==> !HasId(recipes[..i], id)
      invariant index != -1 ==> IsLastMatch(recipes[..i], id, index)
    {
      if recipes[i].id == id {
        index := i;
      }
    }
    assert recipes[..|recipes|] == recipes;
    if index == -1 {
      return recipes, Reply(StatusNotFound, Error(NotFoundMessage));
    }
    recipes' := recipes[index := body.recipe];
    reply := Reply(StatusOK, One(body.recipe));
  }

  /** DELETE /recipes/{id}: scans until the first match and breaks, then
      splices that slot out. */
  method DeleteRecipe(recipes: seq<Recipe>, id: string)
    returns (recipes': seq<Recipe>, reply: Reply)
    ensures Outcome(recipes', reply) == Handlers.Delete(recipes, id)
  {
    var index := -1;
    var i := 0;
    while i < |recipes|
      invariant 0 <= i <= |recipes|
      invariant forall j :: 0 <= j < i ==> recipes[j].id != id
    {
      if recipes[i].id == id {
        index := i;
        break;
      }
      i := i + 1;
    }
    if index == -1 {
      return recipes, Reply(StatusNotFound, Error(NotFoundMessage));
    }
    recipes' := recipes[..index] + recipes[index + 1..];
    reply := Reply(StatusOK, Message(DeletedMessage));
  }

  /** The inner loop of the search handler: visits every tag and raises
      `found` on a case-insensitive hit, never lowering it again. */
  method AnyTagMatches(tags: seq<string>, tag: string) returns (found: bool)
    ensures found <==> exists j :: 0 <= j < |tags| && EqualFold(tags[j], tag)
  {
    found := false;
    for k := 0 to |tags|
      invariant found <==> exists j :: 0 <= j < k && EqualFold(tags[j], tag)
    {
      if EqualFold(tags[k], tag) {
        found := true;
      }
    }
  }

  /** GET /recipes/search?tag=: appends each qualifying recipe to a fresh
      list, in collection order. */
  method SearchRecipes(recipes: seq<Recipe>, tag: string)
    returns (recipes': seq<Recipe>, reply: Reply)
    ensures Outcome(recipes', reply) == Handlers.Search(recipes, tag)
  {
    var listOfRecipes: seq<Recipe> := [];
    for i := 0 to |recipes|
      invariant listOfRecipes == Filter(recipes[..i], tag)
    {
      var found := AnyTagMatches(recipes[i].tags, tag);
      FilterExtend(recipes, i, tag);
      if found {
        listOfRecipes := listOfRecipes + [recipes[i]];
      }
    }
    assert recipes[..|recipes|] == recipes;
    recipes', reply := recipes, Reply(StatusOK, Many(listOfRecipes));
  }

  /** GET /recipes/{id}: returns from inside the loop at the first match. */
  method GetRecipe(recipes: seq<Recipe>, id: string)
    returns (recipes': seq<Recipe>, reply: Reply)
    ensures Outcome(recipes', reply) == Handlers.Get(recipes, id)
  {
    for i := 0 to |recipes|
      invariant forall j :: 0 <= j < i ==> recipes[j].id != id
    {
      if recipes[i].id == id {
        return recipes, Reply(StatusOK, One(recipes[i]));
      }
    }
    recipes', reply := recipes, Reply(StatusNotFound, Error(NotFoundMessage));
  }
}
