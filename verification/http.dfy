/** What the handlers read from a request and write as a reply. */
module Http {
  import opened Recipes

  const StatusOK := 200
  const StatusBadRequest := 400
  const StatusNotFound := 404

  /** The error text of a lookup that finds no recipe. */
  const NotFoundMessage := "Recipe not found"
  /** The message text of a successful delete. */
  const DeletedMessage := "Recipe has been deleted"

  /** The result of binding a JSON request body to a recipe: either the decoded
      recipe, or the decoder's error text. */
  datatype Bind = Bound(recipe: Recipe) | BindError(error: string)

  /** A JSON reply body. */
  datatype Body =
    | One(recipe: Recipe)
    | Many(recipes: seq<Recipe>)
    | Error(error: string)
    | Message(message: string)

  datatype Reply = Reply(status: int, body: Body)

  /** The collection after a handler has run, with the reply it wrote. */
  datatype Outcome = Outcome(store: seq<Recipe>, reply: Reply)
}
