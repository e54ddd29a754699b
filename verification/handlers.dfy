/** Each HTTP handler of the in-memory service as a pure function from the
    collection (and the request) to the new collection and the reply. */
module Handlers {
  import opened Recipes
  import opened Http
  import opened Matching

  /** GET /recipes: the whole collection, unchanged. */
  function List(store: seq<Recipe>): (r: Outcome)
    ensures r.store == store
    ensures r.reply.status == StatusOK && r.reply.body.Many?
    ensures r.reply.body.recipes == store
  {
    Outcome(store, Reply(StatusOK, Many(store)))
  }

  /** POST /recipes. A body that does not bind is rejected with 400 before
      anything else happens; otherwise the bound recipe gets the generated
      identifier `freshId` and the timestamp `now` and is appended. */
  function Create(store: seq<Recipe>, body: Bind, freshId: string, now: Time): (r: Outcome)
    ensures body.BindError? ==>
      r.store == store && r.reply == Reply(StatusBadRequest, Error(body.error))
    ensures body.Bound? ==>
      && |r.store| == |store| + 1
      && r.store[..|store|] == store
      && r.store[|store|].id == freshId
      && r.store[|store|].publishedAt == now
      && r.store[|store|].name == body.recipe.name
      && r.store[|store|].tags == body.recipe.tags
      && r.store[|store|].ingredients == body.recipe.ingredients
      && r.store[|store|].instructions == body.recipe.instructions
      && r.reply == Reply(StatusOK, One(r.store[|store|]))
  {
    match body
    case BindError(e) => Outcome(store, Reply(StatusBadRequest, Error(e)))
    case Bound(recipe) =>
      var created := recipe.(id := freshId, publishedAt := now);
      Outcome(store + [created], Reply(StatusOK, One(created)))
  }

  /** PUT /recipes/{id}. The body is bound first (400 on failure), then the
      LAST recipe carrying `id` is overwritten by the body as bound, the
      body's own identifier and timestamp included; 404 when none carries
      `id`. */
  function Update(store: seq<Recipe>, id: string, body: Bind): (r: Outcome)
    ensures body.BindError? ==>
      r.store == store && r.reply == Reply(StatusBadRequest, Error(body.error))
    ensures body.Bound? && !HasId(store, id) ==>
      r.store == store && r.reply == Reply(StatusNotFound, Error(NotFoundMessage))
    ensures body.Bound? && HasId(store, id) ==>
      && r.reply == Reply(StatusOK, One(body.recipe))
      && exists k :: IsLastMatch(store, id, k) && r.store == store[k := body.recipe]
  {
    match body
    case BindError(e) => Outcome(store, Reply(StatusBadRequest, Error(e)))
    case Bound(recipe) =>
      var index := LastMatch(store, id);
      if index == -1 then Outcome(store, Reply(StatusNotFound, Error(NotFoundMessage)))
      else Outcome(store[index := recipe], Reply(StatusOK, One(recipe)))
  }

  /** DELETE /recipes/{id}. The FIRST recipe carrying `id` is spliced out,
      the others keeping their order; 404 when none carries `id`. */
  function Delete(store: seq<Recipe>, id: string): (r: Outcome)
    ensures !HasId(store, id) ==>
      r.store == store && r.reply == Reply(StatusNotFound, Error(NotFoundMessage))
    ensures HasId(store, id) ==>
      && r.reply == Reply(StatusOK, Message(DeletedMessage))
      && |r.store| == |store| - 1
      && exists k :: IsFirstMatch(store, id, k) && r.store[..k] == store[..k] && r.store[k..] == store[k + 1..]
  {
    var index := FirstMatch(store, id);
    if index == -1 then Outcome(store, Reply(StatusNotFound, Error(NotFoundMessage)))
    else Outcome(store[..index] + store[index + 1..], Reply(StatusOK, Message(DeletedMessage)))
  }

  /** GET /recipes/search?tag=. The recipes with a tag equal to `tag` up to
      case, in collection order and each as often as the collection holds
      it; the collection is not modified. */
  function Search(store: seq<Recipe>, tag: string): (r: Outcome)
    ensures r.store == store
    ensures r.reply.status == StatusOK && r.reply.body.Many?
    ensures forall x :: x in r.reply.body.recipes <==> x in store && HasTag(x, tag)
    ensures IsSubsequence(r.reply.body.recipes, store)
    ensures KeepsQualifying(r.reply.body.recipes, store, tag)
  {
    var found := Filter(store, tag);
    FilterIsSubsequence(store, tag);
    FilterCounts(store, tag);
    assert forall x :: x in found <==> x in store && HasTag(x, tag) by {
      forall x ensures x in found <==> x in store && HasTag(x, tag) {
        FilterMembership(store, tag, x);
      }
    }
    Outcome(store, Reply(StatusOK, Many(found)))
  }

  /** GET /recipes/{id}. The FIRST recipe carrying `id`, or 404 exactly when
      none does; the collection is not modified. */
  function Get(store: seq<Recipe>, id: string): (r: Outcome)
    ensures r.store == store
    ensures r.reply.status == StatusNotFound <==> !HasId(store, id)
    ensures !HasId(store, id) ==> r.reply.body == Error(NotFoundMessage)
    ensures HasId(store, id) ==>
      && r.reply.status == StatusOK
      && exists k :: IsFirstMatch(store, id, k) && r.reply.body == One(store[k])
  {
    var index := FirstMatch(store, id);
    if index == -1 then Outcome(store, Reply(StatusNotFound, Error(NotFoundMessage)))
    else Outcome(store, Reply(StatusOK, One(store[index])))
  }
}
