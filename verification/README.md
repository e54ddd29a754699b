# In-memory recipe store

A Dafny model of the first iteration of a Gin recipe service (`main.go`).
In that iteration the recipes live in a package-level slice, and each HTTP
handler is a short loop over it:

- `POST /recipes` (create) appends the posted recipe with a generated ID and a timestamp.
- `PUT /recipes/{id}` (update) overwrites the last recipe with that ID.
- `DELETE /recipes/{id}` (delete) splices out the first recipe with that ID.
- `GET /recipes/search?tag=` (search) lists the recipes that have a tag equal to the query, ignoring case.
- `GET /recipes/{id}` (get) returns the first recipe with that ID.
- `GET /recipes` (list) returns the whole slice.

The collection is a `seq<Recipe>`. Each handler takes the collection and the
request and returns an `Outcome`: the new collection plus the reply, which is
a status code and a JSON body. Some inputs are made into parameters:

- the generated ID and `time.Now()` are passed to create;
- request binding is an input that either succeeded with a recipe or failed with an error text.

Modules:

- `Recipes` (`recipe.dfy`): the record, and predicates for "some recipe has this ID", "first match", "last match" and "IDs are unique".
- `Fold` (`fold.dfy`): case-insensitive comparison of strings.
- `Http` (`http.dfy`): status codes, the fixed message texts, binding results, reply bodies.
- `Matching` (`matching.dfy`): first-match and last-match lookup, and the tag filter with its subsequence and multiset characterisation.
- `Handlers` (`handlers.dfy`): one pure function per handler. Its contract states the handler's behaviour on every path, error paths included.
- `Loops` (`loops.dfy`): the handlers written as the source writes them. These are loops with a `-1` sentinel: update scans without `break`, delete stops at the first match with `break`, get returns from inside the loop, and search uses a `found` flag. Each method is proved equal to its `Handlers` function.
- `Properties` (`properties.dfy`): lemmas that relate several calls. They cover unique IDs, create/delete inverses, what get sees after a write, query-case independence of search, and how update and delete pick different recipes when IDs are duplicated.

Two points about the code itself:

- The database-backed handlers in `handlers/handler.go` leave delete as a commented-out stub. `main.go` implements it, and the model follows `main.go`.
- Create generates a fresh identifier, but nothing enforces uniqueness. Update stores the body's own `id` verbatim, so it can create duplicates or empty IDs. `Properties.UpdateKeepsIdsUniqueIff` states exactly when uniqueness survives an update. `Properties.DuplicateIdTieBreak` states how the handlers then disagree.

## Model

| member | source | states |
|---|---|---|
| Matching.FirstMatch | main.go:112-118 | -1 exactly when no recipe has the ID; otherwise the index holds the ID and no earlier index does |
| Matching.LastMatch | main.go:85-90 | -1 exactly when no recipe has the ID; otherwise the index holds the ID and no later index does |
| Matching.Filter | main.go:140-152 | every kept recipe has the tag, and the result is no longer than the collection |
| Matching.FilterIsSubsequence | main.go:141-152 | the search result is the collection with some recipes deleted, order kept |
| Matching.FilterCounts | main.go:141-152 | every recipe with the tag is kept as many times as the collection holds it, and every other recipe zero times |
| Matching.FilterSingle | main.go:148-151 | a single recipe is kept exactly when one of its tags matches |
| Matching.FilterAppend | main.go:149-150 | filtering a concatenation gives the concatenation of the filtered parts, so the order of the collection is kept |
| Matching.FilterMembership | main.go:141-152 | a recipe is in the search result exactly when it is in the collection and has the tag |
| Fold.LowerFoldsCase | main.go:144 | two distinct characters fold together exactly when one is the upper-case ASCII letter of the other |
| Fold.EqualFoldIsEquivalence | main.go:144 | case-insensitive equality is reflexive, symmetric and transitive |
| Handlers.List | main.go:38-40 | replies 200 with the collection as it stands and changes nothing |
| Handlers.Create | main.go:52-64 | a failed bind gives 400 with the bind error and changes nothing; otherwise the collection grows by one, earlier recipes are untouched, and the new last recipe has the generated ID, the given timestamp and the body's other fields; the reply is 200 with that recipe |
| Handlers.Update | main.go:77-98 | a failed bind gives 400 and changes nothing, even when the ID is unknown; an unknown ID gives 404 "Recipe not found" and changes nothing; otherwise the last index with the ID becomes the body exactly, including the body's own ID, every other index is unchanged, and the reply is 200 with the body |
| Handlers.Delete | main.go:110-127 | an unknown ID gives 404 and changes nothing; otherwise the first recipe with the ID is removed, length drops by one, the prefix before it and the suffix after it are kept in order, and the reply is the 200 deleted message |
| Handlers.Search | main.go:138-154 | always 200; the collection is unchanged; the list is an order-preserving subsequence of the collection in which every recipe with a tag equal to the query ignoring case occurs as many times as in the collection, and no other recipe occurs |
| Handlers.Get | main.go:166-176 | the collection is unchanged; 404 exactly when no recipe has the ID; otherwise 200 with the first recipe that has it |
| Loops.UpdateRecipe | main.go:77-98 | the full-scan loop without break gives the same collection and reply as Handlers.Update |
| Loops.DeleteRecipe | main.go:110-127 | the loop that breaks on the first match, followed by the splice, gives the same collection and reply as Handlers.Delete |
| Loops.AnyTagMatches | main.go:142-147 | the found flag ends true exactly when some tag equals the query ignoring case |
| Loops.SearchRecipes | main.go:138-154 | appending each qualifying recipe in turn gives the same collection and reply as Handlers.Search |
| Loops.GetRecipe | main.go:166-176 | returning from inside the loop gives the same collection and reply as Handlers.Get |
| Properties.UniqueFirstIsLast | main.go:85-118 | with unique IDs, the first match (used by delete) and the last match (used by update) are the same index |
| Properties.CreateKeepsIdsUnique | main.go:60-62 | appending under an ID that is not yet present keeps IDs unique |
| Properties.DeleteKeepsIdsUnique | main.go:124 | splicing out a recipe keeps IDs unique |
| Properties.UpdateKeepsIdsUniqueIff | main.go:96 | an update keeps IDs unique if and only if the body's ID is the path ID or is not yet present |
| Properties.DeleteUndoesCreate | main.go:52-127 | deleting the ID that create just generated gives back the original collection |
| Properties.GetAfterCreate | main.go:52-176 | get for an ID that create just generated returns create's own reply |
| Properties.GetAfterUpdate | main.go:77-176 | with unique IDs, after an update whose body keeps the path ID, get for that ID returns the body |
| Properties.UpdateMovesId | main.go:77-176 | with unique IDs, after an update whose body has a different ID, get for the path ID gives 404 |
| Properties.GetAfterDelete | main.go:110-176 | with unique IDs, get for a just-deleted ID gives 404 |
| Properties.DuplicateIdTieBreak | main.go:85-176 | when two recipes share an ID: update leaves the earlier one in place, delete keeps the later one (shifted down one place), get returns the first one, and first match <= earlier < later <= last match |
| Properties.SearchIgnoresQueryCase | main.go:139-153 | two queries that are equal ignoring case give the same search reply |
| Properties.FilterIgnoresQueryCase | main.go:143-147 | filtering by two queries that are equal ignoring case keeps the same recipes |
| Properties.SearchAfterCreate | main.go:52-154 | after a create, search returns the earlier results followed by the new recipe when it has the tag |

## Left out

- `handlers/handler.go`: the database- and cache-backed handlers are direct client calls or commented-out stubs, with no logic of their own to model.
- `models/recipe.go`: a plain record typed on a database object ID, with no behaviour.
- Loading `recipes.json` at start-up (`main.go:180-184`): file I/O. The initial collection is an arbitrary sequence.
- ID generation and `time.Now()` (`main.go:60-61`): nondeterministic. They are parameters of `Handlers.Create`. Freshness of the ID is a hypothesis of the lemmas that need it.
- JSON decoding in `ShouldBindJSON`: the model only sees its result, a bound recipe or an error text. JSON encoding of replies is not modelled; the reply body is the value that would be encoded.
- Routing, middleware and Swagger setup (`main.go:202-231`): framework glue.
- Fold.Lower: folds only the ASCII letters A-Z. Go's `strings.EqualFold` uses full Unicode simple case folding, for example the Kelvin sign or accented letters. So `EqualFold` here is a sub-relation of Go's on non-ASCII text.
- Timestamps: Go's `time.Time` is reduced to one integer, because the handlers only copy it.
- Concurrent requests on the unsynchronised global slice: handler calls are taken to be sequential.
- Backing-array aliasing in Go's `append(recipes[:index], recipes[index+1:]...)`: the splice reuses the slice's storage. Nothing else holds a reference when handlers run sequentially, so the value-level sequence model is exact.
