# Todo store

A Dafny model of the in-memory todo store of an Express server
(`02-nodejs/todoServer.js`). The server keeps one ordered array of todo records
and answers five routes over it: list all, get one by id, create, update by id,
and delete by id. Two helpers do the work: `findIndex`, a linear scan that
returns the position of the first record with a given id or -1, and
`removeAtIndex`, which rebuilds the array without one position.

The model has five modules:

- `Wrappers`: `Option`. A JSON field missing from the request body is read as
  `undefined`; the model writes that as `None`.
- `Todos`: the `Todo` record `(id, title, description)`, the helpers
  `FindIndex` and `RemoveAtIndex` as functions, and the same two helpers as the
  loops the server writes (`FindIndexLoop`, `RemoveAtIndexLoop`), each proved
  equal to its function.
- `Handlers`: each route handler as a pure transition
  `(collection, request) -> (collection', status, body)`, plus the route table
  `Handle`. The `:id` path segment is the result of `parseInt`, an
  `Option<int>`. `None` stands for `NaN`, which is strictly equal to no id.
  The random id of the create handler is a parameter, restricted to the values
  `Math.round(Math.random() * 1000)` can take (0 to 1000).
- `StoreProperties`: lemmas that relate several calls: GET after POST, DELETE
  after POST, repeated PUT, GET after PUT, what DELETE removes, and a whole
  create/read/update/delete walk.
- `FreshIds`: id uniqueness. This covers the collision the drawn id allows and
  a corrected, collision-free create.

Ids are never assumed unique in the model of the server as written. Where two
records share an id, the keyed routes act on the first of them.

Where the server's header comment and its code disagree, the model follows the
code:

- POST answers 201 with the whole collection, not with `{id}`.
- No `completed` field is stored, neither on POST nor on PUT.
- PUT answers 200 with the updated record.
- PUT sets an absent `title` or `description` to `undefined` rather than
  keeping the old value.

## Model

| member | source | states |
|---|---|---|
| `Todos.FindIndex` | 02-nodejs/todoServer.js:124-131 | -1 exactly when no record carries the key, an unparseable key included; otherwise an in-range position whose record has the id and before which no record has it |
| `Todos.FindIndexLoop` | 02-nodejs/todoServer.js:124-131 | the early-return loop gives the same characterisation and the same answer as `FindIndex` |
| `Todos.RemoveAtIndex` | 02-nodejs/todoServer.js:133-139 | for an in-range index the result is the prefix before it followed by the suffix after it (order kept, one shorter); for any other index the array unchanged |
| `Todos.RemoveAtIndexLoop` | 02-nodejs/todoServer.js:133-139 | the push-all-but-one loop gives the same result as `RemoveAtIndex` in both cases |
| `Handlers.List` | 02-nodejs/todoServer.js:58-61 | GET /todos answers 200 with the collection as it is and leaves it unchanged |
| `Handlers.Get` | 02-nodejs/todoServer.js:65-75 | collection unchanged; 404 with no body exactly when no record carries the key; otherwise 200 with the first record that does |
| `Handlers.Create` | 02-nodejs/todoServer.js:78-90 | one record `(newId, title, description)` appended at the end, every earlier record unchanged, 201 with the whole new collection |
| `Handlers.Update` | 02-nodejs/todoServer.js:93-104 | 404, no body, collection unchanged exactly when no record carries the key; otherwise the first match gets the request's title and description under its own id, every other record and the length stay, 200 with the updated record |
| `Handlers.Delete` | 02-nodejs/todoServer.js:108-118 | no body; 404 and collection unchanged exactly when no record carries the key; otherwise 200 and exactly the first matching record is removed, order kept |
| `Handlers.Handle` | 02-nodejs/todoServer.js:58-118 | a keyed request whose id is not found answers 404 with no body and the same collection; both GET routes leave the collection unchanged; POST answers 201 |
| `StoreProperties.UnparseableIdIsNotFound` | 02-nodejs/todoServer.js:65-118 | GET, PUT and DELETE with an id `parseInt` cannot read answer 404 with no body and change nothing |
| `StoreProperties.SameIdsSameLookup` | 02-nodejs/todoServer.js:124-131 | the scan depends on the ids alone: collections with the same ids at the same positions give the same position for every key |
| `StoreProperties.UpdatePreservesLookup` | 02-nodejs/todoServer.js:99-102 | after a PUT every key finds the same position as before |
| `StoreProperties.UpdateIdempotent` | 02-nodejs/todoServer.js:93-104 | a PUT repeated with the same id and body gives the same collection, status and body as the first |
| `StoreProperties.UpdateThenGet` | 02-nodejs/todoServer.js:99-102 | after a PUT on a found id, GET on it answers the record with that id and the new title and description |
| `StoreProperties.CreateThenGet` | 02-nodejs/todoServer.js:79-85 | after a POST, the lookup of the new id lands on the new record exactly when the id was unused, and GET then answers it; otherwise GET answers the older record, as before the POST |
| `StoreProperties.CreateThenDelete` | 02-nodejs/todoServer.js:79-116 | when the drawn id was unused, DELETE of it after the POST answers 200 and restores the original collection |
| `StoreProperties.DeleteRemovesOneRecord` | 02-nodejs/todoServer.js:108-118 | DELETE on a found id lowers that id's count by exactly one, keeps the count of every id the removed record does not carry, and removes one copy of the removed record from the multiset of records |
| `StoreProperties.Lifecycle` | 02-nodejs/todoServer.js:9-36 | for an unused drawn id: POST answers 201, GET answers the created record, PUT answers the updated one, DELETE answers 200 and restores the collection, and GET then answers 404 |
| `FreshIds.CreateKeepsUniqueIds` | 02-nodejs/todoServer.js:79-85 | on a collection with unique ids, POST keeps them unique exactly when the drawn id was not in use |
| `FreshIds.DrawnIdCollision` | 02-nodejs/todoServer.js:80 | with id 7 stored and a draw of 7, POST answers 201, two records then share id 7, and GET on 7 answers the older record, not the created one |
| `FreshIds.UpdateKeepsUniqueIds` | 02-nodejs/todoServer.js:99-102 | PUT keeps unique ids unique |
| `FreshIds.DeleteKeepsUniqueIds` | 02-nodejs/todoServer.js:108-118 | DELETE keeps unique ids unique, and with unique ids the deleted id is gone afterwards |
| `FreshIds.NextId` | 02-nodejs/todoServer.js:7 | the corrected id is non-negative and larger than every id in use, so no record carries it |
| `FreshIds.CreateFresh` | 02-nodejs/todoServer.js:78-90 | the corrected POST uses an unused id, keeps ids unique, appends after the unchanged old records, answers 201, and GET on the new id answers the new record |
| `FreshIds.HandleFresh` | 02-nodejs/todoServer.js:58-118 | the route table with the corrected POST keeps ids unique and answers every other request as the server does |
| `FreshIds.ServeFreshKeepsUniqueIds` | 02-nodejs/todoServer.js:54 | from a collection with unique ids, the empty starting one included, any sequence of requests served with the corrected POST leaves ids unique |

## Left out

- Express plumbing: the app setup, CORS, the JSON body parser, `app.listen` and its console output (todoServer.js:42-52, 120-122). Requests enter the model already routed and decoded.
- `parseInt` is not modelled. The `:id` segment enters as the integer it parses to, or `None` for `NaN`. Its prefix parsing, where `"12abc"` reads as 12, is taken as given.
- `Math.random()` is not modelled. The drawn id is a parameter in 0..1000, the range of `Math.round(Math.random() * 1000)`.
- JSON values other than strings in `title` or `description` are not modelled. The model keeps those fields as optional strings. JSON serialisation of replies is not modelled either.
- The 404 for routes the table does not know is not modelled. Express supplies it by default; no code in this file produces it.
- Saving the todos to files, mentioned in the header (line 4), is not modelled because the server does not implement it.
- Numbers beyond the exactly representable doubles are not modelled. Ids are unbounded integers.
- In-place mutation is not modelled. PUT writes through a shared object reference, which the model expresses as a new collection. No reply aliases that object after the handler returns.

## Findings

| source | as written | input that shows it | evidently intended | confidence | as-written member | corrected member |
|---|---|---|---|---|---|---|
| 02-nodejs/todoServer.js:80 | the new id is `Math.round(Math.random() * 1000)`, with no check against ids in use | a store holding id 7 and a draw of 7: two records then share id 7, and GET on 7 answers the older record | a unique id per created todo, as the header asks (line 7) | high (not executed) | `FreshIds.DrawnIdCollision` | `FreshIds.CreateFresh` |
