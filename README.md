# Ideas persistence core, modelled in Dafny

This project models the persistence core of an ideas store (the records are
"ideas": a title and a description). The core is `IdeasRepository` and the
`IdeasService` layer above it.

`IdeasRepository` owns two collections:

- the **counters**: one `seq` per entity name;
- the **ideas**: documents with a unique `id`, a `title` and a `description`.

`getNextSequenceValue` is an upsert-and-increment on a counter. `save` draws
the next `'ideas'` value and inserts a record carrying it. The schema marks
`title` and `description` as required, so the insert fails validation when
either is empty; the drawn value is consumed all the same. `findById`,
`update` and `deleteById` are keyed. They fail with "Idea not found" when no
record has the id. `deleteAll` clears the ideas and leaves the counters.
`IdeasService` forwards every call to the repository it holds.

Each Mongo call (`findOneAndUpdate`, `findOne`, `find`, `save`,
`findOneAndDelete`, `deleteMany`) is one indivisible step on the fields of a
class. A thrown `Error('Idea not found')` becomes the `NotFound` variant of a
tagged `Result`, and the validation error `save()` throws becomes the
`ValidationError` variant of `SaveResult`.

Files, leaves first:

- `wrappers.dfy`: `Option`, for the fields an update may leave out.
- `schemas.dfy`: `Idea`, `CreateIdeaDto`, `UpdateIdeaDto`, `Result`,
  `SaveResult`, the schema's required-field check, and the entity name
  `"ideas"`.
- `store.dfy`: what the collections mean.
  - `Table` views the document sequence as a map from id to record.
  - `Snapshot` pairs the counters with that map.
  - `Inv` is the invariant: each record is stored under its own id, and each id
    lies in `1..seq` of the `'ideas'` counter.
  - One specification function per repository operation.
- `history.dfy`: any sequence of calls.
  - The invariant survives every run.
  - The `'ideas'` counter never goes down.
  - Every counter hands out consecutive values: the k-th draw of a run returns
    the starting value + k + 1.
  - The ids of stored records strictly increase, so no id is handed out twice,
    whatever was deleted or refused in between.
  - When every draw on `'ideas'` is a save that stores, the ids are consecutive.
  - Read-after-write laws.
- `repository.dfy`: the class `IdeasRepository`.
  - Its fields are `counters: map<string, nat>` and `ideas: seq<Idea>`.
  - A loop scans for the position of an id.
  - Every method ties its new state and its result to the specification function
    in `store.dfy`, and also states the new sequence itself.
- `service.dfy`: the class `IdeasService`. Its only field is
  `const repository`. Its methods modify only the repository and carry the
  repository's contracts.
- `scenarios.dfy`: callers that work on fresh objects. They check what the
  contracts let a caller conclude in the cases of the service's tests.

How the code divides the work:

- The repository's `save` draws the id and inserts the record. The service
  only forwards the body (src/ideas/ideas.repository.ts:39-43,
  src/ideas/ideas.service.ts:20-22).
- The code has no explicit duplicate-identity error. It relies on the unique
  index on `id`. The model proves the index never rejects a `save`: the new id
  is absent from the collection before the insert.
- `find()` uses the store's natural order. The model states the contents of
  the result and not its order.

## Model

| member | source | states |
|---|---|---|
| Store.Table | src/ideas/schemas/idea.schema.ts:8-9 | an id is a key of the map exactly when some document carries it, and the record at each key carries that key as its id |
| Store.TableAt | src/ideas/schemas/idea.schema.ts:8-9 | when ids are unique, each document is exactly the record the map holds at its id |
| Store.TableHolds | src/ideas/schemas/idea.schema.ts:8-9 | when ids are unique, a record is in the collection exactly when the map holds it at its own id |
| Store.TableValues | src/ideas/ideas.repository.ts:27-29 | when ids are unique, the map's values are exactly the documents of the collection |
| Store.TableSize | src/ideas/ideas.repository.ts:27-29 | when ids are unique, the map has exactly one entry per document |
| Store.TableAppend | src/ideas/ideas.repository.ts:41-42 | inserting a document adds exactly its entry to the map |
| Store.TableUpdateAt | src/ideas/ideas.repository.ts:46 | replacing one document with a same-id record keeps ids unique and changes only that entry of the map |
| Store.TableRemoveAt | src/ideas/ideas.repository.ts:59 | removing one document keeps ids unique and removes exactly its id from the map, leaving every other entry |
| Store.ConsistentAppend | src/ideas/ideas.repository.ts:39-43 | inserting a record that carries the next counter value, with the counter advanced, keeps ids unique and within 1..seq |
| Store.ConsistentInv | src/ideas/schemas/idea.schema.ts:8-9 | collections with unique ids in 1..seq give a snapshot satisfying the invariant |
| Store.NextSequenceValue | src/ideas/ideas.repository.ts:18-25 | returns 1 and creates the counter when the entity has none; otherwise returns the previous seq + 1; that value is stored; other entities' counters and the ideas are untouched; the invariant is kept |
| Store.Save | src/ideas/ideas.repository.ts:39-43 | the `'ideas'` counter is advanced as by NextSequenceValue in every case; the record is stored exactly when title and description are both non-empty (the schema's required check, src/ideas/schemas/idea.schema.ts:11-15), and otherwise the result is a validation error with the ideas unchanged; a stored record has id counter + 1 and the body's title and description and is added at its id; under the invariant the id was not stored before, the collection grows by exactly one, the old records stay and the invariant is kept |
| Store.FindById | src/ideas/ideas.repository.ts:31-37 | not-found exactly when no record has the id; otherwise the record at that id, which carries that id under the invariant |
| Store.Update | src/ideas/ideas.repository.ts:45-52 | not-found, with nothing changed, exactly when no record has the id; otherwise the supplied title and description overwrite the stored ones verbatim, absent fields and the id are kept, the post-update record is returned and stored, other records and the counters stay, and the invariant is kept |
| Store.DeleteAll | src/ideas/ideas.repository.ts:54-56 | afterwards there are no ideas, the counters are exactly as before, and the invariant holds |
| Store.DeleteById | src/ideas/ideas.repository.ts:58-63 | not-found, with nothing changed, exactly when no record has the id; otherwise exactly that id is removed, other records and the counters stay, and the invariant is kept |
| History.RunKeepsInv | src/ideas/ideas.repository.ts:18-63 | every sequence of repository calls keeps the invariant: ids stored under themselves and within 1..seq of the `'ideas'` counter |
| History.StepCounter | src/ideas/ideas.repository.ts:18-25 | one call never lowers the `'ideas'` counter; a save advances it by one whether or not its insert passes validation, and a stored record carries the new value; calls other than a save and a direct draw on `'ideas'` leave it as it is |
| History.StepDraws | src/ideas/ideas.repository.ts:18-25 | one call draws from an entity's counter at most once, the value after the current one, and the counter moves by exactly what it draws |
| History.DrawsCountUp | src/ideas/ideas.repository.ts:18-25 | for every entity and every run, the k-th value drawn from its counter (by direct draws, and by saves on `'ideas'`) is the starting value + k + 1, with no gaps or repeats, and the counter ends at its start plus the number of draws |
| History.RunCounterGrows | src/ideas/ideas.repository.ts:18-25 | over any run of calls the `'ideas'` counter never goes down |
| History.IssuedIdsIncrease | src/ideas/ideas.repository.ts:39-43 | over any run every id of a stored record lies above the starting counter and at most the final one, and the ids come out strictly increasing, so none is ever handed out twice, refused saves and deletions in between included |
| History.IssuedAreDrawn | src/ideas/ideas.repository.ts:39-43 | when every draw on `'ideas'` in a run is a save with a non-empty title and description, the stored ids are exactly the values drawn from the counter |
| History.IssuedIdsConsecutive | src/ideas/ideas.repository.ts:39-43 | when every draw on `'ideas'` is a save that stores, the k-th save returns the starting counter + k + 1 (1, 2, 3, ... from a fresh counter), deletions in between included, and the counter ends at its start plus the number of saves |
| History.FindAfterSave | src/ideas/ideas.repository.ts:31-43 | a stored record is found under the id it was given; after a refused save, under the invariant, the id it drew is not found |
| History.FindAfterUpdate | src/ideas/ideas.repository.ts:31-52 | after a successful update the id finds the post-update record; other ids find what they found before |
| History.FindAfterDelete | src/ideas/ideas.repository.ts:58-63 | after a delete the id is not found; other ids find what they found before |
| History.SaveAfterDeleteAll | src/ideas/ideas.repository.ts:54-56 | after deleteAll nothing is found, and the next save draws the counter + 1; a record it stores carries that id, which is above every id stored before and so not 1 once an idea was stored |
| Repository.IdeasRepository.constructor | src/ideas/ideas.repository.ts:13-16 | a repository over given collections whose ids are unique and within 1..seq; its snapshot satisfies the invariant, as after every mutating method |
| Repository.IdeasRepository.GetNextSequenceValue | src/ideas/ideas.repository.ts:18-25 | upserts the counter at 0, adds 1 and returns the new value, as NextSequenceValue; only that entity's counter changes and the ideas are untouched |
| Repository.IdeasRepository.IndexOf | src/ideas/ideas.repository.ts:32-59 | the scan behind the `{id: id}` filter of `findOne` (line 32), `findOneAndUpdate` (line 46) and `findOneAndDelete` (line 59): returns the position of the first document with the id, or none exactly when no document has it |
| Repository.IdeasRepository.FindAll | src/ideas/ideas.repository.ts:27-29 | returns exactly the current documents (same multiset), one per stored id, in no promised order, and changes nothing |
| Repository.IdeasRepository.FindById | src/ideas/ideas.repository.ts:31-37 | returns the stored record with that id, or not-found exactly when no document has it, as Store.FindById; changes nothing |
| Repository.IdeasRepository.Save | src/ideas/ideas.repository.ts:39-43 | as Store.Save: draws the id from the `'ideas'` counter, which advances by one whatever follows, and leaves other counters alone; with a non-empty title and description it appends exactly the record with that id and the body's fields and returns it, the id not having been stored before, so the unique index accepts the insert; otherwise it returns the validation error and the ideas stay as they were; the invariant is kept |
| Repository.IdeasRepository.Update | src/ideas/ideas.repository.ts:45-52 | as Store.Update; on success exactly the matching document is replaced by the post-update record in place; on not-found nothing changes; counters untouched |
| Repository.IdeasRepository.DeleteAll | src/ideas/ideas.repository.ts:54-56 | empties the ideas and leaves the counters exactly as they were |
| Repository.IdeasRepository.DeleteById | src/ideas/ideas.repository.ts:58-63 | as Store.DeleteById; on success exactly the matching document is removed and the others keep their order; on not-found nothing changes; counters untouched |
| Service.IdeasService.constructor | src/ideas/ideas.service.ts:10 | the service holds exactly the repository it is given |
| Service.IdeasService.GetAll | src/ideas/ideas.service.ts:12-14 | returns exactly the repository's current documents, the empty list included |
| Service.IdeasService.GetById | src/ideas/ideas.service.ts:16-18 | returns the repository's record for the same id, or its not-found |
| Service.IdeasService.Create | src/ideas/ideas.service.ts:20-22 | passes the body unchanged to save: the repository's Save contract, stored record or validation error, with no id assigned and no check made by the service |
| Service.IdeasService.UpdateById | src/ideas/ideas.service.ts:24-26 | passes id and body, partial or not, unchanged to update: the repository's Update contract, post-update record or not-found |
| Service.IdeasService.DeleteAll | src/ideas/ideas.service.ts:28-30 | the repository's DeleteAll contract: ideas cleared, counters kept |
| Service.IdeasService.DeleteById | src/ideas/ideas.service.ts:32-34 | passes the same id to deleteById: the repository's DeleteById contract, not-found included |
| Scenarios.CreateThenFind | src/ideas/ideas.repository.ts:31-43 | creating "Idea 1"/"Description 1" on empty collections returns id 1, and looking that id up returns the same record |
| Scenarios.CreateThree | src/ideas/ideas.repository.ts:39-43 | three successive creates get ids 1, 2 and 3 |
| Scenarios.CreateWithEmptyTitle | src/ideas/schemas/idea.schema.ts:11-12 | a create with an empty title reaches save and is refused by validation; the id it drew (1) is not found, and the next create gets id 2 |
| Scenarios.CreateWithEmptyDescription | src/ideas/schemas/idea.schema.ts:14-15 | a create with an empty description is refused by validation and nothing is stored |
| Scenarios.PartialUpdates | src/ideas/ideas.service.spec.ts:223-265 | a title-only update keeps the description, a description-only update keeps the title, and an update to an empty title is stored, since updates run no validation |
| Scenarios.DeleteThenFind | src/ideas/ideas.repository.ts:58-63 | after a delete, looking the id up fails with not-found |
| Scenarios.DeleteAllThenCreate | src/ideas/ideas.repository.ts:54-56 | after deleteAll the list is empty, and the next create gets id 3 after two earlier creates, not 1 |
| Scenarios.MissingId | src/ideas/ideas.service.spec.ts:267-283 | findById, update and deleteById on an id never handed out all fail with not-found, and the collection keeps its one record |

## Left out

- The HTTP controller (src/ideas/ideas.controller.ts) is stale: it calls service methods that do not exist. Its mapping of errors to `NotFoundException` is outside the core.
- The `@Length` checks on the request bodies are enforced by a validation pipe before the service. Neither the repository nor the service checks lengths. The model keeps only the schema's required check on `save`: an empty title or description is refused, any other string is stored verbatim, and an update stores any string, since `findOneAndUpdate` runs no validators.
- Dependency injection, the module wiring, the Mongo URL and database user provisioning are left out: they are configuration.
- Storage failures (the "Database error" cases of the service's tests) are not modelled: no repository call in the model can fail except with not-found. The service returns whatever the repository returns, so such an error would pass through unchanged.
- Atomicity and concurrency are left out. Each Mongo call is one sequential step. The counter map assumes one counter document per entity, although the counter schema has no unique index on `entity` (src/ideas/schemas/counter.schema.ts:6-7).
- Between drawing an id and inserting, the insert fails in the model only by validation. That id is skipped, never reused, and so is one consumed by a direct draw; `History.IssuedIdsIncrease` covers runs with skipped values. Other insert failures are covered by the storage-failure line above.
- The duplicate-id rejection of the unique index is not a modelled error. `Save` proves that the new id is not yet stored, so the index never rejects it.
- `_id`, `__v`, strict-mode stripping of unknown fields, and Promise plumbing are left out.
- A client-supplied `id` in a create body is not modelled: `CreateIdeaDto` has no id field. In the code, `id: newId` after the spread (src/ideas/ideas.repository.ts:41) overrides any id the body carries, so the stored record has the drawn id either way, as the model's record construction gives.
- Inputs the types cannot express are left out: a `null` body, or a non-numeric id as in the service's tests.
- How Mongoose treats a key that is present but `undefined` in an update body is library behaviour. The model reads an absent field as `None` and a present field as `Some`.
- Ids and `seq` are unbounded integers. JavaScript numbers are doubles and exact only up to 2^53.
- The order of `find()` is not modelled. `FindAll` and `GetAll` state the contents of the result, not its order.
