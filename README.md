# Task manager store, modelled in Dafny

The service keeps its tasks in one process-wide, ordered collection of
records (`tasks` in `src/main.go`). It exposes handlers that list the
collection, fetch, create, update and delete a record, and flip a record's
completion flag. Every handler that takes an id scans the collection from
the front and acts on the first record whose id equals the path id exactly.

The project has three modules:

- `Decimal` (decimal.dfy): `strconv.Itoa` on natural numbers (`Itoa`), its
  inverse `Atoi`, and round trips in both directions. Generated ids are
  therefore canonical digit strings that determine the number drawn.
- `Tasks` (tasks.dfy): the record type `Task` (the Go struct `Tasks`), the
  decoded request body `Body` (`Decoded(payload)` or `Malformed`), the answer
  `Response`, and one pure function per handler. The function gives the
  collection afterwards and the answer, as a `Step`. Lemmas relate several
  operations: create then get, delete then get, update then get, toggle
  twice, and id collisions.
- `TaskStore` (store.dfy): class `Store`, whose `tasks: seq<Task>` field is
  the global slice, with one method per handler. Each method scans with the
  handler's own early-return loop. It is proved to produce exactly the
  `Step` of the matching `Tasks` function. `EndToEnd` runs the documented
  create / get / toggle / delete / get exchange on a freshly seeded store.

Answers replace the HTTP responses:

- `Ok(task)` is status 200 with the record.
- `Created(task)` is status 201.
- `Deleted` is the `{"status":"success","message":"Task deleted"}` body.
- `NotFound` is 404.
- `InvalidFormat` is 400.

The number drawn by `rand.Intn(10000)` is a parameter `n` with `n < 10000`.
The date from `time.Now()` is a string parameter `today`.

Two points follow the code's order of operations:

- `updateTask` decodes the body before it looks up the id. A malformed body
  for an unknown id therefore answers `InvalidFormat`, not `NotFound`.
- Only `createTask` fills in an empty date. `updateTask` stores the payload's
  date as it is, even when it is empty.

## Model

| member | source | states |
|---|---|---|
| Decimal.Itoa | src/main.go:82 | the rendered id is a non-empty digit string with no leading zero; it starts with '0' exactly for 0 and has one digit exactly below 10 |
| Decimal.AtoiItoa | src/main.go:82 | reading a rendered id back as a number gives the number drawn |
| Decimal.ItoaAtoi | src/main.go:82 | every canonical digit string is the rendering of the number it reads as, so rendering is onto the canonical strings |
| Decimal.ItoaInjective | src/main.go:82 | two drawn numbers give the same id exactly when they are equal |
| Decimal.ItoaLength | src/main.go:82 | a number below 10^k is rendered with at most k digits |
| Tasks.FirstMatch | src/main.go:60-65 | the position the scan stops at: none exactly when no record has the id, otherwise a record with the id and no earlier one with it |
| Tasks.Lookup | src/main.go:60-68 | getTask answers the first record in order whose id equals the requested id, and NotFound exactly when there is none |
| Tasks.Create | src/main.go:75-90 | malformed body: InvalidFormat, collection unchanged; otherwise exactly one record is appended and returned as Created, its id canonical decimal of the drawn n < 10000, name, details and completed from the payload, date today's exactly when the payload's is empty and the payload's otherwise |
| Tasks.Delete | src/main.go:98-109 | Deleted exactly when some record has the id, and then the length drops by one, records before the first match are kept and the later ones shift down by one in order; otherwise NotFound and nothing changes |
| Tasks.Update | src/main.go:118-138 | malformed body: InvalidFormat and no change, whatever the id; unknown id: NotFound and no change; otherwise the first match is replaced by the whole payload with its id forced to the path id, the length and every other record stay, and the stored record is answered |
| Tasks.Toggle | src/main.go:146-157 | unknown id: NotFound and no change; otherwise only completed of the first match is flipped, every other field and record stays, and the flipped record is answered |
| Tasks.GeneratedId | src/main.go:82 | every generated id is a canonical decimal string of one to four digits |
| Tasks.CreateThenLookup | src/main.go:82-88 | when no earlier record has the generated id, getTask on it returns exactly the created record |
| Tasks.CreateCollisionShadows | src/main.go:82-88 | when an earlier record has the generated id, the new record is still appended but getTask on that id keeps answering the earlier record |
| Tasks.SeedCollision | src/main.go:26-44 | drawing 1 after the seeds stores a record with id "1" that getTask never reaches, since the first seed answers for "1" |
| Tasks.CreateTwiceDistinct | src/main.go:71-91 | two creates from one payload with different drawn numbers store two distinct records, each found by its own id |
| Tasks.DeleteRemovesOne | src/main.go:98-101 | a delete of a present id lowers the number of records carrying that id by exactly one |
| Tasks.DeleteThenLookup | src/main.go:98-104 | when exactly one record has the id, delete answers Deleted and a later getTask on it answers NotFound |
| Tasks.UpdateThenLookup | src/main.go:125-130 | after an update of a present id, getTask on it returns the payload with the path id |
| Tasks.UpdateIgnoresOldRecord | src/main.go:128-132 | update does not merge: the stored and answered record depends only on the payload and the id, not on the record replaced |
| Tasks.ToggleTwice | src/main.go:146-151 | toggling one id twice restores the collection, and the second answer is the original record |
| Tasks.AbsentIdChangesNothing | src/main.go:93-158 | for an id no record has, get, delete and toggle answer NotFound, update answers NotFound or InvalidFormat for a malformed body, and none changes the collection |
| TaskStore.Store.constructor | src/main.go:24 | the collection starts empty |
| TaskStore.Store.InitSampleTasks | src/main.go:26-44 | appends the two seed records, ids "1" and "2", in that order |
| TaskStore.Store.GetTasks | src/main.go:50-53 | answers the whole collection in order |
| TaskStore.Store.GetTask | src/main.go:55-69 | the scan loop answers what Lookup specifies and changes nothing |
| TaskStore.Store.CreateTask | src/main.go:71-91 | the new collection and the answer are those of Create on the old collection |
| TaskStore.Store.DeleteTask | src/main.go:93-110 | the scan-and-splice loop leaves the collection and answer that Delete specifies |
| TaskStore.Store.UpdateTask | src/main.go:112-139 | the decode check and scan loop leave the collection and answer that Update specifies |
| TaskStore.Store.ToggleTaskStatus | src/main.go:141-158 | the scan loop and in-place flip leave the collection and answer that Toggle specifies |
| TaskStore.EndToEnd | src/main.go:71-158 | on a seeded store and a drawn number other than 1 and 2: create with empty date answers the record with the rendered id and today's date, get returns it, toggle answers it completed, delete answers Deleted, and get then answers NotFound |

## Left out

- HTTP routing, status codes, headers, the `homePage` banner, CORS and the
  listening server (src/main.go:46-48, 160-182): plumbing over libraries
  outside the model. Outcomes are `Response` values instead.
- JSON encoding and decoding: the model takes the decoder's result as a
  `Body`, either a decoded record or a failure. Which inputs the decoder
  rejects is not modelled.
- `rand.Seed`, `rand.Intn` and `time.Now().Format`: non-deterministic
  sources. They become the parameters `n` (bounded by 10000) and `today`.
  The model does not check that `today` has the `YYYY-MM-DD` shape.
- Concurrent requests on the unsynchronised slice: the model runs one
  operation at a time, so data races and lost updates are not captured.
- The slice aliasing of `append(tasks[:index], tasks[index+1:]...)`: only
  its logical effect, an order-preserving removal, is modelled. The
  collection is a `seq` value, not a Go slice with a shared backing array.
- Go's `int` width: ids are rendered from unbounded naturals, which is
  exact here because the drawn number is below 10000.
