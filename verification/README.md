# Journal entry lifecycle — a Dafny model

This project models the core of a small teaching CRUD application, a "journal" of short text
entries: the entry record, the in-memory repository that stores entries and hands out ids, the
service that forwards to it, the two-variant `Result` and the closed `JournalError` taxonomy,
and the controller's decisions that turn a service `Result` into an HTTP reply.

| file | module | models |
|---|---|---|
| results.dfy | `Results` | `src/lib/result.ts` |
| errors.dfy | `Errors` | `src/lib/errors.ts` |
| decimal.dfy | `Decimal` | `String(n)` as the repository uses it to make ids |
| entry.dfy | `Entries` | `src/model/JournalEntry.ts` |
| repository.dfy | `Repository` | `src/repository/JournalRespository.ts` |
| service.dfy | `Service` | `src/service/JournalService.ts` |
| controller.dfy | `Controller` | `src/controller/JournalController.ts` |

Shape of the model:

- The repository is the class `JournalRepository` with the source's two fields, `entries`
  (a `seq<Entry>` that the methods reassign) and `nextId`. `replaceById` and `deleteById` keep
  their `for` loops. Each method is proved against a pure function on the table: `IndexOf`
  (the first-match search of `find`), `Lookup`, `Replaced` and `Removed`. A ghost sequence
  `keys` records the counter value each stored id was made from. The invariant `WellKeyed`
  says these values strictly increase along the table and lie below `nextId`. For the counter as
  modelled (an unbounded natural number), unique ids, insertion order and never reusing an id all
  follow from it, because `String(n)` is injective (`DecimalRoundTrip`).
- A `throw new Error(message)` in the shown repository is modelled as `Err(message)` of type
  `Result<_, string>`. The service passes it through unchanged.
- `getById` and `getAll` have no `modifies` clause, so a read changes nothing, and two reads in
  a row give the same answer.
- The entry is a class, `JournalEntry`, with a constructor and `UpdateContent`. Its fields as a
  value form the datatype `Entry`, and the repository stores these values.
- Each controller handler is a pure function. It takes the request parameters and the outcome of
  its one service call, a `Result<_, JournalError>`, and returns a `Handled`: a `Reply` (status
  and body) and the log lines written. Express defaults are written out: `render` and `json`
  reply 200, `redirect` replies 302.
- The clock is not modelled. Each clock reading an operation takes is a parameter: the
  constructor and `add` take two readings (`createdAt` first, then `updatedAt`), and
  `replaceById`, `patchById` and `updateContent` take one. The ordering `createdAt <= updatedAt`
  is proved whenever the readings do not decrease.

The shown repository and service throw on a missing id and do no content validation, and
`deleteById` answers an absent id with `false`. The later version of the service, which returns
`Result` and trims and bounds the content, is not modelled (see "Left out").

## Model

| member | source | states |
|---|---|---|
| Results.OkFlagDecides | src/lib/result.ts:1-11 | a result is exactly one of the two variants, and its `ok` flag says which |
| Results.ConstructorsKeepPayload | src/lib/result.ts:13-14 | `Ok(v)` has `ok` true and payload `v`; `Err(e)` has `ok` false and payload `e` |
| Errors.JournalError.name | src/lib/errors.ts:1-5 | the `name` tag is one of four distinct literals, and each literal identifies exactly one of the four kinds |
| Errors.ConstructorsKeepMessage | src/lib/errors.ts:7-20 | `EntryNotFound(m)`, `InvalidContent(m)` and `ValidationError(m)` carry their own kind and the message `m` |
| Decimal.DecimalString | src/repository/JournalRespository.ts:23 | `String(n)` is a non-empty string of digits with no leading zero |
| Decimal.DecimalRoundTrip | src/repository/JournalRespository.ts:23 | reading `String(n)` back as a number gives `n` |
| Decimal.DecimalInjective | src/repository/JournalRespository.ts:23 | distinct counter values give distinct ids |
| Entries.Entry.WithContent | src/model/JournalEntry.ts:21-24 | a content update sets the content and `updatedAt`, and keeps the id and `createdAt` |
| Entries.WithContentKeepsOrder | src/model/JournalEntry.ts:21-24 | an update at a reading no earlier than the last keeps `createdAt <= updatedAt` |
| Entries.JournalEntry.Snapshot | src/model/JournalEntry.ts:1-6 | the entry's four fields as an `IJournalEntry` value |
| Entries.JournalEntry.constructor | src/model/JournalEntry.ts:14-19 | stores the id and content unchanged and the two clock readings in order; `createdAt <= updatedAt` holds exactly when the readings do not decrease |
| Entries.JournalEntry.UpdateContent | src/model/JournalEntry.ts:21-24 | overwrites the content and `updatedAt`, leaves the id and `createdAt` alone, and keeps the timestamp ordering under a non-decreasing clock |
| Entries.CreateJournalEntry | src/model/JournalEntry.ts:27-29 | returns a fresh entry with exactly the given id and content |
| Repository.IndexOf | src/repository/JournalRespository.ts:29 | finds the first entry with the id, or reports that no entry has it |
| Repository.Lookup | src/repository/JournalRespository.ts:28-35 | a stored entry with the id, or the error "Journal entry with id <id> not found" exactly when no entry has the id |
| Repository.Replaced | src/repository/JournalRespository.ts:41-50 | a replace keeps the table's length, every id and every `createdAt` |
| Repository.Removed | src/repository/JournalRespository.ts:56-64 | a delete drops one entry when the id is present and changes nothing otherwise |
| Repository.WellKeyedUnique | src/repository/JournalRespository.ts:19-25 | no two stored entries share an id |
| Repository.FreshId | src/repository/JournalRespository.ts:20-23 | the id `add` hands out differs from every id handed out before |
| Repository.AddKeepsWellKeyed | src/repository/JournalRespository.ts:22-26 | appending with the next counter value keeps the invariant, and the new id is absent from the table |
| Repository.AddThenLookup | src/repository/JournalRespository.ts:22-35 | round trip: right after `add`, looking up the new id gives exactly the new entry |
| Repository.AddKeepsOtherLookups | src/repository/JournalRespository.ts:22-35 | `add` changes no lookup of any other id |
| Repository.ReplacedKeepsWellKeyed | src/repository/JournalRespository.ts:41-50 | a replace keeps the invariant |
| Repository.ReplacedPointwise | src/repository/JournalRespository.ts:41-50 | with unique ids, a replace rewrites exactly the entry with that id and leaves every other entry as it was |
| Repository.ReplacedThenLookup | src/repository/JournalRespository.ts:41-50 | after a replace, the id looks up to the rewritten entry, a missing id is still missing, and every other id looks up as before |
| Repository.ReplacedKeepsOrder | src/repository/JournalRespository.ts:44-45 | under a non-decreasing clock a replace keeps `createdAt <= updatedAt` for every entry |
| Repository.RemovedKeepsWellKeyed | src/repository/JournalRespository.ts:56-64 | a delete keeps the invariant |
| Repository.RemovedIsGone | src/repository/JournalRespository.ts:56-64 | after a delete no entry has the id, so a second delete finds nothing; ids stay unique |
| Repository.RemovedIsWithout | src/repository/JournalRespository.ts:56-64 | with unique ids, a delete removes exactly the entries with that id and keeps the rest in order |
| Repository.JournalRepository.constructor | src/repository/JournalRespository.ts:19-20 | the table starts empty with `nextId` 1 and no id handed out |
| Repository.JournalRepository.Add | src/repository/JournalRespository.ts:22-26 | the new entry gets id `String(nextId)`, never issued before, and the content verbatim; it is appended at the end; the counter goes up by one; the returned entry is the stored one |
| Repository.JournalRepository.GetById | src/repository/JournalRespository.ts:28-35 | returns the stored entry with the id, or fails with the not-found message |
| Repository.JournalRepository.GetAll | src/repository/JournalRespository.ts:37-39 | returns all entries in insertion order |
| Repository.JournalRepository.ReplaceById | src/repository/JournalRespository.ts:41-50 | the table becomes `Replaced(old table)` and the rewritten entry is returned; for an absent id the table is unchanged and the not-found message is returned |
| Repository.JournalRepository.PatchById | src/repository/JournalRespository.ts:52-54 | has the same effect and result as `ReplaceById` |
| Repository.JournalRepository.DeleteById | src/repository/JournalRespository.ts:56-64 | returns true exactly when the id was present; the table becomes `Removed(old table)` and afterwards has no entry with that id |
| Service.JournalService.constructor | src/service/JournalService.ts:17 | the service holds only its repository |
| Service.JournalService.CreateEntry | src/service/JournalService.ts:19-21 | passes the content to `add` untrimmed and returns `add`'s entry; a lookup of the new id then finds it |
| Service.JournalService.GetEntry | src/service/JournalService.ts:23-25 | returns the repository's lookup, with the not-found failure passed through unchanged |
| Service.JournalService.GetEntries | src/service/JournalService.ts:27-29 | returns exactly the repository's entries |
| Controller.MapErrorStatus | src/controller/JournalController.ts:34-42 | 404 exactly for `EntryNotFound`, 400 exactly for `InvalidContent` or `ValidationError`, 500 exactly for the remaining kind |
| Controller.ShowHome | src/controller/JournalController.ts:44-47 | renders the home view with status 200 and logs one info line |
| Controller.ShowEntryForm | src/controller/JournalController.ts:49-52 | renders the new-entry view with status 200 and logs one info line |
| Controller.NewEntryFromForm | src/controller/JournalController.ts:54-77 | success redirects to `/entries/<new id>`; a rejected content is 400 with the message as text and a warning; any other failure, including not-found, is 500 "Unable to create entry." with an error log |
| Controller.ShowAllEntries | src/controller/JournalController.ts:79-92 | success renders the index with the list; any failure renders the not-found view with status 500 and the error's message |
| Controller.EntryPage | src/controller/JournalController.ts:94-129 | success renders the given view with the entry; a failure renders the not-found view with 404 for `EntryNotFound` and 500 otherwise |
| Controller.ShowEntry | src/controller/JournalController.ts:94-111 | status 200 exactly on success, with the show view; on failure the not-found view; one info line |
| Controller.ShowEditForm | src/controller/JournalController.ts:113-129 | status 200 exactly on success, with the edit view; on failure the not-found view; nothing logged |
| Controller.UpdateEntryFromForm | src/controller/JournalController.ts:131-143 | success redirects to `/entries/<request id>`; failure gives the mapped status with the message as text |
| Controller.JsonEntryReply | src/controller/JournalController.ts:145-171 | status 200 exactly on success, with the entry as JSON; failure gives the mapped status with `{message}` |
| Controller.ReplaceEntry | src/controller/JournalController.ts:145-157 | success returns the entry as JSON with 200; failure gives the mapped status with `{message}` |
| Controller.PatchEntry | src/controller/JournalController.ts:159-171 | success returns the entry as JSON with 200; failure gives the mapped status with `{message}` |
| Controller.DeleteEntry | src/controller/JournalController.ts:173-186 | success is 204 with an empty body; failure logs a warning and gives the mapped status with `{message}` |
| Controller.ReplaceAndPatchAgree | src/controller/JournalController.ts:145-171 | the PUT and PATCH handlers give the same reply for every service outcome |
| Controller.FailuresAreErrorStatuses | src/controller/JournalController.ts:54-186 | every handler replies with a status of 400 or more exactly when its service call failed |
| Controller.NotFoundIs404 | src/controller/JournalController.ts:34-186 | a not-found failure is 404 with its message on the API routes and on the show page, but 500 on the create form |

## Left out

- Repository.JournalRepository.Add: the `nextId` counter is an unbounded natural number here. In the source it is a JavaScript number. The add made when `nextId` is 2^53 is the first to hand out "9007199254740992". From then on `nextId++` no longer changes the counter, so every later add hands out that id again. The freshness and uniqueness guarantees hold for the first 2^53 additions.
- Service.JournalService.CreateEntry: forwards to `add`, so its fresh-id guarantee has the same 2^53 limit in the source.
- Wall clock: `new Date()` is not modelled. Each reading is a parameter, and the timestamp ordering is proved under the assumption that readings do not decrease.
- Aliasing: the repository stores entry values. In the source, `getAll` returns the internal array by reference, and `add`/`replaceById` return the stored object. A caller that later mutates those objects is not modelled.
- Exceptions: the thrown `Error` of `getById` and `replaceById` is an `Err(message)` value, and the service passes it through.
- Controller inputs: the service the controller calls returns `Result` and offers `replaceEntry`, `patchEntry` and `deleteEntry`. The shown service has none of these, so each handler takes the outcome of its service call as a parameter. `Controller.DeleteEntry` accepts any success payload type.
- Rendering: Express responses, view rendering and JSON serialisation are the `Reply`/`Body` datatypes. No HTML or JSON text is produced.
- Type-check fallbacks: `isJournalError` and the "not a JournalError" branches (such as `src/controller/JournalController.ts:71-74`) cannot occur, because the model's errors are typed.
- Logger: the `LoggingService` singleton and its console output are not modelled. Each handler returns the sequence of (level, message) calls it makes.
- Later-snapshot behaviour: the async signatures, the trim and 5000-character validation, and `cloneEntry` belong to a later version of the service. The shown service has none of them.
- HTTP layer (`src/app.ts`, `src/server.ts`, `src/composition.ts`, `src/contracts.ts`): routing, the blank-content guard before `newEntryFromForm`, static serving and port listening are not modelled. The `deleteEntryFromForm` handler that the router calls is not part of this model, because the shown controller does not define it.
- Factories: `CreateJournalRepository` and `CreateJournalService` are the class constructors here. `CreateJournalController` and the controller's constructor are not modelled, because each handler is a module-level function of its service outcome.
- Result payload name: the failure variant's payload is named `error` rather than `value`, because a Dafny destructor cannot have two types.
