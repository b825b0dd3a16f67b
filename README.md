# Task tracker: validation, task store, error envelope and client list state

A Dafny model of the core of a small task-tracking application.

On the server side it models three parts:

- the validation of a create request's body, a chain of per-field validators whose violations are collected together;
- the middleware that lets a request proceed only when no violation was collected;
- the task collection with its five operations (list newest first, create, update, toggle, delete) and the uniform shape of error responses (400 with `error: "Validation failed"` and `details`, 404 for an absent task).

On the browser side it models the task-list state of the page (`tasks`, `loading`, `error`) and the handlers that fetch, add, update and delete tasks, each as one transition whose request outcome is a parameter.

The server's validation, error-handling and model modules are modelled by what the two test files require of them. Their test cases are restated in module `Scenarios` as methods on a freshly emptied store (the test set-up drops the database after every test).

Modules:

- `Common`: an optional value.
- `Errors`: violations, the typed failures (`ValidationError`, `NotFoundError`), status codes and the error envelope.
- `Validation`: JavaScript's `trim`, the create rules, their fold, the validator loop and `handleValidationErrors`.
- `Store`: the task record, update patches, toggling and the `TaskStore` class, which holds a `map` from identifiers to tasks and a logical clock.
- `Api`: how outcomes become HTTP responses.
- `Scenarios`: the API tests.
- `Client`: the page state as class `App`, with the pure list transforms it uses.

Identifiers are `Id(stamp)`, where `stamp` is the value of the store's logical clock when the task was created. `createdAt` is that same value. Every successful update or toggle stamps `updatedAt` with the clock and advances it, so the order of creation is the order of the stamps.

## Model

| member | source | states |
|---|---|---|
| `Validation.TrimStartSpec` | backend/tests/tasks.test.js:54-67 | trimming the start leaves a suffix that does not start with whitespace, and everything dropped was whitespace |
| `Validation.TrimEndSpec` | backend/tests/tasks.test.js:54-67 | trimming the end leaves a prefix that does not end with whitespace, and everything dropped was whitespace |
| `Validation.Trim` | backend/tests/tasks.test.js:54-67 | trimming never lengthens a string |
| `Validation.TrimSpec` | backend/tests/tasks.test.js:54-67 | trimming gives the empty string exactly when the input is all whitespace; a non-empty result neither starts nor ends with whitespace; an input without surrounding whitespace is returned as it is |
| `Validation.TrimIdempotent` | backend/tests/tasks.test.js:54-67 | trimming a trimmed string changes nothing |
| `Validation.Check` | backend/tests/validation.test.js:33-35 | one validator of the chain contributes at most one violation |
| `Validation.RunRules` | backend/tests/validation.test.js:33-35 | running the chain in order yields no more violations than it has validators |
| `Validation.RunRulesCollectsAll` | backend/tests/validation.test.js:33-35 | a violation is in the chain's result exactly when one of its validators reports it: none dropped (no short-circuit), none invented |
| `Validation.RunValidations` | backend/tests/validation.test.js:33-35 | running the validators one after another, each appending to the errors so far, yields the fold over the rules |
| `Validation.CreateChainIsValidateCreate` | backend/tests/validation.test.js:33-35 | the create chain (title rule, then description rule) yields exactly the violations of `ValidateCreate`, title first |
| `Validation.ValidateCreate` | backend/tests/validation.test.js:28-81 | at most two violations, each one of "Title is required", "Title must be between 1 and 200 characters" (field `title`) and "Description cannot exceed 1000 characters" (field `description`) |
| `Validation.ValidateCreateEmptyIff` | backend/tests/validation.test.js:28-40 | no violation exactly when the title is present with 1 to 200 characters after trimming and any description has at most 1000 |
| `Validation.TitleReportedIff` | backend/tests/validation.test.js:42-81 | "Title is required" is reported exactly when the title is absent or whitespace only, and the length message exactly when the trimmed title is over 200 characters, whatever the description |
| `Validation.MissingTitleIsRequired` | backend/tests/validation.test.js:42-60 | a missing or whitespace-only title gives "Title is required" and not the length message |
| `Validation.LongTrimmedTitleRejected` | backend/tests/validation.test.js:62-81 | a title over 200 characters after trimming gives "Title must be between 1 and 200 characters" and not "Title is required" |
| `Validation.DescriptionReportedIff` | backend/tests/tasks.test.js:85-99 | "Description cannot exceed 1000 characters" is reported exactly when a description is present with more than 1000 characters after trimming |
| `Validation.BlankTitleIsRequired` | backend/tests/tasks.test.js:54-67 | a whitespace-only title yields `{title, "Title is required"}` |
| `Validation.LongTitleRejected` | backend/tests/validation.test.js:62-81 | a title of more than 200 characters without surrounding whitespace yields `{title, "Title must be between 1 and 200 characters"}` |
| `Validation.LongDescriptionRejected` | backend/tests/tasks.test.js:85-99 | a description of more than 1000 characters without surrounding whitespace yields `{description, "Description cannot exceed 1000 characters"}` |
| `Validation.HandleValidationErrors` | backend/tests/validation.test.js:98-128 | continues exactly when there are no violations; otherwise raises a validation error carrying them, answered with 400 |
| `Validation.CreateProceedsIffAcceptable` | backend/tests/validation.test.js:98-128 | a create request reaches its handler exactly when its body is acceptable |
| `Errors.Status.Code` | backend/tests/tasks.test.js:9 | every status the API answers with lies in 200..499, and it is below 300 exactly for the success statuses (200 and 201) |
| `Errors.StatusOf` | backend/tests/tasks.test.js:44-45 | 400 exactly for validation failures, 404 exactly for an absent task |
| `Errors.EnvelopeOf` | backend/tests/tasks.test.js:44-51 | a validation failure has `error: "Validation failed"` and its violations as `details`; not-found has the label "Task not found" and empty details |
| `Errors.EnvelopeDeterminesError` | backend/tests/tasks.test.js:44-51 | status and envelope together identify the failure |
| `Api.ErrorResponse` | backend/tests/tasks.test.js:75-82 | an error response has a status of at least 400 and an error body; 400 with "Validation failed" and the violations, or 404 |
| `Api.RespondList` | backend/tests/tasks.test.js:7-23 | a listing is answered with 200 and the tasks in the given order |
| `Api.RespondTask` | backend/tests/tasks.test.js:33-37 | a 2xx status exactly when the operation succeeded, with the task as body; failures go through the error handler |
| `Api.RespondDeletion` | backend/tests/tasks.test.js:132-133 | 200 exactly when a task was deleted, with its message and id |
| `Store.ApplyPatch` | backend/tests/tasks.test.js:103-114 | the fields present in the update replace the stored ones; absent fields keep their value; identity and creation time are kept |
| `Store.EmptyPatchKeepsTask` | backend/tests/tasks.test.js:103-114 | an update with no fields changes only the update time |
| `Store.Toggled` | backend/tests/tasks.test.js:149-156 | toggling negates `completed` and keeps every other field except the update time |
| `Store.ToggleTwiceRestores` | backend/tests/tasks.test.js:149-164 | toggling twice gives back the original task, up to the update time |
| `Store.TaskStore.constructor` | backend/jest.setup.js:13-15 | the store starts empty |
| `Store.TaskStore.Insert` | backend/tests/tasks.test.js:15-16 | a new task is stored under a fresh identifier, with the given fields and the current clock as creation time |
| `Store.TaskStore.FindById` | backend/tests/tasks.test.js:136-137 | the stored task for a present id, none for an absent id |
| `Store.TaskStore.List` | backend/tests/tasks.test.js:13-23 | every stored task exactly once, strictly newest first, as many as are stored |
| `Store.TaskStore.Create` | backend/tests/tasks.test.js:27-99 | fails with exactly the validation violations and stores nothing when there are any; otherwise stores a new incomplete task with the trimmed title and description (already trimmed, so trimming again changes nothing) under a fresh identifier and advances the clock |
| `Store.TaskStore.Update` | backend/tests/tasks.test.js:103-122 | not found and nothing changed for an absent id; otherwise the stored task is replaced by the patched one and returned |
| `Store.TaskStore.Toggle` | backend/tests/tasks.test.js:149-171 | not found and nothing changed for an absent id; otherwise `completed` of that task is flipped and the task returned |
| `Store.TaskStore.Delete` | backend/tests/tasks.test.js:126-145 | not found and nothing changed for an absent id; otherwise the task is gone and "Task deleted successfully" is returned with its id |
| `Scenarios.Repeat` | backend/tests/tasks.test.js:70 | `c.repeat(n)` has length n and only the character c |
| `Scenarios.ListEmptyStore` | backend/tests/tasks.test.js:7-11 | listing an empty store answers 200 with `[]` |
| `Scenarios.ListNewestFirst` | backend/tests/tasks.test.js:13-23 | after creating "Test Task 1" and then "Test Task 2", the listing has two tasks, "Test Task 2" first |
| `Scenarios.CreateValid` | backend/tests/tasks.test.js:27-37 | a valid create answers 201 with the given title and description, not completed |
| `Scenarios.CreateWithoutTitle` | backend/tests/tasks.test.js:39-52 | 400, "Validation failed", `{title, "Title is required"}`, nothing stored |
| `Scenarios.CreateWithBlankTitle` | backend/tests/tasks.test.js:54-67 | a title of three spaces: 400, "Validation failed", `{title, "Title is required"}`, nothing stored |
| `Scenarios.CreateWithLongTitle` | backend/tests/tasks.test.js:69-83 | a 201-character title: 400, "Validation failed", the length violation on `title` |
| `Scenarios.CreateWithLongDescription` | backend/tests/tasks.test.js:85-99 | a 1001-character description: 400, "Validation failed", the violation on `description` |
| `Scenarios.UpdateExisting` | backend/tests/tasks.test.js:103-114 | updating title and completed answers 200 with the new title and `completed` true |
| `Scenarios.UpdateMissing` | backend/tests/tasks.test.js:116-122 | updating an absent id answers 404 |
| `Scenarios.DeleteExisting` | backend/tests/tasks.test.js:126-138 | deleting answers 200 with "Task deleted successfully", and the task is no longer found |
| `Scenarios.DeleteMissing` | backend/tests/tasks.test.js:140-145 | deleting an absent id answers 404 |
| `Scenarios.ToggleTwice` | backend/tests/tasks.test.js:149-164 | the first toggle answers `completed` true, the second `completed` false |
| `Scenarios.ToggleMissing` | backend/tests/tasks.test.js:166-171 | toggling an absent id answers 404 |
| `Client.ReplaceById` | frontend/src/App.jsx:52-54 | same length; each entry whose id matches the returned task becomes that task, every other entry is untouched |
| `Client.ReplaceByIdIdempotent` | frontend/src/App.jsx:52-54 | replacing with the same task twice is replacing once |
| `Client.RemoveById` | frontend/src/App.jsx:64 | filtering never lengthens the list |
| `Client.RemoveByIdMembers` | frontend/src/App.jsx:64 | an entry is kept exactly when it was in the list and has another id: every task with the id is removed |
| `Client.RemoveByIdAbsent` | frontend/src/App.jsx:64 | filtering by an id no entry has changes nothing |
| `Client.RemoveByIdConcat` | frontend/src/App.jsx:64 | filtering works piecewise over a concatenation, so the kept entries stay in order |
| `Client.WithCompletedFlipped` | frontend/src/App.jsx:84-86 | the toggle callback's task has `completed` negated and the same id, title and description |
| `Client.FlipTwiceRestores` | frontend/src/App.jsx:84-86 | flipping twice gives back the task |
| `Client.App.constructor` | frontend/src/App.jsx:11-13 | no tasks, loading, no error at first |
| `Client.App.FetchTasks` | frontend/src/App.jsx:20-30 | the error is cleared while the request is pending; on success the tasks are the server's data, on failure they are unchanged and the error is "Failed to fetch tasks. Make sure the backend server is running."; not loading afterwards |
| `Client.App.AddTask` | frontend/src/App.jsx:32-43 | loading and no error while pending; on success the returned task is appended after the existing ones; on failure the tasks are unchanged and the error is "Failed to add task"; not loading afterwards |
| `Client.App.UpdateTask` | frontend/src/App.jsx:45-58 | sends the task to its own id; no error while pending; on success the list is replaced by id, on failure it is unchanged and the error is "Failed to update task"; `loading` untouched |
| `Client.App.DeleteTask` | frontend/src/App.jsx:60-70 | while pending, every task with the id is already removed and there is no error; on success it stays removed, on failure the list is back to the snapshot taken before and the error is "Failed to delete task"; `loading` untouched |
| `Client.App.ToggleComplete` | frontend/src/App.jsx:84-86 | sends the same task with `completed` negated and then behaves as `UpdateTask`: no error while pending, replace by id on success, keep with "Failed to update task" on failure, `loading` untouched |

## Left out

- The HTTP framework, routing and request parsing, the process bootstrap and the database connection. They are replaced by the `TaskStore` class and by the `Api` response functions.
- Identifiers and clocks: ObjectId formats and wall-clock timestamps are replaced by `Id(stamp)` and a logical clock.
- `Errors.EnvelopeOf`: a not-found body carries an empty `details` list; JSON's distinction between an absent `details` field and an empty one is not modelled.
- The 500 "Server Error" path: no modelled operation can fail unexpectedly.
- Validation of update bodies, and the title and description bounds as invariants of stored tasks. The validator for updates is not part of this model, so `Update` takes its patch as already sanitized.
- `Validation.ValidateCreate`: with a missing or whitespace-only title it reports only "Title is required", not also the length message; `Validation.MissingTitleIsRequired` and `Validation.TitleReportedIff` state this single-message choice. The tests do not pin down the chain's behaviour on that input; they only require that the "Title is required" violation is present.
- `Validation.ValidateCreate`: the validator's rule for counting a string's length is not part of this model; the model counts Unicode scalar values. The limits are checked on the trimmed strings. Non-string field values are not modelled; a payload field is either absent or a string.
- `Validation.LongTitleRejected` and `Validation.LongDescriptionRejected` require the over-long string to have no surrounding whitespace, as the tests' repeated-'a' strings do; how a long string padded with whitespace is judged follows from `ValidateCreate` on its trimmed length.
- The `express-validator` result object (`isEmpty`, `array`) and its mocking in the validation tests: violations are a sequence, emptiness is `== []`.
- Asynchronous interleaving in the client: each handler is one atomic transition, although the real handlers can interleave and close over a stale `tasks` list. The state rendered while a request is pending is kept in the ghost field `pending`.
- The client's edit modal (`editingTask`), rendering and `useEffect`; the add form's input is taken as given.
- The client's append-at-end and the server's newest-first order are separate models and are not reconciled.
