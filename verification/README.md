# TaskFlow task store, modelled in Dafny

TaskFlow is a small task-management REST service. A task has a title, an
optional description, a status (`todo`, `in_progress`, `done`), a priority
(`low`, `medium`, `high`), an optional assignee, an optional due date, and
creation and update times. Its request handlers list, read, create,
partially update and delete tasks in one database table. This project
models those handlers as pure functions on a finite map from task id to task
row. Each handler except List returns the map after the request together
with either a result or one of two domain errors. List returns only the
matching rows. The two errors are:

- `NotFound(id)`: the HTTP 404 case.
- `InvalidArgument("Title cannot be empty")`: the handler's own 422 case.

The model also covers the parsing of the allowed cross-origin hosts
setting: split on every comma, then strip each piece.

Layout:

- `optional.dfy`, module `Optional`: the `Option` type, for Python `None` and SQL `NULL`.
- `tasks.dfy`, module `Tasks`: data shapes.
  - The task row, the creation payload and the list filters.
  - The update payload. Each of its keys is tri-state: `Absent`, `Present(None)` or `Present(value)`.
  - Errors, results, and the `Response` pair of store-after and outcome.
- `store.dfy`, module `TaskStore`: the five handlers. List is a method that walks the key set; the other four are functions. The module also holds the store invariants (`Keyed`, `Valid`, `EnumsSet`).
- `store_properties.dfy`, module `TaskStoreProperties`: lemmas that relate several operations.
- `origins.dfy`, module `Origins`: comma splitting and whitespace stripping as in Python, with their round-trip lemmas.

Some inputs that the service gets from its environment are parameters here:

- The fresh task id, which the service generates with `uuid4`.
- The current time, which the service reads from the wall clock.
- The presence of the cross-origin setting in the environment.

Behaviour of the code worth noting:

- Title check: the handlers reject only an empty title, plus a null title on update. A whitespace-only title is accepted, because the code does not trim it.
- Explicit null on update: a partial update copies an explicit `null` into the row for any key except `title`, whose null is rejected. That includes `status` and `priority`. The stored row therefore keeps those two as `Option`, and `UpdateKeepsEnumsSetIff` says exactly when they stay non-null. The response schema does not allow a null there; see "## Findings".
- Creation timestamps: the row's creation defaults live in the ORM model, which is not part of this model. The model assumes that both timestamps are set to the creation time (`NewTask`).
- Status and priority members: the live enums are imported from the ORM model module (app.py:25), which is not part of this model. The members of `Status` (`Todo`, `InProgress`, `Done`) and `Priority` (`Low`, `Medium`, `High`) are taken from the commented-out copies at app.py:42-53; only `todo` and `medium` are confirmed by live code, as the creation defaults (app.py:60-61). The list filter `Constrains` further assumes that no enum member is falsy, because the `if status:` and `if priority:` tests at app.py:206-209 skip a falsy filter.

## Model

| member | source | states |
|---|---|---|
| `TaskStore.List` | backend/src/app.py:196-213 | Every returned row is a stored row that satisfies every filter. Every stored row that satisfies them is returned, and none is returned twice. Filters are ANDed; an absent filter or an empty assignee imposes nothing; no match gives `[]`. |
| `TaskStore.Get` | backend/src/app.py:216-223 | Returns the stored row exactly when the id is present. Otherwise it is `NotFound` naming the id. The store is never changed. |
| `TaskStore.NewTask` | backend/src/app.py:56-63 | The new row has the payload's fields. An omitted status becomes `todo` and an omitted priority becomes `medium`. Creation and update time are both `now`. |
| `TaskStore.Create` | backend/src/app.py:226-244 | Fails exactly when the title is empty, with `InvalidArgument` and the store unchanged. Otherwise it adds exactly one row under the fresh id, leaves every other row as it was, and returns the row. That row carries the payload's fields with the defaults filled in, and both timestamps are `now`. |
| `TaskStore.ApplyUpdate` | backend/src/app.py:281-286 | The result is `Patched`. Each sent key takes the sent value, an explicit null included. Each unsent field keeps its value. The id and creation time stay, and the update time becomes `now`. |
| `TaskStore.Update` | backend/src/app.py:277-289 | An unknown id gives `NotFound`. A title sent as null or `""` gives `InvalidArgument`. In both cases the store is unchanged. Otherwise only that row changes, as `Patched` describes, and it is returned. |
| `TaskStore.UpdateStrict` | backend/src/app.py:77-87 | The corrected update. It behaves as `Update`, except that an explicit null `status` or `priority` is rejected with `InvalidArgument` and the store unchanged. On success no non-null status or priority becomes null. |
| `TaskStore.Delete` | backend/src/app.py:310-315 | An unknown id gives `NotFound` and leaves the store unchanged. Otherwise exactly that key is removed and every remaining row is unchanged. |
| `TaskStoreProperties.GetAfterCreate` | backend/src/app.py:219-244 | A read of the fresh id after a successful create returns the row the create returned. |
| `TaskStoreProperties.GetAfterUpdate` | backend/src/app.py:219-289 | A read after a successful update returns the row the update returned. |
| `TaskStoreProperties.GetAfterDelete` | backend/src/app.py:310-315 | After a delete, both a read and a second delete of the same id give `NotFound`. |
| `TaskStoreProperties.WritesAreLocal` | backend/src/app.py:277-315 | An update or a delete of one id does not change what a read of any other id returns. |
| `TaskStoreProperties.CreateKeepsValid` | backend/src/app.py:230-242 | Create preserves the invariants. Each row stays under its own id with a non-empty title and `created_at <= updated_at`, and no status or priority is null. |
| `TaskStoreProperties.UpdateKeepsValid` | backend/src/app.py:281-287 | Update keeps `Valid`: each row under its own id, a non-empty title, and `created_at <= updated_at`, provided the clock is not earlier than the row's creation. Whether status and priority stay non-null is `UpdateKeepsEnumsSetIff`. |
| `TaskStoreProperties.DeleteKeepsValid` | backend/src/app.py:310-315 | Delete preserves every invariant. |
| `TaskStoreProperties.UpdateKeepsEnumsSetIff` | backend/src/app.py:281-285 | After a successful update, every status and priority is non-null if and only if the body sent neither `status: null` nor `priority: null`. |
| `TaskStoreProperties.NullStatusStored` | backend/src/app.py:281-289 | As written, an update with `status: null` on an existing row succeeds and stores a null status. |
| `TaskStoreProperties.UpdateStrictKeepsInvariants` | backend/src/app.py:82-83 | The corrected update keeps `Valid` and keeps every status and priority non-null. |
| `TaskStoreProperties.UpdateStrictAgrees` | backend/src/app.py:277-289 | On every body that sends no null status or priority, the corrected update equals the update as written. |
| `TaskStoreProperties.UpdateIdempotent` | backend/src/app.py:281-287 | Sending the same body twice at the same time has the same effect and result as sending it once. |
| `TaskStoreProperties.EmptyUpdateTouchesOnlyTimestamp` | backend/src/app.py:281-286 | A body with no keys only refreshes the row's update time. |
| `TaskStoreProperties.UpdateAdvancesTimestamp` | backend/src/app.py:284-286 | On a valid store, an update at a later time moves `updated_at` strictly forward and keeps `created_at`. |
| `TaskStoreProperties.NoFilterMatchesAll` | backend/src/app.py:204-213 | With no filter, every row matches. |
| `TaskStoreProperties.EmptyAssigneeIgnored` | backend/src/app.py:210-211 | An empty assignee filter selects exactly what an absent one selects. |
| `TaskStoreProperties.NullAssigneeNeverMatches` | backend/src/app.py:210-211 | A row without an assignee never matches a non-empty assignee filter. |
| `TaskStoreProperties.CreateUpdateDeleteScenario` | backend/src/app.py:226-315 | Creating `{title: "Write spec", priority: high}` gives status `todo` and no description. A later `{status: done}` keeps the title and advances `updated_at`. After the delete, a read is `NotFound`. |
| `Origins.Split` | backend/src/app.py:144 | There is one piece per comma plus one. No piece contains a comma, and joining the pieces with commas gives back the input. |
| `Origins.SplitCons` | backend/src/app.py:144 | Splitting a comma-free piece, a comma and a rest gives that piece followed by the split of the rest. |
| `Origins.SplitSingle` | backend/src/app.py:144 | A comma-free string splits into exactly itself. |
| `Origins.SplitJoin` | backend/src/app.py:144 | Splitting the comma-join of comma-free pieces gives back exactly those pieces. |
| `Origins.SkipSpace` | backend/src/app.py:144 | Returns the end of the maximal whitespace run starting at the given position. Everything before it is whitespace, and the character at it is not. |
| `Origins.SkipSpaceBack` | backend/src/app.py:144 | Returns the start of the maximal whitespace run ending at the given position, not going below the lower bound. |
| `Origins.Strip` | backend/src/app.py:144 | The result is the slice of the input right after its maximal whitespace prefix. Only whitespace follows it, and it neither starts nor ends with whitespace. |
| `Origins.StripTrimmed` | backend/src/app.py:144 | A string with no whitespace at either end strips to itself. |
| `Origins.StripIdempotent` | backend/src/app.py:144 | Stripping twice is the same as stripping once. |
| `Origins.StripKeepsChars` | backend/src/app.py:144 | Every character of a stripped string occurs in the original. |
| `Origins.StripEach` | backend/src/app.py:144 | Has one element per piece, and each element is the matching piece stripped. |
| `Origins.StripEachTrimmed` | backend/src/app.py:144 | Pieces that are already trimmed come through unchanged. |
| `Origins.ParseOrigins` | backend/src/app.py:143-144 | There is one origin per comma plus one. Each origin is the matching comma-separated piece, stripped. |
| `Origins.OriginsClean` | backend/src/app.py:143-144 | No origin contains a comma, and none starts or ends with whitespace. |
| `Origins.ParseJoin` | backend/src/app.py:144 | Comma-joining non-empty, comma-free, trimmed origins and parsing the result gives back exactly those origins. |
| `Origins.CorsOrigins` | backend/src/app.py:143-144 | A present setting is used as is, even when empty: one origin per comma plus one, each the stripped piece. Only an absent setting falls back to the default. |
| `Origins.EmptySettingKept` | backend/src/app.py:143-144 | A present but empty setting gives exactly one empty origin. It does not fall back to the default. |
| `Origins.DefaultOrigins` | backend/src/app.py:143-144 | Without the setting, the result is exactly `http://localhost:5173` and `http://localhost:3000`. |

## Left out

- HTTP routing, status codes, JSON serialisation and dependency injection: framework behaviour. Outcomes are modelled only as `NotFound` / `InvalidArgument`.
- Boundary validation of field lengths and types (app.py:56-73): the validation library does it before a handler runs.
  - It is not stated as a precondition. The handlers do not depend on it.
  - One consequence: the handler's own empty-title check in create cannot fire through HTTP, because the title's `min_length=1` rejects `""` first. The model keeps the handler's check as written.
  - The same holds on update: `min_length=1` on the update title (app.py:68) rejects `""` before the handler runs, and so before its 404 check. For an unknown id with `{"title": ""}` the service answers 422, while `TaskStore.Update` gives `NotFound(id)`. Only a null title reaches the handler's check at app.py:282.
- The database session, `commit` / `refresh`, `init_db` and `lifespan`: the finite map stands in for the task table. The database and ORM modules are not part of this model.
- `uuid4` and `utcnow`: randomness and the wall clock, passed in as `freshId` and `now`.
- `TaskStore.Create`: requires that the fresh id is not already in the store. The service relies on `uuid4` for this. A collision would be an unhandled database failure, not a modelled outcome.
- `TaskStore.Update`: for a body with `status: null` or `priority: null`, it returns `Ok` with the null stored. That is knowingly not the service's outcome. The response schema declares both fields non-null (app.py:82-83), and the handler declares that schema as its response model (app.py:247), so the service answers with a server error instead. If the column accepts NULL, later `Get` and `List` responses for that row fail the same way, while the model returns the row. `TaskStore.UpdateStrict` is the corrected behaviour; see "## Findings".
- The order of `List`'s results: the database gives no ordering guarantee, so the contract fixes the contents and not the order.
- The `/health` endpoint and the `/` banner: database I/O and a constant.
- CORS middleware installation, logging and the `uvicorn` entry point: environment wiring.
- Commented-out code that never runs: the enum copies (app.py:42-53), the in-memory storage (app.py:99-115) and the startup/shutdown hooks (app.py:154-165). Only the enum members are used, as stated above.
- The test fixture module (`backend/tests/conftest.py`): it only sets up an in-memory database for tests.
- Concurrent requests and last-commit-wins races: each operation is modelled as one atomic step.

## Findings

| source | as written | input that shows it | evidently intended | confidence | as-written member | corrected member |
|---|---|---|---|---|---|---|
| backend/src/app.py:281-289 | The update copies every sent key with `setattr`, including an explicit `null` for `status` or `priority`. The response model `Task` (app.py:82-83) declares both non-null. | `PUT /tasks/{id}` with body `{"status": null}` on an existing task. | Reject a null `status` or `priority` the way a null title is rejected, so that every row keeps a status and a priority. | not executed; medium: the exact failure (database integrity error or response validation error) depends on the ORM model, which is not part of this model | `TaskStore.Update`, `TaskStoreProperties.NullStatusStored`, `TaskStoreProperties.UpdateKeepsEnumsSetIff` | `TaskStore.UpdateStrict`, `TaskStoreProperties.UpdateStrictKeepsInvariants` |
