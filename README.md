# Course / project / user CRUD service — Dafny model

This project models the request handlers of a small HTTP service that keeps three tables: users,
courses and projects. Each project belongs to a user through `owner_id`. The relational store
behind the handlers becomes an in-memory store:

- one map from primary key to row per table;
- one counter per table for the next key to hand out;
- the unique columns `Course.code`, `User.email` and `User.student_id`, checked at commit time by
  an explicit predicate (`Tables.Constraints`). That predicate takes the place of the store's
  integrity error.

Every handler is one atomic step on that store. It answers `Ok(value)`, `NotFound(msg)` (404) or
`Conflict(msg)` (409), with the detail texts the service uses.

Modules, one per layer of the handler file:

- `Records` (records.dfy): rows, request bodies, `Option`, `Result` and the detail texts. A PATCH
  body is a record of `Option` fields; `None` means the client did not send that field.
- `Tables` (tables.dfy): the store as a value (`Db`), its well-formedness, and the unique-column
  check. Two lemmas say exactly when a write breaks uniqueness.
- `Queries` (queries.dfy): the read-only handlers as functions over the tables: lookups that 404,
  listings ordered by id, `LIMIT`/`OFFSET` paging, and the filter by owner.
- `Patches` (patches.dfy): the PATCH loop. It takes the fields the client sent (the body dumped
  without unset fields) and sets them on the row one after another. The loop is proved equal to
  the field-mask reading: each sent field is replaced and every other field is kept.
- `Handlers` (store.dfy): class `Store`. Its fields are the three maps and three counters. The
  mutating handlers are methods that change those fields in place and then commit through
  `CommitOrRollback`. Every handler method keeps `Valid()` and states the whole new state in terms of the
  old one.
- `Scenarios` (scenarios.dfy): request sequences checked from the contracts alone. One is the
  user → project → owner-PATCH-to-999 walk-through. One re-posts a duplicate course code. One
  lists two courses with the default `limit` (10) and `offset` (0). One shows the PUT/PATCH
  asymmetry on a project whose owner was deleted.

Two behaviours of the handlers that the contracts follow:

- `get_user_projects` has no `ORDER BY`, so its contract promises each matching row exactly once and no order.
- A project write has no unique column to break, so its 409 path cannot be reached in the model.

## Model

| member | source | states |
|---|---|---|
| `Handlers.Store.CommitOrRollback` | app/main.py:42-47 | if the pending state passes the unique-column check it is kept and the answer is `Ok`; otherwise every table and counter is put back exactly as it was before the handler ran, and the answer is `Conflict` with the caller's message |
| `Tables.CourseWriteUnique` | app/main.py:42-47 | writing a course row into a table with unique codes keeps the codes unique exactly when no other course already has that code (both directions) |
| `Tables.UserWriteUnique` | app/main.py:42-47 | writing a user row keeps emails and student ids unique exactly when no other user already has that email or that student id (both directions) |
| `Handlers.Store.CreateCourse` | app/main.py:61-67 | a duplicate code gives 409 "Course already exists" and leaves the store unchanged; otherwise the row is added under a fresh key larger than every existing one, and the counter advances |
| `Queries.Page` | app/main.py:72 | `LIMIT limit OFFSET offset`: the result has `min(limit, n - offset)` rows, or none when the offset is past the end, and row `i` is input row `offset + i` |
| `Queries.PagesTile` | app/main.py:72 | two consecutive pages joined are the one page as long as both, so paging by `limit`/`offset` skips and repeats nothing |
| `Queries.SortedIds` | app/main.py:72 | `ORDER BY id`: the keys in strictly ascending order, each exactly once |
| `Queries.ListCourses` | app/main.py:70-73 | always `Ok`; the rows are stored rows in strictly ascending id order, `offset` rows of the ordered table are skipped and at most `limit` kept; an offset past the end gives an empty list, not an error |
| `Queries.Lookup` | app/main.py:78-80 | the row under the id, or `NotFound` with the given message exactly when the id is absent |
| `Queries.GetCourse` | app/main.py:76-81 | the stored course, or 404 "Course not found" exactly when the id is absent |
| `Handlers.Store.PutCourse` | app/main.py:84-96 | absent id gives 404 and no change; otherwise code, name and credits all take the payload values and the id is kept; a code used by another course gives 409 "Course update failed" and no change |
| `Patches.CourseFieldsSent` | app/main.py:105 | the dumped body holds a `(field, value)` item exactly for each field the client sent, with that value |
| `Patches.CourseFieldsSentAsMask` | app/main.py:105-106 | setting the sent items one by one gives the row with each sent field replaced and every other field kept |
| `Patches.ApplyCoursePatch` | app/main.py:105-106 | the `setattr` loop returns the field-mask result: sent fields replaced, omitted fields and id unchanged |
| `Handlers.Store.PatchCourse` | app/main.py:99-110 | absent id gives 404 and no change; otherwise only the sent fields change; a resulting code used by another course gives 409 and no change; an empty PATCH answers the old row and leaves the store identical |
| `Handlers.Store.DeleteCourse` | app/main.py:113-121 | absent id gives 404 and no change; otherwise only that row is removed, and a later get on the id is 404 |
| `Handlers.Store.CreateProject` | app/main.py:127-137 | an owner id that is not a user gives 404 "User not found" and inserts nothing; otherwise the row is added under a fresh key with the body's owner |
| `Handlers.Store.InsertProject` | app/main.py:133-135 | a new project row under a fresh key is committed; with no unique column on projects the commit cannot fail |
| `Queries.ListProjects` | app/main.py:140-143 | always `Ok`; every stored project exactly once, in strictly ascending id order |
| `Queries.GetProjectOwner` | app/main.py:146-156 | absent id gives 404 "Project not found"; otherwise the stored project with its owner looked up by `owner_id`, and no owner exactly when that user is gone |
| `Handlers.Store.PutProject` | app/main.py:159-176 | absent id gives 404; the owner is looked up only when `owner_id` changes, and a missing new owner gives 404 "Owner not found" with the project unchanged; otherwise name, description and owner all take the payload values |
| `Patches.ProjectFieldsSent` | app/main.py:185 | the dumped body holds an item exactly for each field the client sent, with that value |
| `Patches.ProjectFieldsSentAsMask` | app/main.py:192-193 | setting the sent items one by one gives the field-mask result |
| `Patches.ApplyProjectPatch` | app/main.py:192-193 | the `setattr` loop returns the row with sent fields replaced, omitted fields and id unchanged |
| `Handlers.Store.PatchProject` | app/main.py:179-197 | absent id gives 404; whenever `owner_id` is sent, even if it is the current owner, that user must exist or the answer is 404 "Owner not found" with the project unchanged; otherwise only the sent fields change; an empty PATCH leaves the store identical |
| `Handlers.Store.DeleteProject` | app/main.py:200-208 | absent id gives 404 and no change; otherwise only that row is removed, and a later get on the id is 404 |
| `Queries.OwnedBy` | app/main.py:214 | a row is kept exactly when it is in the input and its `owner_id` is the given user, and no row is kept more often than it occurs in the input |
| `Queries.OwnedByAscending` | app/main.py:214 | filtering rows whose ids ascend strictly keeps them ascending, so the filter never repeats a row |
| `Queries.GetUserProjects` | app/main.py:212-215 | always `Ok` and never 404, even for an unknown user; the result holds exactly the stored projects whose `owner_id` is the user, each once (no two listed rows share an id), so it is empty when the user owns none |
| `Handlers.Store.CreateUserProject` | app/main.py:219-229 | a path user that does not exist gives 404 "User not found" and inserts nothing; otherwise the new row's owner is the path user |
| `Queries.ListUsers` | app/main.py:235-238 | always `Ok`; every stored user exactly once, in strictly ascending id order |
| `Queries.GetUser` | app/main.py:241-246 | the stored user, or 404 "User not found" exactly when the id is absent |
| `Queries.GetUserAgreesWithList` | app/main.py:235-246 | a user is found by id exactly when a row with that id is listed, and the row found is a listed one |
| `Handlers.Store.AddUser` | app/main.py:249-255 | an email or student id already in use gives 409 "User already exists" and no change; otherwise the row is added under a fresh key and the counter advances |
| `Handlers.Store.DeleteUser` | app/main.py:258-266 | absent id gives 404 and no change; otherwise only the user row is removed, and the projects table is left exactly as it was |
| `Handlers.Store.PutUser` | app/main.py:269-282 | absent id gives 404; otherwise all four fields take the payload values and the id is kept; an email or student id used by another user gives 409 "User update failed" and no change |
| `Patches.UserFieldsSent` | app/main.py:291 | the dumped body holds an item exactly for each field the client sent, with that value |
| `Patches.UserFieldsSentAsMask` | app/main.py:291-292 | setting the sent items one by one gives the field-mask result |
| `Patches.ApplyUserPatch` | app/main.py:291-292 | the `setattr` loop returns the row with sent fields replaced, omitted fields and id unchanged |
| `Handlers.Store.PatchUser` | app/main.py:285-296 | absent id gives 404; otherwise only the sent fields change; a clash with another user's email or student id gives 409 and no change; an empty PATCH leaves the store identical |

## Left out

- Routing, the `/health` endpoint, the CORS middleware and table creation at start-up (app/main.py:19-32, 53-55): framework set-up with no decision logic.
- The session lifecycle of `get_db` (app/main.py:34-39): each handler call is one atomic step on the store.
- `db.refresh` and the relationship loading of the project's owner: the owner is a lookup of `owner_id` in the users table.
- Request validation and type coercion: `app.schemas` and `app.models` are not part of this model. Bodies arrive well-typed, PUT bodies complete, and a PATCH field is either sent with a value of its type or not sent. An explicit `null` in a PATCH is not modelled.
- HTTP status codes and response shaping beyond the result variant.
- Concurrent requests and races between them: handler calls run one after another.
- Store failures other than a unique-column violation; in the service those end as a server error.
- Deletes commit directly, without the rollback wrapper, and a delete cannot break a unique column, so deletes have no 409 path.
- Serialising a project whose owner was deleted: `Queries.GetProjectOwner` answers `Ok` with no owner, which assumes the response schema `ProjectReadWithOwner` accepts a null owner; `app.schemas` is not part of this model.
- Referential integrity after `delete_user` (app/main.py:258-266): nothing cascades and nothing guards. The invariant therefore does not claim that every project's owner exists.
- Foreign-key checks by the database engine: the engine is not part of this model, and project writes are checked only against the unique columns.
- `Queries.ListCourses`: takes `limit` and `offset` as natural numbers. What negative values do depends on the database engine, which is not part of this model.
- `Queries.GetUserProjects`: promises each matching row once but no order, because the query has no `ORDER BY`. The model happens to return them in id order.
- Key assignment: keys come from a per-table counter that never reuses a key, and a rolled-back insert leaves the counter where it was. Engines that skip a key after a failed insert, or reuse the largest deleted key, are not modelled.
- `Handlers.Store.InsertProject`, `Handlers.Store.PutProject`, `Handlers.Store.PatchProject`: the 409 "Project creation failed" / "Project update failed" answers cannot occur, because projects have no unique column. The code path is kept but cannot be reached.
