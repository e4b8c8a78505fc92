# ToDoApp core in Dafny

A model of the decision logic of a small task-management backend: users
register, log in and refresh stateless signed tokens, and manage tasks that
only their owner may change or delete.

- **Task table** (`TasksService.TaskService`): the service object holds the
  task rows (`Task` objects, in insertion order) and the next id the database
  hands out. `GetTask` fails with NotFound; `GetTasks` and `GetUserTasks`
  answer the paged query with offset `(page - 1) * elements_per_page` and limit
  `elements_per_page`; `CreateTask` stamps the caller as owner; `UpdateTask`
  and `DeleteTask` run the ladder NotFound, then Unauthorized for another
  owner's task, then mutate. A failed call changes nothing.
- **Task object** (`TasksModels.Task`): `Update` assigns each keyword argument
  to the attribute of that name, in order. Its effect is the pure `ApplyAll`,
  about which the lemmas prove: every given key holds its value, every other
  attribute keeps its value, applying twice is applying once, an update with no arguments is a no-op.
- **Token codec** (`UsersAuth`): a token is symbolic, the payload
  `(user_id, action, exp)` together with the key and algorithm that signed it.
  Decoding checks the algorithm, the signer and expiry (`exp <= now` is
  expired). Creation, the access/refresh pair, the mapping of every decode
  error to the caller's exception, and the "soft" action check of
  `verify_action_token` are modelled on top.
- **Auth service** (`UsersService.UserService`): `Register`, `Login`, `Refresh`
  and `Logout` build a response value (status code, access token body or
  message, refresh cookie set or deleted) or return the HTTP error raised.
- **Errors** (`BaseExceptions`): NotFound 404, Unauthorized 401, BadRequest 400,
  each with its default detail message.

Where the code and its design description disagree, the model follows the code:
an update writes every field of the schema, not only the given ones; refresh
accepts only tokens whose action is `"auth"`; a taken username raises
BadRequest (400); token lifetimes come from the settings passed in, not from
fixed defaults; all decode failures raise the one exception the caller supplies.
The one exception is the task repository, which lacks most of the queries the
service calls (see "Left out"). There the model assumes the store contract the
service's annotations and its tests expect.

Clock, settings and hasher are parameters: `now` is an integer number of
seconds, `Settings` carries the secret, the algorithm and the two lifetimes in
minutes (`exp = now + 60 * minutes`), and the password hasher is the pair of
functions `hash` and `verify`.

## Model

| member | source | states |
|---|---|---|
| `BaseExceptions.DefaultErrors` | src/base/exceptions.py:5-17 | Raised without arguments, NotFound is 404 "Resource not found", Unauthorized 401 "Unauthorized access", BadRequest 400 "Bad request" |
| `BaseExceptions.CustomDetailKeepsStatus` | src/base/exceptions.py:5-17 | Passing only a detail keeps the kind's default status code and uses the given detail |
| `TasksSchemas.ParseStatus` | src/tasks/schemas.py:7-11 | A string names a status exactly when it is "new", "in_progress" or "completed" |
| `TasksSchemas.TaskStatus.ToString` | src/tasks/schemas.py:13-14 | `str(status)` is a string that parses back to the same status |
| `TasksSchemas.ParseStatusInverse` | src/tasks/schemas.py:7-14 | Parsing and the value string are inverse in both directions |
| `TasksSchemas.ExactlyThreeStatuses` | src/tasks/schemas.py:7-11 | The values of all statuses are exactly the three strings, and distinct statuses have distinct values |
| `TasksSchemas.SchemaDefaults` | src/tasks/schemas.py:17-31 | A create schema without status gets NEW; an update schema with only an id has title, description and status None |
| `TasksModels.SetAttr` | src/tasks/models.py:26 | One `setattr` gives the named attribute the value and leaves every other attribute unchanged |
| `TasksModels.ApplyAllField` | src/tasks/models.py:23-26 | After update, each attribute holds the last value given for it, or its old value if none was given |
| `TasksModels.UpdateSetsEveryKey` | src/tasks/models.py:23-26 | After update with dict kwargs, every key holds its given value |
| `TasksModels.UpdateKeepsOtherFields` | src/tasks/models.py:23-26 | An attribute not named in kwargs is unchanged |
| `TasksModels.UpdateIdempotent` | src/tasks/models.py:23-26 | Applying the same kwargs twice equals applying them once |
| `TasksModels.UpdateEmptyIsNoOp` | src/tasks/models.py:25-26 | Update with empty kwargs changes nothing |
| `TasksModels.Task.constructor` | src/tasks/models.py:11-19 | A new task object holds exactly the given column values |
| `TasksModels.Task.Update` | src/tasks/models.py:23-26 | The loop leaves the object equal to `ApplyAll` of its old value and the kwargs |
| `TaskStore.IndexOf` | src/tasks/service.py:16-18 | The position found holds that id; nothing is found exactly when no row has the id |
| `TaskStore.Lookup` | src/tasks/service.py:16-18 | A found row is in the table with that id; nothing is found exactly when no row has it |
| `TaskStore.LookupUnique` | src/tasks/service.py:16-18 | With unique ids, lookup by a row's id returns that row |
| `TaskStore.ReplaceChangesOnlyThatRow` | src/tasks/service.py:81-82 | Committing an update keeps size and id uniqueness, stores the new row, and keeps every row with another id |
| `TaskStore.DeleteRemovesOnlyThatRow` | src/tasks/service.py:97 | Committing a delete keeps ids unique, removes exactly one row when present, and exactly the rows with other ids remain |
| `TaskStore.Matching` | src/tasks/service.py:28-38 | The filtered rows are exactly the table rows passing the owner and status filters, each as often as in the table; with no filter, the whole table |
| `TaskStore.MatchingConcat` | src/tasks/service.py:28-38 | Filtering keeps table order: the filter of two stretches of the table is their filters one after the other |
| `TaskStore.MatchingOne` | src/tasks/service.py:28-38 | A single row is kept exactly when it passes the filters |
| `TaskStore.MatchingIgnoresPaging` | src/tasks/service.py:50-55 | Which rows pass depends on the owner and status only, not on the page asked for |
| `TaskStore.Select` | src/tasks/service.py:28-38 | Answers exactly for non-negative offset and limit, with the filtered rows from `offset` on, at most `limit` of them, in order |
| `TaskStore.Window` | src/tasks/service.py:29-31 | OFFSET/LIMIT returns at most `limit` rows, the ones starting at `offset`, in order |
| `TaskStore.SelectSound` | src/tasks/service.py:28-38 | A query answers exactly when offset and limit are non-negative, with at most `limit` rows, all in the table and passing the filters |
| `TaskStore.PagesTile` | src/tasks/service.py:29-31 | In the model's fixed listing order, pages 1 to n laid end to end are the first `n * size` rows: no row is skipped or repeated between pages |
| `TaskStore.SecondPageOfTwelve` | src/tasks/service.py:29-31 | Of twelve tasks with ids 1 to 12, page 2 with five per page holds tasks 6 to 10 |
| `TasksService.ModelDump` | src/tasks/service.py:81 | The dump names each attribute at most once and never the owner |
| `TasksService.ModelDumpExcludeUnset` | src/tasks/service.py:81 | The partial dump names each attribute at most once, never the owner, and never carries a None |
| `TasksService.UpdateOverwritesAllFields` | src/tasks/service.py:81 | As written, an update sets title, description and status to the schema's, None included; id and owner are kept |
| `TasksService.UpdateErasesUnsetTitle` | src/tasks/service.py:81 | An update giving only a status turns the title of the task into None |
| `TasksService.PartialUpdateKeepsUnsetFields` | src/tasks/service.py:81 | With exclude_unset, given fields change and the others, id and owner keep their values |
| `TasksService.TasksQuery` | src/tasks/service.py:28-38 | The query of page p asks for `elements_per_page` rows of the given status ending at `p * elements_per_page`, so page p + 1 starts where page p ends; pages from 1 on never ask for a negative offset |
| `TasksService.UserTasksQuery` | src/tasks/service.py:50-55 | The same page arithmetic, restricted to the owner |
| `TasksService.PageArithmetic` | src/tasks/service.py:29-31 | Page 2 with five per page is offset 5 limit 5; page 1 with ten is offset 0 limit 10 |
| `TasksService.TaskService.constructor` | src/tasks/service.py:10-12 | A new service has an empty, valid table |
| `TasksService.TaskService.GetTask` | src/tasks/service.py:14-19 | NotFound "Task not found" exactly when no task has the id; otherwise the stored task object with that id |
| `TasksService.TaskService.GetTasks` | src/tasks/service.py:21-40 | Answers exactly for non-negative offset and limit; at most `elements_per_page` tasks, all stored and of the given status; the page is the run of the (status-filtered) table starting at `(page - 1) * elements_per_page`; with no status, the unfiltered table's run |
| `TasksService.TaskService.GetUserTasks` | src/tasks/service.py:42-56 | Answers exactly for non-negative offset and limit; every task returned is stored, owned by the user and of the given status; the page is the run of the owner's tasks starting at `(page - 1) * elements_per_page`, at most `elements_per_page` long |
| `TasksService.UserTasksPage` | src/tasks/service.py:42-56 | In the model's fixed listing order, page k of a user's tasks is the k-th run of `elements_per_page` of one listing, the owner's tasks in table order |
| `TasksService.UserTasksPagesTile` | src/tasks/service.py:50-55 | In the model's fixed listing order, pages 1 to n of that listing laid end to end are its first `n * elements_per_page` tasks: no task is skipped or repeated |
| `TasksService.TaskService.CreateTask` | src/tasks/service.py:58-67 | The new task has the schema's title, description and status, the caller as owner and a fresh id; it is appended and no existing task changes; it is returned, under the assumed store contract |
| `TasksService.TaskService.UpdateWith` | src/tasks/service.py:69-83 | NotFound before any ownership check, then Unauthorized for another owner, both with the table unchanged; otherwise the stored task object gets the kwargs, is returned, and only its row changes |
| `TasksService.TaskService.UpdateTask` | src/tasks/service.py:69-83 | The same ladder; on success the task's title, description and status are the schema's (None when not given), id and owner unchanged, no other task changes |
| `TasksService.TaskService.UpdateTaskExcludeUnset` | src/tasks/service.py:69-83 | The same ladder; on success only the fields given change |
| `TasksService.TaskService.DeleteTask` | src/tasks/service.py:85-97 | NotFound, then Unauthorized, with no deletion; on success exactly that task is removed |
| `UsersAuth.JwtDecode` | src/users/auth.py:94-98 | Decoding succeeds exactly for a token signed with the key, with an allowed algorithm and not yet expired, and then yields its payload |
| `UsersAuth.JwtRoundTrip` | src/users/auth.py:88-102 | Decoding a freshly encoded, unexpired payload gives it back |
| `UsersAuth.GetPayloadFromToken` | src/users/auth.py:20-28 | Decoding with the settings succeeds exactly for a token signed with the secret and the configured algorithm that has not expired, and yields its claims |
| `UsersAuth.CreateAuthToken` | src/users/auth.py:31-43 | The token keeps the data's user_id and action, gets exp = now + expire_minutes, is signed with the settings, and decodes exactly until exp |
| `UsersAuth.CreateToken` | src/users/auth.py:46-53 | The token carries exactly user_id, the token type's action and exp = now + expire_minutes, signed with the secret and algorithm |
| `UsersAuth.CreateAccessToken` | src/users/auth.py:56-64 | An access token carries "access_token" and expires after the access lifetime |
| `UsersAuth.CreateRefreshToken` | src/users/auth.py:67-75 | A refresh token carries "refresh_token" and expires after the refresh lifetime |
| `UsersAuth.GenerateAuthTokens` | src/users/auth.py:78-85 | Access token first, refresh token second, both for the same user, with distinct actions, both signed with the secret and algorithm, expiring after the access and refresh lifetimes |
| `UsersAuth.DecodeToken` | src/users/auth.py:88-104 | Fails exactly when decoding fails, and then with the supplied exception; otherwise gives the payload's user_id and action |
| `UsersAuth.DecodeCreatedToken` | src/users/auth.py:88-104 | A created token decodes to its user_id and action exactly until its expiry; afterwards the supplied exception |
| `UsersAuth.ForgedTokenFails` | src/users/auth.py:103-104 | A token signed with another key, or not a token, fails with the supplied exception |
| `UsersAuth.VerifyActionToken` | src/users/auth.py:107-116 | Propagates decode's exception; otherwise returns the user_id exactly when the action matches and the user_id is truthy, else None |
| `UsersAuth.VerifyCreatedToken` | src/users/auth.py:107-116 | On a live created token: the user id for the right action and a non-zero id, None for a wrong action |
| `UsersAuth.PayloadOfCreatedToken` | src/users/auth.py:20-28 | The payload of a live access token holds user_id, action "access_token" and exp |
| `UsersService.UserService.constructor` | src/users/service.py:12-14 | A new service has an empty user table |
| `UsersService.UserService.Register` | src/users/service.py:16-50 | A taken username gives BadRequest "User already exists" and no user is created; otherwise exactly one user with the hashed password and the schema's names, and 201 with the token pair for the new id; usernames key the table and user ids stay distinct |
| `UsersService.UserService.Login` | src/users/service.py:52-82 | NotFound "User not found" for an unknown username, Unauthorized "Incorrect username or password" when verification fails, success exactly otherwise: 200 with the access token in the body and the refresh token in an http-only, secure cookie, the pair generated for the user's id |
| `UsersService.UserService.Refresh` | src/users/service.py:84-120 | In order: missing or empty cookie "Refresh token not found", decode failure "Invalid refresh token", action other than "auth" "Invalid token action"; success exactly when a present cookie decodes with action "auth", and then 200 with a new pair for the decoded user_id |
| `UsersService.UserService.RefreshWithRefreshAction` | src/users/service.py:84-120 | The same ladder; success exactly when a present cookie decodes with action "refresh_token" |
| `UsersService.UserService.Logout` | src/users/service.py:122-134 | 200 "Logged out", and the client is left without a refresh token cookie |
| `UsersService.RegisteredUserCanLogIn` | src/users/service.py:56-66 | A user stored by register logs in with the same password when the hasher verifies its own hashes, and gets tokens for the new id |
| `UsersService.LoginTokensIdentifyUser` | src/users/service.py:64-82 | The tokens of a successful login decode, while alive, to the user's id with actions "access_token" and "refresh_token" |
| `UsersService.LoginIdentifiesOneUser` | src/users/service.py:56-82 | Because user ids are distinct, the user id in a successful login's tokens names the user who logged in and no other |
| `UsersService.RefreshRejectsIssuedTokens` | src/users/service.py:100-101 | As written, refresh fails for both tokens that the service issues |
| `UsersService.RefreshRotatesIssuedRefreshToken` | src/users/service.py:100-103 | With the refresh action, a live issued refresh token is exchanged for a new pair for the same user, and an access token is refused |
| `UsersService.LogoutEndsSession` | src/users/service.py:130-132 | After logout's cookie deletion, refresh fails with "Refresh token not found" |

## Findings

| source | as written | input that shows it | evidently intended | confidence | as-written member | corrected member |
|---|---|---|---|---|---|---|
| src/tasks/service.py:81 | the update dumps the whole schema, so every field not given is written as None | `UpdateTaskSchema(id=1, status=completed)` on the caller's task titled "T": the object's title becomes None; against the real table the NOT NULL title column makes the commit raise instead, while the model stores the None (see "Database constraints" under Left out) | a partial update: only the fields given change, as with `exclude_unset` | not executed; high | `TasksService.UpdateErasesUnsetTitle` | `TasksService.TaskService.UpdateTaskExcludeUnset` |
| src/users/service.py:100 | refresh accepts only the action "auth", which no token the service creates carries | the refresh token from `generate_auth_tokens(1)`, sent as the cookie before it expires: "Invalid token action" | accept the refresh token action "refresh_token" | not executed; high | `UsersService.RefreshRejectsIssuedTokens` | `UsersService.UserService.RefreshWithRefreshAction` |

`UpdateTask` and `Refresh` keep the code's behaviour; the corrected members stand beside them.

## Left out

- JWT signing and verification (HS256, base64url): tokens are symbolic values recording payload, key and algorithm; forging is modelled only as signing with another key.
- Password hashing: `hash` and `verify` are function parameters. Being functions, they are deterministic, so the model stands for an unsalted hasher: two registrations with the same password store the same hash. Nothing proved depends on this; any other property appears only as a lemma's hypothesis.
- The SQLAlchemy repositories and session: the tables are in-memory fields; the id sequence is the `nextId` field; a commit is the field update.
- The task repository as written does not match the service. src/tasks/repository.py has no `get_task`, `get_tasks_by_status` or `get_user_tasks`. Its `get_tasks` takes a user id, not an offset and limit. Its `add_task` returns None, so `create_task` as written returns None. The model instead assumes the store contract that the service's annotations and tests expect: lookup by id, owner- and status-filtered OFFSET/LIMIT queries, and an add that returns the new task.
- Database constraints: NOT NULL on title and status is not enforced, so the model's table accepts the None that an update writes.
- Row order: the source defines no paged query; the model fixes insertion order, which is id order. Separate OFFSET/LIMIT queries without ORDER BY would not guarantee that pages tile, so `PagesTile`, `UserTasksPage` and `UserTasksPagesTile` hold only in this fixed order.
- TasksService.TaskService.GetTasks: a negative offset or limit is answered with None, standing for PostgreSQL's refusal; the error itself is not modelled. GetUserTasks does the same.
- TasksService.TaskService.GetTasks: returns the rows' values, not the row objects, so aliasing of listed tasks is not captured; the same holds for GetUserTasks.
- TasksService.TaskService.GetUserTasks: the repository method it calls does not exist in the source; its status filter is taken to be the same as for the whole table.
- TasksService.TaskService.UpdateTaskExcludeUnset: the schema cannot tell a field not given from one given as None, so None counts as not given.
- TasksModels.Task.Update: keyword arguments name only the five task attributes; `setattr` of an unknown attribute name is not modelled.
- created_at and updated_at timestamps, and the cascade delete of a user's tasks (no user deletion is part of the core).
- The response of update and list as `TaskResponseSchema`, JSON serialization and cookie header formatting: responses are a small datatype.
- HTTP routing and dependency injection (the task router holds only stubs).
- src/config.py defines neither the algorithm nor the token lifetimes; all settings are a parameter.
- The clock: `now` is whole seconds; the two clock reads of `generate_auth_tokens` are taken as one instant.
- The `if not token_data` check in refresh: decoding either raises or returns a (truthy) TokenData object, so that branch cannot be taken and is not modelled.
- `TokenData`, `LoginSchema` and `RegisterSchema` are imported by the user service but src/users/schemas.py defines only `CreateUserSchema`; the model builds them as records from their use, and pydantic validation of decoded claims is not modelled.
- src/users/models.py declares an email column and no first or last name; the model follows the service and the migration.
- `async`/`await` (all calls are sequential) and the debug print in `get_tasks`.
