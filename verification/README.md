# Secure task tracker: a verified model of the service core

This project models the decision logic and table updates of a FastAPI/SQLAlchemy task
tracker: the role guard that protects admin endpoints, the role store, login and
token refresh, user registration, the per-user task table, and the construction of
the access-token claim set. The database is an in-memory store (`Models.Db`) holding
the `users`, `roles`, `refresh_tokens` and `tasks` tables as sequences in insertion
order; rows whose columns the core changes in place (a user's role list, a task's
editable columns) are objects, the others are values. Its invariant, `Db.Valid`, is
the schema's uniqueness constraints: the primary keys `users.id`, `roles.id` and
`tasks.id`, and the unique columns `users.email`, `users.username` and `roles.name`.

Password and secret hashing, verification and JWT signing are fields of a `Crypto`
value passed to each operation; the one property the model's lemmas take as a
hypothesis is `Security.Sound` (a value verifies against its own hash). The clock (`now`, in
seconds), the random refresh secret and the uuid4 a new row draws are parameters. The
settings the core reads (`ACCESS_TOKEN_EXPIRE_MINS`, `REFRESH_TOKEN_EXPIRE_DAYS`) are a
`Settings` value.

Modules, one per source file: `Rbac` (app/dependencies/rbac.py), `RoleService`,
`AuthService`, `UserService`, `TaskService` (app/services/*.py), `Security`
(app/core/security.py), with `Models` (the tables), `Errors` (every HTTPException the
core raises, with its status and detail text), `Uuids` (CPython's `str(uuid)` and
`uuid.UUID(text)`, which the access token's `sub` claim and `get_user_with_roles`
rely on) and `Wrappers` (Option/Result).

Two behaviours of the code are modelled as written: `UserCreate.role_names`
(app/schemas/user.py:18) is accepted but `create_user` never reads it, so a new user
has no roles; and refresh verifies the presented secret only against the first live
refresh record of the whole table (see Findings).

## Model

| member | source | states |
|---|---|---|
| Uuids.ParseUuid | app/services/role_service.py:44 | uuid.UUID(text) succeeds exactly when, after dropping "urn:", "uuid:", surrounding braces and hyphens, 32 hex digits remain; the value is their number; any other length is the "badly formed" error |
| Uuids.UuidText | app/services/auth_service.py:30 | str(id) is 36 characters, each a hyphen or a lower-case hex digit |
| Uuids.HexRoundTrip | app/services/auth_service.py:30 | the 32 digits printed for a 128-bit id read back as that id |
| Uuids.ParseUuidText | app/services/role_service.py:44 | parsing the text of an id gives the id back |
| Uuids.UuidTextInjective | app/services/auth_service.py:30 | two ids with the same text are the same id, so "sub" names one user |
| Uuids.ParseBracedUuid | app/services/role_service.py:44 | the braced spelling of an id parses to the same id |
| Errors.Status | app/services/user_service.py:16 | every error answer carries one of the statuses 400, 401, 403, 404, 500 |
| Errors.Detail | app/services/auth_service.py:19-20 | every detail text is non-empty, and the login miss echoes the email it was given after "User with email " |
| Errors.KnownAnswers | tests/integration/test_auth.py:38-39 | the duplicate email is 400 "Email already exists choose another email", a login with the unknown email "wronguser" is 404 "User with email wronguser does not exists", a bad refresh secret is 401 "Invalid or expired refresh token" |
| Errors.StatusClasses | app/dependencies/rbac.py:20-33 | 403 comes only from the two role-check errors, 401 only from a bad password or a refused refresh |
| Models.UserWhere | app/services/user_service.py:12-22 | select(User).where(column == value).first(), for the id, email and username columns: a user found is stored and has that value; none is found exactly when no stored user has it |
| Models.UserWithIdUnique | app/models/user.py:11 | with unique ids, looking up a stored user's id finds that very user |
| Models.UserWithEmailUnique | app/models/user.py:12 | with unique emails, looking up a stored user's email finds that very user |
| Models.User.constructor | app/services/user_service.py:25-30 | a new user has the given columns, is active and has no roles |
| Models.Task.constructor | app/services/task_service.py:14 | a new task has the given title, description, owner and creation time, and is not completed |
| Models.Db.constructor | app/models/role.py:14-15 | a store seeded with roles of distinct ids and distinct names, and no users, tokens or tasks, satisfies the schema's uniqueness constraints |
| Security.HashPassword | app/core/security.py:13-14 | under the hash axiom the password verifies against the hash made of it |
| Security.VerifyPassword | app/core/security.py:17-18 | under the hash axiom a password is accepted against its own hash |
| Security.HashRefreshToken | app/core/security.py:38-39 | under the hash axiom the secret verifies against the hash made of it |
| Security.VerifyRefreshToken | app/core/security.py:42-43 | under the hash axiom a secret is accepted against its own hash |
| Security.CreateAccessToken | app/core/security.py:21-31 | the token is the signature of a claim set with the caller's keys plus "exp", where exp is the computed expiry instant and every other key keeps the caller's value |
| Security.HashRoundTrip | app/core/security.py:13-18 | under the hash axiom a password and a refresh secret verify against their own hash |
| Security.RefreshSecretsHashedLikePasswords | app/core/security.py:38-43 | refresh secrets are hashed and verified by the password scheme |
| Security.Expiry | app/core/security.py:23-28 | exp is now plus the delta when the delta is truthy, else now plus the configured minutes |
| Security.ZeroDeltaFallsBack | app/core/security.py:23 | a zero delta is falsy and gets the configured lifetime |
| Security.AccessClaims | app/core/security.py:22-29 | the signed claims are the caller's keys plus "exp"; other claims keep their values; an "exp" in the data is overwritten |
| Security.SubjectClaims | app/services/auth_service.py:30 | the session data has the single key "sub", whose text parses back to the user's id |
| Security.SessionClaims | app/services/auth_service.py:30 | a session token carries exactly "sub" and the default "exp" |
| Rbac.RoleNames | app/dependencies/rbac.py:26 | the name list has one entry per role, in order |
| Rbac.Authorize | app/dependencies/rbac.py:20-33 | pass exactly when some role of the user has an allowed name; an empty role list fails with "No roles assigned", otherwise failure is "Access denied" naming the allowed list |
| Rbac.RoleGuard.Check | app/dependencies/rbac.py:19-35 | the checker returns the same user on success and the matching 403 otherwise |
| Rbac.RequireRoles | app/dependencies/rbac.py:9-37 | the guard closes over the allowed list it was built with |
| Rbac.RequireAdmin | app/dependencies/rbac.py:40-42 | require_admin() is require_roles(["admin"]) |
| Rbac.AdminGuardAdmitsAdmins | app/dependencies/rbac.py:40-42 | the admin guard admits exactly the users holding a role named "admin" |
| Rbac.EmptyAllowedDeniesAll | app/dependencies/rbac.py:29 | an empty allowed list refuses every user |
| Rbac.NoRolesAlwaysRefused | app/dependencies/rbac.py:20-24 | a user without roles is refused with "No roles assigned", whatever is allowed |
| Rbac.AuthorizeDependsOnNameSet | app/dependencies/rbac.py:26-29 | two role lists with the same name set get the same decision: order and repeats do not matter |
| Rbac.MoreRolesKeepAccess | app/dependencies/rbac.py:26-29 | adding role names never turns an admitted user into a refused one |
| RoleService.GetRoleByName | app/services/role_service.py:13-15 | with unique names, the role with that name is found, or none when no role has it |
| RoleService.GetRolesByNames | app/services/role_service.py:18-20 | a role is found exactly when it is stored and its name is listed; unknown names are dropped |
| RoleService.RolesByNamesNoRepeats | app/services/role_service.py:18-20 | with unique names no role is found twice, even when a name is listed twice |
| RoleService.RolesByNamesDependsOnNameSet | app/services/role_service.py:19 | the roles found depend only on the set of names asked for |
| RoleService.UnknownNamesFindNothing | app/services/role_service.py:19 | names that match no stored role find nothing |
| RoleService.SingleNameFindsOneRole | app/services/role_service.py:18-20 | asking for one stored name finds exactly that role |
| RoleService.AssignedAdminPassesGuard | app/services/role_service.py:23-33 | assigning ["admin"] leaves exactly the admin role, which the admin guard admits |
| RoleService.AssignRolesToUser | app/services/role_service.py:23-38 | the user's roles become exactly the roles found for the names, nothing previous kept; only that user changes, so repeating the call changes nothing |
| RoleService.GetUserWithRoles | app/services/role_service.py:41-52 | malformed id text is a ValueError; otherwise the user with that id, or none when no user has it |
| RoleService.GetUserWithRolesByText | app/services/role_service.py:44-48 | a stored user is found by the text of its own id |
| AuthService.SessionAccessToken | app/services/auth_service.py:30 | the access token of a session signs exactly "sub", the text of the user's id, and "exp", now plus the configured minutes |
| AuthService.IssuedRecord | app/services/auth_service.py:31-39 | the new record belongs to the user, holds the refresh hash of the secret (which, under the hash axiom, the secret verifies against), expires the configured number of days after now, and is unexpired at now exactly when those days are positive |
| AuthService.AuthenticateUser | app/services/auth_service.py:14-46 | unknown email is 404 and wrong password 401, neither adding a record; success appends exactly one hashed record and returns the raw secret, a token for the user and "bearer" |
| AuthService.LiveRecords | app/services/auth_service.py:50-54 | a record is live exactly when it is stored, unexpired and its owner exists |
| AuthService.RefreshAccessToken | app/services/auth_service.py:49-71 | succeeds exactly when there is a live record and the secret verifies against the first one; returns a token for its owner and the same secret; every failure is 401 "Invalid or expired refresh token"; the store is only read |
| AuthService.LiveRecordsAppend | app/services/auth_service.py:50-54 | the live records of a table with one more row are the old ones followed by the new row if it is live |
| AuthService.LoginThenRefresh | app/services/auth_service.py:49-71 | the secret a login returns refreshes to a token for the same user, when no earlier live record exists |
| AuthService.RefreshRejectsLaterSession | app/services/auth_service.py:55-56 | a user who logs in twice cannot refresh with the second secret |
| AuthService.FirstMatching | app/services/auth_service.py:55-56 | the live record found verifies the secret; none is found exactly when no live record does |
| AuthService.RefreshAnyMatch | app/services/auth_service.py:55-61 | succeeds exactly when some live record verifies the secret, with a token for that record's owner |
| AuthService.LoginThenRefreshAnyMatch | app/services/auth_service.py:55-61 | with any live record a candidate, the secret a login returns always refreshes |
| UserService.RegistrationError | app/services/user_service.py:12-37 | registration is refused exactly when the email, the username or the new id is taken; a taken email is `EmailTaken`, else a taken username is `UsernameTaken`, else a taken id is `UserCreationFailed` |
| UserService.CreateUser | app/services/user_service.py:10-37 | a refusal leaves the users table unchanged; success appends one new active user with the given columns, the hashed password and no roles |
| UserService.DuplicateEmailRefused | app/services/user_service.py:12-16 | a second registration with a stored email is refused with 400 "Email already exists choose another email" |
| UserService.GetAllUsers | app/services/user_service.py:40-42 | every stored user, in table order |
| TaskService.UpdateData | app/services/task_service.py:49 | model_dump(exclude_unset=True): a field is assigned a value exactly when the update supplies that value (null included); unsupplied fields get no entry |
| TaskService.SetAttrLoopPatches | app/services/task_service.py:49-51 | the setattr loop overwrites exactly the supplied fields, null included, and keeps the others |
| TaskService.Stage | app/services/task_service.py:49-51 | the for-loop over the supplied fields leaves the columns that applying each setattr in turn defines |
| TaskService.GetTaskById | app/services/task_service.py:33-37 | a task is found only when both its id and its owner match; none exactly when no task matches both |
| TaskService.SameIdSameTask | app/models/task.py:13 | with unique task ids, an id names one task |
| TaskService.ForeignTaskNotFound | app/services/task_service.py:33-37 | another user looking up a task's id finds nothing |
| TaskService.OwnTaskFound | app/services/task_service.py:33-37 | the owner looking up a task's id finds that task |
| TaskService.CreatedTaskFound | app/services/task_service.py:12-18 | a task inserted under a fresh id is what its owner then fetches by that id |
| TaskService.OwnedBy | app/services/task_service.py:28 | the tasks kept are exactly the stored tasks of that user |
| TaskService.InsertNewestFirst | app/services/task_service.py:28 | inserting adds the task once and keeps the other tasks |
| TaskService.InsertKeepsNewestFirst | app/services/task_service.py:28 | inserting into a newest-first list keeps it newest first |
| TaskService.SortNewestFirst | app/services/task_service.py:28 | the sorted list is a permutation of the input |
| TaskService.SortIsNewestFirst | app/services/task_service.py:28 | the sorted list is ordered by creation time, newest first |
| TaskService.GetTasksByUser | app/services/task_service.py:26-30 | the list holds the user's stored tasks, as a multiset, newest first |
| TaskService.TasksListedOnce | app/services/task_service.py:26-30 | with unique task ids no task is listed twice |
| TaskService.ListedIffOwned | app/services/task_service.py:26-30 | a task is listed for a user exactly when it is stored and the user owns it |
| TaskService.CreateTask | app/services/task_service.py:12-23 | a taken id fails with 500 and no change; otherwise one new task owned by the caller, with the given title and description, not completed, is appended |
| TaskService.Remove | app/services/task_service.py:70 | exactly the given task goes and every other task stays, as many times as before |
| TaskService.RemoveKeepsIdsUnique | app/models/task.py:13 | removing a task keeps the ids of the remaining tasks unique |
| TaskService.UpdateTask | app/services/task_service.py:40-60 | a missing or foreign task is 404 and nothing changes; a title given as null is 500 and nothing changes; otherwise exactly the supplied fields are overwritten; no other user's task changes |
| TaskService.DeleteTask | app/services/task_service.py:63-77 | a missing or foreign task is 404 and nothing changes; otherwise exactly that task is removed, True is returned and a later lookup finds nothing |
| TaskService.MarkTaskCompleted | app/services/task_service.py:80-84 | a missing or foreign task is 404; otherwise is_completed becomes true and title and description are kept |
| TaskService.MarkTaskIncomplete | app/services/task_service.py:87-91 | a missing or foreign task is 404; otherwise is_completed becomes false and title and description are kept |

## Left out

- Async I/O, SQLAlchemy sessions, `commit`/`refresh` and concurrent requests: the store is one sequential state. A rollback is modelled as an operation that writes nothing.
- bcrypt/passlib, python-jose and HS256 signing are the abstract `Crypto` functions; only `Sound` is assumed of them.
- `Security.HashPassword` and `Security.HashRefreshToken` are deterministic (one hash per input), unlike salted bcrypt, which makes a fresh hash on every call; no lemma relies on two hashes of one value being equal. `secrets.token_urlsafe` is the `secret` parameter; `datetime.now` is the `now` parameter; uuid4 defaults are the `newId` parameters.
- SQL result order without ORDER BY is taken to be insertion order (`first()`, `all()`).
- `get_user_by_email` is imported by app/services/auth_service.py:6 but not defined in app/services/user_service.py; the model uses the email lookup `Models.UserWhere` (by email) in its place.
- `get_current_user` (app/dependencies/auth.py) is not part of this model: the current user is a parameter of `Rbac.RoleGuard.Check`.
- Routers, dependency wiring and response schemas (app/api/v1/endpoints/*.py, app/main.py); app/api/v1/endpoints/users.py calls the services without a session.
- Column length limits (`String(50)`, `String(200)`, ...), foreign-key enforcement, email validation, the `created_at`/`updated_at` columns of users and roles, and `tasks.updated_at` (app/models/task.py:19), which the database sets on every update of a task.
- The refresh-token row's own id and `created_at` are not kept; the core never reads them.
- The `WWW-Authenticate` header of the 401 answers, and the driver's message that the 500 answers append to their detail text.
- `delete_task`'s 500 path: in a sequential store deleting a row that was just found cannot fail.
- A stored `is_completed` of null is kept as written; the response schema's rejection of it is router behaviour.
- The "User not found" branch of refresh_access_token (app/services/auth_service.py:62-69): the live records are joined with users, so the owner always exists in a sequential model; the branch is kept in `AuthService.RefreshAccessToken` and shown unreachable by its contract.
- The `ValueError`/`Exception` re-wrapping messages of role_service.py are not modelled; the parse error is returned as `Uuids.UuidError`.
- Uuids.ParseUuid: models only the 32-character hex-digit case of `int(text, 16)`; Python also accepts surrounding whitespace, a sign, an "0x" prefix and underscores there, and the model rejects those texts.
- `Errors.ListRepr` renders Python's repr of the allowed list only for names without a quote or a backslash; Python would switch to double quotes or escape those.
- Pagination schemas (app/schemas/task.py:34-43) are unused by the core.

## Findings

| source | as written | input that shows it | evidently intended | confidence | as-written member | corrected member |
|---|---|---|---|---|---|---|
| app/services/auth_service.py:55-56 | refresh takes the first unexpired refresh record of the whole table and verifies the presented secret against it alone | a user logs in twice (two live records) and refreshes with the second secret: 401 "Invalid or expired refresh token"; likewise any user whose record is not the first live one in the table | accept the secret when it verifies against any live record, and issue the token for that record's owner | high, not executed | AuthService.RefreshRejectsLaterSession | AuthService.RefreshAnyMatch |
