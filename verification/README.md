# Project/task tracker backend, modelled in Dafny

This project models the request handlers of a small multi-user project and
task tracker. Users register and log in. They create projects, invite
members by email and remove them again. Tasks sit on a three-column board
(TODO, IN_PROGRESS, DONE).

The relational store is the class `Db.Store`. It holds four tables and a
clock:

- `users`: id → name, email, password hash;
- `projects`: id → name, ownerId, createdAt;
- `members`: a set of (projectId, userId) rows;
- `tasks`: id → projectId, title, description, status, assigneeId, createdAt;
- `clock`: the next `createdAt` stamp.

Its invariant `Valid()` says that emails are unique and that every stamp
lies below the clock. One `Store` is passed to each controller. Each handler
becomes one operation on it. Handlers that write to the database are
methods with `modifies db`. They return the HTTP status and body, and
they state the new contents of every table. Handlers that only read are
functions with `reads db`. Two of them return rows sorted by `createdAt`
(`getAllProjects` and `getProjectById`). These are methods, because
`Ordering.OrderByCreatedAt` models the database's sort as a selection loop.

Modules, one per source file plus shared parts:

- `Common` (common.dfy): rows, projections, `Reply`, status codes.
- `Text` (text.dfy): JavaScript `split(' ')` with its inverse `Join`, ASCII
  case folding, and substring containment.
- `Db` (db.dfy): the store and its unique-email lookup.
- `Ordering` (ordering.dfy): `orderBy: { createdAt }`.
- `AuthMiddleware` (auth_middleware.dfy): `authenticateToken`.
- `ProjectController`, `TaskController`, `AuthController`: the three
  controllers.
- `Scenarios` (scenarios.dfy): handlers called in sequence, as a client
  would call them.

Which handlers sit behind `authenticateToken` (an assumption of the model,
from the route files):

- every project route and every task route (`router.use`);
- `GET /api/users/me`.

`GET /api/users/search` and `GET /api/users/:id` are not behind it
(backend/src/routes/userRoute.js:7-8). So the handlers that take a
`caller` id assume that `Authenticate` answered `Next(caller)`. Neither
`inviteMember` nor `removeMember` looks at the caller. No task handler
consults ownership or membership. The model keeps all of these gaps as
they are.

Places where the handlers behave differently from what their names or
messages suggest; the model follows the code:

- `updateTask` and `deleteTask` on a missing id answer 500 from the catch
  block, not 404.
- `deleteProject` checks existence (404) before ownership (403).
- `removeMember` runs its two steps one after the other, without a
  transaction.
- `removeMember` with no `userId` in the body drops the user condition
  from both filters: every task of the project goes to the owner and
  every membership row of the project is deleted.
- An empty-string `assigneeId` falls back to the caller, just as an
  omitted one does.
- The handler itself does not delete a project's tasks or membership rows.

## Model

| member | source | states |
|---|---|---|
| `Text.Split` | backend/src/middlewares/authMiddleware.js:6 | `split(' ')` yields at least one field, and no field contains the separator |
| `Text.JoinSplit` | backend/src/middlewares/authMiddleware.js:6 | joining the fields of a split with the separator gives back the original string |
| `Text.SplitPrefix` | backend/src/middlewares/authMiddleware.js:6 | a separator-free prefix only lengthens the first field of a split |
| `Text.SplitJoin` | backend/src/middlewares/authMiddleware.js:6 | splitting a join of separator-free fields gives back those fields |
| `Text.Lower` | backend/src/controllers/authController.js:85 | case folding keeps the length, folds each character on its own, and leaves no capital letter |
| `Text.LowerIdempotent` | backend/src/controllers/authController.js:85 | folding twice is folding once |
| `Text.Contains` | backend/src/controllers/authController.js:84 | `contains` holds exactly when the needle occurs at some position of the haystack |
| `Text.ContainsItselfIgnoringCase` | backend/src/controllers/authController.js:83-86 | a string contains any string that folds to the same thing |
| `Common.ParseStatus` | backend/src/controllers/taskController.js:77 | only the three enum spellings are statuses, and each parses to the status of that name |
| `Db.Store.constructor` | backend/src/controllers/projectController.js:2 | a new store is valid, with all four tables empty |
| `Db.Store.FindByEmail` | backend/src/controllers/authController.js:45 | `findUnique` by email finds the user with exactly that email, and finds nothing exactly when no user has it |
| `Ordering.FirstExists` | backend/src/controllers/projectController.js:24 | every non-empty set of rows has one that may come first in the requested order |
| `Ordering.OrderByCreatedAt` | backend/src/controllers/projectController.js:24 | the ids come out each exactly once, and sorted by createdAt in the requested direction |
| `AuthMiddleware.BearerToken` | backend/src/middlewares/authMiddleware.js:5-8 | a missing header yields no token; a token is non-empty, has no space, and came after a space in the header (which text it is: `TokenAfterAnyScheme`, `EmptySecondFieldIsUnauthorized`) |
| `AuthMiddleware.Authenticate` | backend/src/middlewares/authMiddleware.js:4-16 | exactly one outcome: 401 when there is no token, 403 when `verify` rejects it, otherwise `next` with the token's userId |
| `AuthMiddleware.SecondField` | backend/src/middlewares/authMiddleware.js:6 | after a space-free first field and one space, the second field of the split is the first field of the remainder |
| `AuthMiddleware.FieldEnds` | backend/src/middlewares/authMiddleware.js:6 | a space-free field followed by nothing or by a space is a whole field of the split |
| `AuthMiddleware.TokenAfterAnyScheme` | backend/src/middlewares/authMiddleware.js:5-6 | for every header `scheme token rest` (space-free scheme and non-empty space-free token, rest empty or starting with a space) the token is exactly the second field; the scheme word is not checked and extra fields are ignored |
| `AuthMiddleware.EmptySecondFieldIsUnauthorized` | backend/src/middlewares/authMiddleware.js:6-8 | a header whose second field is empty ("Bearer ", "Bearer  t") gives 401 and never reaches `verify` |
| `AuthMiddleware.NoSecondFieldIsUnauthorized` | backend/src/middlewares/authMiddleware.js:6-8 | a header with no space gives 401 and never reaches `verify` |
| `ProjectController.ReadDecision` | backend/src/controllers/projectController.js:76-82 | 404 exactly when the project is absent; 403 exactly when the caller is neither owner nor member; 200 otherwise |
| `ProjectController.DeleteDecision` | backend/src/controllers/projectController.js:175-176 | 404 exactly when absent; then 403 exactly when the caller is not the owner; 200 only for the owner |
| `ProjectController.DeleterCanRead` | backend/src/controllers/projectController.js:176 | whoever may delete a project may also read it |
| `ProjectController.MemberMayReadNotDelete` | backend/src/controllers/projectController.js:78-81 | a member who is not the owner is let into the project but refused its deletion |
| `ProjectController.ReassignTasks` | backend/src/controllers/projectController.js:141-149 | each task the filter selects (the project's tasks held by the leaving user, or all the project's tasks when no user is given) now goes to the new assignee, with its other fields unchanged; every other task is unchanged; afterwards every selected task is held by the new assignee |
| `ProjectController.ReassignIdempotent` | backend/src/controllers/projectController.js:141-149 | a second reassignment of the same tasks changes nothing |
| `ProjectController.DeleteRows` | backend/src/controllers/projectController.js:152-157 | exactly the membership rows that do not match the filter remain, and no row is added |
| `ProjectController.DeleteOneRow` | backend/src/controllers/projectController.js:152-157 | with a user id given, exactly the one (project, user) row is deleted |
| `ProjectController.DeleteRowsIdempotent` | backend/src/controllers/projectController.js:152-157 | deleting the same rows again deletes nothing more |
| `ProjectController.RemovalKeepsAssigneesBelonging` | backend/src/controllers/projectController.js:140-157 | suppose every task of the project was held by the owner or by a member; after the reassignment and the row deletion, that is still so |
| `ProjectController.GetAllProjects` | backend/src/controllers/projectController.js:5-27 | 200, listing exactly the projects the caller owns or is a member of, each once, newest first, with owner profile and task and member counts |
| `ProjectController.CreateProject` | backend/src/controllers/projectController.js:35-46 | 201 with one new project owned by the caller and stamped later than every existing one; the caller can read it; no other table changes |
| `ProjectController.TasksOldestFirst` | backend/src/controllers/projectController.js:62-67 | each task of the project appears exactly once, with its assignee resolved, oldest first |
| `ProjectController.Roster` | backend/src/controllers/projectController.js:68-72 | lists one entry per membership row of the project, with the user resolved to `{id, email}` |
| `ProjectController.GetProjectById` | backend/src/controllers/projectController.js:54-84 | the status is the access decision (404, 403, 200); on success the body is the project, its tasks oldest first, and its roster |
| `ProjectController.InviteMember` | backend/src/controllers/projectController.js:92-118 | 404 with no change when no user has the email; 400 with no change when the row exists; otherwise exactly that one row is added; the caller is never consulted |
| `ProjectController.RemoveMember` | backend/src/controllers/projectController.js:125-159 | 404 with no change for a missing project; otherwise 200, the selected tasks move to the owner (`ReassignTasks`) and the matching rows go (`DeleteRows`); with a user id, only the (project, user) row goes and no task of the project stays with a non-owner user; without one, the project has no members left and the owner holds all its tasks |
| `ProjectController.DeleteProject` | backend/src/controllers/projectController.js:168-180 | the status is the delete decision; only on 200 is the project removed, and no other project changes; the other tables stay as they were |
| `TaskController.NewTask` | backend/src/controllers/taskController.js:11-19 | a new task has status TODO and the path's project; its assignee is the given one when truthy, otherwise the caller |
| `TaskController.EmptyAssigneeFallsBackToCaller` | backend/src/controllers/taskController.js:17 | an empty or omitted assigneeId gives the task to the caller |
| `TaskController.ApplyPatch` | backend/src/controllers/taskController.js:72-80 | each given field replaces the old one, and each omitted field stays; project and createdAt never change; a status outside the enum makes the update fail |
| `TaskController.EmptyPatchKeepsTask` | backend/src/controllers/taskController.js:72-80 | an update with no fields leaves the task as it was |
| `TaskController.PatchIdempotent` | backend/src/controllers/taskController.js:72-80 | applying the same update twice equals applying it once |
| `TaskController.CreateTaskByProjectId` | backend/src/controllers/taskController.js:5-20 | 201 with the new task, which is the only change to the store |
| `TaskController.GetTasksByProject` | backend/src/controllers/taskController.js:29-40 | 200 with exactly the tasks whose projectId is the path's, each with its assignee |
| `TaskController.GetTaskById` | backend/src/controllers/taskController.js:48-60 | 404 exactly when the id is absent; otherwise 200 with that task and its assignee |
| `TaskController.UpdateTask` | backend/src/controllers/taskController.js:68-85 | 500 with no change for a missing id or an out-of-enum status; otherwise 200, and only the named task changes, as `ApplyPatch` says |
| `TaskController.DeleteTask` | backend/src/controllers/taskController.js:89-97 | 500 with no change for a missing id; otherwise 200, and only the named task is removed |
| `AuthController.GenerateToken` | backend/src/controllers/authController.js:8-10 | the signed payload is the user id and nothing else, with a fixed lifetime of seven days (604800 seconds) |
| `AuthController.IssuedTokenAuthenticates` | backend/src/controllers/authController.js:8-10 | a token issued for a user, sent as `Bearer <token>`, passes the middleware as that same user while the token library accepts it |
| `AuthController.Register` | backend/src/controllers/authController.js:13-33 | 400 with no change when the email exists; otherwise exactly one new user with the given name and email and the hash of the password, and 201 with a token for the new id |
| `AuthController.Login` | backend/src/controllers/authController.js:41-52 | 400 for an unknown email; 400 for a password that does not match the stored hash; otherwise 200 with a token for that user |
| `AuthController.GetProfile` | backend/src/controllers/authController.js:60-66 | always 200; `{id, name, email}` of the caller, or null when the caller's row is gone |
| `AuthController.SearchUsers` | backend/src/controllers/authController.js:73-94 | 400 for a missing or empty query; otherwise `{id, email}` of exactly the users whose email contains the query, ignoring case |
| `AuthController.SearchIgnoresCaseOfQuery` | backend/src/controllers/authController.js:83-86 | two queries that differ only in case give the same answer |
| `AuthController.SearchFindsOwnEmail` | backend/src/controllers/authController.js:83-91 | searching for a user's own email, in any case, finds that user |
| `AuthController.GetUserById` | backend/src/controllers/authController.js:101-109 | 404 exactly when absent; otherwise 200 with only `{id, email}` |
| `AuthController.LookupsHideHashes` | backend/src/controllers/authController.js:62-66 | profile and user lookups do not depend on any stored password hash |
| `AuthController.SearchHidesHashes` | backend/src/controllers/authController.js:88-91 | search results do not depend on any stored password hash |
| `Scenarios.RemoveMemberTwice` | backend/src/controllers/projectController.js:141-159 | a repeated `removeMember` answers like the first one, and together the two calls change only what one call changes |
| `Scenarios.RegisterTwice` | backend/src/controllers/authController.js:17-20 | registering the same email twice fails the second time with 400 |
| `Scenarios.RegisterThenLogin` | backend/src/controllers/authController.js:22-51 | after registering, a login with the same password gets a token for the new user id |
| `Scenarios.OwnerRemovesMember` | backend/src/controllers/projectController.js:125-159 | owner creates a project, invites a member and gives them a task, then removes them: the task is the owner's again, and both the former member and an outsider get 403 |

## Left out

- The frontend (React pages, components, client-side token decoding and
  sorting): it only displays state and calls the endpoints above.
- Express wiring, the auth routes and `app.js`. backend/src/routes/authRoute.js
  is not part of this model. Which routes are behind `authenticateToken`
  is recorded above as an assumption.
- bcrypt and JSON Web Tokens: salting, hashing, signing, signature checks,
  the clock and expiry. They are the parameters `hash`, `compare`, `sign`
  and `verify`. The 7-day lifetime appears only as a claim inside the token.
- Id generation: the database creates row ids. Each create takes the new id
  as a parameter (`newId`) and requires that it is unused, which is the
  database's guarantee.
- Wall-clock time: `createdAt` is a counter that grows with each create.
- Foreign keys and cascades. The database schema is not shown, so none of
  its constraints are modelled. The model does not delete a project's tasks
  and membership rows on `deleteProject`. It does not reject an invitation
  to a missing project. It does not reject a task whose project or assignee
  does not exist. The handler code leaves all of these to the schema.
- The status enum is assumed from the schema: an update with any other
  status value fails and answers 500.
- Storage failures (500 from an unreachable database) and concurrency.
  Cases where the handler's own call throws, such as a missing row in
  `update` or `delete` or an invalid status, are modelled.
- Request bodies with missing required fields (an undefined name, email,
  password, title or description), and explicit JSON `null` in an update:
  every required body field is modelled as a present string.
- `ProjectController.RemoveMember`: an explicit `"userId": null` in the
  body is not modelled. The database matches or rejects a null filter
  value rather than dropping the condition, and the model's user id is
  either a string or absent.
- `AuthController.SearchUsers`: a repeated `?email=` parameter, which
  arrives as an array, is not modelled. It passes the emptiness test and
  then makes the database call fail with 500; the model's query is a
  single string or absent.
- `Text.Lower`: folds ASCII letters only, whereas the database's
  case-insensitive match also folds non-ASCII letters.
- `Text.Contains`: `%` and `_` in the search query are treated literally.
  The model does not describe whether the database reads them as LIKE
  wildcards.
- The order of `searchUsers`, `getTasksByProject` and the member list: the
  source gives no `orderBy`, so these results are sets.
- Error message texts and console logging.
