/**
 * Shared vocabulary of the backend: the rows of the four tables, the
 * projections the handlers send back, and the shape of an HTTP reply.
 */
module Common {

  datatype Option<+T> = None | Some(value: T)

  /** Primary keys are strings generated by the database. */
  type Id = string

  /** A handler's answer: a success status with a JSON body, or an error status. */
  datatype Reply<+T> = Ok(code: int, value: T) | Fail(code: int)
  {
    function Status(): int {
      match this
      case Ok(c, _) => c
      case Fail(c) => c
    }
  }

  const OK := 200
  const CREATED := 201
  const BAD_REQUEST := 400
  const UNAUTHORIZED := 401
  const FORBIDDEN := 403
  const NOT_FOUND := 404
  const SERVER_ERROR := 500

  /** The closed set of board columns a task can be in. */
  datatype TaskStatus = Todo | InProgress | Done

  /** The spelling of each status in requests and in the database. */
  function StatusName(s: TaskStatus): string {
    match s
    case Todo => "TODO"
    case InProgress => "IN_PROGRESS"
    case Done => "DONE"
  }

  /** Reading a status from a request body; anything else is not a status. */
  function ParseStatus(name: string): (r: Option<TaskStatus>)
    ensures r.Some? ==> StatusName(r.value) == name
    ensures r.None? ==> forall s: TaskStatus :: StatusName(s) != name
  {
    if name == "TODO" then Some(Todo)
    else if name == "IN_PROGRESS" then Some(InProgress)
    else if name == "DONE" then Some(Done)
    else None
  }

  // Rows of the tables.  The id of a row is its key in the table's map.

  datatype User = User(name: string, email: string, passwordHash: string)

  datatype Project = Project(name: string, ownerId: Id, createdAt: nat)

  datatype Task = Task(
    projectId: Id,
    title: string,
    description: string,
    status: TaskStatus,
    assigneeId: Id,
    createdAt: nat)

  // Projections sent back to clients.  None of them has a field for the
  // password hash, so no response can carry one.

  /** `select { id, name, email }` */
  datatype Profile = Profile(id: Id, name: string, email: string)

  /** `select { id, email }` */
  datatype UserRef = UserRef(id: Id, email: string)

  /** A task row with its id and its resolved assignee (`include: { assignee }`). */
  datatype TaskView = TaskView(id: Id, task: Task, assignee: Option<Profile>)

  /** The `{ id, name, email }` projection of a user row, when there is one. */
  function ProfileOf(users: map<Id, User>, id: Id): Option<Profile> {
    if id in users then Some(Profile(id, users[id].name, users[id].email)) else None
  }

  /** The `{ id, email }` projection of a user row, when there is one. */
  function RefOf(users: map<Id, User>, id: Id): Option<UserRef> {
    if id in users then Some(UserRef(id, users[id].email)) else None
  }

  function ViewOf(users: map<Id, User>, id: Id, t: Task): TaskView {
    TaskView(id, t, ProfileOf(users, t.assigneeId))
  }

  /** The payload of a session token: the user id and the lifetime in seconds. */
  datatype Claims = Claims(userId: Id, expiresIn: nat)

  /** The `'7d'` lifetime of every session token, in seconds. */
  const TOKEN_LIFETIME: nat := 7 * 24 * 60 * 60

  /** JavaScript truthiness of an optional string field: present and non-empty. */
  predicate Truthy(s: Option<string>) {
    s.Some? && s.value != ""
  }
}
