/**
 * The project handlers: listing, creation, the detail view with its access
 * check, invitation by email, member removal with task reassignment, and
 * owner-only deletion.  Every handler here runs after `Authenticate` has
 * produced the caller's id.
 */
module ProjectController {
  import opened Common
  import opened Db
  import Ordering

  /** One entry of the dashboard list: the project, its owner, and its row counts. */
  datatype ProjectSummary = ProjectSummary(
    id: Id,
    project: Project,
    owner: Option<Profile>,
    taskCount: nat,
    memberCount: nat)

  /** A membership row with its user resolved to `{ id, email }`. */
  datatype MemberView = MemberView(userId: Id, user: Option<UserRef>)

  /** The detail view: the project, its tasks oldest first, and its members. */
  datatype ProjectDetail = ProjectDetail(
    id: Id,
    project: Project,
    tasks: seq<TaskView>,
    members: set<MemberView>)

  // ---------------------------------------------------------------------
  // Access control
  // ---------------------------------------------------------------------

  /** The user owns the project or holds a membership row for it. */
  predicate CanRead(projects: map<Id, Project>, members: set<(Id, Id)>, projectId: Id, userId: Id) {
    projectId in projects && (projects[projectId].ownerId == userId || (projectId, userId) in members)
  }

  /** The status `getProjectById` answers with: existence first, then access. */
  function ReadDecision(projects: map<Id, Project>, members: set<(Id, Id)>, projectId: Id, userId: Id): (code: int)
    ensures code == NOT_FOUND <==> projectId !in projects
    ensures code == FORBIDDEN <==> projectId in projects && !CanRead(projects, members, projectId, userId)
    ensures code == OK <==> CanRead(projects, members, projectId, userId)
  {
    if projectId !in projects then NOT_FOUND
    else if projects[projectId].ownerId != userId && (projectId, userId) !in members then FORBIDDEN
    else OK
  }

  /** The status `deleteProject` answers with: existence first, then ownership. */
  function DeleteDecision(projects: map<Id, Project>, projectId: Id, userId: Id): (code: int)
    ensures code == NOT_FOUND <==> projectId !in projects
    ensures code == FORBIDDEN <==> projectId in projects && projects[projectId].ownerId != userId
    ensures code == OK <==> projectId in projects && projects[projectId].ownerId == userId
  {
    if projectId !in projects then NOT_FOUND
    else if projects[projectId].ownerId != userId then FORBIDDEN
    else OK
  }

  /** Whoever may delete a project may also read it. */
  lemma DeleterCanRead(projects: map<Id, Project>, members: set<(Id, Id)>, projectId: Id, userId: Id)
    requires DeleteDecision(projects, projectId, userId) == OK
    ensures ReadDecision(projects, members, projectId, userId) == OK
  {
  }

  /** A member who is not the owner may read the project but may not delete it. */
  lemma MemberMayReadNotDelete(projects: map<Id, Project>, members: set<(Id, Id)>, projectId: Id, userId: Id)
    requires projectId in projects && (projectId, userId) in members
    requires projects[projectId].ownerId != userId
    ensures ReadDecision(projects, members, projectId, userId) == OK
    ensures DeleteDecision(projects, projectId, userId) == FORBIDDEN
  {
  }

  // ---------------------------------------------------------------------
  // Reassignment of a leaving member's tasks
  // ---------------------------------------------------------------------

  /**
   * A row of project `rowProject` and user `rowUser` passes the filter
   * `{ projectId, <user field>: userId }`.  The user id comes from the
   * request body; when it is undefined the database drops that condition,
   * so only the project is compared.
   */
  predicate Matches(projectId: Id, userId: Option<Id>, rowProject: Id, rowUser: Id) {
    rowProject == projectId && (userId.None? || rowUser == userId.value)
  }

  /**
   * `task.updateMany({ where: { projectId, assigneeId: from }, data: { assigneeId: to } })`.
   */
  function ReassignTasks(tasks: map<Id, Task>, projectId: Id, from: Option<Id>, to: Id): (r: map<Id, Task>)
    ensures r.Keys == tasks.Keys
    // every matching task now belongs to `to`, and nothing else about it changed
    ensures forall t | t in tasks && Matches(projectId, from, tasks[t].projectId, tasks[t].assigneeId) ::
      r[t] == tasks[t].(assigneeId := to)
    // tasks of other projects and tasks held by others are untouched
    ensures forall t | t in tasks && !Matches(projectId, from, tasks[t].projectId, tasks[t].assigneeId) ::
      r[t] == tasks[t]
    // afterwards no task the filter selects is held by anyone but `to`
    ensures forall t | t in r && Matches(projectId, from, r[t].projectId, r[t].assigneeId) :: r[t].assigneeId == to
  {
    map t | t in tasks ::
      if Matches(projectId, from, tasks[t].projectId, tasks[t].assigneeId)
      then tasks[t].(assigneeId := to)
      else tasks[t]
  }

  /** A second reassignment of the same tasks finds nothing left to move. */
  lemma ReassignIdempotent(tasks: map<Id, Task>, projectId: Id, from: Option<Id>, to: Id)
    ensures ReassignTasks(ReassignTasks(tasks, projectId, from, to), projectId, from, to)
         == ReassignTasks(tasks, projectId, from, to)
  {
  }

  /** `projectMember.deleteMany({ where: { projectId, userId } })`. */
  function DeleteRows(members: set<(Id, Id)>, projectId: Id, userId: Option<Id>): (r: set<(Id, Id)>)
    ensures r <= members
    ensures forall m | m in members :: m in r <==> !Matches(projectId, userId, m.0, m.1)
  {
    set m | m in members && !Matches(projectId, userId, m.0, m.1)
  }

  /** With a user id given, exactly the one row (project, user) goes. */
  lemma DeleteOneRow(members: set<(Id, Id)>, projectId: Id, userId: Id)
    ensures DeleteRows(members, projectId, Some(userId)) == members - {(projectId, userId)}
  {
  }

  /** Deleting the same rows again deletes nothing more. */
  lemma DeleteRowsIdempotent(members: set<(Id, Id)>, projectId: Id, userId: Option<Id>)
    ensures DeleteRows(DeleteRows(members, projectId, userId), projectId, userId) == DeleteRows(members, projectId, userId)
  {
  }

  /** Every task of the project is held by its owner or by one of its members. */
  ghost predicate AssigneesBelong(projects: map<Id, Project>, members: set<(Id, Id)>, tasks: map<Id, Task>, projectId: Id)
    requires projectId in projects
  {
    forall t | t in tasks && tasks[t].projectId == projectId ::
      tasks[t].assigneeId == projects[projectId].ownerId || (projectId, tasks[t].assigneeId) in members
  }

  /**
   * Reassigning to the owner and then deleting the membership rows keeps
   * every task of the project with its owner or a remaining member.
   */
  lemma RemovalKeepsAssigneesBelonging(
    projects: map<Id, Project>, members: set<(Id, Id)>, tasks: map<Id, Task>, projectId: Id, userId: Option<Id>)
    requires projectId in projects
    requires AssigneesBelong(projects, members, tasks, projectId)
    ensures AssigneesBelong(projects, DeleteRows(members, projectId, userId),
                            ReassignTasks(tasks, projectId, userId, projects[projectId].ownerId), projectId)
  {
  }

  // ---------------------------------------------------------------------
  // Handlers
  // ---------------------------------------------------------------------

  /** The dashboard entry for a project, with `_count` of its tasks and members. */
  function Summary(db: Store, id: Id): ProjectSummary
    reads db
    requires id in db.projects
  {
    ProjectSummary(
      id,
      db.projects[id],
      ProfileOf(db.users, db.projects[id].ownerId),
      |set t | t in db.tasks && db.tasks[t].projectId == id|,
      |set m | m in db.members && m.0 == id|)
  }

  /**
   * `getAllProjects`: exactly the projects the caller owns or is a member of,
   * each once, newest first.
   */
  method GetAllProjects(db: Store, caller: Id) returns (r: Reply<seq<ProjectSummary>>)
    ensures r.Ok? && r.code == OK
    ensures forall p ::
      (exists i | 0 <= i < |r.value| :: r.value[i].id == p) <==> CanRead(db.projects, db.members, p, caller)
    ensures forall i | 0 <= i < |r.value| ::
      r.value[i].id in db.projects && r.value[i] == Summary(db, r.value[i].id)
    ensures forall i, j | 0 <= i < j < |r.value| ::
      r.value[i].id != r.value[j].id && r.value[i].project.createdAt >= r.value[j].project.createdAt
  {
    var stamps := map p | p in db.projects && CanRead(db.projects, db.members, p, caller) :: db.projects[p].createdAt as int;
    var ids := Ordering.OrderByCreatedAt(stamps, true);
    assert forall i | 0 <= i < |ids| :: ids[i] in stamps;
    var list := seq(|ids|, i requires 0 <= i < |ids| && ids[i] in db.projects reads db => Summary(db, ids[i]));
    r := Ok(OK, list);
    forall p | CanRead(db.projects, db.members, p, caller)
      ensures exists i | 0 <= i < |list| :: list[i].id == p
    {
      assert p in stamps;
      var i :| 0 <= i < |ids| && ids[i] == p;
      assert list[i].id == p;
    }
  }

  /** `createProject`: one new project owned by the caller, stamped newest. */
  method CreateProject(db: Store, caller: Id, name: string, newId: Id) returns (r: Reply<(Id, Project)>)
    requires db.Valid() && newId !in db.projects
    modifies db
    ensures db.Valid()
    ensures r == Ok(CREATED, (newId, Project(name, caller, old(db.clock))))
    ensures db.projects == old(db.projects)[newId := r.value.1]
    ensures forall p | p in old(db.projects) :: old(db.projects)[p].createdAt < r.value.1.createdAt
    ensures CanRead(db.projects, db.members, newId, caller)
    ensures db.users == old(db.users) && db.members == old(db.members) && db.tasks == old(db.tasks)
    ensures db.clock == old(db.clock) + 1
  {
    var project := Project(name, caller, db.clock);
    db.projects := db.projects[newId := project];
    db.clock := db.clock + 1;
    r := Ok(CREATED, (newId, project));
  }

  /**
   * `tasks` lists each task of the project exactly once, resolved with its
   * assignee, oldest first.
   */
  ghost predicate ListsTasksOldestFirst(db: Store, projectId: Id, tasks: seq<TaskView>)
    reads db
  {
    && (forall t :: (exists i | 0 <= i < |tasks| :: tasks[i].id == t) <==> t in db.tasks && db.tasks[t].projectId == projectId)
    && (forall i | 0 <= i < |tasks| :: tasks[i].id in db.tasks && tasks[i] == ViewOf(db.users, tasks[i].id, db.tasks[tasks[i].id]))
    && (forall i, j | 0 <= i < j < |tasks| :: tasks[i].id != tasks[j].id && tasks[i].task.createdAt <= tasks[j].task.createdAt)
  }

  /** `include: { tasks: { orderBy: { createdAt: 'asc' }, include: { assignee } } }` */
  method TasksOldestFirst(db: Store, projectId: Id) returns (tasks: seq<TaskView>)
    ensures ListsTasksOldestFirst(db, projectId, tasks)
  {
    var stamps := map t | t in db.tasks && db.tasks[t].projectId == projectId :: db.tasks[t].createdAt as int;
    var ids := Ordering.OrderByCreatedAt(stamps, false);
    assert forall i | 0 <= i < |ids| :: ids[i] in stamps;
    tasks := seq(|ids|, i requires 0 <= i < |ids| && ids[i] in db.tasks reads db => ViewOf(db.users, ids[i], db.tasks[ids[i]]));
    forall t | t in db.tasks && db.tasks[t].projectId == projectId
      ensures exists i | 0 <= i < |tasks| :: tasks[i].id == t
    {
      assert t in stamps;
      var i :| 0 <= i < |ids| && ids[i] == t;
      assert tasks[i].id == t;
    }
  }

  /** `include: { members: { include: { user: { select: { id, email } } } } }` */
  function Roster(db: Store, projectId: Id): (roster: set<MemberView>)
    reads db
    ensures forall u :: MemberView(u, RefOf(db.users, u)) in roster <==> (projectId, u) in db.members
    ensures forall m | m in roster :: m.user == RefOf(db.users, m.userId)
  {
    set m | m in db.members && m.0 == projectId :: MemberView(m.1, RefOf(db.users, m.1))
  }

  /**
   * `getProjectById`: 404 when absent, 403 for a caller who is neither owner
   * nor member, otherwise the project with its tasks oldest first and its
   * members.
   */
  method GetProjectById(db: Store, caller: Id, id: Id) returns (r: Reply<ProjectDetail>)
    ensures r.Status() == ReadDecision(db.projects, db.members, id, caller)
    ensures r.Ok? <==> r.Status() == OK
    ensures r.Ok? ==> r.value.id == id && r.value.project == db.projects[id]
    ensures r.Ok? ==> ListsTasksOldestFirst(db, id, r.value.tasks)
    ensures r.Ok? ==> r.value.members == Roster(db, id)
  {
    if id !in db.projects {
      return Fail(NOT_FOUND);
    }
    var project := db.projects[id];
    var isOwner := project.ownerId == caller;
    var isMember := (id, caller) in db.members;
    if !isOwner && !isMember {
      return Fail(FORBIDDEN);
    }
    var tasks := TasksOldestFirst(db, id);
    r := Ok(OK, ProjectDetail(id, project, tasks, Roster(db, id)));
  }

  /**
   * `inviteMember`: 404 when no user has the email, 400 when that user
   * already has a row for the project, otherwise exactly that row is added.
   * Who the caller is, and whether the project exists, is not checked.
   */
  method InviteMember(db: Store, projectId: Id, email: string) returns (r: Reply<()>)
    requires db.Valid()
    modifies db
    ensures db.Valid()
    ensures db.users == old(db.users) && db.projects == old(db.projects) && db.tasks == old(db.tasks)
    ensures db.clock == old(db.clock)
    ensures (forall u | u in db.users :: db.users[u].email != email) ==>
      r == Fail(NOT_FOUND) && db.members == old(db.members)
    ensures forall u | u in db.users && db.users[u].email == email ::
      if (projectId, u) in old(db.members) then r == Fail(BAD_REQUEST) && db.members == old(db.members)
      else r == Ok(OK, ()) && db.members == old(db.members) + {(projectId, u)}
  {
    var user := db.FindByEmail(email);
    if user.None? {
      return Fail(NOT_FOUND);
    }
    var alreadyMember := (projectId, user.value) in db.members;
    if alreadyMember {
      return Fail(BAD_REQUEST);
    }
    db.members := db.members + {(projectId, user.value)};
    r := Ok(OK, ());
  }

  /**
   * `removeMember`: 404 when the project is absent; otherwise the user's
   * tasks in it go to the owner, then the membership row is deleted.  The
   * two steps run one after the other, without a transaction.  A body
   * without `userId` leaves both filters on the project alone: every task
   * of the project goes to the owner and every membership row of it goes.
   */
  method RemoveMember(db: Store, projectId: Id, userId: Option<Id>) returns (r: Reply<()>)
    requires db.Valid()
    modifies db
    ensures db.Valid()
    ensures db.users == old(db.users) && db.projects == old(db.projects) && db.clock == old(db.clock)
    ensures projectId !in db.projects ==>
      r == Fail(NOT_FOUND) && db.tasks == old(db.tasks) && db.members == old(db.members)
    ensures projectId in db.projects ==>
      && r == Ok(OK, ())
      && db.tasks == ReassignTasks(old(db.tasks), projectId, userId, db.projects[projectId].ownerId)
      && db.members == DeleteRows(old(db.members), projectId, userId)
    ensures projectId in db.projects && userId.Some? ==>
      && (projectId, userId.value) !in db.members
      && db.members == old(db.members) - {(projectId, userId.value)}
      && (userId.value != db.projects[projectId].ownerId ==>
            forall t | t in db.tasks && db.tasks[t].projectId == projectId :: db.tasks[t].assigneeId != userId.value)
    ensures projectId in db.projects && userId.None? ==>
      && (forall m | m in db.members :: m.0 != projectId)
      && (forall t | t in db.tasks && db.tasks[t].projectId == projectId ::
            db.tasks[t].assigneeId == db.projects[projectId].ownerId)
  {
    if projectId !in db.projects {
      return Fail(NOT_FOUND);
    }
    var owner := db.projects[projectId].ownerId;
    db.tasks := ReassignTasks(db.tasks, projectId, userId, owner);
    db.members := DeleteRows(db.members, projectId, userId);
    if userId.Some? {
      DeleteOneRow(old(db.members), projectId, userId.value);
    }
    r := Ok(OK, ());
  }

  /**
   * `deleteProject`: 404 when absent, 403 unless the caller owns it,
   * otherwise that one project row is removed.
   */
  method DeleteProject(db: Store, caller: Id, id: Id) returns (r: Reply<()>)
    requires db.Valid()
    modifies db
    ensures db.Valid()
    ensures r.Status() == DeleteDecision(old(db.projects), id, caller)
    ensures r.Ok? ==> r.code == OK && db.projects == old(db.projects) - {id}
    ensures r.Fail? ==> db.projects == old(db.projects)
    ensures db.users == old(db.users) && db.members == old(db.members) && db.tasks == old(db.tasks)
    ensures db.clock == old(db.clock)
  {
    if id !in db.projects {
      return Fail(NOT_FOUND);
    }
    if db.projects[id].ownerId != caller {
      return Fail(FORBIDDEN);
    }
    db.projects := db.projects - {id};
    r := Ok(OK, ());
  }
}
