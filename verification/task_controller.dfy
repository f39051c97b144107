/**
 * The task handlers.  They run behind `Authenticate` but never look at
 * project ownership or membership: any authenticated caller who knows a
 * project or task id may use them.  Failures of the database call land in
 * the handler's catch block and answer 500.
 */
module TaskController {
  import opened Common
  import opened Db

  /**
   * The fields of an update body.  None is a field left out of the JSON
   * (undefined), which the database leaves as it is.  The status arrives as
   * the client spelled it.
   */
  datatype TaskPatch = TaskPatch(
    title: Option<string>,
    description: Option<string>,
    status: Option<string>,
    assigneeId: Option<Id>)

  /**
   * The row `createTaskByProjectId` inserts: status TODO, the project from
   * the path, and `assigneeId || userId` as assignee.
   */
  function NewTask(projectId: Id, caller: Id, title: string, description: string,
                   assigneeId: Option<string>, now: nat): (t: Task)
    ensures t.status == Todo && t.projectId == projectId && t.createdAt == now
    ensures t.title == title && t.description == description
    ensures Truthy(assigneeId) ==> t.assigneeId == assigneeId.value
    ensures !Truthy(assigneeId) ==> t.assigneeId == caller
  {
    Task(projectId, title, description, Todo, if Truthy(assigneeId) then assigneeId.value else caller, now)
  }

  /** An empty `assigneeId` is falsy, so the caller gets the task. */
  lemma EmptyAssigneeFallsBackToCaller(projectId: Id, caller: Id, title: string, description: string, now: nat)
    ensures NewTask(projectId, caller, title, description, Some(""), now).assigneeId == caller
    ensures NewTask(projectId, caller, title, description, None, now).assigneeId == caller
  {
  }

  /**
   * The row after `task.update({ data: { title, description, status, assigneeId } })`:
   * given fields replace the old ones, left-out fields stay; a status outside
   * the enum makes the database call fail (None).
   */
  function ApplyPatch(t: Task, patch: TaskPatch): (r: Option<Task>)
    ensures r.None? <==> patch.status.Some? && ParseStatus(patch.status.value).None?
    ensures r.Some? ==> r.value.projectId == t.projectId && r.value.createdAt == t.createdAt
    ensures r.Some? ==> r.value.title == (if patch.title.Some? then patch.title.value else t.title)
    ensures r.Some? ==> r.value.description == (if patch.description.Some? then patch.description.value else t.description)
    ensures r.Some? ==> r.value.assigneeId == (if patch.assigneeId.Some? then patch.assigneeId.value else t.assigneeId)
    ensures r.Some? ==> StatusName(r.value.status) == (if patch.status.Some? then patch.status.value else StatusName(t.status))
  {
    var status := if patch.status.Some? then ParseStatus(patch.status.value) else Some(t.status);
    if status.None? then None
    else
      Some(t.(
        title := if patch.title.Some? then patch.title.value else t.title,
        description := if patch.description.Some? then patch.description.value else t.description,
        status := status.value,
        assigneeId := if patch.assigneeId.Some? then patch.assigneeId.value else t.assigneeId))
  }

  /** An update with no fields leaves the task as it was. */
  lemma EmptyPatchKeepsTask(t: Task)
    ensures ApplyPatch(t, TaskPatch(None, None, None, None)) == Some(t)
  {
  }

  /** Sending the same update twice has the effect of sending it once. */
  lemma PatchIdempotent(t: Task, patch: TaskPatch)
    requires ApplyPatch(t, patch).Some?
    ensures ApplyPatch(ApplyPatch(t, patch).value, patch) == ApplyPatch(t, patch)
  {
    var once := ApplyPatch(t, patch).value;
    if patch.status.Some? {
      assert StatusName(once.status) == patch.status.value;
    }
  }

  /** `createTaskByProjectId`: always 201 with the new row, added and nothing else. */
  method CreateTaskByProjectId(db: Store, projectId: Id, caller: Id, title: string, description: string,
                               assigneeId: Option<string>, newId: Id) returns (r: Reply<(Id, Task)>)
    requires db.Valid() && newId !in db.tasks
    modifies db
    ensures db.Valid()
    ensures r == Ok(CREATED, (newId, NewTask(projectId, caller, title, description, assigneeId, old(db.clock))))
    ensures db.tasks == old(db.tasks)[newId := r.value.1]
    ensures db.users == old(db.users) && db.projects == old(db.projects) && db.members == old(db.members)
    ensures db.clock == old(db.clock) + 1
  {
    var task := NewTask(projectId, caller, title, description, assigneeId, db.clock);
    db.tasks := db.tasks[newId := task];
    db.clock := db.clock + 1;
    r := Ok(CREATED, (newId, task));
  }

  /** `getTasksByProject`: exactly the tasks whose project is the path's, in no set order. */
  function GetTasksByProject(db: Store, projectId: Id): (r: Reply<set<TaskView>>)
    reads db
    ensures r.Ok? && r.code == OK
    ensures forall v | v in r.value ::
      v.id in db.tasks && db.tasks[v.id].projectId == projectId && v == ViewOf(db.users, v.id, db.tasks[v.id])
    ensures forall t | t in db.tasks && db.tasks[t].projectId == projectId ::
      ViewOf(db.users, t, db.tasks[t]) in r.value
  {
    Ok(OK, set t | t in db.tasks && db.tasks[t].projectId == projectId :: ViewOf(db.users, t, db.tasks[t]))
  }

  /** `getTaskById`: 404 when absent, otherwise the task with its assignee. */
  function GetTaskById(db: Store, id: Id): (r: Reply<TaskView>)
    reads db
    ensures r.Fail? <==> id !in db.tasks
    ensures r.Fail? ==> r.code == NOT_FOUND
    ensures r.Ok? ==> r.code == OK && r.value.id == id && r.value.task == db.tasks[id]
    ensures r.Ok? ==> r.value.assignee == ProfileOf(db.users, db.tasks[id].assigneeId)
  {
    if id !in db.tasks then Fail(NOT_FOUND) else Ok(OK, ViewOf(db.users, id, db.tasks[id]))
  }

  /**
   * `updateTask`: only the named task changes, as `ApplyPatch` says.  A
   * missing id, or a status outside the enum, makes the update throw: 500,
   * nothing changed.
   */
  method UpdateTask(db: Store, id: Id, patch: TaskPatch) returns (r: Reply<(Id, Task)>)
    requires db.Valid()
    modifies db
    ensures db.Valid()
    ensures db.users == old(db.users) && db.projects == old(db.projects) && db.members == old(db.members)
    ensures db.clock == old(db.clock)
    ensures r.Fail? <==> id !in old(db.tasks) || ApplyPatch(old(db.tasks)[id], patch).None?
    ensures r.Fail? ==> r.code == SERVER_ERROR && db.tasks == old(db.tasks)
    ensures r.Ok? ==> r == Ok(OK, (id, ApplyPatch(old(db.tasks)[id], patch).value))
    ensures r.Ok? ==> db.tasks == old(db.tasks)[id := r.value.1]
  {
    if id !in db.tasks {
      return Fail(SERVER_ERROR);
    }
    var updated := ApplyPatch(db.tasks[id], patch);
    if updated.None? {
      return Fail(SERVER_ERROR);
    }
    db.tasks := db.tasks[id := updated.value];
    r := Ok(OK, (id, updated.value));
  }

  /** `deleteTask`: removes exactly the named task; a missing id throws: 500. */
  method DeleteTask(db: Store, id: Id) returns (r: Reply<()>)
    requires db.Valid()
    modifies db
    ensures db.Valid()
    ensures db.users == old(db.users) && db.projects == old(db.projects) && db.members == old(db.members)
    ensures db.clock == old(db.clock)
    ensures id !in old(db.tasks) ==> r == Fail(SERVER_ERROR) && db.tasks == old(db.tasks)
    ensures id in old(db.tasks) ==> r == Ok(OK, ()) && db.tasks == old(db.tasks) - {id}
  {
    if id !in db.tasks {
      return Fail(SERVER_ERROR);
    }
    db.tasks := db.tasks - {id};
    r := Ok(OK, ());
  }
}
