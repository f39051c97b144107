/**
 * Handlers called in sequence, as a client of the backend would: what the
 * contracts above let one conclude about whole conversations.
 */
module Scenarios {
  import opened Common
  import opened Db
  import opened ProjectController
  import opened TaskController
  import opened AuthController

  /**
   * `removeMember` sent twice: the second call still answers 200, and the
   * two calls together leave the tables as the first one did.
   */
  method RemoveMemberTwice(db: Store, projectId: Id, userId: Option<Id>) returns (first: Reply<()>, second: Reply<()>)
    requires db.Valid()
    modifies db
    ensures db.Valid()
    ensures first == second
    ensures db.users == old(db.users) && db.projects == old(db.projects)
    ensures projectId in db.projects ==>
      && db.tasks == ReassignTasks(old(db.tasks), projectId, userId, db.projects[projectId].ownerId)
      && db.members == DeleteRows(old(db.members), projectId, userId)
    ensures projectId !in db.projects ==> db.tasks == old(db.tasks) && db.members == old(db.members)
  {
    first := RemoveMember(db, projectId, userId);
    second := RemoveMember(db, projectId, userId);
    if projectId in db.projects {
      ReassignIdempotent(old(db.tasks), projectId, userId, db.projects[projectId].ownerId);
      DeleteRowsIdempotent(old(db.members), projectId, userId);
    }
  }

  /** Registering an email a second time is refused, whatever the other fields. */
  method RegisterTwice(db: Store, email: string, name1: string, password1: string, name2: string, password2: string,
                       hash: string -> string, sign: Claims -> string, id1: Id, id2: Id)
    returns (first: Reply<string>, second: Reply<string>)
    requires db.Valid() && id1 !in db.users && id2 !in db.users && id1 != id2
    modifies db
    ensures db.Valid()
    ensures second == Fail(BAD_REQUEST)
    ensures |db.users| <= |old(db.users)| + 1
  {
    first := Register(db, name1, email, password1, hash, sign, id1);
    assert exists u | u in db.users :: db.users[u].email == email by {
      if first.Ok? {
        assert db.users[id1].email == email;
      }
    }
    second := Register(db, name2, email, password2, hash, sign, id2);
  }

  /**
   * A fresh registration followed by a login with the same password gets a
   * token for the new user, provided the hashing library accepts a password
   * against its own hash.
   */
  method RegisterThenLogin(db: Store, name: string, email: string, password: string,
                           hash: string -> string, compare: (string, string) -> bool,
                           sign: Claims -> string, newId: Id)
    returns (registered: Reply<string>, loggedIn: Reply<string>)
    requires db.Valid() && newId !in db.users
    requires forall u | u in db.users :: db.users[u].email != email
    requires compare(password, hash(password))
    modifies db
    ensures db.Valid()
    ensures registered == Ok(CREATED, GenerateToken(newId, sign))
    ensures loggedIn == Ok(OK, GenerateToken(newId, sign))
  {
    registered := Register(db, name, email, password, hash, sign, newId);
    loggedIn := Login(db, email, password, compare, sign);
    assert db.users[newId] == User(name, email, hash(password));
  }

  /**
   * Owner "o" creates project "p", invites "m" by email, gives "m" task "t",
   * then removes "m": "t" is back with "o", "m" has lost access, and an
   * outsider "x" is refused the project.
   */
  method OwnerRemovesMember(hash: string -> string, sign: Claims -> string)
    returns (assignee: Id, memberAccess: int, outsiderAccess: int)
    ensures assignee == "o"
    ensures memberAccess == FORBIDDEN && outsiderAccess == FORBIDDEN
  {
    var db := new Store();
    var registered := Register(db, "Owner", "o@x.com", "secret", hash, sign, "o");
    registered := Register(db, "Member", "m@x.com", "secret", hash, sign, "m");
    assert db.users["m"].email == "m@x.com";
    var created := CreateProject(db, "o", "Board", "p");
    var invited := InviteMember(db, "p", "m@x.com");
    assert ("p", "m") in db.members;
    var task := CreateTaskByProjectId(db, "p", "o", "T", "", Some("m"), "t");
    var removed := RemoveMember(db, "p", Some("m"));
    var view := GetTaskById(db, "t");
    assignee := view.value.task.assigneeId;
    var asMember := GetProjectById(db, "m", "p");
    memberAccess := asMember.Status();
    var asOutsider := GetProjectById(db, "x", "p");
    outsiderAccess := asOutsider.Status();
  }
}
