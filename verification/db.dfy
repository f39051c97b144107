/**
 * The relational store behind every handler, held in memory: four tables
 * and the clock that stamps `createdAt`.  One Store is created and handed
 * to each controller, where the source uses a module-wide database client.
 */
module Db {
  import opened Common

  /** No two users share an email (the unique index on `email`). */
  ghost predicate EmailsUnique(users: map<Id, User>) {
    forall a, b | a in users && b in users && users[a].email == users[b].email :: a == b
  }

  class Store {
    var users: map<Id, User>
    var projects: map<Id, Project>
    /** Membership rows, as (projectId, userId) pairs; a pair occurs at most once. */
    var members: set<(Id, Id)>
    var tasks: map<Id, Task>
    /** The value the next created row gets as `createdAt`; it only grows. */
    var clock: nat

    ghost predicate Valid()
      reads this
    {
      && EmailsUnique(users)
      && (forall p | p in projects :: projects[p].createdAt < clock)
      && (forall t | t in tasks :: tasks[t].createdAt < clock)
    }

    constructor ()
      ensures Valid()
      ensures users == map[] && projects == map[] && members == {} && tasks == map[]
    {
      users, projects, members, tasks := map[], map[], {}, map[];
      clock := 0;
    }

    /** `prisma.user.findUnique({ where: { email } })`: an exact, case-sensitive match. */
    function FindByEmail(email: string): (r: Option<Id>)
      reads this
      requires Valid()
      ensures r.Some? ==> r.value in users && users[r.value].email == email
      ensures r.None? <==> forall id | id in users :: users[id].email != email
    {
      if exists id | id in users :: users[id].email == email then
        var id :| id in users && users[id].email == email;
        Some(id)
      else
        None
    }
  }
}
