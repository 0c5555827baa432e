/**
 * The mutating handlers. The store holds one map per table and one counter per table for the next
 * primary key; each handler changes the maps in place and then commits through
 * `CommitOrRollback`, which runs the unique-column check and, when it fails, puts every field back
 * as it was before the handler started.
 */
module Handlers {
  import opened Records
  import opened Tables
  import opened Patches
  import Queries

  class Store {
    var users: map<int, User>
    var courses: map<int, Course>
    var projects: map<int, Project>
    var nextUserId: int
    var nextCourseId: int
    var nextProjectId: int

    /** The whole store as a value, used to snapshot it before a write and to state what changed. */
    function State(): Db
      reads this
    {
      Db(users, courses, projects, nextUserId, nextCourseId, nextProjectId)
    }

    ghost predicate Valid()
      reads this
    {
      Invariant(State())
    }

    constructor ()
      ensures Valid() && State() == EMPTY_DB
    {
      users, courses, projects := map[], map[], map[];
      nextUserId, nextCourseId, nextProjectId := 1, 1, 1;
    }

    /**
     * Commits the pending change or, if the store's integrity check fails, rolls back to `before`
     * and answers 409 with `errorMsg`.
     */
    method CommitOrRollback(before: Db, errorMsg: string) returns (r: Result<()>)
      modifies this
      ensures Constraints(old(State())) ==> r == Ok(()) && State() == old(State())
      ensures !Constraints(old(State())) ==> r == Conflict(errorMsg) && State() == before
    {
      if Constraints(State()) {
        r := Ok(());
      } else {
        users, courses, projects := before.users, before.courses, before.projects;
        nextUserId, nextCourseId, nextProjectId := before.nextUserId, before.nextCourseId, before.nextProjectId;
        r := Conflict(errorMsg);
      }
    }

    // -------------------------------------------------------------- courses

    method CreateCourse(course: CourseCreate) returns (r: Result<Course>)
      requires Valid()
      modifies this
      ensures Valid()
      ensures var row := Course(old(nextCourseId), course.code, course.name, course.credits);
              if CodeTaken(old(courses), course.code, row.id) then
                r == Conflict(COURSE_EXISTS) && State() == old(State())
              else
                && r == Ok(row)
                && (forall k :: k in old(courses) ==> k < row.id)
                && State() == old(State()).(courses := old(courses)[row.id := row], nextCourseId := row.id + 1)
    {
      var before := State();
      var row := Course(nextCourseId, course.code, course.name, course.credits);
      courses := courses[row.id := row];
      nextCourseId := nextCourseId + 1;
      CourseWriteUnique(before.courses, row.id, row);
      var committed := CommitOrRollback(before, COURSE_EXISTS);
      if committed.Conflict? {
        return Conflict(committed.msg);
      }
      r := Ok(row);
    }

    method PutCourse(id: int, payload: CourseUpdatePut) returns (r: Result<Course>)
      requires Valid()
      modifies this
      ensures Valid()
      ensures id !in old(courses) ==> r == NotFound(COURSE_NOT_FOUND) && State() == old(State())
      ensures id in old(courses) ==>
              var row := Course(id, payload.code, payload.name, payload.credits);
              if CodeTaken(old(courses), payload.code, id) then
                r == Conflict(COURSE_UPDATE_FAILED) && State() == old(State())
              else
                r == Ok(row) && State() == old(State()).(courses := old(courses)[id := row])
    {
      if id !in courses {
        return NotFound(COURSE_NOT_FOUND);
      }
      var before := State();
      var row := courses[id].(code := payload.code, name := payload.name, credits := payload.credits);
      courses := courses[id := row];
      CourseWriteUnique(before.courses, id, row);
      var committed := CommitOrRollback(before, COURSE_UPDATE_FAILED);
      if committed.Conflict? {
        return Conflict(committed.msg);
      }
      r := Ok(row);
    }

    method PatchCourse(id: int, payload: CourseUpdatePatch) returns (r: Result<Course>)
      requires Valid()
      modifies this
      ensures Valid()
      ensures id !in old(courses) ==> r == NotFound(COURSE_NOT_FOUND) && State() == old(State())
      ensures id in old(courses) ==>
              var row := PatchedCourse(old(courses)[id], payload);
              if CodeTaken(old(courses), row.code, id) then
                r == Conflict(COURSE_UPDATE_FAILED) && State() == old(State())
              else
                r == Ok(row) && State() == old(State()).(courses := old(courses)[id := row])
      ensures id in old(courses) && CourseFieldsSent(payload) == [] ==>
              r == Ok(old(courses)[id]) && State() == old(State())
    {
      if id !in courses {
        return NotFound(COURSE_NOT_FOUND);
      }
      var before := State();
      var row := ApplyCoursePatch(courses[id], payload);
      courses := courses[id := row];
      CourseWriteUnique(before.courses, id, row);
      if CourseFieldsSent(payload) == [] {
        assert row == before.courses[id];
        assert !CodeTaken(before.courses, row.code, id);
      }
      var committed := CommitOrRollback(before, COURSE_UPDATE_FAILED);
      if committed.Conflict? {
        return Conflict(committed.msg);
      }
      r := Ok(row);
    }

    method DeleteCourse(id: int) returns (r: Result<()>)
      requires Valid()
      modifies this
      ensures Valid()
      ensures id !in old(courses) ==> r == NotFound(COURSE_NOT_FOUND) && State() == old(State())
      ensures id in old(courses) ==> r == Ok(()) && State() == old(State()).(courses := old(courses) - {id})
      ensures Queries.GetCourse(courses, id) == NotFound(COURSE_NOT_FOUND)
    {
      if id !in courses {
        return NotFound(COURSE_NOT_FOUND);
      }
      courses := courses - {id};
      r := Ok(());
    }

    // -------------------------------------------------------------- projects

    method CreateProject(project: ProjectCreate) returns (r: Result<Project>)
      requires Valid()
      modifies this
      ensures Valid()
      ensures project.ownerId !in old(users) ==> r == NotFound(USER_NOT_FOUND) && State() == old(State())
      ensures project.ownerId in old(users) ==>
              var row := Project(old(nextProjectId), project.name, project.description, project.ownerId);
              && r == Ok(row)
              && (forall k :: k in old(projects) ==> k < row.id)
              && State() == old(State()).(projects := old(projects)[row.id := row], nextProjectId := row.id + 1)
    {
      if project.ownerId !in users {
        return NotFound(USER_NOT_FOUND);
      }
      r := InsertProject(project.name, project.description, project.ownerId);
    }

    /** The nested create: the owner is the user of the path, whose existence is checked first. */
    method CreateUserProject(userId: int, project: ProjectCreateForUser) returns (r: Result<Project>)
      requires Valid()
      modifies this
      ensures Valid()
      ensures userId !in old(users) ==> r == NotFound(USER_NOT_FOUND) && State() == old(State())
      ensures userId in old(users) ==>
              var row := Project(old(nextProjectId), project.name, project.description, userId);
              && r == Ok(row)
              && (forall k :: k in old(projects) ==> k < row.id)
              && State() == old(State()).(projects := old(projects)[row.id := row], nextProjectId := row.id + 1)
    {
      if userId !in users {
        return NotFound(USER_NOT_FOUND);
      }
      r := InsertProject(project.name, project.description, userId);
    }

    /**
     * Adds a project row under a fresh key and commits it. No unique column belongs to projects,
     * so the commit of a valid store never fails here.
     */
    method InsertProject(name: string, description: string, ownerId: int) returns (r: Result<Project>)
      requires Valid()
      modifies this
      ensures Valid()
      ensures var row := Project(old(nextProjectId), name, description, ownerId);
              && r == Ok(row)
              && (forall k :: k in old(projects) ==> k < row.id)
              && State() == old(State()).(projects := old(projects)[row.id := row], nextProjectId := row.id + 1)
    {
      var before := State();
      var row := Project(nextProjectId, name, description, ownerId);
      projects := projects[row.id := row];
      nextProjectId := nextProjectId + 1;
      var committed := CommitOrRollback(before, PROJECT_CREATION_FAILED);
      if committed.Conflict? {
        // Unreachable: no unique column belongs to projects.
        return Conflict(PROJECT_CREATION_FAILED);
      }
      r := Ok(row);
    }

    /** PUT looks the owner up only when the body moves the project to a different owner. */
    method PutProject(id: int, payload: ProjectUpdatePut) returns (r: Result<Project>)
      requires Valid()
      modifies this
      ensures Valid()
      ensures id !in old(projects) ==> r == NotFound(PROJECT_NOT_FOUND) && State() == old(State())
      ensures id in old(projects) && payload.ownerId != old(projects)[id].ownerId && payload.ownerId !in old(users) ==>
              r == NotFound(OWNER_NOT_FOUND) && State() == old(State())
      ensures id in old(projects) && (payload.ownerId == old(projects)[id].ownerId || payload.ownerId in old(users)) ==>
              var row := Project(id, payload.name, payload.description, payload.ownerId);
              r == Ok(row) && State() == old(State()).(projects := old(projects)[id := row])
    {
      if id !in projects {
        return NotFound(PROJECT_NOT_FOUND);
      }
      if payload.ownerId != projects[id].ownerId && payload.ownerId !in users {
        return NotFound(OWNER_NOT_FOUND);
      }
      var before := State();
      var row := projects[id].(name := payload.name, description := payload.description, ownerId := payload.ownerId);
      projects := projects[id := row];
      var committed := CommitOrRollback(before, PROJECT_UPDATE_FAILED);
      if committed.Conflict? {
        // Unreachable: no unique column belongs to projects.
        return Conflict(PROJECT_UPDATE_FAILED);
      }
      r := Ok(row);
    }

    /** PATCH looks the owner up whenever the body carries `owner_id`, even the current one. */
    method PatchProject(id: int, payload: ProjectUpdatePatch) returns (r: Result<Project>)
      requires Valid()
      modifies this
      ensures Valid()
      ensures id !in old(projects) ==> r == NotFound(PROJECT_NOT_FOUND) && State() == old(State())
      ensures id in old(projects) && payload.ownerId.Some? && payload.ownerId.value !in old(users) ==>
              r == NotFound(OWNER_NOT_FOUND) && State() == old(State())
      ensures id in old(projects) && (payload.ownerId.Some? ==> payload.ownerId.value in old(users)) ==>
              var row := PatchedProject(old(projects)[id], payload);
              r == Ok(row) && State() == old(State()).(projects := old(projects)[id := row])
      ensures id in old(projects) && ProjectFieldsSent(payload) == [] ==>
              r == Ok(old(projects)[id]) && State() == old(State())
    {
      if id !in projects {
        return NotFound(PROJECT_NOT_FOUND);
      }
      if payload.ownerId.Some? && payload.ownerId.value !in users {
        return NotFound(OWNER_NOT_FOUND);
      }
      var before := State();
      var row := ApplyProjectPatch(projects[id], payload);
      projects := projects[id := row];
      var committed := CommitOrRollback(before, PROJECT_UPDATE_FAILED);
      if committed.Conflict? {
        // Unreachable: no unique column belongs to projects.
        return Conflict(PROJECT_UPDATE_FAILED);
      }
      r := Ok(row);
    }

    method DeleteProject(id: int) returns (r: Result<()>)
      requires Valid()
      modifies this
      ensures Valid()
      ensures id !in old(projects) ==> r == NotFound(PROJECT_NOT_FOUND) && State() == old(State())
      ensures id in old(projects) ==> r == Ok(()) && State() == old(State()).(projects := old(projects) - {id})
      ensures Queries.GetProjectOwner(projects, users, id) == NotFound(PROJECT_NOT_FOUND)
    {
      if id !in projects {
        return NotFound(PROJECT_NOT_FOUND);
      }
      projects := projects - {id};
      r := Ok(());
    }

    // -------------------------------------------------------------- users

    method AddUser(payload: UserCreate) returns (r: Result<User>)
      requires Valid()
      modifies this
      ensures Valid()
      ensures var row := User(old(nextUserId), payload.name, payload.email, payload.age, payload.studentId);
              if EmailTaken(old(users), payload.email, row.id) || StudentIdTaken(old(users), payload.studentId, row.id) then
                r == Conflict(USER_EXISTS) && State() == old(State())
              else
                && r == Ok(row)
                && (forall k :: k in old(users) ==> k < row.id)
                && State() == old(State()).(users := old(users)[row.id := row], nextUserId := row.id + 1)
    {
      var before := State();
      var row := User(nextUserId, payload.name, payload.email, payload.age, payload.studentId);
      users := users[row.id := row];
      nextUserId := nextUserId + 1;
      UserWriteUnique(before.users, row.id, row);
      var committed := CommitOrRollback(before, USER_EXISTS);
      if committed.Conflict? {
        return Conflict(committed.msg);
      }
      r := Ok(row);
    }

    method PutUser(id: int, payload: UserUpdatePut) returns (r: Result<User>)
      requires Valid()
      modifies this
      ensures Valid()
      ensures id !in old(users) ==> r == NotFound(USER_NOT_FOUND) && State() == old(State())
      ensures id in old(users) ==>
              var row := User(id, payload.name, payload.email, payload.age, payload.studentId);
              if EmailTaken(old(users), payload.email, id) || StudentIdTaken(old(users), payload.studentId, id) then
                r == Conflict(USER_UPDATE_FAILED) && State() == old(State())
              else
                r == Ok(row) && State() == old(State()).(users := old(users)[id := row])
    {
      if id !in users {
        return NotFound(USER_NOT_FOUND);
      }
      var before := State();
      var row := users[id].(name := payload.name, email := payload.email, age := payload.age,
                            studentId := payload.studentId);
      users := users[id := row];
      UserWriteUnique(before.users, id, row);
      var committed := CommitOrRollback(before, USER_UPDATE_FAILED);
      if committed.Conflict? {
        return Conflict(committed.msg);
      }
      r := Ok(row);
    }

    method PatchUser(id: int, payload: UserUpdatePatch) returns (r: Result<User>)
      requires Valid()
      modifies this
      ensures Valid()
      ensures id !in old(users) ==> r == NotFound(USER_NOT_FOUND) && State() == old(State())
      ensures id in old(users) ==>
              var row := PatchedUser(old(users)[id], payload);
              if EmailTaken(old(users), row.email, id) || StudentIdTaken(old(users), row.studentId, id) then
                r == Conflict(USER_UPDATE_FAILED) && State() == old(State())
              else
                r == Ok(row) && State() == old(State()).(users := old(users)[id := row])
      ensures id in old(users) && UserFieldsSent(payload) == [] ==>
              r == Ok(old(users)[id]) && State() == old(State())
    {
      if id !in users {
        return NotFound(USER_NOT_FOUND);
      }
      var before := State();
      var row := ApplyUserPatch(users[id], payload);
      users := users[id := row];
      UserWriteUnique(before.users, id, row);
      if UserFieldsSent(payload) == [] {
        assert row == before.users[id];
        assert !EmailTaken(before.users, row.email, id) && !StudentIdTaken(before.users, row.studentId, id);
      }
      var committed := CommitOrRollback(before, USER_UPDATE_FAILED);
      if committed.Conflict? {
        return Conflict(committed.msg);
      }
      r := Ok(row);
    }

    /** Removes the user only: projects it owns stay, with an `owner_id` that no longer resolves. */
    method DeleteUser(id: int) returns (r: Result<()>)
      requires Valid()
      modifies this
      ensures Valid()
      ensures id !in old(users) ==> r == NotFound(USER_NOT_FOUND) && State() == old(State())
      ensures id in old(users) ==> r == Ok(()) && State() == old(State()).(users := old(users) - {id})
      ensures Queries.GetUser(users, id) == NotFound(USER_NOT_FOUND)
    {
      if id !in users {
        return NotFound(USER_NOT_FOUND);
      }
      users := users - {id};
      r := Ok(());
    }
  }
}
