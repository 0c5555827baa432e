/**
 * The relational store as a value: one map from primary key to row per table, one counter per
 * table for the next key to hand out, and the unique-column check the store runs at commit time.
 */
module Tables {
  import opened Records

  datatype Db = Db(users: map<int, User>, courses: map<int, Course>, projects: map<int, Project>,
                   nextUserId: int, nextCourseId: int, nextProjectId: int)

  /** The store a fresh database starts from: no rows, every counter at 1. */
  const EMPTY_DB: Db := Db(map[], map[], map[], 1, 1, 1)

  // Every row sits under its own primary key.
  predicate UsersKeyed(m: map<int, User>) { forall k :: k in m ==> m[k].id == k }
  predicate CoursesKeyed(m: map<int, Course>) { forall k :: k in m ==> m[k].id == k }
  predicate ProjectsKeyed(m: map<int, Project>) { forall k :: k in m ==> m[k].id == k }

  /** Keys are keyed rows, and every key lies below its table's counter, so the counter is always fresh. */
  ghost predicate WellFormed(db: Db) {
    && UsersKeyed(db.users) && CoursesKeyed(db.courses) && ProjectsKeyed(db.projects)
    && 1 <= db.nextUserId && 1 <= db.nextCourseId && 1 <= db.nextProjectId
    && (forall k :: k in db.users ==> 1 <= k < db.nextUserId)
    && (forall k :: k in db.courses ==> 1 <= k < db.nextCourseId)
    && (forall k :: k in db.projects ==> 1 <= k < db.nextProjectId)
  }

  /** Some course other than the one under `except` already has `code`. */
  predicate CodeTaken(courses: map<int, Course>, code: string, except: int) {
    exists k :: k in courses && k != except && courses[k].code == code
  }

  /** Some user other than the one under `except` already has `email`. */
  predicate EmailTaken(users: map<int, User>, email: string, except: int) {
    exists k :: k in users && k != except && users[k].email == email
  }

  /** Some user other than the one under `except` already has `studentId`. */
  predicate StudentIdTaken(users: map<int, User>, studentId: string, except: int) {
    exists k :: k in users && k != except && users[k].studentId == studentId
  }

  predicate CoursesUnique(courses: map<int, Course>) {
    forall a, b :: a in courses && b in courses && a != b ==> courses[a].code != courses[b].code
  }

  predicate UsersUnique(users: map<int, User>) {
    forall a, b :: a in users && b in users && a != b ==>
      users[a].email != users[b].email && users[a].studentId != users[b].studentId
  }

  /**
   * The integrity check of a commit: the unique columns `Course.code`, `User.email` and
   * `User.student_id`. A commit whose pending state fails it raises the integrity error.
   */
  predicate Constraints(db: Db) {
    CoursesUnique(db.courses) && UsersUnique(db.users)
  }

  /** What every committed state satisfies. */
  ghost predicate Invariant(db: Db) {
    WellFormed(db) && Constraints(db)
  }

  /**
   * Writing course row `c` under key `id` into a table whose codes are unique keeps them unique
   * exactly when no other course already uses `c.code`.
   */
  lemma CourseWriteUnique(courses: map<int, Course>, id: int, c: Course)
    requires CoursesUnique(courses)
    ensures CoursesUnique(courses[id := c]) <==> !CodeTaken(courses, c.code, id)
  {
    var m := courses[id := c];
    if CodeTaken(courses, c.code, id) {
      var k :| k in courses && k != id && courses[k].code == c.code;
      assert k in m && id in m && m[k].code == m[id].code;
    }
  }

  /**
   * Writing user row `u` under key `id` into a table with unique emails and student ids keeps both
   * unique exactly when no other user already uses `u.email` or `u.studentId`.
   */
  lemma UserWriteUnique(users: map<int, User>, id: int, u: User)
    requires UsersUnique(users)
    ensures UsersUnique(users[id := u]) <==>
            !EmailTaken(users, u.email, id) && !StudentIdTaken(users, u.studentId, id)
  {
    var m := users[id := u];
    if EmailTaken(users, u.email, id) {
      var k :| k in users && k != id && users[k].email == u.email;
      assert k in m && id in m && m[k].email == m[id].email;
    }
    if StudentIdTaken(users, u.studentId, id) {
      var k :| k in users && k != id && users[k].studentId == u.studentId;
      assert k in m && id in m && m[k].studentId == m[id].studentId;
    }
  }
}
