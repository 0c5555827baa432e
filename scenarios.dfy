/**
 * Client-side runs of the handlers, proved from their contracts alone: what a sequence of requests
 * answers and what the store holds afterwards.
 */
module Scenarios {
  import opened Records
  import opened Handlers
  import Queries

  /** A user, a project owned by it, the project fetched with its owner, then a PATCH to a missing owner. */
  method OwnerPatchScenario() {
    var s := new Store();
    var u := s.AddUser(UserCreate("A", "a@x.com", 20, "S1"));
    assert u == Ok(User(1, "A", "a@x.com", 20, "S1"));
    var p := s.CreateProject(ProjectCreate("P", "d", 1));
    assert p == Ok(Project(1, "P", "d", 1));
    assert Queries.GetProjectOwner(s.projects, s.users, 1)
        == Ok(ProjectWithOwner(Project(1, "P", "d", 1), Some(User(1, "A", "a@x.com", 20, "S1"))));
    var q := s.PatchProject(1, ProjectUpdatePatch(None, None, Some(999)));
    assert q == NotFound(OWNER_NOT_FOUND);
    assert s.projects[1].ownerId == 1;
  }

  /** Re-posting a course code is a 409 that leaves the first row as it was; a delete makes the id 404. */
  method DuplicateCourseScenario() {
    var s := new Store();
    var a := s.CreateCourse(CourseCreate("CS101", "Intro", 3));
    assert a == Ok(Course(1, "CS101", "Intro", 3));
    assert 1 in s.courses && s.courses[1].code == "CS101";
    var b := s.CreateCourse(CourseCreate("CS101", "Other", 4));
    assert b == Conflict(COURSE_EXISTS);
    assert s.courses == map[1 := Course(1, "CS101", "Intro", 3)] && s.nextCourseId == 2;
    var c := s.CreateCourse(CourseCreate("CS102", "Next", 4));
    assert c == Ok(Course(2, "CS102", "Next", 4));
    var d := s.DeleteCourse(1);
    assert d == Ok(());
    assert Queries.GetCourse(s.courses, 1) == NotFound(COURSE_NOT_FOUND);
    var e := s.DeleteCourse(1);
    assert e == NotFound(COURSE_NOT_FOUND);
  }

  /** The course listing with its default `limit` and `offset` answers the stored courses in id order. */
  method DefaultListingScenario() {
    var c1, c2 := Course(1, "CS102", "Next", 4), Course(2, "CS101", "Intro", 3);
    var courses := map[1 := c1, 2 := c2];
    ghost var listing := Queries.ListCourses(courses, Queries.DEFAULT_LIMIT, Queries.DEFAULT_OFFSET).value;
    assert |listing| == 2;
    assert listing[0] in courses.Values && listing[1] in courses.Values;
    assert listing[0].id < listing[1].id;
    assert listing == [c1, c2];
    assert Queries.ListCourses(courses, Queries.DEFAULT_LIMIT, 2) == Ok([]);
  }

  /**
   * After its owner is deleted a project keeps the dangling `owner_id`: a PUT that keeps that owner
   * succeeds, since the owner is looked up only on a change, while a PATCH that sends it is a 404.
   */
  method OrphanedProjectScenario() {
    var s := new Store();
    var u := s.AddUser(UserCreate("A", "a@x.com", 20, "S1"));
    var p := s.CreateProject(ProjectCreate("P", "d", 1));
    var del := s.DeleteUser(1);
    assert del == Ok(());
    assert 1 in s.projects && s.projects[1].ownerId == 1 && 1 !in s.users;
    assert Queries.GetProjectOwner(s.projects, s.users, 1) == Ok(ProjectWithOwner(Project(1, "P", "d", 1), None));
    var put := s.PutProject(1, ProjectCreate("P2", "d2", 1));
    assert put == Ok(Project(1, "P2", "d2", 1));
    var patch := s.PatchProject(1, ProjectUpdatePatch(Some("P3"), None, Some(1)));
    assert patch == NotFound(OWNER_NOT_FOUND);
    assert s.projects[1] == Project(1, "P2", "d2", 1);
  }
}
