/**
 * The read-only handlers: each is one query over the committed tables (order by id, filter,
 * slice) and never changes them.
 */
module Queries {
  import opened Records
  import opened Tables

  /** The default `limit` and `offset` of the course listing. */
  const DEFAULT_LIMIT: nat := 10
  const DEFAULT_OFFSET: nat := 0

  // ---------------------------------------------------------------- ordering by id

  lemma HasMember(ids: set<int>)
    requires ids != {}
    ensures exists x :: x in ids
  {
    if forall x :: x !in ids {
      assert false;
    }
  }

  ghost function MinId(ids: set<int>): (m: int)
    requires ids != {}
    ensures m in ids && forall k :: k in ids ==> m <= k
  {
    HasMember(ids);
    var x :| x in ids;
    var rest := ids - {x};
    if rest == {} then
      assert forall k :: k in ids ==> k in rest || k == x;
      x
    else
      var y := MinId(rest);
      assert forall k :: k in ids ==> k == x || k in rest;
      if x <= y then x else y
  }

  /** The keys in ascending order, each once: what `ORDER BY id` produces. */
  ghost function SortedIds(ids: set<int>): (r: seq<int>)
    ensures |r| == |ids|
    ensures forall x :: x in r <==> x in ids
    ensures forall i, j :: 0 <= i < j < |r| ==> r[i] < r[j]
  {
    if ids == {} then []
    else
      var m := MinId(ids);
      var rest := SortedIds(ids - {m});
      PrependLeast(m, ids, rest);
      [m] + rest
  }

  /** The least key put in front of the ascending order of the other keys gives the ascending order of all. */
  lemma PrependLeast(m: int, ids: set<int>, rest: seq<int>)
    requires m in ids && forall k :: k in ids ==> m <= k
    requires |rest| == |ids - {m}|
    requires forall x :: x in rest <==> x in ids - {m}
    requires forall i, j :: 0 <= i < j < |rest| ==> rest[i] < rest[j]
    ensures |[m] + rest| == |ids|
    ensures forall x :: x in [m] + rest <==> x in ids
    ensures forall i, j :: 0 <= i < j < |[m] + rest| ==> ([m] + rest)[i] < ([m] + rest)[j]
  {
    var r := [m] + rest;
    assert |ids - {m}| == |ids| - 1;
    assert forall x :: x in r <==> x == m || x in rest;
    forall i, j | 0 <= i < j < |r|
      ensures r[i] < r[j]
    {
      assert r[j] == rest[j - 1] && r[j] in ids - {m};
      if i > 0 {
        assert r[i] == rest[i - 1];
      }
    }
  }

  /** The rows of a table in ascending key order. */
  ghost function InIdOrder<T>(m: map<int, T>): (r: seq<T>)
    ensures |r| == |m|
  {
    var ks := SortedIds(m.Keys);
    seq(|ks|, i requires 0 <= i < |ks| => m[ks[i]])
  }

  function Min(a: int, b: int): int { if a <= b then a else b }

  /** `LIMIT limit OFFSET offset`: skip `offset` rows, then keep at most `limit`. */
  function Page<T>(xs: seq<T>, limit: nat, offset: nat): (r: seq<T>)
    ensures |r| == if offset < |xs| then Min(limit, |xs| - offset) else 0
    ensures forall i :: 0 <= i < |r| ==> r[i] == xs[offset + i]
  {
    if offset >= |xs| then [] else xs[offset..Min(|xs|, offset + limit)]
  }

  /** Two consecutive pages cover exactly the rows of one page as long as both together. */
  lemma PagesTile<T>(xs: seq<T>, a: nat, b: nat, offset: nat)
    ensures Page(xs, a, offset) + Page(xs, b, offset + a) == Page(xs, a + b, offset)
  {
  }

  // ---------------------------------------------------------------- lookups

  /** Lookup-or-404: the row under `id`, or `NotFound(msg)` when there is none. */
  function Lookup<T>(m: map<int, T>, id: int, msg: string): (r: Result<T>)
    ensures r.Ok? <==> id in m
    ensures r.Ok? ==> r.value == m[id]
    ensures !r.Ok? ==> r == NotFound(msg)
  {
    if id in m then Ok(m[id]) else NotFound(msg)
  }

  function GetCourse(courses: map<int, Course>, id: int): (r: Result<Course>)
    ensures r.Ok? <==> id in courses
    ensures r.Ok? ==> r.value == courses[id]
    ensures !r.Ok? ==> r == NotFound(COURSE_NOT_FOUND)
  {
    Lookup(courses, id, COURSE_NOT_FOUND)
  }

  function GetUser(users: map<int, User>, id: int): (r: Result<User>)
    ensures r.Ok? <==> id in users
    ensures r.Ok? ==> r.value == users[id]
    ensures !r.Ok? ==> r == NotFound(USER_NOT_FOUND)
  {
    Lookup(users, id, USER_NOT_FOUND)
  }

  /** A project with its owner loaded by `owner_id`; an orphaned project comes back with no owner. */
  function GetProjectOwner(projects: map<int, Project>, users: map<int, User>, id: int)
    : (r: Result<ProjectWithOwner>)
    ensures r.Ok? <==> id in projects
    ensures !r.Ok? ==> r == NotFound(PROJECT_NOT_FOUND)
    ensures r.Ok? ==> r.value.project == projects[id]
    ensures r.Ok? ==> (r.value.owner.Some? <==> projects[id].ownerId in users)
    ensures r.Ok? && r.value.owner.Some? ==> r.value.owner.value == users[projects[id].ownerId]
  {
    match Lookup(projects, id, PROJECT_NOT_FOUND)
    case Ok(p) => Ok(ProjectWithOwner(p, if p.ownerId in users then Some(users[p.ownerId]) else None))
    case NotFound(msg) => NotFound(msg)
    case Conflict(msg) => Conflict(msg)
  }

  // ---------------------------------------------------------------- listings

  lemma InIdOrderAt<T>(m: map<int, T>)
    ensures forall i :: 0 <= i < |InIdOrder(m)| ==> SortedIds(m.Keys)[i] in m && InIdOrder(m)[i] == m[SortedIds(m.Keys)[i]]
  {
  }

  /** A table's rows in key order are exactly its stored rows. */
  lemma InIdOrderMembers<T>(m: map<int, T>)
    ensures forall x :: x in InIdOrder(m) <==> x in m.Values
  {
    var all, ks := InIdOrder(m), SortedIds(m.Keys);
    InIdOrderAt(m);
    forall x | x in m.Values
      ensures x in all
    {
      var k :| k in m && m[k] == x;
      var i :| 0 <= i < |ks| && ks[i] == k;
      assert all[i] == x;
    }
  }

  /** The course rows in key order, each carrying its key, so ascending by id. */
  lemma CoursesInIdOrder(courses: map<int, Course>)
    requires CoursesKeyed(courses)
    ensures forall i :: 0 <= i < |InIdOrder(courses)| ==>
      && InIdOrder(courses)[i].id in courses && courses[InIdOrder(courses)[i].id] == InIdOrder(courses)[i]
    ensures forall i, j :: 0 <= i < j < |InIdOrder(courses)| ==> InIdOrder(courses)[i].id < InIdOrder(courses)[j].id
  {
  }

  lemma UsersInIdOrder(users: map<int, User>)
    requires UsersKeyed(users)
    ensures forall i :: 0 <= i < |InIdOrder(users)| ==>
      && InIdOrder(users)[i].id in users && users[InIdOrder(users)[i].id] == InIdOrder(users)[i]
    ensures forall i, j :: 0 <= i < j < |InIdOrder(users)| ==> InIdOrder(users)[i].id < InIdOrder(users)[j].id
  {
  }

  lemma ProjectsInIdOrder(projects: map<int, Project>)
    requires ProjectsKeyed(projects)
    ensures forall i :: 0 <= i < |InIdOrder(projects)| ==>
      && InIdOrder(projects)[i].id in projects && projects[InIdOrder(projects)[i].id] == InIdOrder(projects)[i]
    ensures forall i, j :: 0 <= i < j < |InIdOrder(projects)| ==> InIdOrder(projects)[i].id < InIdOrder(projects)[j].id
  {
  }

  lemma PageInOrder(all: seq<Course>, page: seq<Course>, limit: nat, offset: nat)
    requires page == Page(all, limit, offset)
    requires forall i, j :: 0 <= i < j < |all| ==> all[i].id < all[j].id
    ensures forall i, j :: 0 <= i < j < |page| ==> page[i].id < page[j].id
  {
  }

  /** The courses in ascending id order, `offset` of them skipped and at most `limit` kept. */
  ghost function ListCourses(courses: map<int, Course>, limit: nat, offset: nat): (r: Result<seq<Course>>)
    requires CoursesKeyed(courses)
    ensures r.Ok?
    ensures |r.value| == if offset < |courses| then Min(limit, |courses| - offset) else 0
    ensures forall i :: 0 <= i < |r.value| ==> r.value[i].id in courses && courses[r.value[i].id] == r.value[i]
    ensures forall i, j :: 0 <= i < j < |r.value| ==> r.value[i].id < r.value[j].id
    ensures forall i :: 0 <= i < |r.value| ==> r.value[i] == InIdOrder(courses)[offset + i]
  {
    var all := InIdOrder(courses);
    CoursesInIdOrder(courses);
    var page := Page(all, limit, offset);
    PageInOrder(all, page, limit, offset);
    Ok(page)
  }

  /** Every user, in ascending id order. */
  ghost function ListUsers(users: map<int, User>): (r: Result<seq<User>>)
    requires UsersKeyed(users)
    ensures r.Ok?
    ensures |r.value| == |users|
    ensures forall i :: 0 <= i < |r.value| ==> r.value[i].id in users && users[r.value[i].id] == r.value[i]
    ensures forall i, j :: 0 <= i < j < |r.value| ==> r.value[i].id < r.value[j].id
    ensures forall u :: u in r.value <==> u in users.Values
  {
    UsersInIdOrder(users);
    InIdOrderMembers(users);
    Ok(InIdOrder(users))
  }

  /** Every project, in ascending id order. */
  ghost function ListProjects(projects: map<int, Project>): (r: Result<seq<Project>>)
    requires ProjectsKeyed(projects)
    ensures r.Ok?
    ensures |r.value| == |projects|
    ensures forall i :: 0 <= i < |r.value| ==> r.value[i].id in projects && projects[r.value[i].id] == r.value[i]
    ensures forall i, j :: 0 <= i < j < |r.value| ==> r.value[i].id < r.value[j].id
    ensures forall p :: p in r.value <==> p in projects.Values
  {
    ProjectsInIdOrder(projects);
    InIdOrderMembers(projects);
    Ok(InIdOrder(projects))
  }

  /** The rows of `rows` owned by `userId`, in their order, each kept at most as often as it occurs. */
  function OwnedBy(rows: seq<Project>, userId: int): (r: seq<Project>)
    ensures forall p :: p in r <==> p in rows && p.ownerId == userId
    ensures multiset(r) <= multiset(rows)
  {
    if rows == [] then []
    else
      assert rows == [rows[0]] + rows[1..];
      (if rows[0].ownerId == userId then [rows[0]] else []) + OwnedBy(rows[1..], userId)
  }

  /** Project ids that ascend strictly along the sequence, so no two rows share one. */
  predicate IdsAscending(rows: seq<Project>) {
    forall i, j :: 0 <= i < j < |rows| ==> rows[i].id < rows[j].id
  }

  /** Filtering rows whose ids ascend strictly keeps them ascending, so no row is repeated. */
  lemma {:induction false} OwnedByAscending(rows: seq<Project>, userId: int)
    requires IdsAscending(rows)
    ensures IdsAscending(OwnedBy(rows, userId))
  {
    if rows != [] {
      var tail := rows[1..];
      assert IdsAscending(tail) by {
        forall i, j | 0 <= i < j < |tail|
          ensures tail[i].id < tail[j].id
        {
          assert tail[i] == rows[i + 1] && tail[j] == rows[j + 1];
        }
      }
      OwnedByAscending(tail, userId);
      var rest := OwnedBy(tail, userId);
      var r := OwnedBy(rows, userId);
      if rows[0].ownerId == userId {
        assert r == [rows[0]] + rest;
        forall i, j | 0 <= i < j < |r|
          ensures r[i].id < r[j].id
        {
          assert r[j] == rest[j - 1];
          assert r[j] in tail;
          var k :| 0 <= k < |tail| && tail[k] == r[j];
          assert rows[k + 1] == r[j];
          if i > 0 {
            assert r[i] == rest[i - 1];
          }
        }
      } else {
        assert r == rest;
      }
    }
  }

  /**
   * The projects whose `owner_id` is `userId`. There is no existence check on the user: an unknown
   * id gives an empty listing, never a 404.
   */
  ghost function GetUserProjects(projects: map<int, Project>, userId: int): (r: Result<seq<Project>>)
    requires ProjectsKeyed(projects)
    ensures r.Ok?
    ensures forall p :: p in r.value <==> p in projects.Values && p.ownerId == userId
    ensures forall i, j :: 0 <= i < j < |r.value| ==> r.value[i].id != r.value[j].id
    ensures (forall k :: k in projects ==> projects[k].ownerId != userId) ==> r.value == []
  {
    var all := InIdOrder(projects);
    InIdOrderMembers(projects);
    ProjectsInIdOrder(projects);
    assert IdsAscending(all);
    OwnedByAscending(all, userId);
    var r := OwnedBy(all, userId);
    assert (forall k :: k in projects ==> projects[k].ownerId != userId) ==> r == [] by {
      if r != [] {
        assert r[0] in r;
      }
    }
    Ok(r)
  }

  /** A single-row lookup agrees with the full listing: the row is found exactly when it is listed. */
  lemma GetUserAgreesWithList(users: map<int, User>, id: int)
    requires UsersKeyed(users)
    ensures GetUser(users, id).Ok? <==> exists u :: u in ListUsers(users).value && u.id == id
    ensures GetUser(users, id).Ok? ==> GetUser(users, id).value in ListUsers(users).value
  {
  }
}
