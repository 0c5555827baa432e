/**
 * Partial updates. A PATCH body is dumped to the fields the client actually sent, and the handler
 * sets each of them on the row in turn; `Patched*` is the field-mask reading of the same body
 * (each sent field replaced, every other field kept) that the loops are proved against.
 */
module Patches {
  import opened Records

  // ---------------------------------------------------------------- courses

  /** One `(field, value)` item of a dumped course PATCH body. */
  datatype CourseField = CourseCode(code: string) | CourseName(name: string) | CourseCredits(credits: int)

  /** The items of a course PATCH body dumped without unset fields, in schema order. */
  function CourseFieldsSent(p: CourseUpdatePatch): (fs: seq<CourseField>)
    ensures |fs| <= 3
    ensures forall x :: CourseCode(x) in fs <==> p.code == Some(x)
    ensures forall x :: CourseName(x) in fs <==> p.name == Some(x)
    ensures forall x :: CourseCredits(x) in fs <==> p.credits == Some(x)
  {
    (if p.code.Some? then [CourseCode(p.code.value)] else [])
    + (if p.name.Some? then [CourseName(p.name.value)] else [])
    + (if p.credits.Some? then [CourseCredits(p.credits.value)] else [])
  }

  /** `setattr` of one item on a course row. */
  function SetCourseField(row: Course, f: CourseField): Course {
    match f
    case CourseCode(x) => row.(code := x)
    case CourseName(x) => row.(name := x)
    case CourseCredits(x) => row.(credits := x)
  }

  /** The row after setting the items of `fs` one after another. */
  function SetCourseFields(row: Course, fs: seq<CourseField>): Course
    decreases |fs|
  {
    if fs == [] then row else SetCourseField(SetCourseFields(row, fs[..|fs| - 1]), fs[|fs| - 1])
  }

  function PatchedCourse(row: Course, p: CourseUpdatePatch): Course {
    row.(code := p.code.GetOr(row.code), name := p.name.GetOr(row.name), credits := p.credits.GetOr(row.credits))
  }

  /** Setting the sent items one by one gives the field-mask reading of the body. */
  lemma CourseFieldsSentAsMask(row: Course, p: CourseUpdatePatch)
    ensures SetCourseFields(row, CourseFieldsSent(p)) == PatchedCourse(row, p)
  {
    var a := if p.code.Some? then [CourseCode(p.code.value)] else [];
    var b := if p.name.Some? then [CourseName(p.name.value)] else [];
    var c := if p.credits.Some? then [CourseCredits(p.credits.value)] else [];
    SetCourseFieldsOne(row, a);
    SetCourseFieldsOne(SetCourseFields(row, a), b);
    SetCourseFieldsAppend(row, a, b);
    SetCourseFieldsOne(SetCourseFields(row, a + b), c);
    SetCourseFieldsAppend(row, a + b, c);
  }

  lemma SetCourseFieldsOne(row: Course, fs: seq<CourseField>)
    requires |fs| <= 1
    ensures SetCourseFields(row, fs) == if fs == [] then row else SetCourseField(row, fs[0])
  {
    if fs != [] {
      assert fs[..0] == [];
    }
  }

  lemma {:induction false} SetCourseFieldsAppend(row: Course, fs: seq<CourseField>, gs: seq<CourseField>)
    ensures SetCourseFields(row, fs + gs) == SetCourseFields(SetCourseFields(row, fs), gs)
    decreases |gs|
  {
    if gs == [] {
      assert fs + gs == fs;
    } else {
      SetCourseFieldsAppend(row, fs, gs[..|gs| - 1]);
      assert (fs + gs)[..|fs + gs| - 1] == fs + gs[..|gs| - 1];
    }
  }

  /** The `setattr` loop of a course PATCH: changes exactly the sent fields and never the key. */
  method ApplyCoursePatch(row: Course, p: CourseUpdatePatch) returns (r: Course)
    ensures r == PatchedCourse(row, p)
  {
    var fs := CourseFieldsSent(p);
    r := row;
    for i := 0 to |fs|
      invariant r == SetCourseFields(row, fs[..i])
    {
      assert fs[..i + 1][..i] == fs[..i];
      r := SetCourseField(r, fs[i]);
    }
    assert fs[..|fs|] == fs;
    CourseFieldsSentAsMask(row, p);
  }

  // ---------------------------------------------------------------- users

  /** One `(field, value)` item of a dumped user PATCH body. */
  datatype UserField = UserName(name: string) | UserEmail(email: string) | UserAge(age: int)
                     | UserStudentId(studentId: string)

  /** The items of a user PATCH body dumped without unset fields, in schema order. */
  function UserFieldsSent(p: UserUpdatePatch): (fs: seq<UserField>)
    ensures |fs| <= 4
    ensures forall x :: UserName(x) in fs <==> p.name == Some(x)
    ensures forall x :: UserEmail(x) in fs <==> p.email == Some(x)
    ensures forall x :: UserAge(x) in fs <==> p.age == Some(x)
    ensures forall x :: UserStudentId(x) in fs <==> p.studentId == Some(x)
  {
    (if p.name.Some? then [UserName(p.name.value)] else [])
    + (if p.email.Some? then [UserEmail(p.email.value)] else [])
    + (if p.age.Some? then [UserAge(p.age.value)] else [])
    + (if p.studentId.Some? then [UserStudentId(p.studentId.value)] else [])
  }

  /** `setattr` of one item on a user row. */
  function SetUserField(row: User, f: UserField): User {
    match f
    case UserName(x) => row.(name := x)
    case UserEmail(x) => row.(email := x)
    case UserAge(x) => row.(age := x)
    case UserStudentId(x) => row.(studentId := x)
  }

  /** The row after setting the items of `fs` one after another. */
  function SetUserFields(row: User, fs: seq<UserField>): User
    decreases |fs|
  {
    if fs == [] then row else SetUserField(SetUserFields(row, fs[..|fs| - 1]), fs[|fs| - 1])
  }

  function PatchedUser(row: User, p: UserUpdatePatch): User {
    row.(name := p.name.GetOr(row.name), email := p.email.GetOr(row.email), age := p.age.GetOr(row.age),
         studentId := p.studentId.GetOr(row.studentId))
  }

  /** Setting the sent items one by one gives the field-mask reading of the body. */
  lemma UserFieldsSentAsMask(row: User, p: UserUpdatePatch)
    ensures SetUserFields(row, UserFieldsSent(p)) == PatchedUser(row, p)
  {
    var a := if p.name.Some? then [UserName(p.name.value)] else [];
    var b := if p.email.Some? then [UserEmail(p.email.value)] else [];
    var c := if p.age.Some? then [UserAge(p.age.value)] else [];
    var d := if p.studentId.Some? then [UserStudentId(p.studentId.value)] else [];
    assert UserFieldsSent(p) == a + b + c + d;
    SetUserFieldsOne(row, a);
    var r1 := row.(name := p.name.GetOr(row.name));
    assert SetUserFields(row, a) == r1;
    SetUserFieldsOne(r1, b);
    SetUserFieldsAppend(row, a, b);
    var r2 := r1.(email := p.email.GetOr(row.email));
    assert SetUserFields(row, a + b) == r2;
    SetUserFieldsOne(r2, c);
    SetUserFieldsAppend(row, a + b, c);
    var r3 := r2.(age := p.age.GetOr(row.age));
    assert SetUserFields(row, a + b + c) == r3;
    SetUserFieldsOne(r3, d);
    SetUserFieldsAppend(row, a + b + c, d);
  }

  lemma SetUserFieldsOne(row: User, fs: seq<UserField>)
    requires |fs| <= 1
    ensures SetUserFields(row, fs) == if fs == [] then row else SetUserField(row, fs[0])
  {
    if fs != [] {
      assert fs[..0] == [];
    }
  }

  lemma {:induction false} SetUserFieldsAppend(row: User, fs: seq<UserField>, gs: seq<UserField>)
    ensures SetUserFields(row, fs + gs) == SetUserFields(SetUserFields(row, fs), gs)
    decreases |gs|
  {
    if gs == [] {
      assert fs + gs == fs;
    } else {
      SetUserFieldsAppend(row, fs, gs[..|gs| - 1]);
      assert (fs + gs)[..|fs + gs| - 1] == fs + gs[..|gs| - 1];
    }
  }

  /** The `setattr` loop of a user PATCH: changes exactly the sent fields and never the key. */
  method ApplyUserPatch(row: User, p: UserUpdatePatch) returns (r: User)
    ensures r == PatchedUser(row, p)
  {
    var fs := UserFieldsSent(p);
    r := row;
    for i := 0 to |fs|
      invariant r == SetUserFields(row, fs[..i])
    {
      assert fs[..i + 1][..i] == fs[..i];
      r := SetUserField(r, fs[i]);
    }
    assert fs[..|fs|] == fs;
    UserFieldsSentAsMask(row, p);
  }

  // ---------------------------------------------------------------- projects

  /** One `(field, value)` item of a dumped project PATCH body. */
  datatype ProjectField = ProjectName(name: string) | ProjectDescription(description: string)
                        | ProjectOwner(ownerId: int)

  /** The items of a project PATCH body dumped without unset fields, in schema order. */
  function ProjectFieldsSent(p: ProjectUpdatePatch): (fs: seq<ProjectField>)
    ensures |fs| <= 3
    ensures forall x :: ProjectName(x) in fs <==> p.name == Some(x)
    ensures forall x :: ProjectDescription(x) in fs <==> p.description == Some(x)
    ensures forall x :: ProjectOwner(x) in fs <==> p.ownerId == Some(x)
  {
    (if p.name.Some? then [ProjectName(p.name.value)] else [])
    + (if p.description.Some? then [ProjectDescription(p.description.value)] else [])
    + (if p.ownerId.Some? then [ProjectOwner(p.ownerId.value)] else [])
  }

  /** `setattr` of one item on a project row. */
  function SetProjectField(row: Project, f: ProjectField): Project {
    match f
    case ProjectName(x) => row.(name := x)
    case ProjectDescription(x) => row.(description := x)
    case ProjectOwner(x) => row.(ownerId := x)
  }

  /** The row after setting the items of `fs` one after another. */
  function SetProjectFields(row: Project, fs: seq<ProjectField>): Project
    decreases |fs|
  {
    if fs == [] then row else SetProjectField(SetProjectFields(row, fs[..|fs| - 1]), fs[|fs| - 1])
  }

  function PatchedProject(row: Project, p: ProjectUpdatePatch): Project {
    row.(name := p.name.GetOr(row.name), description := p.description.GetOr(row.description),
         ownerId := p.ownerId.GetOr(row.ownerId))
  }

  /** Setting the sent items one by one gives the field-mask reading of the body. */
  lemma ProjectFieldsSentAsMask(row: Project, p: ProjectUpdatePatch)
    ensures SetProjectFields(row, ProjectFieldsSent(p)) == PatchedProject(row, p)
  {
    var a := if p.name.Some? then [ProjectName(p.name.value)] else [];
    var b := if p.description.Some? then [ProjectDescription(p.description.value)] else [];
    var c := if p.ownerId.Some? then [ProjectOwner(p.ownerId.value)] else [];
    SetProjectFieldsOne(row, a);
    SetProjectFieldsOne(SetProjectFields(row, a), b);
    SetProjectFieldsAppend(row, a, b);
    SetProjectFieldsOne(SetProjectFields(row, a + b), c);
    SetProjectFieldsAppend(row, a + b, c);
  }

  lemma SetProjectFieldsOne(row: Project, fs: seq<ProjectField>)
    requires |fs| <= 1
    ensures SetProjectFields(row, fs) == if fs == [] then row else SetProjectField(row, fs[0])
  {
    if fs != [] {
      assert fs[..0] == [];
    }
  }

  lemma {:induction false} SetProjectFieldsAppend(row: Project, fs: seq<ProjectField>, gs: seq<ProjectField>)
    ensures SetProjectFields(row, fs + gs) == SetProjectFields(SetProjectFields(row, fs), gs)
    decreases |gs|
  {
    if gs == [] {
      assert fs + gs == fs;
    } else {
      SetProjectFieldsAppend(row, fs, gs[..|gs| - 1]);
      assert (fs + gs)[..|fs + gs| - 1] == fs + gs[..|gs| - 1];
    }
  }

  /** The `setattr` loop of a project PATCH: changes exactly the sent fields and never the key. */
  method ApplyProjectPatch(row: Project, p: ProjectUpdatePatch) returns (r: Project)
    ensures r == PatchedProject(row, p)
  {
    var fs := ProjectFieldsSent(p);
    r := row;
    for i := 0 to |fs|
      invariant r == SetProjectFields(row, fs[..i])
    {
      assert fs[..i + 1][..i] == fs[..i];
      r := SetProjectField(r, fs[i]);
    }
    assert fs[..|fs|] == fs;
    ProjectFieldsSentAsMask(row, p);
  }
}
