/** Rows, request bodies and handler outcomes of the course/project/user service. */
module Records {

  /** A value that may be absent: a PATCH field the client sent or left out, or an owner row that is gone. */
  datatype Option<T> = None | Some(value: T) {
    /** The value held, or `default` when there is none. */
    function GetOr(default: T): T {
      match this
      case Some(v) => v
      case None => default
    }
  }

  /** What a handler answers: a value (200, 201 or 204), a 404 or a 409, each error with its detail text. */
  datatype Result<T> = Ok(value: T) | NotFound(msg: string) | Conflict(msg: string)

  // Stored rows; `id` is the primary key the store assigned.
  datatype User = User(id: int, name: string, email: string, age: int, studentId: string)
  datatype Course = Course(id: int, code: string, name: string, credits: int)
  datatype Project = Project(id: int, name: string, description: string, ownerId: int)

  /** A project together with its owner as loaded through the relationship: `None` when the owner row is gone. */
  datatype ProjectWithOwner = ProjectWithOwner(project: Project, owner: Option<User>)

  // Request bodies. PUT bodies carry every mutable field, like the create bodies.
  datatype CourseCreate = CourseCreate(code: string, name: string, credits: int)
  type CourseUpdatePut = CourseCreate
  datatype CourseUpdatePatch = CourseUpdatePatch(code: Option<string>, name: Option<string>, credits: Option<int>)

  datatype UserCreate = UserCreate(name: string, email: string, age: int, studentId: string)
  type UserUpdatePut = UserCreate
  datatype UserUpdatePatch = UserUpdatePatch(name: Option<string>, email: Option<string>, age: Option<int>,
                                             studentId: Option<string>)

  datatype ProjectCreate = ProjectCreate(name: string, description: string, ownerId: int)
  type ProjectUpdatePut = ProjectCreate
  datatype ProjectCreateForUser = ProjectCreateForUser(name: string, description: string)
  datatype ProjectUpdatePatch = ProjectUpdatePatch(name: Option<string>, description: Option<string>,
                                                   ownerId: Option<int>)

  // Detail texts of the 404 and 409 answers.
  const COURSE_NOT_FOUND: string := "Course not found"
  const USER_NOT_FOUND: string := "User not found"
  const PROJECT_NOT_FOUND: string := "Project not found"
  const OWNER_NOT_FOUND: string := "Owner not found"
  const COURSE_EXISTS: string := "Course already exists"
  const COURSE_UPDATE_FAILED: string := "Course update failed"
  const USER_EXISTS: string := "User already exists"
  const USER_UPDATE_FAILED: string := "User update failed"
  const PROJECT_CREATION_FAILED: string := "Project creation failed"
  const PROJECT_UPDATE_FAILED: string := "Project update failed"
}
