/** Identities, the authenticated principal and the outcomes shared by the three routers. */
module Access {

  /** A document id (a MongoDB ObjectId in the source), abstracted to a number. */
  type Id = nat

  /** A subject label such as "math". */
  type Subject = string

  datatype Option<+T> = None | Some(value: T) {
    /** The JavaScript idiom `value || fallback` on a possibly absent value. */
    function GetOr(fallback: T): T {
      match this
      case Some(v) => v
      case None => fallback
    }
  }

  /** The user resolved by the authentication middleware; its `role` string becomes the variant.
      A student's `subjects` may be absent on the user document. */
  datatype Principal =
    | Teacher(id: Id)
    | Student(id: Id, subjects: Option<seq<Subject>>)

  /** Every failure a handler answers with. */
  datatype Error =
    | Forbidden       // refused by the teacher-only gate in front of the handler
    | DuplicateEmail  // 400 "Student with this email already exists"
    | NotFound        // 404: no record with this id owned by the requesting teacher
    | Invalid         // schema validation failed on save; the handler's catch block answers 500

  datatype Result<+T> = Ok(value: T) | Err(error: Error)

  /** The teacher-only gate: a teacher passes with their id, anyone else is refused. */
  function RequireTeacher(p: Principal): (r: Result<Id>)
    ensures r.Ok? <==> p.Teacher?
    ensures r.Ok? ==> p == Teacher(r.value)
    ensures r.Err? ==> r.error == Forbidden
  {
    match p
    case Teacher(id) => Ok(id)
    case Student(_, _) => Err(Forbidden)
  }

  /** The subjects a student principal is enrolled in: `req.user.subjects || []`. */
  function EnrolledSubjects(p: Principal): (s: seq<Subject>)
    requires p.Student?
    ensures p.subjects.None? ==> s == []
    ensures p.subjects.Some? ==> s == p.subjects.value
  {
    p.subjects.GetOr([])
  }
}
