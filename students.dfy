/** The students router: a teacher lists, creates, re-subjects and soft-deletes the students
    they created. Students live in the users collection beside the teachers. */
module Students {
  import opened Access
  import Query

  datatype Role = TeacherRole | StudentRole

  /** A user document. The password is an opaque credential: hashing belongs to the user
      model, which is not part of this model. `subjects` may be absent on a stored user. */
  datatype User = User(
    id: Id,
    name: string,
    email: string,
    password: string,
    role: Role,
    subjects: Option<seq<Subject>>,
    createdBy: Option<Id>,   // the teacher who created this student
    isActive: bool)          // false once soft-deleted

  /** A student as the list returns it: the password projected away, `subjects` always present. */
  datatype ListedStudent = ListedStudent(
    id: Id,
    name: string,
    email: string,
    role: Role,
    subjects: seq<Subject>,
    createdBy: Option<Id>,
    isActive: bool)

  /** The `student` object in the create and update responses. */
  datatype StudentSummary = StudentSummary(id: Id, name: string, email: string, subjects: seq<Subject>)

  /** The body of a create request; `subjects` may be missing. */
  datatype StudentInput = StudentInput(name: string, email: string, password: string, subjects: Option<seq<Subject>>)

  /** The filter of the list query. */
  predicate OwnActiveStudent(u: User, t: Id) {
    u.createdBy == Some(t) && u.role == StudentRole && u.isActive
  }

  /** The list's projection: every field but the password, with `subjects || []`. */
  function Listed(u: User): ListedStudent {
    ListedStudent(u.id, u.name, u.email, u.role, u.subjects.GetOr([]), u.createdBy, u.isActive)
  }

  function Summary(u: User): StudentSummary {
    StudentSummary(u.id, u.name, u.email, u.subjects.GetOr([]))
  }

  function ListAll(us: seq<User>): seq<ListedStudent> {
    seq(|us|, i requires 0 <= i < |us| => Listed(us[i]))
  }

  lemma {:induction false} ListAllMembers(us: seq<User>)
    ensures forall v :: v in ListAll(us) <==> exists u :: u in us && v == Listed(u)
  {
    var r := ListAll(us);
    forall v ensures v in r <==> exists u :: u in us && v == Listed(u) {
      if v in r {
        var i :| 0 <= i < |r| && r[i] == v;
        assert us[i] in us;
      }
      if exists u :: u in us && v == Listed(u) {
        var u :| u in us && v == Listed(u);
        var i :| 0 <= i < |us| && us[i] == u;
        assert r[i] == v;
      }
    }
  }

  lemma {:induction false} ListAllAppend(a: seq<User>, b: seq<User>)
    ensures ListAll(a + b) == ListAll(a) + ListAll(b)
  {
  }

  /** The students a teacher created that are still active, in stored order. */
  function OwnStudents(us: seq<User>, t: Id): seq<User> {
    Query.Filter(us, u => OwnActiveStudent(u, t))
  }

  /** GET /api/students over the users collection: teacher only; exactly the active students
      the requesting teacher created, each with the password removed and `subjects` present. */
  function List(us: seq<User>, p: Principal): (r: Result<seq<ListedStudent>>)
    ensures p.Student? ==> r == Err(Forbidden)
    ensures p.Teacher? ==> r.Ok?
    ensures r.Ok? ==> forall v :: v in r.value <==> exists u :: u in us && OwnActiveStudent(u, p.id) && v == Listed(u)
    ensures r.Ok? ==> forall v :: v in r.value ==> v.createdBy == Some(p.id) && v.role == StudentRole && v.isActive
  {
    match RequireTeacher(p)
    case Err(e) => Err(e)
    case Ok(t) =>
      ListAllMembers(OwnStudents(us, t));
      Ok(ListAll(OwnStudents(us, t)))
  }

  /** The filter of the update and delete lookups: this id, a student, created by this
      teacher, active or not. */
  predicate OwnedStudent(u: User, id: Id, t: Id) {
    u.id == id && u.createdBy == Some(t) && u.role == StudentRole
  }

  predicate HasOwned(us: seq<User>, id: Id, t: Id) {
    exists i :: 0 <= i < |us| && OwnedStudent(us[i], id, t)
  }

  /** The create check looks for the email among all users: any role, any creator, active or not. */
  predicate EmailTaken(us: seq<User>, email: string) {
    exists i :: 0 <= i < |us| && us[i].email == email
  }

  predicate EmailsUnique(us: seq<User>) {
    forall i, j :: 0 <= i < j < |us| ==> us[i].email != us[j].email
  }

  /** Ids are assigned in increasing order, so no two users share one. */
  predicate IdsIncreasing(us: seq<User>) {
    forall i, j :: 0 <= i < j < |us| ==> us[i].id < us[j].id
  }

  /** The user document a create request saves. */
  function NewStudent(id: Id, input: StudentInput, t: Id): User {
    User(id, input.name, input.email, input.password, StudentRole, Some(input.subjects.GetOr([])), Some(t), true)
  }

  /** The collection after `subjects = s` was saved on the user with this id. */
  function WithSubjects(us: seq<User>, id: Id, s: seq<Subject>): seq<User> {
    seq(|us|, i requires 0 <= i < |us| => if us[i].id == id then us[i].(subjects := Some(s)) else us[i])
  }

  /** The collection after `isActive = false` was saved on the user with this id. */
  function SoftDeleted(us: seq<User>, id: Id): seq<User> {
    seq(|us|, i requires 0 <= i < |us| => if us[i].id == id then us[i].(isActive := false) else us[i])
  }

  /** With distinct ids, marking the matched user inactive is `SoftDeleted` for its id. */
  lemma {:induction false} SoftDeleteAt(us: seq<User>, i: nat)
    requires IdsIncreasing(us) && i < |us|
    ensures us[i := us[i].(isActive := false)] == SoftDeleted(us, us[i].id)
  {
    assert forall j :: 0 <= j < |us| && j != i ==> us[j].id != us[i].id;
  }

  /** With distinct ids, re-subjecting the matched user is `WithSubjects` for its id. */
  lemma {:induction false} WithSubjectsAt(us: seq<User>, i: nat, s: seq<Subject>)
    requires IdsIncreasing(us) && i < |us|
    ensures us[i := us[i].(subjects := Some(s))] == WithSubjects(us, us[i].id, s)
  {
    assert forall j :: 0 <= j < |us| && j != i ==> us[j].id != us[i].id;
  }

  /** How the collection may change over time: nothing is removed, only `subjects` and
      `isActive` change, and a user once inactive stays inactive. */
  ghost predicate Evolves(before: seq<User>, after: seq<User>) {
    && |before| <= |after|
    && forall i :: 0 <= i < |before| ==>
         && after[i] == before[i].(subjects := after[i].subjects, isActive := after[i].isActive)
         && (!before[i].isActive ==> !after[i].isActive)
  }

  /** `Evolves` composes, so what it promises for one handler call holds across any run of them. */
  lemma EvolvesTransitive(a: seq<User>, b: seq<User>, c: seq<User>)
    requires Evolves(a, b) && Evolves(b, c)
    ensures Evolves(a, c)
  {
  }

  /** After a delete the student is gone from every teacher's list. */
  lemma {:induction false} DeletedStudentUnlisted(us: seq<User>, id: Id, p: Principal)
    requires p.Teacher?
    ensures forall v :: v in List(SoftDeleted(us, id), p).value ==> v.id != id
  {
    var after := SoftDeleted(us, id);
    forall v | v in List(after, p).value ensures v.id != id {
      var u :| u in after && OwnActiveStudent(u, p.id) && v == Listed(u);
      var i :| 0 <= i < |after| && after[i] == u;
    }
  }

  /** The lookup ignores `isActive`: a deleted student can be deleted again, or re-subjected,
      by the teacher who created them. */
  lemma {:induction false} LookupIgnoresDeletion(us: seq<User>, id: Id, id': Id, t: Id)
    ensures HasOwned(SoftDeleted(us, id'), id, t) <==> HasOwned(us, id, t)
  {
    var after := SoftDeleted(us, id');
    if HasOwned(us, id, t) {
      var i :| 0 <= i < |us| && OwnedStudent(us[i], id, t);
      assert OwnedStudent(after[i], id, t);
    }
    if HasOwned(after, id, t) {
      var i :| 0 <= i < |after| && OwnedStudent(after[i], id, t);
      assert OwnedStudent(us[i], id, t);
    }
  }

  /** Deleting twice leaves the collection as deleting once. */
  lemma {:induction false} DeleteIdempotent(us: seq<User>, id: Id)
    ensures SoftDeleted(SoftDeleted(us, id), id) == SoftDeleted(us, id)
  {
  }

  /** Subjects are replaced, never merged: the second update wins outright. */
  lemma {:induction false} SubjectsReplaced(us: seq<User>, id: Id, a: seq<Subject>, b: seq<Subject>)
    ensures WithSubjects(WithSubjects(us, id, a), id, b) == WithSubjects(us, id, b)
  {
  }

  /** A new student joins their creator's list and no other teacher's list. They come last
      because the model keeps stored order; the source does not fix that order. */
  lemma {:induction false} CreatedStudentListed(us: seq<User>, id: Id, input: StudentInput, t: Id, p: Principal)
    requires p.Teacher?
    ensures List(us + [NewStudent(id, input, t)], p).value ==
            List(us, p).value + (if p.id == t then [Listed(NewStudent(id, input, t))] else [])
  {
    var u := NewStudent(id, input, t);
    var tail := if p.id == t then [u] else [];
    Query.FilterAppend(us, u, x => OwnActiveStudent(x, p.id));
    assert OwnStudents(us + [u], p.id) == OwnStudents(us, p.id) + tail;
    assert List(us, p).value == ListAll(OwnStudents(us, p.id));
    assert List(us + [u], p).value == ListAll(OwnStudents(us + [u], p.id));
    ListAllAppend(OwnStudents(us, p.id), tail);
    assert ListAll(tail) == if p.id == t then [Listed(u)] else [];
  }

  /** Once a student is inactive, no later state of the collection lists them again. */
  lemma {:induction false} SoftDeletePermanent(before: seq<User>, after: seq<User>, i: nat, p: Principal)
    requires Evolves(before, after) && IdsIncreasing(after) && p.Teacher?
    requires i < |before| && !before[i].isActive
    ensures forall v :: v in List(after, p).value ==> v.id != before[i].id
  {
    forall v | v in List(after, p).value ensures v.id != before[i].id {
      var u :| u in after && OwnActiveStudent(u, p.id) && v == Listed(u);
      var j :| 0 <= j < |after| && after[j] == u;
      assert after[i].id == before[i].id && !after[i].isActive;
      if j != i {
        assert after[j].id != after[i].id;
      }
    }
  }

  /** The users collection and the three student handlers that change it. */
  class UserCollection {
    var users: seq<User>
    var nextId: Id

    ghost predicate Valid()
      reads this
    {
      && IdsIncreasing(users)
      && (forall i :: 0 <= i < |users| ==> users[i].id < nextId)
    }

    /** A collection holding the users already stored (teachers among them); `next` is above
        every stored id. */
    constructor (existing: seq<User>, next: Id)
      requires IdsIncreasing(existing)
      requires forall i :: 0 <= i < |existing| ==> existing[i].id < next
      ensures Valid() && users == existing && nextId == next
    {
      users, nextId := existing, next;
    }

    /** POST /api/students: teacher only; refused while any user has the email; otherwise one
        active student owned by the requesting teacher is added, and the answer carries its
        id, name, email and subjects but not its password. */
    method Create(p: Principal, input: StudentInput) returns (r: Result<StudentSummary>)
      requires Valid()
      modifies this
      ensures Valid() && Evolves(old(users), users)
      ensures r == if p.Student? then Err(Forbidden)
                   else if EmailTaken(old(users), input.email) then Err(DuplicateEmail)
                   else Ok(Summary(NewStudent(old(nextId), input, p.id)))
      ensures users == if r.Ok? then old(users) + [NewStudent(old(nextId), input, p.id)] else old(users)
      ensures EmailsUnique(old(users)) ==> EmailsUnique(users)
    {
      var gate := RequireTeacher(p);
      if gate.Err? {
        r := Err(gate.error);
        return;
      }
      var existing := Query.FindFirst(users, (u: User) => u.email == input.email);
      if existing.Some? {
        r := Err(DuplicateEmail);
        return;
      }
      var student := NewStudent(nextId, input, gate.value);
      users := users + [student];
      nextId := nextId + 1;
      r := Ok(Summary(student));
    }

    /** PUT /api/students/:id/subjects: teacher only; a missing id, a teacher, and another
        teacher's student all answer NotFound and change nothing; otherwise the student's
        subjects become the given list (or [] when absent), replacing the old ones. */
    method UpdateSubjects(p: Principal, id: Id, subjects: Option<seq<Subject>>) returns (r: Result<StudentSummary>)
      requires Valid()
      modifies this
      ensures Valid() && Evolves(old(users), users) && nextId == old(nextId)
      ensures p.Student? ==> r == Err(Forbidden)
      ensures p.Teacher? ==> (r.Ok? <==> HasOwned(old(users), id, p.id))
      ensures p.Teacher? && !HasOwned(old(users), id, p.id) ==> r == Err(NotFound)
      ensures users == if r.Ok? then WithSubjects(old(users), id, subjects.GetOr([])) else old(users)
      ensures r.Ok? ==> r.value.id == id && r.value.subjects == subjects.GetOr([])
      ensures r.Ok? ==> exists i :: 0 <= i < |users| && users[i].id == id && r.value == Summary(users[i])
    {
      var gate := RequireTeacher(p);
      if gate.Err? {
        r := Err(gate.error);
        return;
      }
      var t := gate.value;
      var found := Query.FindFirst(users, u => OwnedStudent(u, id, t));
      if found.None? {
        assert !HasOwned(users, id, t);
        r := Err(NotFound);
        return;
      }
      var i := found.value;
      assert OwnedStudent(users[i], id, t);
      WithSubjectsAt(users, i, subjects.GetOr([]));
      users := users[i := users[i].(subjects := Some(subjects.GetOr([])))];
      r := Ok(Summary(users[i]));
    }

    /** DELETE /api/students/:id: teacher only; the same lookup as the update; on a match the
        student is marked inactive and kept. */
    method Remove(p: Principal, id: Id) returns (r: Result<()>)
      requires Valid()
      modifies this
      ensures Valid() && Evolves(old(users), users) && nextId == old(nextId)
      ensures r == if p.Student? then Err(Forbidden)
                   else if HasOwned(old(users), id, p.id) then Ok(())
                   else Err(NotFound)
      ensures users == if r.Ok? then SoftDeleted(old(users), id) else old(users)
    {
      var gate := RequireTeacher(p);
      if gate.Err? {
        r := Err(gate.error);
        return;
      }
      var t := gate.value;
      var found := Query.FindFirst(users, u => OwnedStudent(u, id, t));
      if found.None? {
        assert !HasOwned(users, id, t);
        r := Err(NotFound);
        return;
      }
      var i := found.value;
      assert OwnedStudent(users[i], id, t);
      SoftDeleteAt(users, i);
      users := users[i := users[i].(isActive := false)];
      r := Ok(());
    }
  }
}
