/** Example request sequences, replayed against the handlers' contracts: each assertion is
    a response the contracts force. */
module Scenarios {
  import opened Access
  import Students
  import Videos
  import Lives
  import VideoModel
  import LiveSessionModel
  import Text

  /** Teacher A creates alice; teacher B cannot re-subject her; A can, and each new list
      replaces the previous one. */
  method StudentSubjects() {
    var users := new Students.UserCollection([], 0);
    var a, b := Teacher(100), Teacher(200);
    var created := users.Create(a, Students.StudentInput("Alice", "alice@x.com", "secret", Some(["math"])));
    assert created.Ok?;
    var alice := created.value.id;
    assert users.users[0].id == alice && Students.OwnedStudent(users.users[0], alice, a.id);
    var byB := users.UpdateSubjects(b, alice, Some(["math", "physics"]));
    assert byB == Err(NotFound);
    var byA := users.UpdateSubjects(a, alice, Some(["math", "physics"]));
    assert byA.Ok? && byA.value.subjects == ["math", "physics"];
    assert Students.OwnedStudent(users.users[0], alice, a.id);
    var byA2 := users.UpdateSubjects(a, alice, Some(["bio"]));
    assert byA2.Ok? && users.users[0].subjects == Some(["bio"]);
  }

  /** The email of a created student stays taken for every teacher; a student cannot delete;
      the creator deletes her twice, both times successfully, and she leaves the list. */
  method StudentRemoval() {
    var users := new Students.UserCollection([], 0);
    var a, b := Teacher(100), Teacher(200);
    var created := users.Create(a, Students.StudentInput("Alice", "alice@x.com", "secret", None));
    assert created.Ok? && created.value.subjects == [];
    var alice := created.value.id;
    assert users.users[0].email == "alice@x.com";
    var again := users.Create(b, Students.StudentInput("Alice", "alice@x.com", "other", None));
    assert again == Err(DuplicateEmail);
    var asStudent := users.Remove(Student(alice, None), alice);
    assert asStudent == Err(Forbidden);
    assert Students.OwnedStudent(users.users[0], alice, a.id);
    ghost var before := users.users;
    var removed := users.Remove(a, alice);
    assert removed.Ok?;
    Students.DeletedStudentUnlisted(before, alice, a);
    assert forall v :: v in Students.List(users.users, a).value ==> v.id != alice;
    assert Students.OwnedStudent(users.users[0], alice, a.id);
    var removedAgain := users.Remove(a, alice);
    assert removedAgain.Ok?;
  }

  /** Teacher A posts a math video without a description: it is stored with "", a math
      student sees it, a physics student and a student without subjects do not. */
  method VideoBySubject() {
    var videos := new Videos.VideoCollection([], 0);
    var a := Teacher(100);
    assert !Text.IsWhitespace('F');
    Text.TrimEmptyIffBlank("Fractions");
    var posted := videos.Create(a, VideoModel.VideoInput(Some("Fractions"), Some("https://youtu.be/x"), Some("math"), None));
    assert posted.Ok? && posted.value.description == "";
    var v := posted.value;
    assert videos.videos == [v];
    MathVideoSeenByMathStudentsOnly(v);
  }

  /** Whoever uploaded it, an active math video is listed to a math student and to no
      physics student or student without subjects. */
  lemma {:induction false} MathVideoSeenByMathStudentsOnly(v: VideoModel.Video)
    requires v.isActive && v.subject == "math"
    ensures v in Videos.List([v], Student(1, Some(["math"])))
    ensures v !in Videos.List([v], Student(2, Some(["physics"])))
    ensures Videos.List([v], Student(3, None)) == []
  {
  }

  /** Teacher B cannot delete teacher A's video; A can, and then A no longer sees it. */
  method VideoRemoval(v: VideoModel.Video)
    requires v.isActive && v.uploadedBy == 100 && VideoModel.WellFormed(v)
  {
    var videos := new Videos.VideoCollection([v], v.id + 1);
    var a := Teacher(100);
    var other := videos.Remove(Teacher(200), v.id);
    assert other == Err(NotFound);
    assert Videos.OwnedBy(videos.videos[0], v.id, a.id);
    var removed := videos.Remove(a, v.id);
    assert removed.Ok?;
    Videos.DeletedVideoHidden([v], v.id, a);
    assert v !in Videos.List(videos.videos, a);
  }

  /** A teacher's sessions at T+1 and T-1, stored in that order, are listed T-1 first. */
  lemma {:induction false} TeacherSessionsEarliestFirst(later: LiveSessionModel.LiveSession, earlier: LiveSessionModel.LiveSession)
    requires later.isActive && earlier.isActive && later.createdBy == 100 && earlier.createdBy == 100
    requires earlier.scheduledAt < later.scheduledAt
    ensures Lives.List([later, earlier], Teacher(100)) == [earlier, later]
  {
    var shown := Lives.List([later, earlier], Teacher(100));
    assert multiset(shown) == multiset{later, earlier};
    assert |shown| == 2;
    assert shown[0] in multiset(shown) && shown[1] in multiset(shown);
  }
}
