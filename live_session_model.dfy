/** The LiveSession schema: the shape of a stored session, its required paths, its defaults
    and the trimmed title. `scheduledAt` is a point in time, modelled as an integer key. */
module LiveSessionModel {
  import opened Access
  import Text

  datatype LiveSession = LiveSession(
    id: Id,
    title: string,
    meetLink: string,
    subject: Subject,
    scheduledAt: int,
    description: string,
    createdBy: Id,    // the owning teacher
    isActive: bool)   // false once soft-deleted

  /** The body of a create request; any field may be missing. */
  datatype LiveSessionInput = LiveSessionInput(
    title: Option<string>,
    meetLink: Option<string>,
    subject: Option<Subject>,
    scheduledAt: Option<int>,
    description: Option<string>)

  /** Mongoose's `required` check on a String path: present and not the empty string. */
  predicate Supplied(s: Option<string>) {
    s.Some? && s.value != ""
  }

  /** What the schema guarantees of every stored session. */
  predicate WellFormed(s: LiveSession) {
    && s.title != "" && Text.IsTrimmed(s.title)
    && s.meetLink != ""
    && s.subject != ""
  }

  /** `new LiveSession({...})` followed by `save()`: the title is trimmed before validation,
      a missing title, link, subject or time fails validation, a missing description becomes
      "", and the new session is active and owned by `owner`. */
  function NewLiveSession(id: Id, input: LiveSessionInput, owner: Id): (r: Result<LiveSession>)
    ensures r.Ok? <==>
      input.title.Some? && Text.Trim(input.title.value) != "" &&
      Supplied(input.meetLink) && Supplied(input.subject) && input.scheduledAt.Some?
    ensures r.Err? ==> r.error == Invalid
    ensures r.Ok? ==> WellFormed(r.value) && r.value.id == id
    ensures r.Ok? ==> r.value.createdBy == owner && r.value.isActive
    ensures r.Ok? ==>
      && r.value.title == Text.Trim(input.title.value)
      && r.value.meetLink == input.meetLink.value
      && r.value.subject == input.subject.value
      && r.value.scheduledAt == input.scheduledAt.value
    ensures r.Ok? ==> r.value.description == (if input.description.Some? then input.description.value else "")
  {
    var title := if input.title.Some? then Some(Text.Trim(input.title.value)) else None;
    if Supplied(title) && Supplied(input.meetLink) && Supplied(input.subject) && input.scheduledAt.Some? then
      Ok(LiveSession(id, title.value, input.meetLink.value, input.subject.value,
                     input.scheduledAt.value, input.description.GetOr(""), owner, true))
    else
      Err(Invalid)
  }

  /** A title made only of whitespace is rejected: trimming leaves the empty string. */
  lemma {:induction false} BlankTitleRejected(id: Id, input: LiveSessionInput, owner: Id)
    requires input.title.Some? && Text.AllWhitespace(input.title.value)
    ensures NewLiveSession(id, input, owner) == Err(Invalid)
  {
    Text.TrimEmptyIffBlank(input.title.value);
  }
}
