/** The Video schema: the shape of a stored video, its required paths, its defaults and the
    trimmed title. Creating a document applies the defaults and setters; saving it runs the
    `required` validators. */
module VideoModel {
  import opened Access
  import Text

  datatype Video = Video(
    id: Id,
    title: string,
    youtubeLink: string,
    subject: Subject,
    description: string,
    uploadedBy: Id,   // the owning teacher
    isActive: bool)   // false once soft-deleted

  /** The body of a create request; any field may be missing. */
  datatype VideoInput = VideoInput(
    title: Option<string>,
    youtubeLink: Option<string>,
    subject: Option<Subject>,
    description: Option<string>)

  /** Mongoose's `required` check on a String path: present and not the empty string. */
  predicate Supplied(s: Option<string>) {
    s.Some? && s.value != ""
  }

  /** What the schema guarantees of every stored video. */
  predicate WellFormed(v: Video) {
    && v.title != "" && Text.IsTrimmed(v.title)
    && v.youtubeLink != ""
    && v.subject != ""
  }

  /** `new Video({...})` followed by `save()`: the title is trimmed before validation, a
      missing title, link or subject fails validation, a missing description becomes "",
      and the new video is active and owned by `owner`. */
  function NewVideo(id: Id, input: VideoInput, owner: Id): (r: Result<Video>)
    ensures r.Ok? <==>
      input.title.Some? && Text.Trim(input.title.value) != "" &&
      Supplied(input.youtubeLink) && Supplied(input.subject)
    ensures r.Err? ==> r.error == Invalid
    ensures r.Ok? ==> WellFormed(r.value) && r.value.id == id
    ensures r.Ok? ==> r.value.uploadedBy == owner && r.value.isActive
    ensures r.Ok? ==>
      && r.value.title == Text.Trim(input.title.value)
      && r.value.youtubeLink == input.youtubeLink.value
      && r.value.subject == input.subject.value
    ensures r.Ok? ==> r.value.description == (if input.description.Some? then input.description.value else "")
  {
    var title := if input.title.Some? then Some(Text.Trim(input.title.value)) else None;
    if Supplied(title) && Supplied(input.youtubeLink) && Supplied(input.subject) then
      Ok(Video(id, title.value, input.youtubeLink.value, input.subject.value,
               input.description.GetOr(""), owner, true))
    else
      Err(Invalid)
  }

  /** A title made only of whitespace is rejected: trimming leaves the empty string. */
  lemma {:induction false} BlankTitleRejected(id: Id, input: VideoInput, owner: Id)
    requires input.title.Some? && Text.AllWhitespace(input.title.value)
    ensures NewVideo(id, input, owner) == Err(Invalid)
  {
    Text.TrimEmptyIffBlank(input.title.value);
  }

  /** Surrounding whitespace in the submitted title never reaches the store. */
  lemma {:induction false} StoredTitleUnpadded(id: Id, input: VideoInput, owner: Id, a: string, b: string)
    requires input.title.Some? && Text.AllWhitespace(a) && Text.AllWhitespace(b)
    ensures NewVideo(id, input.(title := Some(a + input.title.value + b)), owner) == NewVideo(id, input, owner)
  {
    Text.TrimPadded(a, input.title.value, b);
  }
}
