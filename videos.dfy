/** The videos router: GET lists the videos a principal may see, POST lets a teacher add a
    video, DELETE lets a teacher soft-delete one of their own videos. */
module Videos {
  import opened Access
  import opened VideoModel
  import Query

  /** The visibility policy of the list: a teacher sees their own active videos, a student
      sees every active video of an enrolled subject, whoever uploaded it. */
  predicate VisibleTo(p: Principal, v: Video) {
    && v.isActive
    && match p
       case Teacher(t) => v.uploadedBy == t
       case Student(_, _) => v.subject in EnrolledSubjects(p)
  }

  /** GET /api/videos over the collection's contents. */
  function List(vs: seq<Video>, p: Principal): (r: seq<Video>)
    ensures p.Teacher? ==> forall v :: v in r <==> v in vs && v.isActive && v.uploadedBy == p.id
    ensures p.Student? ==> forall v :: v in r <==> v in vs && v.isActive && v.subject in EnrolledSubjects(p)
    ensures forall v :: multiset(r)[v] == if VisibleTo(p, v) then multiset(vs)[v] else 0
    ensures p.Student? && EnrolledSubjects(p) == [] ==> r == []
  {
    Query.Filter(vs, v => VisibleTo(p, v))
  }

  /** Ids are assigned in increasing order, so no two videos share one. */
  predicate IdsIncreasing(vs: seq<Video>) {
    forall i, j :: 0 <= i < j < |vs| ==> vs[i].id < vs[j].id
  }

  /** The filter of the delete lookup: this id, uploaded by this teacher, active or not. */
  predicate OwnedBy(v: Video, id: Id, t: Id) {
    v.id == id && v.uploadedBy == t
  }

  predicate HasOwned(vs: seq<Video>, id: Id, t: Id) {
    exists i :: 0 <= i < |vs| && OwnedBy(vs[i], id, t)
  }

  /** The collection after `isActive = false` was saved on the video with this id. */
  function SoftDeleted(vs: seq<Video>, id: Id): seq<Video> {
    seq(|vs|, i requires 0 <= i < |vs| => if vs[i].id == id then vs[i].(isActive := false) else vs[i])
  }

  /** With distinct ids, marking the matched record inactive is `SoftDeleted` for its id. */
  lemma {:induction false} SoftDeleteAt(vs: seq<Video>, i: nat)
    requires IdsIncreasing(vs) && i < |vs|
    ensures vs[i := vs[i].(isActive := false)] == SoftDeleted(vs, vs[i].id)
  {
    assert forall j :: 0 <= j < |vs| && j != i ==> vs[j].id != vs[i].id;
  }

  /** How the collection may change over time: nothing is removed, nothing but `isActive`
      changes, and a video once inactive stays inactive. */
  ghost predicate Evolves(before: seq<Video>, after: seq<Video>) {
    && |before| <= |after|
    && forall i :: 0 <= i < |before| ==> after[i] == before[i] || after[i] == before[i].(isActive := false)
  }

  /** `Evolves` composes, so what it promises for one handler call holds across any run of them. */
  lemma EvolvesTransitive(a: seq<Video>, b: seq<Video>, c: seq<Video>)
    requires Evolves(a, b) && Evolves(b, c)
    ensures Evolves(a, c)
  {
  }

  /** After a delete no principal's list shows the video. */
  lemma {:induction false} DeletedVideoHidden(vs: seq<Video>, id: Id, p: Principal)
    ensures forall v :: v in List(SoftDeleted(vs, id), p) ==> v.id != id
  {
    var after := SoftDeleted(vs, id);
    forall v | v in List(after, p) ensures v.id != id {
      assert VisibleTo(p, v) && v in after;
      var i :| 0 <= i < |after| && after[i] == v;
    }
  }

  /** The lookup ignores `isActive`, so deleting a deleted video finds it again and succeeds. */
  lemma {:induction false} DeleteRepeatable(vs: seq<Video>, id: Id, t: Id)
    requires HasOwned(vs, id, t)
    ensures HasOwned(SoftDeleted(vs, id), id, t)
  {
    var i :| 0 <= i < |vs| && OwnedBy(vs[i], id, t);
    assert OwnedBy(SoftDeleted(vs, id)[i], id, t);
  }

  /** Deleting twice leaves the collection as deleting once. */
  lemma {:induction false} DeleteIdempotent(vs: seq<Video>, id: Id)
    ensures SoftDeleted(SoftDeleted(vs, id), id) == SoftDeleted(vs, id)
  {
  }

  /** A new video joins exactly the lists of the principals it is visible to. It comes last
      because the model keeps stored order; the source does not fix that order. */
  lemma {:induction false} CreatedVideoListed(vs: seq<Video>, v: Video, p: Principal)
    ensures List(vs + [v], p) == List(vs, p) + (if VisibleTo(p, v) then [v] else [])
  {
    Query.FilterAppend(vs, v, u => VisibleTo(p, u));
  }

  /** Once a video is inactive, no later state of the collection lists it again. */
  lemma {:induction false} SoftDeletePermanent(before: seq<Video>, after: seq<Video>, i: nat, p: Principal)
    requires Evolves(before, after) && IdsIncreasing(after)
    requires i < |before| && !before[i].isActive
    ensures forall v :: v in List(after, p) ==> v.id != before[i].id
  {
    forall v | v in List(after, p) ensures v.id != before[i].id {
      var j :| 0 <= j < |after| && after[j] == v;
      assert after[i].id == before[i].id && !after[i].isActive;
      if j != i {
        assert after[j].id != after[i].id;
      }
    }
  }

  /** The video collection and the two handlers that change it. */
  class VideoCollection {
    var videos: seq<Video>
    var nextId: Id

    ghost predicate Valid()
      reads this
    {
      && IdsIncreasing(videos)
      && (forall i :: 0 <= i < |videos| ==> videos[i].id < nextId)
      && (forall i :: 0 <= i < |videos| ==> WellFormed(videos[i]))
    }

    /** A collection holding the videos already stored; `next` is above every stored id. */
    constructor (existing: seq<Video>, next: Id)
      requires IdsIncreasing(existing)
      requires forall i :: 0 <= i < |existing| ==> existing[i].id < next && WellFormed(existing[i])
      ensures Valid() && videos == existing && nextId == next
    {
      videos, nextId := existing, next;
    }

    /** POST /api/videos: teacher only; the new video is owned by the requesting teacher,
        added after every existing video, which all stay as they were. */
    method Create(p: Principal, input: VideoInput) returns (r: Result<Video>)
      requires Valid()
      modifies this
      ensures Valid() && Evolves(old(videos), videos)
      ensures p.Student? ==> r == Err(Forbidden)
      ensures p.Teacher? ==> r == NewVideo(old(nextId), input, p.id)
      ensures r.Ok? ==> videos == old(videos) + [r.value] && r.value.uploadedBy == p.id
      ensures r.Err? ==> videos == old(videos)
    {
      var gate := RequireTeacher(p);
      if gate.Err? {
        r := Err(gate.error);
        return;
      }
      r := NewVideo(nextId, input, gate.value);
      if r.Ok? {
        videos := videos + [r.value];
        nextId := nextId + 1;
      }
    }

    /** DELETE /api/videos/:id: teacher only; a missing id and another teacher's video both
        answer NotFound and change nothing; otherwise the video is marked inactive and kept. */
    method Remove(p: Principal, id: Id) returns (r: Result<()>)
      requires Valid()
      modifies this
      ensures Valid() && Evolves(old(videos), videos) && nextId == old(nextId)
      ensures r == if p.Student? then Err(Forbidden)
                   else if HasOwned(old(videos), id, p.id) then Ok(())
                   else Err(NotFound)
      ensures videos == if r.Ok? then SoftDeleted(old(videos), id) else old(videos)
    {
      var gate := RequireTeacher(p);
      if gate.Err? {
        r := Err(gate.error);
        return;
      }
      var t := gate.value;
      var found := Query.FindFirst(videos, v => OwnedBy(v, id, t));
      if found.None? {
        assert !HasOwned(videos, id, t);
        r := Err(NotFound);
        return;
      }
      var i := found.value;
      assert OwnedBy(videos[i], id, t);
      SoftDeleteAt(videos, i);
      videos := videos[i := videos[i].(isActive := false)];
      r := Ok(());
    }
  }
}
