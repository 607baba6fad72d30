/** The live-sessions router: as the videos router, with `createdBy` as the owner and every
    list ordered by `scheduledAt`, earliest first. */
module Lives {
  import opened Access
  import opened LiveSessionModel
  import Query

  /** The visibility policy of the list: a teacher sees their own active sessions, a student
      sees every active session of an enrolled subject, past or upcoming, whoever created it. */
  predicate VisibleTo(p: Principal, s: LiveSession) {
    && s.isActive
    && match p
       case Teacher(t) => s.createdBy == t
       case Student(_, _) => s.subject in EnrolledSubjects(p)
  }

  /** `sort({ scheduledAt: 1 })`: no session is scheduled before the one ahead of it. */
  predicate SortedBySchedule(ss: seq<LiveSession>) {
    forall i, j :: 0 <= i < j < |ss| ==> ss[i].scheduledAt <= ss[j].scheduledAt
  }

  /** A session no later than the head of a sorted list can go in front of it. */
  lemma {:induction false} SortedCons(a: LiveSession, ss: seq<LiveSession>)
    requires SortedBySchedule(ss)
    requires ss != [] ==> a.scheduledAt <= ss[0].scheduledAt
    ensures SortedBySchedule([a] + ss)
  {
  }

  /** Places `x` into a schedule-sorted list; the head of the result is `x` or the old head. */
  function InsertBySchedule(x: LiveSession, ss: seq<LiveSession>): (r: seq<LiveSession>)
    requires SortedBySchedule(ss)
    ensures SortedBySchedule(r)
    ensures multiset(r) == multiset(ss) + multiset{x}
    ensures |r| == |ss| + 1 && (r[0] == x || (ss != [] && r[0] == ss[0]))
  {
    if ss == [] then [x]
    else if x.scheduledAt <= ss[0].scheduledAt then
      SortedCons(x, ss);
      [x] + ss
    else
      var rest := InsertBySchedule(x, ss[1..]);
      assert ss == [ss[0]] + ss[1..];
      SortedCons(ss[0], rest);
      [ss[0]] + rest
  }

  /** Orders a list of sessions by `scheduledAt`; equal times may come in any order. */
  function SortBySchedule(ss: seq<LiveSession>): (r: seq<LiveSession>)
    ensures SortedBySchedule(r)
    ensures multiset(r) == multiset(ss)
  {
    if ss == [] then []
    else
      assert ss == [ss[0]] + ss[1..];
      InsertBySchedule(ss[0], SortBySchedule(ss[1..]))
  }

  /** GET /api/lives over the collection's contents: exactly the visible sessions, each as
      often as stored, in schedule order. */
  function List(ss: seq<LiveSession>, p: Principal): (r: seq<LiveSession>)
    ensures SortedBySchedule(r)
    ensures p.Teacher? ==> forall s :: s in r <==> s in ss && s.isActive && s.createdBy == p.id
    ensures p.Student? ==> forall s :: s in r <==> s in ss && s.isActive && s.subject in EnrolledSubjects(p)
    ensures forall s :: multiset(r)[s] == if VisibleTo(p, s) then multiset(ss)[s] else 0
    ensures p.Student? && EnrolledSubjects(p) == [] ==> r == []
  {
    var visible := Query.Filter(ss, s => VisibleTo(p, s));
    var r := SortBySchedule(visible);
    assert forall s :: s in r <==> s in visible by {
      forall s ensures s in r <==> s in visible {
        assert s in r <==> s in multiset(r);
      }
    }
    r
  }

  /** Ids are assigned in increasing order, so no two sessions share one. */
  predicate IdsIncreasing(ss: seq<LiveSession>) {
    forall i, j :: 0 <= i < j < |ss| ==> ss[i].id < ss[j].id
  }

  /** The filter of the delete lookup: this id, created by this teacher, active or not. */
  predicate OwnedBy(s: LiveSession, id: Id, t: Id) {
    s.id == id && s.createdBy == t
  }

  predicate HasOwned(ss: seq<LiveSession>, id: Id, t: Id) {
    exists i :: 0 <= i < |ss| && OwnedBy(ss[i], id, t)
  }

  /** The collection after `isActive = false` was saved on the session with this id. */
  function SoftDeleted(ss: seq<LiveSession>, id: Id): seq<LiveSession> {
    seq(|ss|, i requires 0 <= i < |ss| => if ss[i].id == id then ss[i].(isActive := false) else ss[i])
  }

  /** With distinct ids, marking the matched record inactive is `SoftDeleted` for its id. */
  lemma {:induction false} SoftDeleteAt(ss: seq<LiveSession>, i: nat)
    requires IdsIncreasing(ss) && i < |ss|
    ensures ss[i := ss[i].(isActive := false)] == SoftDeleted(ss, ss[i].id)
  {
    assert forall j :: 0 <= j < |ss| && j != i ==> ss[j].id != ss[i].id;
  }

  /** How the collection may change over time: nothing is removed, nothing but `isActive`
      changes, and a session once inactive stays inactive. */
  ghost predicate Evolves(before: seq<LiveSession>, after: seq<LiveSession>) {
    && |before| <= |after|
    && forall i :: 0 <= i < |before| ==> after[i] == before[i] || after[i] == before[i].(isActive := false)
  }

  /** `Evolves` composes, so what it promises for one handler call holds across any run of them. */
  lemma EvolvesTransitive(a: seq<LiveSession>, b: seq<LiveSession>, c: seq<LiveSession>)
    requires Evolves(a, b) && Evolves(b, c)
    ensures Evolves(a, c)
  {
  }

  /** After a delete no principal's list shows the session. */
  lemma {:induction false} DeletedSessionHidden(ss: seq<LiveSession>, id: Id, p: Principal)
    ensures forall s :: s in List(SoftDeleted(ss, id), p) ==> s.id != id
  {
    var after := SoftDeleted(ss, id);
    forall s | s in List(after, p) ensures s.id != id {
      assert VisibleTo(p, s) && s in after;
      var i :| 0 <= i < |after| && after[i] == s;
    }
  }

  /** The lookup ignores `isActive`, so deleting a deleted session finds it again and succeeds. */
  lemma {:induction false} DeleteRepeatable(ss: seq<LiveSession>, id: Id, t: Id)
    requires HasOwned(ss, id, t)
    ensures HasOwned(SoftDeleted(ss, id), id, t)
  {
    var i :| 0 <= i < |ss| && OwnedBy(ss[i], id, t);
    assert OwnedBy(SoftDeleted(ss, id)[i], id, t);
  }

  /** Deleting twice leaves the collection as deleting once. */
  lemma {:induction false} DeleteIdempotent(ss: seq<LiveSession>, id: Id)
    ensures SoftDeleted(SoftDeleted(ss, id), id) == SoftDeleted(ss, id)
  {
  }

  /** A new session joins exactly the lists of the principals it is visible to; nothing
      else in any list changes. */
  lemma {:induction false} CreatedSessionListed(ss: seq<LiveSession>, x: LiveSession, p: Principal)
    ensures multiset(List(ss + [x], p)) == multiset(List(ss, p)) + (if VisibleTo(p, x) then multiset{x} else multiset{})
  {
    Query.FilterAppend(ss, x, s => VisibleTo(p, s));
  }

  /** Once a session is inactive, no later state of the collection lists it again. */
  lemma {:induction false} SoftDeletePermanent(before: seq<LiveSession>, after: seq<LiveSession>, i: nat, p: Principal)
    requires Evolves(before, after) && IdsIncreasing(after)
    requires i < |before| && !before[i].isActive
    ensures forall s :: s in List(after, p) ==> s.id != before[i].id
  {
    forall s | s in List(after, p) ensures s.id != before[i].id {
      var j :| 0 <= j < |after| && after[j] == s;
      assert after[i].id == before[i].id && !after[i].isActive;
      if j != i {
        assert after[j].id != after[i].id;
      }
    }
  }

  /** The live-session collection and the two handlers that change it. */
  class LiveSessionCollection {
    var sessions: seq<LiveSession>
    var nextId: Id

    ghost predicate Valid()
      reads this
    {
      && IdsIncreasing(sessions)
      && (forall i :: 0 <= i < |sessions| ==> sessions[i].id < nextId)
      && (forall i :: 0 <= i < |sessions| ==> WellFormed(sessions[i]))
    }

    /** A collection holding the sessions already stored; `next` is above every stored id. */
    constructor (existing: seq<LiveSession>, next: Id)
      requires IdsIncreasing(existing)
      requires forall i :: 0 <= i < |existing| ==> existing[i].id < next && WellFormed(existing[i])
      ensures Valid() && sessions == existing && nextId == next
    {
      sessions, nextId := existing, next;
    }

    /** POST /api/lives: teacher only; the new session is owned by the requesting teacher,
        added after every existing session, which all stay as they were. */
    method Create(p: Principal, input: LiveSessionInput) returns (r: Result<LiveSession>)
      requires Valid()
      modifies this
      ensures Valid() && Evolves(old(sessions), sessions)
      ensures p.Student? ==> r == Err(Forbidden)
      ensures p.Teacher? ==> r == NewLiveSession(old(nextId), input, p.id)
      ensures r.Ok? ==> sessions == old(sessions) + [r.value] && r.value.createdBy == p.id
      ensures r.Err? ==> sessions == old(sessions)
    {
      var gate := RequireTeacher(p);
      if gate.Err? {
        r := Err(gate.error);
        return;
      }
      r := NewLiveSession(nextId, input, gate.value);
      if r.Ok? {
        sessions := sessions + [r.value];
        nextId := nextId + 1;
      }
    }

    /** DELETE /api/lives/:id: teacher only; a missing id and another teacher's session both
        answer NotFound and change nothing; otherwise the session is marked inactive and kept. */
    method Remove(p: Principal, id: Id) returns (r: Result<()>)
      requires Valid()
      modifies this
      ensures Valid() && Evolves(old(sessions), sessions) && nextId == old(nextId)
      ensures r == if p.Student? then Err(Forbidden)
                   else if HasOwned(old(sessions), id, p.id) then Ok(())
                   else Err(NotFound)
      ensures sessions == if r.Ok? then SoftDeleted(old(sessions), id) else old(sessions)
    {
      var gate := RequireTeacher(p);
      if gate.Err? {
        r := Err(gate.error);
        return;
      }
      var t := gate.value;
      var found := Query.FindFirst(sessions, s => OwnedBy(s, id, t));
      if found.None? {
        assert !HasOwned(sessions, id, t);
        r := Err(NotFound);
        return;
      }
      var i := found.value;
      assert OwnedBy(sessions[i], id, t);
      SoftDeleteAt(sessions, i);
      sessions := sessions[i := sessions[i].(isActive := false)];
      r := Ok(());
    }
  }
}
