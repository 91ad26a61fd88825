/** api/routers/participation.py: enrolling the caller in an exam without a
    duplicate check, and listing participations filtered by exam, ordered and
    sliced. */
module ParticipationRouter {
  import opened Common
  import opened Models
  import opened Store
  import opened Ordering
  import opened Utils
  import ExamRouter

  const INVALID_EXAM := HttpError(400, "Invalid exam ID")

  /** What `ModelParticipation.objects.create(user=request.user, ...)` raises
      for the anonymous user: the foreign key accepts only a user row. */
  const ANONYMOUS_OWNER := Exception("ValueError", "\"ModelParticipation.user\" must be a \"User\" instance.")

  /** `create_participation`: a new participation of the requesting user in
      an existing exam, whether or not one exists already. The handler calls
      no guard, so an anonymous request passes the exam check and fails at
      the save. */
  method CreateParticipation(db: Database, who: RequestUser, examId: ExamId, now: Time) returns (r: Result<ParticipationId>)
    requires db.Valid() && (who.Authenticated? ==> who.id in db.users)
    modifies db
    ensures db.Valid()
    ensures examId !in old(db.exams) ==> r == Err(INVALID_EXAM) && db.Snapshot() == old(db.Snapshot())
    ensures examId in old(db.exams) && who.Anonymous? ==> r == Err(ANONYMOUS_OWNER) && db.Snapshot() == old(db.Snapshot())
    ensures examId in old(db.exams) && who.Authenticated? ==>
      && r == Ok(old(db.next.participation))
      && db.Snapshot() == old(db.Snapshot()).(
           participations := old(db.participations)[r.value := NewParticipation(who.id, examId, now)],
           next := old(db.next).(participation := r.value + 1))
  {
    if examId !in db.exams {
      return Err(INVALID_EXAM);
    }
    if who.Anonymous? {
      return Err(ANONYMOUS_OWNER);
    }
    var id := db.CreateParticipation(NewParticipation(who.id, examId, now));
    r := Ok(id);
  }

  /** With no duplicate check, enrolling twice leaves two participations of
      the pair, and the exam router's `.get()` on the pair then raises. */
  lemma {:induction false} SecondEnrolmentBreaksLookups(
    parts: map<ParticipationId, Participation>, p1: ParticipationId, p2: ParticipationId,
    user: UserId, exam: ExamId, at1: Time, at2: Time)
    requires p1 != p2
    ensures var after := parts[p1 := NewParticipation(user, exam, at1)][p2 := NewParticipation(user, exam, at2)];
      && GetParticipation(after, user, exam).Multiple?
      && ExamRouter.CheckProgress(after, user, exam).Err?
  {
    var after := parts[p1 := NewParticipation(user, exam, at1)][p2 := NewParticipation(user, exam, at2)];
    var s := ParticipationsOf(after, user, exam);
    assert p1 in s && p2 in s;
    assert {p1, p2} <= s;
    assert |{p1, p2}| == 2;
    SubsetSize({p1, p2}, s);
  }

  // ---------------------------------------------------------------------------
  // Listing

  /** The error `filter(Q(user__username_icontains=...))` raises: the lookup
      is spelled with one underscore. */
  const BAD_LOOKUP := Exception("FieldError", "Related Field got invalid lookup: username_icontains")

  /** `ModelParticipation.objects.all()`, narrowed to one exam when asked. */
  function ExamParticipations(t: Tables, examId: Option<ExamId>): seq<Entry<Participation>> {
    var all := Rows(t.participations, t.next.participation);
    if examId.Some? then Filter(all, (e: Entry<Participation>) => e.row.exam == examId.value) else all
  }

  /** The rows come from the participations table, and from the requested
      exam only. */
  lemma ExamParticipationsSpec(t: Tables, examId: Option<ExamId>)
    ensures forall e :: e in ExamParticipations(t, examId) ==>
      && e.id in t.participations && e.row == t.participations[e.id]
      && (examId.Some? ==> e.row.exam == examId.value)
  {
    var all := Rows(t.participations, t.next.participation);
    RowsSpec(t.participations, t.next.participation);
    forall e | e in ExamParticipations(t, examId)
      ensures e.id in t.participations && e.row == t.participations[e.id]
    {
      assert e in all;
      var i :| 0 <= i < |all| && all[i] == e;
      assert RowAt(t.participations, t.next.participation, i);
    }
  }

  /** The keys of the participations of the requested exam, or of all. */
  function ExamParticipationIds(t: Tables, examId: Option<ExamId>): set<ParticipationId> {
    set k | k in t.participations && (examId.None? || t.participations[k].exam == examId.value)
  }

  /** Every participation of the requested exam is listed, and only once. */
  lemma ExamParticipationsComplete(t: Tables, examId: Option<ExamId>)
    requires KeysBelow(t.participations, t.next.participation)
    ensures forall k :: k in ExamParticipationIds(t, examId) ==>
      Entry(k, t.participations[k]) in ExamParticipations(t, examId)
    ensures |ExamParticipations(t, examId)| == |ExamParticipationIds(t, examId)|
  {
    if examId.Some? {
      var p := (e: Entry<Participation>) => e.row.exam == examId.value;
      FilterRows(t.participations, t.next.participation, p);
      assert (set k | k in t.participations && p(Entry(k, t.participations[k]))) == ExamParticipationIds(t, examId);
    } else {
      RowsSpec(t.participations, t.next.participation);
      RowsCountExact(t.participations, t.next.participation);
      assert ExamParticipationIds(t, examId) == t.participations.Keys;
    }
  }

  /** `list_participations`: an unknown exam gives 400, a search term raises
      (the lookup is misspelt); otherwise the rows are ordered on `key` and
      `[(page - 1) * page_size, (page - 1) * page_size + page_size)` is
      returned. */
  function ListParticipations(
    t: Tables, query: Option<string>, examId: Option<ExamId>,
    key: Entry<Participation> -> real, page: int, pageSize: int)
    : (r: Result<seq<Entry<Participation>>>)
    ensures examId.Some? && examId.value !in t.exams ==> r == Err(INVALID_EXAM)
    ensures (examId.None? || examId.value in t.exams) && query.Some? && query.value != "" ==> r == Err(BAD_LOOKUP)
    ensures (examId.None? || examId.value in t.exams) && (query.None? || query.value == "") && page >= 1 && pageSize >= 0 ==>
      r.Ok? && |r.value| <= pageSize
    ensures r.Ok? ==> forall e :: e in r.value ==>
      && e.id in t.participations && e.row == t.participations[e.id]
      && (examId.Some? ==> e.row.exam == examId.value)
    ensures r.Ok? ==> SortedOn(r.value, key)
    ensures r.Ok? ==> r == PaginateAndOrder(ExamParticipations(t, examId), key, page, pageSize)
  {
    if examId.Some? && examId.value !in t.exams then Err(INVALID_EXAM)
    else if query.Some? && query.value != "" then Err(BAD_LOOKUP)
    else
      var rows := ExamParticipations(t, examId);
      var r := PaginateAndOrder(rows, key, page, pageSize);
      if r.Ok? then
        ExamParticipationsSpec(t, examId);
        PageMembers(rows, key, page, pageSize);
        r
      else r
  }

  /** A first page at least as long as the table holds every participation
      of the requested exam. */
  lemma ListParticipationsComplete(t: Tables, examId: Option<ExamId>, key: Entry<Participation> -> real, pageSize: int)
    requires KeysBelow(t.participations, t.next.participation)
    requires examId.None? || examId.value in t.exams
    requires pageSize >= |t.participations|
    ensures var r := ListParticipations(t, None, examId, key, 1, pageSize);
      r.Ok? && forall k :: k in ExamParticipationIds(t, examId) ==> Entry(k, t.participations[k]) in r.value
  {
    var rows := ExamParticipations(t, examId);
    ExamParticipationsComplete(t, examId);
    RowsCount(t.participations, t.next.participation);
    assert |rows| <= |t.participations|;
    WholeFirstPage(rows, key, pageSize);
    var r := ListParticipations(t, None, examId, key, 1, pageSize);
    assert r.Ok? && r == PaginateAndOrder(rows, key, 1, pageSize);
  }

  /** With `order_by=score` the scores on a page do not decrease. */
  lemma OrderByScore(t: Tables, examId: Option<ExamId>, page: int, pageSize: int)
    requires ListParticipations(t, None, examId, (e: Entry<Participation>) => e.row.score, page, pageSize).Ok?
    ensures var rows := ListParticipations(t, None, examId, (e: Entry<Participation>) => e.row.score, page, pageSize).value;
      forall i, j :: 0 <= i < j < |rows| ==> rows[i].row.score <= rows[j].row.score
  {
    var key := (e: Entry<Participation>) => e.row.score;
    var rows := ListParticipations(t, None, examId, key, page, pageSize).value;
    assert SortedOn(rows, key);
    forall i, j | 0 <= i < j < |rows| ensures rows[i].row.score <= rows[j].row.score {
      assert key(rows[i]) <= key(rows[j]);
    }
  }
}
