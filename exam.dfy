/** api/routers/exam.py: exam details and patching, enrolment of a user in
    an exam, and the participation lifecycle (finish, then poll progress). */
module ExamRouter {
  import opened Common
  import opened Models
  import opened Store

  // ---------------------------------------------------------------------------
  // Exams

  /** Details are shown to an admin user, or to a user enrolled in the exam. */
  function GetExamDetails(t: Tables, caller: UserId, examId: ExamId): (r: Result<Exam>)
    requires caller in t.users
    ensures examId !in t.exams ==> r == Err(HttpError(404, NOT_FOUND))
    ensures examId in t.exams ==>
      (r.Ok? <==> t.users[caller].isAdmin || ParticipationsOf(t.participations, caller, examId) != {})
    ensures examId in t.exams && r.Err? ==>
      r.failure == HttpError(403, "Você não tem permissão para acessar os detalhes desta prova")
    ensures r.Ok? ==> examId in t.exams && r.value == t.exams[examId]
  {
    if examId !in t.exams then Err(HttpError(404, NOT_FOUND))
    else if !t.users[caller].isAdmin && ParticipationsOf(t.participations, caller, examId) == {} then
      Err(HttpError(403, "Você não tem permissão para acessar os detalhes desta prova"))
    else Ok(t.exams[examId])
  }

  /** The exam fields a patch can carry. */
  datatype ExamPatch = ExamPatch(name: Field<string>)

  /** `setattr` for every field the client sent. */
  function PatchExam(e: Exam, p: ExamPatch): (r: Exam)
    ensures p.name.Set? ==> r.name == p.name.value
    ensures p.name.Unset? ==> r.name == e.name
    ensures r.createdBy == e.createdBy && r.createdAt == e.createdAt
  {
    e.(name := p.name.Or(e.name))
  }

  /** `partial_update_exam`. */
  method PartialUpdateExam(db: Database, examId: ExamId, patch: ExamPatch) returns (r: Result<Exam>)
    requires db.Valid()
    modifies db
    ensures db.Valid()
    ensures examId !in old(db.exams) ==> r == Err(HttpError(404, NOT_FOUND)) && db.Snapshot() == old(db.Snapshot())
    ensures examId in old(db.exams) ==>
      && r == Ok(PatchExam(old(db.exams)[examId], patch))
      && db.Snapshot() == old(db.Snapshot()).(exams := old(db.exams)[examId := r.value])
  {
    if examId !in db.exams {
      return Err(HttpError(404, NOT_FOUND));
    }
    var e := PatchExam(db.exams[examId], patch);
    db.SaveExam(examId, e);
    r := Ok(e);
  }

  // ---------------------------------------------------------------------------
  // Enrolment

  /** The body of `POST /{exam_id}/participants/`. */
  datatype EnrolPayload = EnrolPayload(userId: UserId, examId: ExamId)

  /** `create_participation`: the exam is the one named in the payload; the
      one in the path is not consulted. */
  method CreateParticipation(db: Database, pathExamId: ExamId, payload: EnrolPayload, now: Time)
    returns (r: Result<ParticipationId>)
    requires db.Valid()
    modifies db
    ensures db.Valid()
    ensures payload.userId !in old(db.users) ==>
      r == Err(HttpError(404, "Usuário nao encontrado")) && db.Snapshot() == old(db.Snapshot())
    ensures payload.userId in old(db.users) && payload.examId !in old(db.exams) ==>
      r == Err(HttpError(404, "Prova nao encontrada")) && db.Snapshot() == old(db.Snapshot())
    ensures payload.userId in old(db.users) && payload.examId in old(db.exams)
            && ParticipationsOf(old(db.participations), payload.userId, payload.examId) != {} ==>
      r == Err(HttpError(422, "Usuário ja inscrito na prova")) && db.Snapshot() == old(db.Snapshot())
    ensures r.Ok? <==>
      payload.userId in old(db.users) && payload.examId in old(db.exams)
      && ParticipationsOf(old(db.participations), payload.userId, payload.examId) == {}
    ensures r.Ok? ==>
      && r.value == old(db.next.participation)
      && db.Snapshot() == old(db.Snapshot()).(
           participations := old(db.participations)[r.value := NewParticipation(payload.userId, payload.examId, now)],
           next := old(db.next).(participation := r.value + 1))
  {
    if payload.userId !in db.users {
      return Err(HttpError(404, "Usuário nao encontrado"));
    }
    if payload.examId !in db.exams {
      return Err(HttpError(404, "Prova nao encontrada"));
    }
    if ParticipationsOf(db.participations, payload.userId, payload.examId) != {} {
      return Err(HttpError(422, "Usuário ja inscrito na prova"));
    }
    var id := db.CreateParticipation(NewParticipation(payload.userId, payload.examId, now));
    r := Ok(id);
  }

  /** The shared prelude of the participant handlers addressed by
      `(exam_id, user_id)`: the user, the exam and at least one
      participation of the pair must exist. */
  function FindEnrolment(t: Tables, examId: ExamId, userId: UserId): (r: Option<Failure>)
    ensures r.None? <==> userId in t.users && examId in t.exams && ParticipationsOf(t.participations, userId, examId) != {}
    ensures userId !in t.users ==> r == Some(HttpError(404, "Usuário nao encontrado"))
    ensures userId in t.users && examId !in t.exams ==> r == Some(HttpError(404, "Prova nao encontrada"))
    ensures userId in t.users && examId in t.exams && ParticipationsOf(t.participations, userId, examId) == {} ==>
      r == Some(HttpError(404, "Participação nao encontrada"))
  {
    if userId !in t.users then Some(HttpError(404, "Usuário nao encontrado"))
    else if examId !in t.exams then Some(HttpError(404, "Prova nao encontrada"))
    else if ParticipationsOf(t.participations, userId, examId) == {} then Some(HttpError(404, "Participação nao encontrada"))
    else None
  }

  /** `delete_participation`: every participation of the pair goes (and
      their answers with them); nothing else changes. */
  method DeleteParticipation(db: Database, examId: ExamId, userId: UserId) returns (r: Result<()>)
    requires db.Valid()
    modifies db
    ensures db.Valid()
    ensures var check := FindEnrolment(old(db.Snapshot()), examId, userId);
      && (check.Some? ==> r == Err(check.value) && db.Snapshot() == old(db.Snapshot()))
      && (check.None? ==> r == Ok(()))
      && (check.None? ==>
           db.Snapshot() == DropParticipations(old(db.Snapshot()), ParticipationsOf(old(db.participations), userId, examId)))
  {
    var check := FindEnrolment(db.Snapshot(), examId, userId);
    if check.Some? {
      return Err(check.value);
    }
    db.DeleteParticipations(ParticipationsOf(db.participations, userId, examId));
    r := Ok(());
  }

  /** The participation fields a patch can carry; `finished_at` may be
      cleared with an explicit null. */
  datatype ParticipationPatch = ParticipationPatch(finishedAt: Field<Option<Time>>, score: Field<real>)

  function PatchParticipation(p: Participation, patch: ParticipationPatch): (r: Participation)
    ensures patch.finishedAt.Set? ==> r.finishedAt == patch.finishedAt.value
    ensures patch.finishedAt.Unset? ==> r.finishedAt == p.finishedAt
    ensures patch.score.Set? ==> r.score == patch.score.value
    ensures patch.score.Unset? ==> r.score == p.score
    ensures r.user == p.user && r.exam == p.exam && r.startedAt == p.startedAt
  {
    p.(finishedAt := patch.finishedAt.Or(p.finishedAt), score := patch.score.Or(p.score))
  }

  /** `update_participation`: after the prelude, `.get()` must find exactly
      one participation of the pair, which is patched and saved. */
  method UpdateParticipation(db: Database, examId: ExamId, userId: UserId, patch: ParticipationPatch)
    returns (r: Result<Participation>)
    requires db.Valid()
    modifies db
    ensures db.Valid()
    ensures var check := FindEnrolment(old(db.Snapshot()), examId, userId);
      check.Some? ==> r == Err(check.value) && db.Snapshot() == old(db.Snapshot())
    ensures var found := GetParticipation(old(db.participations), userId, examId);
      found.Multiple? && userId in old(db.users) && examId in old(db.exams) ==>
        r == Err(MultipleParticipations(found.count)) && db.Snapshot() == old(db.Snapshot())
    ensures var found := GetParticipation(old(db.participations), userId, examId);
      r.Ok? ==> && found.Unique?
                && r.value == PatchParticipation(old(db.participations)[found.id], patch)
                && db.Snapshot() == old(db.Snapshot()).(participations := old(db.participations)[found.id := r.value])
    ensures r.Ok? <==> FindEnrolment(old(db.Snapshot()), examId, userId).None? &&
                       GetParticipation(old(db.participations), userId, examId).Unique?
  {
    var check := FindEnrolment(db.Snapshot(), examId, userId);
    if check.Some? {
      return Err(check.value);
    }
    var found := GetParticipation(db.participations, userId, examId);
    if found.Multiple? {
      return Err(MultipleParticipations(found.count));
    }
    assert found.id in ParticipationsOf(db.participations, userId, examId);
    var p := PatchParticipation(db.participations[found.id], patch);
    db.SaveParticipation(found.id, p);
    r := Ok(p);
  }

  // ---------------------------------------------------------------------------
  // Finishing and progress

  /** The checks of `finish_exam`, and the participation it enqueues on
      success: the exam must exist, `.get()` must find exactly one
      participation of the caller in it, and that one must be unfinished. */
  function FinishTarget(t: Tables, caller: UserId, examId: ExamId): (r: Result<ParticipationId>)
    ensures examId !in t.exams ==> r == Err(HttpError(404, "Prova nao encontrada"))
    ensures examId in t.exams && ParticipationsOf(t.participations, caller, examId) == {} ==>
      r == Err(HttpError(404, "Participação nao encontrada"))
    ensures examId in t.exams && GetParticipation(t.participations, caller, examId).Multiple? ==>
      r == Err(MultipleParticipations(GetParticipation(t.participations, caller, examId).count))
    ensures r.Ok? ==> && examId in t.exams
                      && ParticipationsOf(t.participations, caller, examId) == {r.value}
                      && t.participations[r.value].finishedAt.None?
    ensures examId in t.exams && GetParticipation(t.participations, caller, examId).Unique? ==>
      var p := GetParticipation(t.participations, caller, examId).id;
      (r.Ok? <==> t.participations[p].finishedAt.None?) &&
      (r.Err? ==> r.failure == HttpError(403, "Prova ja finalizada"))
  {
    if examId !in t.exams then Err(HttpError(404, "Prova nao encontrada"))
    else
      match GetParticipation(t.participations, caller, examId)
      case Missing => Err(HttpError(404, "Participação nao encontrada"))
      case Multiple(n) => Err(MultipleParticipations(n))
      case Unique(p) =>
        assert p in ParticipationsOf(t.participations, caller, examId);
        if t.participations[p].finishedAt.Some? then Err(HttpError(403, "Prova ja finalizada"))
        else Ok(p)
  }

  const SCORING_STARTED: string := "Cálculo da pontuação iniciado"

  /** `finish_exam`: on success exactly one score job is queued for the
      caller's participation; no row changes, and on failure nothing at all. */
  method FinishExam(db: Database, caller: UserId, examId: ExamId) returns (r: Result<string>)
    requires db.Valid()
    modifies db
    ensures db.Valid()
    ensures var target := FinishTarget(old(db.Snapshot()), caller, examId);
      && (target.Err? ==> r == Err(target.failure) && db.Snapshot() == old(db.Snapshot()))
      && (target.Ok? ==> r == Ok(SCORING_STARTED) && db.Snapshot() == old(db.Snapshot()).(jobs := old(db.jobs) + [target.value]))
  {
    var target := FinishTarget(db.Snapshot(), caller, examId);
    if target.Err? {
      return Err(target.failure);
    }
    db.Enqueue(target.value);
    r := Ok(SCORING_STARTED);
  }

  /** The two answers of `check_progress`. */
  datatype Progress = InProgress | Completed(score: real)

  /** `check_progress`: the exam itself is not looked up; the caller's
      participation is, and `finished_at` decides the answer. */
  function CheckProgress(parts: map<ParticipationId, Participation>, caller: UserId, examId: ExamId): (r: Result<Progress>)
    ensures ParticipationsOf(parts, caller, examId) == {} ==> r == Err(HttpError(404, "Participação não encontrada"))
    ensures GetParticipation(parts, caller, examId).Multiple? ==>
      r == Err(MultipleParticipations(GetParticipation(parts, caller, examId).count))
    ensures GetParticipation(parts, caller, examId).Unique? ==>
      var p := parts[GetParticipation(parts, caller, examId).id];
      && (p.finishedAt.Some? ==> r == Ok(Completed(p.score)))
      && (p.finishedAt.None? ==> r == Ok(InProgress))
  {
    match GetParticipation(parts, caller, examId)
    case Missing => Err(HttpError(404, "Participação não encontrada"))
    case Multiple(n) => Err(MultipleParticipations(n))
    case Unique(p) =>
      assert p in ParticipationsOf(parts, caller, examId);
      if parts[p].finishedAt.Some? then Ok(Completed(parts[p].score)) else Ok(InProgress)
  }
}
