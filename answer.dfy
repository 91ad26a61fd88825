/** api/routers/answer.py: submitting an answer to a question of an exam the
    caller takes part in, changing its choice, reading and deleting it, and
    listing the answers of one of the caller's participations. */
module AnswerRouter {
  import opened Common
  import opened Models
  import opened Store
  import opened Ordering
  import opened Utils

  /** The body of `POST /answers/`. */
  datatype AnswerCreate = AnswerCreate(participation: ParticipationId, question: QuestionId, choice: ChoiceId)

  /** The participation exists and is the caller's. */
  predicate OwnsParticipation(t: Tables, caller: UserId, p: ParticipationId) {
    p in t.participations && t.participations[p].user == caller
  }

  const NOT_A_PARTICIPANT := "Apenas participantes podem responder questões da prova."

  /** The checks of `create_answer`, in the order the handler makes them. */
  function SubmissionCheck(t: Tables, caller: UserId, payload: AnswerCreate): (r: Option<Failure>)
    ensures r.None? <==>
      && OwnsParticipation(t, caller, payload.participation)
      && payload.question in t.questions
      && Link(payload.question, t.participations[payload.participation].exam) in t.links
      && payload.choice in t.choices && t.choices[payload.choice].question == payload.question
    ensures !OwnsParticipation(t, caller, payload.participation) ==> r == Some(HttpError(404, NOT_FOUND))
    ensures OwnsParticipation(t, caller, payload.participation) && payload.question !in t.questions ==>
      r == Some(HttpError(404, NOT_FOUND))
    ensures OwnsParticipation(t, caller, payload.participation) && payload.question in t.questions
            && Link(payload.question, t.participations[payload.participation].exam) !in t.links ==>
      r == Some(HttpError(403, NOT_A_PARTICIPANT))
    ensures r.Some? && r.value != HttpError(403, NOT_A_PARTICIPANT) ==> r.value == HttpError(404, NOT_FOUND)
  {
    if !OwnsParticipation(t, caller, payload.participation) then Some(HttpError(404, NOT_FOUND))
    else if payload.question !in t.questions then Some(HttpError(404, NOT_FOUND))
    else if Link(payload.question, t.participations[payload.participation].exam) !in t.links then
      Some(HttpError(403, NOT_A_PARTICIPANT))
    else if payload.choice !in t.choices || t.choices[payload.choice].question != payload.question then
      Some(HttpError(404, NOT_FOUND))
    else None
  }

  /** `create_answer`: one new row once every check passes; earlier answers
      to the same question are not looked at. */
  method CreateAnswer(db: Database, caller: UserId, payload: AnswerCreate, now: Time) returns (r: Result<AnswerId>)
    requires db.Valid()
    modifies db
    ensures db.Valid()
    ensures var check := SubmissionCheck(old(db.Snapshot()), caller, payload);
      && (check.Some? ==> r == Err(check.value) && db.Snapshot() == old(db.Snapshot()))
      && (check.None? ==> r == Ok(old(db.next.answer)))
      && (check.None? ==> db.Snapshot() == old(db.Snapshot()).(
            answers := old(db.answers)[r.value := Answer(payload.participation, payload.question, payload.choice, now)],
            next := old(db.next).(answer := r.value + 1)))
  {
    var check := SubmissionCheck(db.Snapshot(), caller, payload);
    if check.Some? {
      return Err(check.value);
    }
    var id := db.CreateAnswer(Answer(payload.participation, payload.question, payload.choice, now));
    r := Ok(id);
  }

  /** The checks do not read the answers table, so a submission that was
      accepted once is accepted again: repeated submissions add rows. */
  lemma {:induction false} ResubmissionAccepted(t: Tables, caller: UserId, payload: AnswerCreate, id: AnswerId, a: Answer)
    requires SubmissionCheck(t, caller, payload).None?
    ensures SubmissionCheck(t.(answers := t.answers[id := a], next := t.next.(answer := id + 1)), caller, payload).None?
  {
    var t' := t.(answers := t.answers[id := a], next := t.next.(answer := id + 1));
    assert t'.participations == t.participations && t'.questions == t.questions;
    assert t'.links == t.links && t'.choices == t.choices;
  }

  // ---------------------------------------------------------------------------
  // One answer

  /** `get_object_or_404(ModelAnswer, id=...)` followed by the author check
      each per-answer handler makes, with its own wording of the 403. */
  function OwnAnswer(t: Tables, caller: UserId, id: AnswerId, denial: string): (r: Result<Answer>)
    requires ValidTables(t)
    ensures id !in t.answers ==> r == Err(HttpError(404, NOT_FOUND))
    ensures id in t.answers ==>
      (r.Ok? <==> t.participations[t.answers[id].participation].user == caller)
    ensures id in t.answers && r.Err? ==> r.failure == HttpError(403, denial)
    ensures r.Ok? ==> id in t.answers && r.value == t.answers[id]
  {
    if id !in t.answers then Err(HttpError(404, NOT_FOUND))
    else if t.participations[t.answers[id].participation].user != caller then Err(HttpError(403, denial))
    else Ok(t.answers[id])
  }

  /** `get_answer_details`: the author sees the row. */
  function GetAnswerDetails(t: Tables, caller: UserId, id: AnswerId): (r: Result<Answer>)
    requires ValidTables(t)
    ensures id !in t.answers ==> r == Err(HttpError(404, NOT_FOUND))
    ensures id in t.answers && t.participations[t.answers[id].participation].user != caller ==>
      r == Err(HttpError(403, "Apenas o autor da resposta pode obter seus detalhes."))
    ensures r.Ok? <==> id in t.answers && t.participations[t.answers[id].participation].user == caller
    ensures r.Ok? ==> r.value == t.answers[id]
  {
    OwnAnswer(t, caller, id, "Apenas o autor da resposta pode obter seus detalhes.")
  }

  /** What `update_answer` saves: a truthy `choice_id` must name a choice of
      the answer's own question and replaces the choice; the question and the
      participation are never touched. */
  function UpdatedAnswer(t: Tables, caller: UserId, id: AnswerId, choice: Option<ChoiceId>): (r: Result<Answer>)
    requires ValidTables(t)
    ensures var own := OwnAnswer(t, caller, id, "Apenas o autor da resposta pode atualizá-la.");
      own.Err? ==> r == Err(own.failure)
    ensures r.Ok? ==> id in t.answers && t.participations[t.answers[id].participation].user == caller
    ensures r.Ok? ==> r.value.participation == t.answers[id].participation && r.value.question == t.answers[id].question
    ensures r.Ok? ==> r.value.answeredAt == t.answers[id].answeredAt
    ensures r.Ok? && (choice.None? || choice.value == 0) ==> r.value == t.answers[id]
    ensures r.Ok? && choice.Some? && choice.value != 0 ==> r.value.choice == choice.value
    ensures id in t.answers && t.participations[t.answers[id].participation].user == caller
            && choice.Some? && choice.value != 0 ==>
      (r.Err? <==> choice.value !in t.choices || t.choices[choice.value].question != t.answers[id].question)
    ensures r.Err? && id in t.answers && t.participations[t.answers[id].participation].user == caller ==>
      r.failure == HttpError(404, NOT_FOUND)
    ensures r.Ok? ==> r.value.choice in t.choices && t.choices[r.value.choice].question == r.value.question
  {
    var own := OwnAnswer(t, caller, id, "Apenas o autor da resposta pode atualizá-la.");
    if own.Err? then own
    else if choice.Some? && choice.value != 0 then
      var c := choice.value;
      if c !in t.choices || t.choices[c].question != own.value.question then Err(HttpError(404, NOT_FOUND))
      else Ok(own.value.(choice := c))
    else own
  }

  /** `update_answer`: the row is saved even when no choice was given. */
  method UpdateAnswer(db: Database, caller: UserId, id: AnswerId, choice: Option<ChoiceId>) returns (r: Result<Answer>)
    requires db.Valid()
    modifies db
    ensures db.Valid()
    ensures var s := UpdatedAnswer(old(db.Snapshot()), caller, id, choice);
      && r == s
      && (s.Err? ==> db.Snapshot() == old(db.Snapshot()))
      && (s.Ok? ==> db.Snapshot() == old(db.Snapshot()).(answers := old(db.answers)[id := s.value]))
  {
    if id !in db.answers {
      return Err(HttpError(404, NOT_FOUND));
    }
    var answer := db.answers[id];
    if db.participations[answer.participation].user != caller {
      return Err(HttpError(403, "Apenas o autor da resposta pode atualizá-la."));
    }
    if choice.Some? && choice.value != 0 {
      var c := choice.value;
      if c !in db.choices || db.choices[c].question != answer.question {
        return Err(HttpError(404, NOT_FOUND));
      }
      answer := answer.(choice := c);
    }
    db.SaveAnswer(id, answer);
    r := Ok(answer);
  }

  /** `delete_answer`: the author's answer goes, and nothing else. */
  method DeleteAnswer(db: Database, caller: UserId, id: AnswerId) returns (r: Result<()>)
    requires db.Valid()
    modifies db
    ensures db.Valid()
    ensures var own := OwnAnswer(old(db.Snapshot()), caller, id, "Apenas o autor da resposta pode deletá-la.");
      && (own.Err? ==> r == Err(own.failure) && db.Snapshot() == old(db.Snapshot()))
      && (own.Ok? ==> r == Ok(()) && db.Snapshot() == old(db.Snapshot()).(answers := old(db.answers) - {id}))
  {
    var own := OwnAnswer(db.Snapshot(), caller, id, "Apenas o autor da resposta pode deletá-la.");
    if own.Err? {
      return Err(own.failure);
    }
    db.DeleteAnswer(id);
    r := Ok(());
  }

  // ---------------------------------------------------------------------------
  // Listing

  /** `ModelAnswer.objects.filter(participation=p)`, in key order. */
  function AnswersOf(t: Tables, p: ParticipationId): seq<Entry<Answer>> {
    Filter(Rows(t.answers, t.next.answer), (e: Entry<Answer>) => e.row.participation == p)
  }

  /** The filter keeps rows of the answers table that belong to `p`. */
  lemma AnswersOfSpec(t: Tables, p: ParticipationId)
    ensures forall e :: e in AnswersOf(t, p) ==> e.id in t.answers && e.row == t.answers[e.id] && e.row.participation == p
  {
    var all := Rows(t.answers, t.next.answer);
    RowsSpec(t.answers, t.next.answer);
    forall e | e in AnswersOf(t, p) ensures e.id in t.answers && e.row == t.answers[e.id] && e.row.participation == p {
      assert e in all;
      var i :| 0 <= i < |all| && all[i] == e;
      assert RowAt(t.answers, t.next.answer, i);
    }
  }

  /** The ids of the answers given in participation `p`. */
  function AnswerIdsOf(t: Tables, p: ParticipationId): set<AnswerId> {
    set k | k in t.answers && t.answers[k].participation == p
  }

  /** Every answer of `p` is listed, and each of them once. */
  lemma AnswersOfComplete(t: Tables, p: ParticipationId)
    requires KeysBelow(t.answers, t.next.answer)
    ensures forall k :: k in AnswerIdsOf(t, p) ==> Entry(k, t.answers[k]) in AnswersOf(t, p)
    ensures |AnswersOf(t, p)| == |AnswerIdsOf(t, p)|
  {
    var keep := (e: Entry<Answer>) => e.row.participation == p;
    FilterRows(t.answers, t.next.answer, keep);
    assert (set k | k in t.answers && keep(Entry(k, t.answers[k]))) == AnswerIdsOf(t, p);
  }

  /** `list_answers` without a search term: only a participation of the
      caller's is listed, ordered on `key` and paginated. */
  function ListAnswers(t: Tables, caller: UserId, p: ParticipationId, key: Entry<Answer> -> real, page: int, pageSize: int)
    : (r: Result<seq<Entry<Answer>>>)
    ensures !OwnsParticipation(t, caller, p) ==> r == Err(HttpError(404, NOT_FOUND))
    ensures OwnsParticipation(t, caller, p) ==> r == PaginateAndOrder(AnswersOf(t, p), key, page, pageSize)
    ensures OwnsParticipation(t, caller, p) && page >= 1 && pageSize >= 0 ==> r.Ok? && |r.value| <= pageSize
    ensures r.Ok? ==> OwnsParticipation(t, caller, p)
    ensures r.Ok? ==> forall e :: e in r.value ==>
      e.id in t.answers && e.row == t.answers[e.id] && e.row.participation == p
    ensures r.Ok? ==> SortedOn(r.value, key)
  {
    if !OwnsParticipation(t, caller, p) then Err(HttpError(404, NOT_FOUND))
    else
      var rows := AnswersOf(t, p);
      var r := PaginateAndOrder(rows, key, page, pageSize);
      if r.Ok? then
        AnswersOfSpec(t, p);
        PageMembers(rows, key, page, pageSize);
        r
      else r
  }

  /** A first page long enough holds every answer of the participation. */
  lemma ListAnswersComplete(t: Tables, caller: UserId, p: ParticipationId, key: Entry<Answer> -> real, pageSize: int)
    requires ValidTables(t) && OwnsParticipation(t, caller, p)
    requires pageSize >= |t.answers|
    ensures forall a :: a in t.answers && t.answers[a].participation == p ==>
      Entry(a, t.answers[a]) in ListAnswers(t, caller, p, key, 1, pageSize).value
  {
    var all := Rows(t.answers, t.next.answer);
    RowsSpec(t.answers, t.next.answer);
    RowsCount(t.answers, t.next.answer);
    var rows := AnswersOf(t, p);
    WholeFirstPage(rows, key, pageSize);
    forall a | a in t.answers && t.answers[a].participation == p
      ensures Entry(a, t.answers[a]) in rows
    {
      assert Entry(a, t.answers[a]) in all;
    }
  }
}
