/** api/routers/choice.py: creating a choice for a question, reading it,
    the full and the partial update, and deleting it. */
module ChoiceRouter {
  import opened Common
  import opened Models
  import opened Store
  import opened Utils

  /** `ChoicesSchema`: the row as the handlers return it. */
  datatype ChoiceView = ChoiceView(id: ChoiceId, questionId: QuestionId, text: string, isCorrect: bool)

  function View(id: ChoiceId, c: Choice): ChoiceView {
    ChoiceView(id, c.question, c.text, c.isCorrect)
  }

  /** `ChoicesCreateSchema`. */
  datatype ChoiceCreate = ChoiceCreate(questionId: QuestionId, text: string, isCorrect: bool)

  /** The payload of `PUT`: `None` keeps the stored value. */
  datatype ChoiceUpdate = ChoiceUpdate(text: Option<string>, isCorrect: Option<bool>)

  /** The payload of `PATCH`: a field may be left out, or sent, possibly as
      null. */
  datatype ChoicePatch = ChoicePatch(text: Field<Option<string>>, isCorrect: Field<Option<bool>>)

  const CHOICE_NOT_FOUND := HttpError(404, "Choice not found")

  /** Saving NULL into the non-null `text` or `is_correct` column. */
  const NULL_COLUMN := Exception("IntegrityError", "NOT NULL constraint failed")

  /** `create_choice`: the guards, then a new row for an existing question;
      the returned data is the stored row. */
  method CreateChoice(db: Database, who: RequestUser, payload: ChoiceCreate) returns (r: Result<ChoiceView>)
    requires db.Valid()
    modifies db
    ensures db.Valid()
    ensures who.Anonymous? ==> r == Err(IsAdmin(who).failure) && db.Snapshot() == old(db.Snapshot())
    ensures who.Authenticated? && payload.questionId !in old(db.questions) ==>
      r == Err(HttpError(404, "Question not found")) && db.Snapshot() == old(db.Snapshot())
    ensures who.Authenticated? && payload.questionId in old(db.questions) ==>
      && r == Ok(ChoiceView(old(db.next.choice), payload.questionId, payload.text, payload.isCorrect))
      && db.Snapshot() == old(db.Snapshot()).(
           choices := old(db.choices)[r.value.id := Choice(payload.questionId, payload.text, payload.isCorrect)],
           next := old(db.next).(choice := r.value.id + 1))
    ensures r.Ok? ==> r.value.id in db.choices && r.value == View(r.value.id, db.choices[r.value.id])
  {
    var denied := Guards(who);
    if denied.Some? {
      return Err(denied.value);
    }
    if payload.questionId !in db.questions {
      return Err(HttpError(404, "Question not found"));
    }
    var c := Choice(payload.questionId, payload.text, payload.isCorrect);
    var id := db.CreateChoice(c);
    r := Ok(View(id, c));
  }

  /** `get_choice`. */
  function GetChoice(t: Tables, who: RequestUser, id: ChoiceId): (r: Result<ChoiceView>)
    ensures who.Anonymous? ==> r == Err(IsAdmin(who).failure)
    ensures who.Authenticated? && id !in t.choices ==> r == Err(CHOICE_NOT_FOUND)
    ensures r.Ok? <==> who.Authenticated? && id in t.choices
    ensures r.Ok? ==> r.value.id == id && r.value.questionId == t.choices[id].question
    ensures r.Ok? ==> r.value.text == t.choices[id].text && r.value.isCorrect == t.choices[id].isCorrect
  {
    if Guards(who).Some? then Err(Guards(who).value)
    else if id !in t.choices then Err(CHOICE_NOT_FOUND)
    else Ok(View(id, t.choices[id]))
  }

  // ---------------------------------------------------------------------------
  // Updates

  /** `update_choice`'s field assignments, each guarded by `is not None`. */
  function UpdatedChoice(c: Choice, u: ChoiceUpdate): (r: Choice)
    ensures u.text.Some? ==> r.text == u.text.value
    ensures u.text.None? ==> r.text == c.text
    ensures u.isCorrect.Some? ==> r.isCorrect == u.isCorrect.value
    ensures u.isCorrect.None? ==> r.isCorrect == c.isCorrect
    ensures r.question == c.question
  {
    c.(text := u.text.GetOr(c.text), isCorrect := u.isCorrect.GetOr(c.isCorrect))
  }

  /** `update_choice`. */
  method UpdateChoice(db: Database, who: RequestUser, id: ChoiceId, u: ChoiceUpdate) returns (r: Result<ChoiceView>)
    requires db.Valid()
    modifies db
    ensures db.Valid()
    ensures who.Anonymous? ==> r == Err(IsAdmin(who).failure) && db.Snapshot() == old(db.Snapshot())
    ensures who.Authenticated? && id !in old(db.choices) ==> r == Err(CHOICE_NOT_FOUND) && db.Snapshot() == old(db.Snapshot())
    ensures who.Authenticated? && id in old(db.choices) ==>
      && r == Ok(View(id, UpdatedChoice(old(db.choices)[id], u)))
      && db.Snapshot() == old(db.Snapshot()).(choices := old(db.choices)[id := UpdatedChoice(old(db.choices)[id], u)])
  {
    var denied := Guards(who);
    if denied.Some? {
      return Err(denied.value);
    }
    if id !in db.choices {
      return Err(CHOICE_NOT_FOUND);
    }
    var c := db.choices[id];
    if u.text.Some? {
      c := c.(text := u.text.value);
    }
    if u.isCorrect.Some? {
      c := c.(isCorrect := u.isCorrect.value);
    }
    db.SaveChoice(id, c);
    r := Ok(View(id, c));
  }

  /** The `setattr` loop over the fields the client sent, then `save()`:
      a field sent as null cannot be stored. */
  function PatchedChoice(c: Choice, p: ChoicePatch): (r: Result<Choice>)
    ensures r.Err? <==> p.text == Set(None) || p.isCorrect == Set(None)
    ensures r.Err? ==> r.failure == NULL_COLUMN
    ensures r.Ok? && p.text.Set? ==> r.value.text == p.text.value.value
    ensures r.Ok? && p.text.Unset? ==> r.value.text == c.text
    ensures r.Ok? && p.isCorrect.Set? ==> r.value.isCorrect == p.isCorrect.value.value
    ensures r.Ok? && p.isCorrect.Unset? ==> r.value.isCorrect == c.isCorrect
    ensures r.Ok? ==> r.value.question == c.question
  {
    var text := p.text.Or(Some(c.text));
    var isCorrect := p.isCorrect.Or(Some(c.isCorrect));
    if text.None? || isCorrect.None? then Err(NULL_COLUMN)
    else Ok(c.(text := text.value, isCorrect := isCorrect.value))
  }

  /** `partial_update_choice`. */
  method PartialUpdateChoice(db: Database, who: RequestUser, id: ChoiceId, p: ChoicePatch) returns (r: Result<ChoiceView>)
    requires db.Valid()
    modifies db
    ensures db.Valid()
    ensures who.Anonymous? ==> r == Err(IsAdmin(who).failure) && db.Snapshot() == old(db.Snapshot())
    ensures who.Authenticated? && id !in old(db.choices) ==> r == Err(CHOICE_NOT_FOUND) && db.Snapshot() == old(db.Snapshot())
    ensures who.Authenticated? && id in old(db.choices) ==> var s := PatchedChoice(old(db.choices)[id], p);
      && (s.Err? ==> r == Err(s.failure) && db.Snapshot() == old(db.Snapshot()))
      && (s.Ok? ==> r == Ok(View(id, s.value)) && db.Snapshot() == old(db.Snapshot()).(choices := old(db.choices)[id := s.value]))
  {
    var denied := Guards(who);
    if denied.Some? {
      return Err(denied.value);
    }
    if id !in db.choices {
      return Err(CHOICE_NOT_FOUND);
    }
    var s := PatchedChoice(db.choices[id], p);
    if s.Err? {
      return Err(s.failure);
    }
    db.SaveChoice(id, s.value);
    r := Ok(View(id, s.value));
  }

  /** A patch without a null is the full update whose given fields are the
      patch's set fields. */
  lemma PatchIsUpdate(c: Choice, p: ChoicePatch)
    requires p.text != Set(None) && p.isCorrect != Set(None)
    ensures var u := ChoiceUpdate(if p.text.Set? then p.text.value else None,
                                  if p.isCorrect.Set? then p.isCorrect.value else None);
      PatchedChoice(c, p) == Ok(UpdatedChoice(c, u))
  {
  }

  /** Sending the same update twice leaves the row as sending it once. */
  lemma UpdateIdempotent(c: Choice, u: ChoiceUpdate)
    ensures UpdatedChoice(UpdatedChoice(c, u), u) == UpdatedChoice(c, u)
  {
  }

  /** An empty patch changes nothing. */
  lemma EmptyPatchKeepsChoice(c: Choice)
    ensures PatchedChoice(c, ChoicePatch(Unset, Unset)) == Ok(c)
  {
  }

  /** `delete_choice`: the choice goes, and with it the answers that chose
      it. */
  method DeleteChoice(db: Database, who: RequestUser, id: ChoiceId) returns (r: Result<()>)
    requires db.Valid()
    modifies db
    ensures db.Valid()
    ensures who.Anonymous? ==> r == Err(IsAdmin(who).failure) && db.Snapshot() == old(db.Snapshot())
    ensures who.Authenticated? && id !in old(db.choices) ==> r == Err(CHOICE_NOT_FOUND) && db.Snapshot() == old(db.Snapshot())
    ensures who.Authenticated? && id in old(db.choices) ==> r == Ok(()) && db.Snapshot() == DropChoices(old(db.Snapshot()), {id})
  {
    var denied := Guards(who);
    if denied.Some? {
      return Err(denied.value);
    }
    if id !in db.choices {
      return Err(CHOICE_NOT_FOUND);
    }
    db.DeleteChoices({id});
    r := Ok(());
  }

  /** Deleting one choice removes exactly that choice and only the answers
      that chose it. */
  lemma DeleteChoiceRemovesOnlyIt(t: Tables, id: ChoiceId)
    ensures DropChoices(t, {id}).choices == t.choices - {id}
    ensures forall a :: a in DropChoices(t, {id}).answers <==> a in t.answers && t.answers[a].choice != id
  {
    var r := DropChoices(t, {id});
    assert r.choices == t.choices - {id};
  }
}
