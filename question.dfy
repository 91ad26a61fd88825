/** api/routers/question.py: creating a question with its choices, the two
    update handlers (which reconcile the question's exam links and replace
    its choices), and linking or unlinking a single exam. */
module QuestionRouter {
  import opened Common
  import opened Models
  import opened Store
  import opened Ordering

  /** One choice of a question payload. */
  datatype ChoiceInput = ChoiceInput(text: string, isCorrect: bool)

  datatype QuestionCreate = QuestionCreate(text: string, choices: seq<ChoiceInput>)

  /** The payload both update handlers read; `None` is an absent or null
      field. */
  datatype QuestionUpdate = QuestionUpdate(
    text: Option<string>,
    examIds: Option<seq<ExamId>>,
    choices: Option<seq<ChoiceInput>>)

  function ChoiceOf(q: QuestionId, c: ChoiceInput): Choice {
    Choice(q, c.text, c.isCorrect)
  }

  // ---------------------------------------------------------------------------
  // Creating choices

  /** The rows `ModelChoice.objects.create` adds, one per payload choice, in
      payload order, for keys `base`, `base + 1`, .... */
  function NewChoices(q: QuestionId, cs: seq<ChoiceInput>, base: nat): (m: map<ChoiceId, Choice>)
    ensures forall k :: k in m <==> base <= k < base + |cs|
    ensures forall i :: 0 <= i < |cs| ==> m[base + i] == ChoiceOf(q, cs[i])
    ensures forall k :: k in m ==> m[k].question == q
  {
    if cs == [] then map[]
    else NewChoices(q, cs[..|cs| - 1], base)[base + |cs| - 1 := ChoiceOf(q, cs[|cs| - 1])]
  }

  /** The tables after creating the payload's choices for question `q`: the
      new rows take the next keys, and no existing row of another question
      changes. */
  function AddChoices(t: Tables, q: QuestionId, cs: seq<ChoiceInput>): (r: Tables)
    ensures r == t.(choices := r.choices, next := t.next.(choice := t.next.choice + |cs|))
    ensures forall c :: c in r.choices <==> c in t.choices || t.next.choice <= c < t.next.choice + |cs|
    ensures forall i :: 0 <= i < |cs| ==> r.choices[t.next.choice + i] == ChoiceOf(q, cs[i])
    ensures forall c :: c in r.choices && r.choices[c].question != q ==> c in t.choices && r.choices[c] == t.choices[c]
    ensures KeysBelow(t.choices, t.next.choice) ==> forall c :: c in t.choices ==> r.choices[c] == t.choices[c]
  {
    t.(choices := t.choices + NewChoices(q, cs, t.next.choice),
       next := t.next.(choice := t.next.choice + |cs|))
  }

  /** One more loop iteration creates one more choice. */
  lemma AddChoicesStep(t: Tables, q: QuestionId, cs: seq<ChoiceInput>, i: nat)
    requires i < |cs|
    ensures var before := AddChoices(t, q, cs[..i]); var id := before.next.choice;
      AddChoices(t, q, cs[..i + 1]) ==
        before.(choices := before.choices[id := ChoiceOf(q, cs[i])], next := before.next.(choice := id + 1))
  {
    var base := t.next.choice;
    assert AddChoices(t, q, cs[..i]).next.choice == base + i;
    assert cs[..i + 1][..i] == cs[..i];
    var n := NewChoices(q, cs[..i], base);
    assert NewChoices(q, cs[..i + 1], base) == n[base + i := ChoiceOf(q, cs[i])];
    assert t.choices + n[base + i := ChoiceOf(q, cs[i])] == (t.choices + n)[base + i := ChoiceOf(q, cs[i])];
  }

  /** `AddChoicesStep` in the form the loop below uses. */
  lemma AddChoicesNext(t: Tables, q: QuestionId, cs: seq<ChoiceInput>, i: nat, before: Tables, after: Tables, id: ChoiceId)
    requires i < |cs| && before == AddChoices(t, q, cs[..i]) && id == before.next.choice
    requires after == before.(choices := before.choices[id := ChoiceOf(q, cs[i])], next := before.next.(choice := id + 1))
    ensures after == AddChoices(t, q, cs[..i + 1])
  {
    AddChoicesStep(t, q, cs, i);
  }

  /** The `for` loop creating one choice per payload entry. */
  method CreateChoices(db: Database, q: QuestionId, cs: seq<ChoiceInput>)
    requires db.Valid() && q in db.questions
    modifies db
    ensures db.Valid()
    ensures db.Snapshot() == AddChoices(old(db.Snapshot()), q, cs)
  {
    ghost var t0 := db.Snapshot();
    var i := 0;
    while i < |cs|
      invariant 0 <= i <= |cs|
      invariant db.Valid() && q in db.questions
      invariant db.Snapshot() == AddChoices(t0, q, cs[..i])
    {
      ghost var before := db.Snapshot();
      var id := db.CreateChoice(ChoiceOf(q, cs[i]));
      AddChoicesNext(t0, q, cs, i, before, db.Snapshot(), id);
      i := i + 1;
    }
    assert cs[..|cs|] == cs;
  }

  /** Listed by key, the created choices are the payload's choices in
      payload order. */
  lemma NewChoicesInPayloadOrder(q: QuestionId, cs: seq<ChoiceInput>, base: nat)
    ensures var rows := Rows(NewChoices(q, cs, base), base + |cs|);
      |rows| == |cs| && forall i :: 0 <= i < |cs| ==> rows[i] == Entry(base + i, ChoiceOf(q, cs[i]))
  {
    var vs := seq(|cs|, i requires 0 <= i < |cs| => ChoiceOf(q, cs[i]));
    RowsOfRun(NewChoices(q, cs, base), base, vs);
    assert Rows(NewChoices(q, cs, base), base + |cs|) == Run(base, vs);
  }

  /** Creating choices of an existing question keeps the store consistent. */
  lemma AddChoicesValid(t: Tables, q: QuestionId, cs: seq<ChoiceInput>)
    requires ValidTables(t) && q in t.questions
    ensures ValidTables(AddChoices(t, q, cs))
  {
    var r := AddChoices(t, q, cs);
    assert ChoicesRefer(r.questions, r.choices);
    assert AnswersRefer(r.participations, r.questions, r.choices, r.answers);
  }

  /** `question.choices.all().delete()` followed by the creation loop: the
      question ends up with exactly the payload's choices, under fresh keys;
      the answers that chose a deleted choice go; other questions' choices
      stay as they were. */
  function ReplaceChoices(t: Tables, q: QuestionId, cs: seq<ChoiceInput>): (r: Tables)
    ensures ValidTables(t) && q in t.questions ==> ValidTables(r)
    ensures forall c :: c in ChoicesOf(r.choices, q) <==> t.next.choice <= c < t.next.choice + |cs|
    ensures forall i :: 0 <= i < |cs| ==> r.choices[t.next.choice + i] == ChoiceOf(q, cs[i])
    ensures FreshIds(t) ==> forall c :: c in t.choices && t.choices[c].question != q ==> c in r.choices && r.choices[c] == t.choices[c]
    ensures forall c :: c in r.choices && r.choices[c].question != q ==> c in t.choices && r.choices[c] == t.choices[c]
    ensures forall a :: a in r.answers <==> a in t.answers && t.answers[a].choice !in ChoicesOf(t.choices, q)
    ensures forall a :: a in r.answers ==> r.answers[a] == t.answers[a]
    ensures r == t.(choices := r.choices, answers := r.answers, next := t.next.(choice := t.next.choice + |cs|))
  {
    var d := DropChoices(t, ChoicesOf(t.choices, q));
    if ValidTables(t) && q in t.questions then
      AddChoicesValid(d, q, cs);
      AddChoices(d, q, cs)
    else AddChoices(d, q, cs)
  }

  /** With no payload choices, replacing is deleting. */
  lemma ReplaceWithNoChoices(t: Tables, q: QuestionId)
    ensures ReplaceChoices(t, q, []) == DropChoices(t, ChoicesOf(t.choices, q))
  {
    var d := DropChoices(t, ChoicesOf(t.choices, q));
    AddNoChoices(d, q);
    assert ReplaceChoices(t, q, []) == AddChoices(d, q, []);
  }

  /** The creation loop over no choices changes nothing. */
  lemma AddNoChoices(t: Tables, q: QuestionId)
    ensures AddChoices(t, q, []) == t
  {
    assert NewChoices(q, [], t.next.choice) == map[];
    assert t.choices + map[] == t.choices;
    assert t.next.(choice := t.next.choice + 0) == t.next;
  }

  /** `question.choices.all().delete()` and then the creation loop. */
  method ReplaceQuestionChoices(db: Database, q: QuestionId, cs: seq<ChoiceInput>)
    requires db.Valid() && q in db.questions
    modifies db
    ensures db.Valid()
    ensures db.Snapshot() == ReplaceChoices(old(db.Snapshot()), q, cs)
  {
    db.DeleteChoices(ChoicesOf(db.choices, q));
    CreateChoices(db, q, cs);
  }

  /** `create_question`: the question row, then one choice per payload
      choice. */
  method CreateQuestion(db: Database, payload: QuestionCreate, now: Time) returns (q: QuestionId)
    requires db.Valid()
    modifies db
    ensures db.Valid()
    ensures q == old(db.next.question)
    ensures db.Snapshot() == AddChoices(
      old(db.Snapshot()).(questions := old(db.questions)[q := Question(payload.text, now)],
                          next := old(db.next).(question := q + 1)),
      q, payload.choices)
  {
    q := db.CreateQuestion(Question(payload.text, now));
    CreateChoices(db, q, payload.choices);
  }

  // ---------------------------------------------------------------------------
  // Exam links

  /** `set(payload.exam_ids)`. */
  function IdSet(ids: seq<ExamId>): (s: set<ExamId>)
    ensures forall x :: x in s <==> x in ids
  {
    set x | x in ids
  }

  /** `ModelExam.objects.filter(id__in=ids)`, as a set of keys. */
  function FoundExams(ids: seq<ExamId>, exams: map<ExamId, Exam>): (s: set<ExamId>)
    ensures forall x :: x in s <==> x in ids && x in exams
    ensures s <= IdSet(ids)
  {
    set x | x in ids && x in exams
  }

  /** The detail of the 404 naming the exam ids not found, in the order
      `list()` gives them. */
  function MissingExamsDetail(missing: set<ExamId>, listing: Listing): string {
    "Exames com os IDs " + IdListRepr(listing(missing)) + " não foram encontrados."
  }

  /** Django's `question.exams.set(es)` (and `clear()` for no exams): the
      question's exams become exactly `es`, other questions' links stay. */
  function Relink(links: set<Link>, q: QuestionId, es: set<ExamId>): (r: set<Link>)
    ensures ExamsOf(r, q) == es
    ensures forall l: Link :: l.question != q ==> (l in r <==> l in links)
  {
    (set l | l in links && l.question != q) + LinksTo(q, es)
  }

  /** A link set is fixed by one question's exams and the other questions'
      links. */
  lemma SameLinks(a: set<Link>, b: set<Link>, q: QuestionId)
    requires ExamsOf(a, q) == ExamsOf(b, q)
    requires forall l: Link :: l.question != q ==> (l in a <==> l in b)
    ensures a == b
  {
    forall l | l in a ensures l in b {
      if l.question == q {
        assert l.exam in ExamsOf(a, q);
      }
    }
    forall l | l in b ensures l in a {
      if l.question == q {
        assert l.exam in ExamsOf(b, q);
      }
    }
  }

  /** `question.exams.add(*es)` adds exactly `es` to the question's exams and
      `remove(*es)` takes exactly `es` away; no other question's links
      change. */
  lemma LinksToChanges(links: set<Link>, q: QuestionId, es: set<ExamId>)
    ensures ExamsOf(links + LinksTo(q, es), q) == ExamsOf(links, q) + es
    ensures ExamsOf(links - LinksTo(q, es), q) == ExamsOf(links, q) - es
    ensures forall l: Link :: l.question != q ==> (l in links + LinksTo(q, es) <==> l in links)
    ensures forall l: Link :: l.question != q ==> (l in links - LinksTo(q, es) <==> l in links)
  {
  }

  /** Adding the missing exams and then removing the unwanted ones is
      `set()`. */
  lemma {:induction false} AddThenRemoveIsRelink(links: set<Link>, q: QuestionId, requested: set<ExamId>)
    ensures var current := ExamsOf(links, q);
      var toAdd := requested - current;
      var toRemove := current - requested;
      var added := if toAdd != {} then links + LinksTo(q, toAdd) else links;
      (if toRemove != {} then added - LinksTo(q, toRemove) else added) == Relink(links, q, requested)
  {
    var current := ExamsOf(links, q);
    var toAdd := requested - current;
    var toRemove := current - requested;
    LinksToChanges(links, q, toAdd);
    var added := if toAdd != {} then links + LinksTo(q, toAdd) else links;
    assert ExamsOf(added, q) == current + toAdd;
    LinksToChanges(added, q, toRemove);
    var result := if toRemove != {} then added - LinksTo(q, toRemove) else added;
    assert ExamsOf(result, q) == requested;
    SameLinks(result, Relink(links, q, requested), q);
  }

  /** The guard of `partial_update_question` fails exactly when a requested
      exam that is not yet linked does not exist: the found exams then fall
      short, and the missing one stays in the reported set. */
  lemma ExamCheck(requested: set<ExamId>, current: set<ExamId>, exams: set<ExamId>)
    ensures var toAdd := requested - current; var found := toAdd * exams;
      (toAdd != {} && |found| != |toAdd| && requested - found != {}) <==> !(toAdd <= exams)
  {
    var toAdd := requested - current;
    var found := toAdd * exams;
    SubsetSize(found, toAdd);
    if !(toAdd <= exams) {
      var x :| x in toAdd && x !in exams;
      assert x in requested - found;
    }
  }

  /** The `exam_ids` branch of `partial_update_question`: add the requested
      exams not yet linked (all of them must exist), then drop the linked
      exams no longer requested. The 404 on a missing exam lists every
      requested id outside the found ones, which includes ids that are
      already linked. */
  function ReconcileLinks(t: Tables, q: QuestionId, ids: seq<ExamId>, listing: Listing): (r: Result<set<Link>>)
    requires LinksRefer(t.questions, t.exams, t.links)
    ensures r.Err? <==> !(IdSet(ids) - ExamsOf(t.links, q) <= t.exams.Keys)
    ensures r.Err? ==>
      r.failure == HttpError(404, MissingExamsDetail(IdSet(ids) - (IdSet(ids) - ExamsOf(t.links, q)) * t.exams.Keys, listing))
    ensures r.Ok? ==> IdSet(ids) <= t.exams.Keys && r.value == Relink(t.links, q, IdSet(ids))
  {
    var current := ExamsOf(t.links, q);
    var requested := IdSet(ids);
    var toAdd := requested - current;
    var found := toAdd * t.exams.Keys;
    ExamCheck(requested, current, t.exams.Keys);
    if toAdd != {} && |found| != |toAdd| && requested - found != {} then
      Err(HttpError(404, MissingExamsDetail(requested - found, listing)))
    else
      ReconciledIsRelink(t.links, q, requested, t.exams.Keys);
      var added := if toAdd != {} then t.links + LinksTo(q, found) else t.links;
      var toRemove := current - requested;
      Ok(if toRemove != {} then added - LinksTo(q, toRemove * t.exams.Keys) else added)
  }

  /** When every exam to add exists, the filtered additions and removals of
      `partial_update_question` are `Relink` to the requested exams. */
  lemma ReconciledIsRelink(links: set<Link>, q: QuestionId, requested: set<ExamId>, exams: set<ExamId>)
    requires forall l :: l in links ==> l.exam in exams
    requires requested - ExamsOf(links, q) <= exams
    ensures requested <= exams
    ensures var current := ExamsOf(links, q);
      var toAdd := requested - current;
      var toRemove := current - requested;
      var added := if toAdd != {} then links + LinksTo(q, toAdd * exams) else links;
      (if toRemove != {} then added - LinksTo(q, toRemove * exams) else added) == Relink(links, q, requested)
  {
    var current := ExamsOf(links, q);
    var toAdd := requested - current;
    assert toAdd * exams == toAdd;
    assert (current - requested) * exams == current - requested;
    AddThenRemoveIsRelink(links, q, requested);
  }

  /** The `exam_ids` branch of `update_question`: `clear()` for null,
      otherwise `set()` once as many exams were found as ids were given. */
  function SetLinks(t: Tables, q: QuestionId, examIds: Option<seq<ExamId>>, listing: Listing): (r: Result<set<Link>>)
    ensures examIds.None? ==> r == Ok(Relink(t.links, q, {}))
    ensures examIds.Some? ==> (r.Err? <==> |FoundExams(examIds.value, t.exams)| != |examIds.value|)
    ensures examIds.Some? && r.Err? ==>
      r.failure == HttpError(404, MissingExamsDetail(IdSet(examIds.value) - FoundExams(examIds.value, t.exams), listing))
    ensures examIds.Some? && r.Ok? ==> IdSet(examIds.value) <= t.exams.Keys && r.value == Relink(t.links, q, IdSet(examIds.value))
  {
    if examIds.None? then Ok(Relink(t.links, q, {}))
    else
      var ids := examIds.value;
      var found := FoundExams(ids, t.exams);
      if |found| != |ids| then Err(HttpError(404, MissingExamsDetail(IdSet(ids) - found, listing)))
      else
        UniqueIdsFound(ids, found);
        Ok(Relink(t.links, q, found))
  }

  /** When as many exams were found as ids were given, every id was found:
      the found set never holds more than the list's distinct ids. */
  lemma UniqueIdsFound(ids: seq<ExamId>, found: set<ExamId>)
    requires found <= IdSet(ids)
    requires |found| == |ids|
    ensures found == IdSet(ids)
  {
    DistinctCount(ids);
    SubsetSize(found, IdSet(ids));
  }

  /** A list has at least as many entries as distinct values. */
  lemma {:induction false} DistinctCount(ids: seq<ExamId>)
    ensures |IdSet(ids)| <= |ids|
  {
    if ids != [] {
      DistinctCount(ids[1..]);
      assert ids == [ids[0]] + ids[1..];
      assert IdSet(ids) == {ids[0]} + IdSet(ids[1..]);
    }
  }

  /** A list naming an exam twice is refused by `update_question` even when
      every exam exists, and the 404 then lists no id. */
  lemma DuplicateIdsRefused(t: Tables, q: QuestionId, ids: seq<ExamId>, listing: Listing)
    requires ListsEachOnce(listing)
    requires IdSet(ids) <= t.exams.Keys && |IdSet(ids)| < |ids|
    ensures SetLinks(t, q, Some(ids), listing) == Err(HttpError(404, "Exames com os IDs [] não foram encontrados."))
  {
    var found := FoundExams(ids, t.exams);
    assert found == IdSet(ids);
    assert IdSet(ids) - found == {};
    NoMissingExamsDetail(listing);
  }

  /** With no id missing, the detail names the empty list. */
  lemma NoMissingExamsDetail(listing: Listing)
    requires ListsEachOnce(listing)
    ensures MissingExamsDetail({}, listing) == "Exames com os IDs [] não foram encontrados."
  {
    assert IsListing(listing({}), {});
    assert JoinIds([]) == "";
  }

  /** For a list of existing, distinct exams both update handlers leave the
      question linked to exactly those exams. */
  lemma ExamLinkUpdatesAgree(t: Tables, q: QuestionId, ids: seq<ExamId>, listing: Listing)
    requires LinksRefer(t.questions, t.exams, t.links)
    requires IdSet(ids) <= t.exams.Keys && |IdSet(ids)| == |ids|
    ensures ReconcileLinks(t, q, ids, listing).Ok? && SetLinks(t, q, Some(ids), listing).Ok?
    ensures ReconcileLinks(t, q, ids, listing) == SetLinks(t, q, Some(ids), listing)
  {
    assert FoundExams(ids, t.exams) == IdSet(ids);
  }

  /** A relinked question still names existing exams. */
  lemma RelinkRefers(t: Tables, q: QuestionId, es: set<ExamId>)
    requires ValidTables(t) && q in t.questions && es <= t.exams.Keys
    ensures ValidTables(t.(links := Relink(t.links, q, es)))
  {
    var r := t.(links := Relink(t.links, q, es));
    assert LinksRefer(r.questions, r.exams, r.links);
  }

  /** The step of `partial_update_question` that reconciles the links. */
  method ReconcileExamLinks(db: Database, q: QuestionId, ids: seq<ExamId>, listing: Listing) returns (err: Option<Failure>)
    requires db.Valid() && q in db.questions
    modifies db
    ensures db.Valid()
    ensures var s := ReconcileLinks(old(db.Snapshot()), q, ids, listing);
      && (s.Err? ==> err == Some(s.failure) && db.Snapshot() == old(db.Snapshot()))
      && (s.Ok? ==> err.None? && db.Snapshot() == old(db.Snapshot()).(links := s.value))
  {
    ghost var t0 := db.Snapshot();
    ExamCheck(IdSet(ids), ExamsOf(db.links, q), db.exams.Keys);
    AddThenRemoveIsRelink(db.links, q, IdSet(ids));
    var current := ExamsOf(db.links, q);
    var requested := IdSet(ids);
    var toAdd := requested - current;
    if toAdd != {} {
      var found := toAdd * db.exams.Keys;
      if |found| != |toAdd| {
        var missing := requested - found;
        if missing != {} {
          return Some(HttpError(404, MissingExamsDetail(missing, listing)));
        }
      }
      db.AddLinks(q, found);
    }
    var toRemove := current - requested;
    if toRemove != {} {
      db.RemoveLinks(q, toRemove * db.exams.Keys);
    }
    err := None;
  }

  /** The step of `update_question` that sets the links. */
  method SetExamLinks(db: Database, q: QuestionId, examIds: Option<seq<ExamId>>, listing: Listing) returns (err: Option<Failure>)
    requires db.Valid() && q in db.questions
    modifies db
    ensures db.Valid()
    ensures var s := SetLinks(old(db.Snapshot()), q, examIds, listing);
      && (s.Err? ==> err == Some(s.failure) && db.Snapshot() == old(db.Snapshot()))
      && (s.Ok? ==> err.None? && db.Snapshot() == old(db.Snapshot()).(links := s.value))
  {
    ghost var t0 := db.Snapshot();
    if examIds.None? {
      SameLinks(db.links - LinksTo(q, ExamsOf(db.links, q)), Relink(db.links, q, {}), q);
      db.RemoveLinks(q, ExamsOf(db.links, q));
      return None;
    }
    var ids := examIds.value;
    var found := FoundExams(ids, db.exams);
    if |found| != |ids| {
      return Some(HttpError(404, MissingExamsDetail(IdSet(ids) - found, listing)));
    }
    UniqueIdsFound(ids, found);
    var cleared := db.links - LinksTo(q, ExamsOf(db.links, q));
    SameLinks(cleared + LinksTo(q, found), Relink(t0.links, q, found), q);
    db.RemoveLinks(q, ExamsOf(db.links, q));
    db.AddLinks(q, found);
    err := None;
  }

  // ---------------------------------------------------------------------------
  // The update handlers

  /** The text `partial_update_question` keeps: a non-empty payload text
      replaces the stored one. */
  function PatchedText(current: string, text: Option<string>): (r: string)
    ensures text.Some? && text.value != "" ==> r == text.value
    ensures text.None? || text.value == "" ==> r == current
  {
    if text.Some? && text.value != "" then text.value else current
  }

  /** Saving a question keeps the store consistent. */
  lemma SaveQuestionValid(t: Tables, q: QuestionId, question: Question)
    requires ValidTables(t) && q in t.questions
    ensures ValidTables(t.(questions := t.questions[q := question]))
  {
    var r := t.(questions := t.questions[q := question]);
    assert LinksRefer(r.questions, r.exams, r.links);
    assert ChoicesRefer(r.questions, r.choices);
    assert AnswersRefer(r.participations, r.questions, r.choices, r.answers);
  }

  /** What `partial_update_question` makes of the store: nothing for an
      unknown question or a missing exam; otherwise the links become the
      requested exams (when given), the choices are replaced (when given),
      and a non-empty text replaces the stored one. */
  function PartialUpdated(t: Tables, q: QuestionId, payload: QuestionUpdate, listing: Listing): (r: Result<Tables>)
    requires ValidTables(t)
    ensures q !in t.questions ==> r == Err(HttpError(404, NOT_FOUND))
    ensures q in t.questions && payload.examIds.Some? ==>
      (r.Err? <==> !(IdSet(payload.examIds.value) - ExamsOf(t.links, q) <= t.exams.Keys))
    ensures q in t.questions && payload.examIds.None? ==> r.Ok?
    ensures r.Ok? ==> ValidTables(r.value)
    ensures r.Ok? ==> q in t.questions
    ensures r.Ok? && q in t.questions ==>
      r.value.questions == t.questions[q := t.questions[q].(text := PatchedText(t.questions[q].text, payload.text))]
    ensures r.Ok? && payload.examIds.Some? ==> r.value.links == Relink(t.links, q, IdSet(payload.examIds.value))
    ensures r.Ok? && payload.examIds.None? ==> r.value.links == t.links
    ensures r.Ok? && payload.choices.Some? ==>
      r.value == ReplaceChoices(t.(links := r.value.links), q, payload.choices.value).(questions := r.value.questions)
    ensures r.Ok? && payload.choices.None? ==> r.value == t.(links := r.value.links, questions := r.value.questions)
  {
    if q !in t.questions then Err(HttpError(404, NOT_FOUND))
    else
      var links := if payload.examIds.Some? then ReconcileLinks(t, q, payload.examIds.value, listing) else Ok(t.links);
      if links.Err? then Err(links.failure)
      else
        var t1 := t.(links := links.value);
        var t2 := if payload.choices.Some? then ReplaceChoices(t1, q, payload.choices.value) else t1;
        PartialUpdatedValid(t, q, payload, links.value, listing);
        Ok(t2.(questions := t2.questions[q := t.questions[q].(text := PatchedText(t.questions[q].text, payload.text))]))
  }

  lemma PartialUpdatedValid(t: Tables, q: QuestionId, payload: QuestionUpdate, links: set<Link>, listing: Listing)
    requires ValidTables(t) && q in t.questions
    requires payload.examIds.Some? ==> Ok(links) == ReconcileLinks(t, q, payload.examIds.value, listing)
    requires payload.examIds.None? ==> links == t.links
    ensures var t1 := t.(links := links);
      var t2 := if payload.choices.Some? then ReplaceChoices(t1, q, payload.choices.value) else t1;
      ValidTables(t2.(questions := t2.questions[q := t.questions[q].(text := PatchedText(t.questions[q].text, payload.text))]))
  {
    if payload.examIds.Some? {
      RelinkRefers(t, q, IdSet(payload.examIds.value));
    }
    var t1 := t.(links := links);
    assert ValidTables(t1) && q in t1.questions;
    var question := t.questions[q].(text := PatchedText(t.questions[q].text, payload.text));
    if payload.choices.Some? {
      SaveQuestionValid(ReplaceChoices(t1, q, payload.choices.value), q, question);
    } else {
      SaveQuestionValid(t1, q, question);
    }
  }

  /** `partial_update_question`: the steps run in the order of the source;
      a failing exam check raises before any link changes. */
  method PartialUpdateQuestion(db: Database, q: QuestionId, payload: QuestionUpdate, listing: Listing) returns (r: Result<Question>)
    requires db.Valid()
    modifies db
    ensures db.Valid()
    ensures var s := PartialUpdated(old(db.Snapshot()), q, payload, listing);
      && (s.Err? ==> r == Err(s.failure) && db.Snapshot() == old(db.Snapshot()))
      && (s.Ok? ==> r.Ok? && db.Snapshot() == s.value && r.value == db.questions[q])
  {
    if q !in db.questions {
      return Err(HttpError(404, NOT_FOUND));
    }
    var question := db.questions[q];
    var text := PatchedText(question.text, payload.text);
    if payload.examIds.Some? {
      var err := ReconcileExamLinks(db, q, payload.examIds.value, listing);
      if err.Some? {
        return Err(err.value);
      }
    }
    if payload.choices.Some? {
      ReplaceQuestionChoices(db, q, payload.choices.value);
    }
    db.SaveQuestion(q, question.(text := text));
    r := Ok(question.(text := text));
  }

  /** What `update_question` makes of the store: the text is required, the
      link set becomes exactly the requested exams (none when `exam_ids` is
      null), and the choices are always deleted and recreated from the
      payload (none when `choices` is null). */
  function Updated(t: Tables, q: QuestionId, payload: QuestionUpdate, listing: Listing): (r: Result<Tables>)
    requires ValidTables(t)
    ensures q !in t.questions ==> r == Err(HttpError(404, NOT_FOUND))
    ensures q in t.questions && payload.text.None? ==>
      r == Err(HttpError(422, "O campo 'texto' é necessário para atualização completa"))
    ensures q in t.questions && payload.text.Some? && payload.examIds.Some? ==>
      (r.Err? <==> |FoundExams(payload.examIds.value, t.exams)| != |payload.examIds.value|)
    ensures q in t.questions && payload.text.Some? && payload.examIds.None? ==> r.Ok?
    ensures r.Ok? ==> ValidTables(r.value)
    ensures r.Ok? ==> q in t.questions && payload.text.Some?
    ensures r.Ok? ==> r.value.questions == t.questions[q := t.questions[q].(text := payload.text.value)]
    ensures r.Ok? ==> r.value.links == Relink(t.links, q, if payload.examIds.Some? then IdSet(payload.examIds.value) else {})
    ensures r.Ok? ==>
      r.value == ReplaceChoices(t.(links := r.value.links), q, payload.choices.GetOr([])).(questions := r.value.questions)
  {
    if q !in t.questions then Err(HttpError(404, NOT_FOUND))
    else if payload.text.None? then Err(HttpError(422, "O campo 'texto' é necessário para atualização completa"))
    else
      var links := SetLinks(t, q, payload.examIds, listing);
      if links.Err? then Err(links.failure)
      else
        var t1 := t.(links := links.value);
        var t2 := ReplaceChoices(t1, q, payload.choices.GetOr([]));
        UpdatedValid(t, q, payload, links.value, listing);
        Ok(t2.(questions := t2.questions[q := t.questions[q].(text := payload.text.value)]))
  }

  lemma UpdatedValid(t: Tables, q: QuestionId, payload: QuestionUpdate, links: set<Link>, listing: Listing)
    requires ValidTables(t) && q in t.questions && payload.text.Some?
    requires Ok(links) == SetLinks(t, q, payload.examIds, listing)
    ensures var t2 := ReplaceChoices(t.(links := links), q, payload.choices.GetOr([]));
      ValidTables(t2.(questions := t2.questions[q := t.questions[q].(text := payload.text.value)]))
  {
    RelinkRefers(t, q, if payload.examIds.Some? then IdSet(payload.examIds.value) else {});
    var t2 := ReplaceChoices(t.(links := links), q, payload.choices.GetOr([]));
    SaveQuestionValid(t2, q, t.questions[q].(text := payload.text.value));
  }

  /** `update_question`: as `Updated`, step by step. Both branches on
      `choices` delete the question's choices; the creation loop then runs
      over the payload's choices, or over none. */
  method UpdateQuestion(db: Database, q: QuestionId, payload: QuestionUpdate, listing: Listing) returns (r: Result<Question>)
    requires db.Valid()
    modifies db
    ensures db.Valid()
    ensures var s := Updated(old(db.Snapshot()), q, payload, listing);
      && (s.Err? ==> r == Err(s.failure) && db.Snapshot() == old(db.Snapshot()))
      && (s.Ok? ==> r.Ok? && db.Snapshot() == s.value && r.value == db.questions[q])
  {
    if q !in db.questions {
      return Err(HttpError(404, NOT_FOUND));
    }
    if payload.text.None? {
      return Err(HttpError(422, "O campo 'texto' é necessário para atualização completa"));
    }
    var question := db.questions[q].(text := payload.text.value);
    var err := SetExamLinks(db, q, payload.examIds, listing);
    if err.Some? {
      return Err(err.value);
    }
    ReplaceQuestionChoices(db, q, payload.choices.GetOr([]));
    db.SaveQuestion(q, question);
    r := Ok(question);
  }

  // ---------------------------------------------------------------------------
  // Linking one exam

  /** Adding one link adds exactly that exam to the question's exams, and
      removing it removes exactly that exam; no other question's links
      change. */
  lemma LinkChangesOneExam(links: set<Link>, q: QuestionId, e: ExamId)
    ensures ExamsOf(links + {Link(q, e)}, q) == ExamsOf(links, q) + {e}
    ensures ExamsOf(links - {Link(q, e)}, q) == ExamsOf(links, q) - {e}
    ensures forall l: Link :: l.question != q ==> (l in links + {Link(q, e)} <==> l in links)
    ensures forall l: Link :: l.question != q ==> (l in links - {Link(q, e)} <==> l in links)
  {
    assert LinksTo(q, {e}) == {Link(q, e)};
    LinksToChanges(links, q, {e});
  }

  /** `link_question_to_exam`: adding an existing link changes nothing. */
  method LinkQuestionToExam(db: Database, q: QuestionId, e: ExamId) returns (r: Result<Question>)
    requires db.Valid()
    modifies db
    ensures db.Valid()
    ensures (q !in old(db.questions) || e !in old(db.exams)) ==>
      r == Err(HttpError(404, NOT_FOUND)) && db.Snapshot() == old(db.Snapshot())
    ensures q in old(db.questions) && e in old(db.exams) ==>
      r == Ok(old(db.questions)[q]) && db.Snapshot() == old(db.Snapshot()).(links := old(db.links) + {Link(q, e)})
  {
    if q !in db.questions || e !in db.exams {
      return Err(HttpError(404, NOT_FOUND));
    }
    db.AddLinks(q, {e});
    assert LinksTo(q, {e}) == {Link(q, e)};
    db.SaveQuestion(q, db.questions[q]);
    r := Ok(db.questions[q]);
  }

  /** `unlink_question_from_exam`: removing an absent link changes nothing. */
  method UnlinkQuestionFromExam(db: Database, q: QuestionId, e: ExamId) returns (r: Result<Question>)
    requires db.Valid()
    modifies db
    ensures db.Valid()
    ensures (q !in old(db.questions) || e !in old(db.exams)) ==>
      r == Err(HttpError(404, NOT_FOUND)) && db.Snapshot() == old(db.Snapshot())
    ensures q in old(db.questions) && e in old(db.exams) ==>
      r == Ok(old(db.questions)[q]) && db.Snapshot() == old(db.Snapshot()).(links := old(db.links) - {Link(q, e)})
  {
    if q !in db.questions || e !in db.exams {
      return Err(HttpError(404, NOT_FOUND));
    }
    db.RemoveLinks(q, {e});
    assert LinksTo(q, {e}) == {Link(q, e)};
    db.SaveQuestion(q, db.questions[q]);
    r := Ok(db.questions[q]);
  }
}
