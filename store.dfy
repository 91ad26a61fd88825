/** The relational store behind the handlers: one table per model, the
    integrity the schema guarantees (auto-increment keys, foreign keys,
    unique columns), Django's cascading deletes, and the ORM primitives the
    handlers call (create, save, delete, many-to-many add and remove). */
module Store {
  import opened Common
  import opened Models

  /** The next auto-increment key of each table. */
  datatype Counters = Counters(
    user: nat, exam: nat, question: nat, choice: nat,
    participation: nat, answer: nat, ranking: nat)

  /** A value snapshot of the whole store. `jobs` is the queue of pending
      `calculate_score` tasks, each holding the participation id it was
      enqueued with. */
  datatype Tables = Tables(
    users: map<UserId, User>,
    exams: map<ExamId, Exam>,
    questions: map<QuestionId, Question>,
    links: set<Link>,
    choices: map<ChoiceId, Choice>,
    participations: map<ParticipationId, Participation>,
    answers: map<AnswerId, Answer>,
    rankings: map<RankingId, Ranking>,
    jobs: seq<ParticipationId>,
    next: Counters)

  // ---------------------------------------------------------------------------
  // Integrity

  /** The counter starts at 1 and every key is a number it has passed. */
  predicate KeysBelow<T>(m: map<Id, T>, bound: nat) {
    bound >= 1 && forall k :: k in m ==> 0 < k < bound
  }

  /** Storing under a key the counter has passed keeps the keys below it. */
  lemma KeysBelowStore<T>(m: map<Id, T>, bound: nat, k: Id, v: T)
    requires KeysBelow(m, bound) && 0 < k < bound
    ensures KeysBelow(m[k := v], bound)
  {
  }

  predicate FreshIds(t: Tables) {
    && KeysBelow(t.users, t.next.user)
    && KeysBelow(t.exams, t.next.exam)
    && KeysBelow(t.questions, t.next.question)
    && KeysBelow(t.choices, t.next.choice)
    && KeysBelow(t.participations, t.next.participation)
    && KeysBelow(t.answers, t.next.answer)
    && KeysBelow(t.rankings, t.next.ranking)
  }

  predicate ExamsRefer(users: map<UserId, User>, exams: map<ExamId, Exam>) {
    forall e :: e in exams ==> exams[e].createdBy in users
  }

  predicate ParticipationsRefer(
    users: map<UserId, User>, exams: map<ExamId, Exam>,
    parts: map<ParticipationId, Participation>)
  {
    forall p :: p in parts ==> parts[p].user in users && parts[p].exam in exams
  }

  predicate LinksRefer(questions: map<QuestionId, Question>, exams: map<ExamId, Exam>, links: set<Link>) {
    forall l :: l in links ==> l.question in questions && l.exam in exams
  }

  predicate ChoicesRefer(questions: map<QuestionId, Question>, choices: map<ChoiceId, Choice>) {
    forall c :: c in choices ==> choices[c].question in questions
  }

  /** An answer names an existing participation, question and choice, and
      the choice is one of that question's (create_answer and update_answer
      only ever store such a choice). */
  predicate AnswersRefer(
    parts: map<ParticipationId, Participation>, questions: map<QuestionId, Question>,
    choices: map<ChoiceId, Choice>, answers: map<AnswerId, Answer>)
  {
    forall a :: a in answers ==>
      && answers[a].participation in parts
      && answers[a].question in questions
      && answers[a].choice in choices
      && choices[answers[a].choice].question == answers[a].question
  }

  predicate RankingsRefer(users: map<UserId, User>, exams: map<ExamId, Exam>, rankings: map<RankingId, Ranking>) {
    forall r :: r in rankings ==> rankings[r].exam in exams && rankings[r].participant in users
  }

  /** `username` and `email` are unique columns. */
  predicate UniqueLogins(users: map<UserId, User>) {
    forall u, v :: u in users && v in users && u != v ==>
      users[u].username != users[v].username && users[u].email != users[v].email
  }

  /** `unique_together = ("exam", "participant")` on the ranking table. */
  predicate RankingsUnique(rankings: map<RankingId, Ranking>) {
    forall a, b :: a in rankings && b in rankings && a != b ==>
      rankings[a].exam != rankings[b].exam || rankings[a].participant != rankings[b].participant
  }

  predicate ValidTables(t: Tables) {
    && FreshIds(t)
    && ExamsRefer(t.users, t.exams)
    && ParticipationsRefer(t.users, t.exams, t.participations)
    && LinksRefer(t.questions, t.exams, t.links)
    && ChoicesRefer(t.questions, t.choices)
    && AnswersRefer(t.participations, t.questions, t.choices, t.answers)
    && RankingsRefer(t.users, t.exams, t.rankings)
    && UniqueLogins(t.users)
    && RankingsUnique(t.rankings)
  }

  /** `username` and `email` do not clash with any user other than `except`. */
  predicate LoginFree(users: map<UserId, User>, username: string, email: string, except: Id) {
    forall v :: v in users && v != except ==> users[v].username != username && users[v].email != email
  }

  // ---------------------------------------------------------------------------
  // Queries the handlers share

  /** The rows of a table satisfying `keep`, with their keys. */
  function KeepWhere<T>(m: map<Id, T>, keep: T -> bool): (r: map<Id, T>)
    ensures forall k :: k in r <==> k in m && keep(m[k])
    ensures forall k :: k in r ==> r[k] == m[k]
  {
    map k | k in m && keep(m[k]) :: m[k]
  }

  /** `ModelParticipation.objects.filter(user=user, exam=exam)`. */
  function ParticipationsOf(parts: map<ParticipationId, Participation>, user: UserId, exam: ExamId): (s: set<ParticipationId>)
    ensures forall p :: p in s <==> p in parts && parts[p].user == user && parts[p].exam == exam
  {
    set p | p in parts && parts[p].user == user && parts[p].exam == exam
  }

  /** The outcome of a `.get(...)` on a filter. */
  datatype Lookup = Missing | Unique(id: Id) | Multiple(count: nat)

  /** `ModelParticipation.objects.get(user=user, exam=exam)`. */
  function GetParticipation(parts: map<ParticipationId, Participation>, user: UserId, exam: ExamId): (r: Lookup)
    ensures r.Missing? <==> ParticipationsOf(parts, user, exam) == {}
    ensures r.Unique? ==> ParticipationsOf(parts, user, exam) == {r.id}
    ensures r.Multiple? ==> r.count == |ParticipationsOf(parts, user, exam)| && r.count >= 2
  {
    var s := ParticipationsOf(parts, user, exam);
    if s == {} then Missing
    else
      var p :| p in s;
      if s == {p} then Unique(p)
      else
        var q :| q in s && q != p;
        assert s == (s - {p}) + {p};
        assert q in s - {p};
        Multiple(|s|)
  }

  /** Django fetches at most 21 rows for `.get()`. */
  const MAX_GET_RESULTS: nat := 21

  /** How `.get()` reports `count` matching rows: the exact number under the fetch limit, a cap from it on. */
  function CountedRows(count: nat): string {
    if count >= MAX_GET_RESULTS then "more than " + NatToString(MAX_GET_RESULTS - 1) else NatToString(count)
  }

  /** The exception `.get()` raises when the filter matches several rows. */
  function MultipleParticipations(count: nat): Failure {
    Exception("MultipleObjectsReturned",
      "get() returned more than one ModelParticipation -- it returned " + CountedRows(count) + "!")
  }

  /** From the fetch limit on, the count reads "more than 20". */
  lemma CountedRowsCapped(count: nat)
    ensures count >= MAX_GET_RESULTS ==> CountedRows(count) == "more than 20"
  {
    assert NatToString(MAX_GET_RESULTS - 1) == NatToString(2) + [DigitChar(0)] == "20";
  }

  /** Below the fetch limit the message tells counts apart; from it on all
      counts give the same message. */
  lemma MultipleParticipationsMessage(a: nat, b: nat)
    ensures a >= MAX_GET_RESULTS && b >= MAX_GET_RESULTS ==> MultipleParticipations(a) == MultipleParticipations(b)
    ensures a < MAX_GET_RESULTS && b < MAX_GET_RESULTS ==>
      (MultipleParticipations(a) == MultipleParticipations(b) <==> a == b)
  {
    if a < MAX_GET_RESULTS && b < MAX_GET_RESULTS && MultipleParticipations(a) == MultipleParticipations(b) {
      FramedInjective("get() returned more than one ModelParticipation -- it returned ", NatToString(a), NatToString(b), "!");
      NatToStringInjective(a, b);
    }
  }

  /** Text between a fixed prefix and suffix is recovered from the whole. */
  lemma FramedInjective(pre: string, x: string, y: string, post: string)
    requires pre + x + post == pre + y + post
    ensures x == y
  {
    var s := pre + x + post;
    assert x == s[|pre|..|s| - |post|];
    assert y == s[|pre|..|s| - |post|];
  }

  /** The links from question `q` to each of the exams `es`. */
  function LinksTo(q: QuestionId, es: set<ExamId>): (s: set<Link>)
    ensures forall l :: l in s <==> l.question == q && l.exam in es
  {
    set e | e in es :: Link(q, e)
  }

  /** `question.exams`: the exams a question is linked to. */
  function ExamsOf(links: set<Link>, q: QuestionId): (s: set<ExamId>)
    ensures forall e :: e in s <==> Link(q, e) in links
  {
    set l | l in links && l.question == q :: l.exam
  }

  /** `question.choices`: the keys of a question's choices. */
  function ChoicesOf(choices: map<ChoiceId, Choice>, q: QuestionId): (s: set<ChoiceId>)
    ensures forall c :: c in s <==> c in choices && choices[c].question == q
  {
    set c | c in choices && choices[c].question == q
  }

  // ---------------------------------------------------------------------------
  // Cascading deletes (on_delete=CASCADE)

  /** Deleting choices deletes the answers that chose them. */
  function DropChoices(t: Tables, ids: set<ChoiceId>): (r: Tables)
    ensures ValidTables(t) ==> ValidTables(r)
    ensures forall c :: c in r.choices <==> c in t.choices && c !in ids
    ensures forall a :: a in r.answers <==> a in t.answers && t.answers[a].choice !in ids
    ensures r == t.(choices := r.choices, answers := r.answers)
    ensures forall c :: c in r.choices ==> r.choices[c] == t.choices[c]
    ensures forall a :: a in r.answers ==> r.answers[a] == t.answers[a]
  {
    t.(choices := t.choices - ids, answers := KeepWhere(t.answers, (a: Answer) => a.choice !in ids))
  }

  /** Deleting participations deletes their answers. */
  function DropParticipations(t: Tables, ids: set<ParticipationId>): (r: Tables)
    ensures ValidTables(t) ==> ValidTables(r)
    ensures forall p :: p in r.participations <==> p in t.participations && p !in ids
    ensures forall a :: a in r.answers <==> a in t.answers && t.answers[a].participation !in ids
    ensures r == t.(participations := r.participations, answers := r.answers)
    ensures forall p :: p in r.participations ==> r.participations[p] == t.participations[p]
    ensures forall a :: a in r.answers ==> r.answers[a] == t.answers[a]
  {
    t.(participations := t.participations - ids,
       answers := KeepWhere(t.answers, (a: Answer) => a.participation !in ids))
  }

  /** The exams a user created. */
  function CreatedBy(exams: map<ExamId, Exam>, u: UserId): (s: set<ExamId>)
    ensures forall e :: e in s <==> e in exams && exams[e].createdBy == u
  {
    set e | e in exams && exams[e].createdBy == u
  }

  /** The participations a user deletion removes: the user's own, and all
      those in exams the user created. */
  function DoomedParticipations(t: Tables, u: UserId): (s: set<ParticipationId>)
    ensures forall p :: p in s <==>
      p in t.participations && (t.participations[p].user == u || t.participations[p].exam in CreatedBy(t.exams, u))
  {
    var gone := CreatedBy(t.exams, u);
    set p | p in t.participations && (t.participations[p].user == u || t.participations[p].exam in gone)
  }

  /** The tables after deleting user `u`, before any integrity argument. */
  function WithoutUser(t: Tables, u: UserId): Tables {
    var gone := CreatedBy(t.exams, u);
    var doomed := DoomedParticipations(t, u);
    t.(users := t.users - {u},
       exams := t.exams - gone,
       participations := t.participations - doomed,
       answers := KeepWhere(t.answers, (a: Answer) => a.participation !in doomed),
       links := (set l | l in t.links && l.exam !in gone),
       rankings := KeepWhere(t.rankings, (k: Ranking) => k.participant != u && k.exam !in gone))
  }

  /** The cascade leaves no row referring to a deleted one. */
  lemma WithoutUserValid(t: Tables, u: UserId)
    requires ValidTables(t)
    ensures ValidTables(WithoutUser(t, u))
  {
    WithoutUserKeys(t, u);
    WithoutUserExams(t, u);
    WithoutUserLinks(t, u);
    WithoutUserAnswers(t, u);
    WithoutUserRankings(t, u);
  }

  lemma WithoutUserKeys(t: Tables, u: UserId)
    requires ValidTables(t)
    ensures var r := WithoutUser(t, u);
      FreshIds(r) && UniqueLogins(r.users) && ChoicesRefer(r.questions, r.choices)
  {
  }

  lemma WithoutUserLinks(t: Tables, u: UserId)
    requires ValidTables(t)
    ensures var r := WithoutUser(t, u);
      LinksRefer(r.questions, r.exams, r.links)
  {
  }

  lemma WithoutUserExams(t: Tables, u: UserId)
    requires ValidTables(t)
    ensures var r := WithoutUser(t, u);
      ExamsRefer(r.users, r.exams) && ParticipationsRefer(r.users, r.exams, r.participations)
  {
  }

  lemma WithoutUserAnswers(t: Tables, u: UserId)
    requires ValidTables(t)
    ensures var r := WithoutUser(t, u);
      AnswersRefer(r.participations, r.questions, r.choices, r.answers)
  {
  }

  lemma WithoutUserRankings(t: Tables, u: UserId)
    requires ValidTables(t)
    ensures var r := WithoutUser(t, u);
      RankingsRefer(r.users, r.exams, r.rankings) && RankingsUnique(r.rankings)
  {
  }

  /** Deleting a user deletes the exams they created and, through them and
      directly, every participation, answer, question link and ranking row
      that refers to a deleted row. Questions and choices stay. */
  function DropUser(t: Tables, u: UserId): (r: Tables)
    requires ValidTables(t)
    ensures ValidTables(r)
    ensures r.users == t.users - {u}
    ensures forall e :: e in r.exams <==> e in t.exams && t.exams[e].createdBy != u
    ensures forall p :: p in r.participations <==> p in t.participations && p !in DoomedParticipations(t, u)
    ensures forall a :: a in r.answers <==>
      a in t.answers && t.answers[a].participation !in DoomedParticipations(t, u)
    ensures forall l :: l in r.links <==> l in t.links && l.exam !in CreatedBy(t.exams, u)
    ensures forall k :: k in r.rankings <==>
      k in t.rankings && t.rankings[k].participant != u && t.rankings[k].exam !in CreatedBy(t.exams, u)
    ensures r.questions == t.questions && r.choices == t.choices && r.jobs == t.jobs && r.next == t.next
    ensures forall e :: e in r.exams ==> r.exams[e] == t.exams[e]
    ensures forall p :: p in r.participations ==> r.participations[p] == t.participations[p]
    ensures forall a :: a in r.answers ==> r.answers[a] == t.answers[a]
    ensures forall k :: k in r.rankings ==> r.rankings[k] == t.rankings[k]
  {
    WithoutUserValid(t, u);
    WithoutUser(t, u)
  }

  /** Storing a referring answer under any key keeps every answer referring. */
  lemma AnswersStillRefer(
    parts: map<ParticipationId, Participation>, questions: map<QuestionId, Question>,
    choices: map<ChoiceId, Choice>, answers: map<AnswerId, Answer>, id: AnswerId, a: Answer)
    requires AnswersRefer(parts, questions, choices, answers)
    requires a.participation in parts && a.question in questions
    requires a.choice in choices && choices[a.choice].question == a.question
    ensures AnswersRefer(parts, questions, choices, answers[id := a])
  {
    var updated := answers[id := a];
    forall k | k in updated
      ensures updated[k].participation in parts && updated[k].question in questions
      ensures updated[k].choice in choices && choices[updated[k].choice].question == updated[k].question
    {
      if k != id {
        assert updated[k] == answers[k];
      }
    }
  }

  // ---------------------------------------------------------------------------
  // The database and the ORM primitives

  class Database {
    var users: map<UserId, User>
    var exams: map<ExamId, Exam>
    var questions: map<QuestionId, Question>
    var links: set<Link>
    var choices: map<ChoiceId, Choice>
    var participations: map<ParticipationId, Participation>
    var answers: map<AnswerId, Answer>
    var rankings: map<RankingId, Ranking>
    var jobs: seq<ParticipationId>
    var next: Counters

    function Snapshot(): Tables
      reads this
    {
      Tables(users, exams, questions, links, choices, participations, answers, rankings, jobs, next)
    }

    ghost predicate Valid()
      reads this
    {
      ValidTables(Snapshot())
    }

    /** An empty database; every key sequence starts at 1. */
    constructor ()
      ensures Valid()
      ensures Snapshot() == Tables(map[], map[], map[], {}, map[], map[], map[], map[], [], Counters(1, 1, 1, 1, 1, 1, 1))
    {
      users, exams, questions, links := map[], map[], map[], {};
      choices, participations, answers, rankings := map[], map[], map[], map[];
      jobs := [];
      next := Counters(1, 1, 1, 1, 1, 1, 1);
    }

    /** `User.save()` of a new row. */
    method CreateUser(u: User) returns (id: UserId)
      requires Valid()
      requires LoginFree(users, u.username, u.email, 0)
      modifies this
      ensures Valid()
      ensures id == old(next.user)
      ensures Snapshot() == old(Snapshot()).(users := old(users)[id := u], next := old(next).(user := id + 1))
    {
      id := next.user;
      users := users[id := u];
      next := next.(user := id + 1);
    }

    /** `User.save()` of an existing row. */
    method SaveUser(id: UserId, u: User)
      requires Valid()
      requires id in users && LoginFree(users, u.username, u.email, id)
      modifies this
      ensures Valid()
      ensures Snapshot() == old(Snapshot()).(users := old(users)[id := u])
    {
      users := users[id := u];
    }

    /** `user.delete()`, with its cascade. */
    method DeleteUser(id: UserId)
      requires Valid()
      modifies this
      ensures Valid()
      ensures Snapshot() == DropUser(old(Snapshot()), id)
    {
      var r := DropUser(Snapshot(), id);
      users, exams, participations, answers, links, rankings :=
        r.users, r.exams, r.participations, r.answers, r.links, r.rankings;
    }

    /** `exam.save()` of an existing row; the creator never changes. */
    method SaveExam(id: ExamId, e: Exam)
      requires Valid()
      requires id in exams && e.createdBy == exams[id].createdBy
      modifies this
      ensures Valid()
      ensures Snapshot() == old(Snapshot()).(exams := old(exams)[id := e])
    {
      exams := exams[id := e];
    }

    method CreateQuestion(q: Question) returns (id: QuestionId)
      requires Valid()
      modifies this
      ensures Valid()
      ensures id == old(next.question)
      ensures Snapshot() == old(Snapshot()).(questions := old(questions)[id := q], next := old(next).(question := id + 1))
    {
      id := next.question;
      questions := questions[id := q];
      next := next.(question := id + 1);
    }

    method SaveQuestion(id: QuestionId, q: Question)
      requires Valid()
      requires id in questions
      modifies this
      ensures Valid()
      ensures Snapshot() == old(Snapshot()).(questions := old(questions)[id := q])
    {
      questions := questions[id := q];
    }

    /** `question.exams.add(...)`: adding a present link is a no-op. */
    method AddLinks(q: QuestionId, es: set<ExamId>)
      requires Valid()
      requires q in questions && es <= exams.Keys
      modifies this
      ensures Valid()
      ensures Snapshot() == old(Snapshot()).(links := old(links) + LinksTo(q, es))
    {
      links := links + LinksTo(q, es);
    }

    /** `question.exams.remove(...)`: removing an absent link is a no-op. */
    method RemoveLinks(q: QuestionId, es: set<ExamId>)
      requires Valid()
      modifies this
      ensures Valid()
      ensures Snapshot() == old(Snapshot()).(links := old(links) - LinksTo(q, es))
    {
      links := links - LinksTo(q, es);
    }

    method CreateChoice(c: Choice) returns (id: ChoiceId)
      requires Valid()
      requires c.question in questions
      modifies this
      ensures Valid()
      ensures id == old(next.choice)
      ensures Snapshot() == old(Snapshot()).(choices := old(choices)[id := c], next := old(next).(choice := id + 1))
    {
      id := next.choice;
      choices := choices[id := c];
      next := next.(choice := id + 1);
    }

    /** `choice.save()` of an existing row. The question never changes, so
        the answers that chose it stay consistent. */
    method SaveChoice(id: ChoiceId, c: Choice)
      requires Valid()
      requires id in choices && c.question == choices[id].question
      modifies this
      ensures Valid()
      ensures Snapshot() == old(Snapshot()).(choices := old(choices)[id := c])
    {
      choices := choices[id := c];
    }

    /** `.delete()` on a set of choices, with its cascade. */
    method DeleteChoices(ids: set<ChoiceId>)
      requires Valid()
      modifies this
      ensures Valid()
      ensures Snapshot() == DropChoices(old(Snapshot()), ids)
    {
      var r := DropChoices(Snapshot(), ids);
      choices, answers := r.choices, r.answers;
    }

    method CreateParticipation(p: Participation) returns (id: ParticipationId)
      requires Valid()
      requires p.user in users && p.exam in exams
      modifies this
      ensures Valid()
      ensures id == old(next.participation)
      ensures Snapshot() == old(Snapshot()).(participations := old(participations)[id := p],
                                             next := old(next).(participation := id + 1))
    {
      id := next.participation;
      participations := participations[id := p];
      next := next.(participation := id + 1);
    }

    /** `participation.save()`; the user and the exam never change. */
    method SaveParticipation(id: ParticipationId, p: Participation)
      requires Valid()
      requires id in participations
      requires p.user == participations[id].user && p.exam == participations[id].exam
      modifies this
      ensures Valid()
      ensures Snapshot() == old(Snapshot()).(participations := old(participations)[id := p])
    {
      participations := participations[id := p];
    }

    /** `.delete()` on a set of participations, with its cascade. */
    method DeleteParticipations(ids: set<ParticipationId>)
      requires Valid()
      modifies this
      ensures Valid()
      ensures Snapshot() == DropParticipations(old(Snapshot()), ids)
    {
      var r := DropParticipations(Snapshot(), ids);
      participations, answers := r.participations, r.answers;
    }

    method CreateAnswer(a: Answer) returns (id: AnswerId)
      requires Valid()
      requires a.participation in participations && a.question in questions
      requires a.choice in choices && choices[a.choice].question == a.question
      modifies this
      ensures Valid()
      ensures id == old(next.answer)
      ensures Snapshot() == old(Snapshot()).(answers := old(answers)[id := a], next := old(next).(answer := id + 1))
    {
      id := next.answer;
      AnswersStillRefer(participations, questions, choices, answers, id, a);
      KeysBelowStore(answers, id + 1, id, a);
      answers := answers[id := a];
      next := next.(answer := id + 1);
    }

    method SaveAnswer(id: AnswerId, a: Answer)
      requires Valid()
      requires id in answers && a.participation in participations && a.question in questions
      requires a.choice in choices && choices[a.choice].question == a.question
      modifies this
      ensures Valid()
      ensures Snapshot() == old(Snapshot()).(answers := old(answers)[id := a])
    {
      AnswersStillRefer(participations, questions, choices, answers, id, a);
      KeysBelowStore(answers, next.answer, id, a);
      answers := answers[id := a];
    }

    /** `answer.delete()`: nothing refers to an answer. */
    method DeleteAnswer(id: AnswerId)
      requires Valid()
      modifies this
      ensures Valid()
      ensures Snapshot() == old(Snapshot()).(answers := old(answers) - {id})
    {
      answers := answers - {id};
    }

    /** `task.delay(id)`: the job is queued, no row changes. */
    method Enqueue(id: ParticipationId)
      requires Valid()
      modifies this
      ensures Valid()
      ensures Snapshot() == old(Snapshot()).(jobs := old(jobs) + [id])
    {
      jobs := jobs + [id];
    }
  }
}
