# Exam backend: a Dafny model

This project models the request handlers of a Django Ninja exam backend.
Administrators create exams, questions and their choices, and link questions
to exams. Users enrol in an exam, answer its questions and finish it. A
background job then writes the score, and a ranking is read back per exam.

The model treats the backend as a state machine over an in-memory relational
store, `Store.Database`. The store keeps one map per table (users, exams,
questions, choices, participations, answers, rankings), the set of
exam–question links, the queue of pending `calculate_score` jobs, and one
auto-increment counter per table. Its invariant `Store.ValidTables` states:

- every key is below its counter;
- every foreign key resolves;
- an answer's choice belongs to the answer's question;
- usernames and emails are unique;
- ranking rows are unique per (exam, participant).

Each handler that writes is a method on the database. It keeps that
invariant, and its contract gives the whole new state as a function of the
old one. Each read-only handler is a function over a snapshot of the tables.
Django's cascading deletes are written out:

- a choice takes its answers with it;
- a participation takes its answers;
- a user takes the exams they created, the participations, answers and
  ranking rows that refer to either, and those exams' question links.

Modules follow the source files:

| module | source |
|---|---|
| `Common` | shared types, results, text helpers |
| `Models` | `api/models.py` rows and `CustomUserManager` validation |
| `Store` | tables, integrity, cascades, ORM primitives |
| `Ordering` | primary-key order, `filter`, `order_by`, slicing |
| `Utils` | `api/utils.py` |
| `Middleware` | `api/middleware.py` |
| `UserManager` | manager methods including the save |
| `ExamRouter` | `api/routers/exam.py` |
| `Tasks` | `api/tasks.py` |
| `QuestionRouter` | `api/routers/question.py` |
| `AnswerRouter` | `api/routers/answer.py` |
| `ChoiceRouter` | `api/routers/choice.py` |
| `ParticipationRouter` | `api/routers/participation.py` |
| `RankingRouter` | `api/routers/ranking.py` |
| `UserRouter` | `api/routers/user.py` |

Where the code and the intended design differ, the model follows the code:

- `partial_update_question` reports missing exam ids by listing the ids the
  payload named minus the ids that were found. An id that was already linked
  is therefore reported as "missing" too.
- `update_question` compares the count of exams found with the length of the
  payload list. A list with a repeated id is refused with 404 and an empty
  id list (`QuestionRouter.DuplicateIdsRefused`).
- `create_participation` in `api/routers/participation.py` has no duplicate
  check, unlike the exam router's handler. A second enrolment makes the exam
  router's `.get()` on the pair raise (`ParticipationRouter.SecondEnrolmentBreaksLookups`).
- The search in `list_participations` spells its lookup
  `user__username_icontains`, with a single underscore. Django rejects it, so
  any non-empty search term raises a `FieldError`.
- The admin guards return a denial that every caller discards. They stop a
  handler only where reading `request.user.profile` raises, which is for the
  anonymous user.

## Model

| member | source | states |
|---|---|---|
| `Models.NewParticipation` | api/models.py:69-74 | a new participation belongs to the given user and exam, has no `finished_at` and scores 0.0 |
| `Models.SetDefault` | api/models.py:12 | a supplied keyword keeps its value; a missing one takes the default |
| `Models.BuildUser` | api/models.py:8-16 | a missing or empty email raises ValueError; otherwise the email is normalised, `is_active` defaults to True, unsupplied flags take the model defaults, and the password is stored only through the hasher |
| `Models.SuperuserFields` | api/models.py:18-21 | is_staff, is_superuser and is_admin default to True; supplied values are kept |
| `Models.BuildSuperuser` | api/models.py:18-28 | an is_staff (checked first) or is_superuser passed as False raises ValueError; otherwise it is `create_user` on the defaulted fields, so the result is staff and superuser |
| `UserManager.CreateUser` | api/models.py:8-16 | a row that fails to build (an empty email) fails with that error and saves nothing; a built row succeeds exactly when its username and email are free, and is then the only row added, under the next key; a clashing one raises the unique-constraint error and saves nothing |
| `UserManager.CreateSuperuser` | api/models.py:18-28 | a refused flag or a failed build fails with that error and saves nothing; a built row succeeds exactly when its username and email are free, and is then the only row added, with the staff and superuser flags set; a clashing one raises the unique-constraint error |
| `Store.DropUser` | api/models.py:59-114 | deleting a user removes the user, the exams they created, and every participation, answer, link and ranking row that refers to a removed row; nothing else changes and the store stays consistent |
| `Store.DropChoices` | api/models.py:104 | deleting choices removes exactly those choices and the answers that chose them |
| `Store.DropParticipations` | api/models.py:102 | deleting participations removes exactly those and their answers |
| `Store.CountedRowsCapped` | api/routers/exam.py:249 | the `.get()` that finds 21 or more rows reports "more than 20" instead of the count, since Django fetches at most 21 rows |
| `Store.MultipleParticipationsMessage` | api/routers/exam.py:267 | the `MultipleObjectsReturned` message is the same for all counts from 21 on and differs between any two counts below 21 |
| `Store.GetParticipation` | api/routers/exam.py:249 | `.get(user, exam)` finds nothing, exactly one row, or several — the last being the `MultipleObjectsReturned` case |
| `Ordering.RowsSpec` | api/routers/participation.py:23 | an unordered queryset lists every row once, with its key, in ascending key order |
| `Ordering.FilterRows` | api/routers/ranking.py:21 | filtering a table keeps exactly the rows satisfying the condition, once each |
| `Ordering.SortBy` | api/utils.py:35 | `order_by` returns a permutation of the rows, sorted on the key |
| `Ordering.Slice` | api/utils.py:38 | slicing raises on a negative bound; otherwise it returns the elements from `start` up to `end`, clipped to the list |
| `ExamRouter.GetExamDetails` | api/routers/exam.py:68-73 | an unknown exam gives 404; otherwise the details are returned exactly when the caller is an admin or enrolled in it, and a refusal is the 403 message |
| `ExamRouter.PatchExam` | api/routers/exam.py:82-83 | a sent name replaces the old one and an unsent one is kept; the creator and creation time never change |
| `ExamRouter.PartialUpdateExam` | api/routers/exam.py:81-86 | an unknown exam gives 404 and changes nothing; otherwise only that exam row becomes the patched one |
| `ExamRouter.CreateParticipation` | api/routers/exam.py:140-155 | an unknown user, an unknown exam or an existing enrolment each refuse with their own status and change nothing; otherwise exactly one unfinished participation is added |
| `ExamRouter.FindEnrolment` | api/routers/exam.py:165-176 | the user, exam and participation checks run in that order, each with its 404 message, and pass exactly when all three hold |
| `ExamRouter.DeleteParticipation` | api/routers/exam.py:165-180 | on a failed check nothing changes; otherwise every participation of the pair and their answers go, and nothing else |
| `ExamRouter.PatchParticipation` | api/routers/exam.py:227-228 | sent fields replace, unsent fields stay; owner, exam and start time never change |
| `ExamRouter.UpdateParticipation` | api/routers/exam.py:212-232 | a failed check changes nothing; several participations of the pair raise `MultipleObjectsReturned` (count below 21, "more than 20" from 21 on) and change nothing; the update succeeds exactly when one participation exists, and only that row changes |
| `ExamRouter.FinishTarget` | api/routers/exam.py:243-255 | an unknown exam and a missing participation give their 404s; several participations of the pair raise `MultipleObjectsReturned`, whose message gives their count below 21 and "more than 20" from 21 on; a finished participation gives 403; success names the caller's only participation, which is unfinished |
| `ExamRouter.FinishExam` | api/routers/exam.py:241-259 | on failure nothing changes and nothing is queued; on success exactly one score job for that participation is queued and no row changes |
| `ExamRouter.CheckProgress` | api/routers/exam.py:265-273 | no participation gives 404; several raise `MultipleObjectsReturned` (count below 21, "more than 20" from 21 on); otherwise the result is `completed` with the score when `finished_at` is set and `in_progress` when it is not |
| `Tasks.Scored` | api/tasks.py:6-10 | scoring sets only the score of that participation, to the fixed value; every other field and row is kept |
| `Tasks.CalculateScore` | api/tasks.py:5-11 | an unknown id raises and changes nothing; otherwise only that participation is rescored and the message is returned |
| `Tasks.ScoredIdempotent` | api/tasks.py:8-10 | running the job twice leaves the same rows as running it once |
| `Tasks.ScoreMessageNamesId` | api/tasks.py:11 | distinct participations give distinct success messages |
| `Tasks.ScoredKeepsEnrolments` | api/tasks.py:9-10 | scoring changes no participation's owner or exam |
| `Tasks.ScoringKeepsProgress` | api/tasks.py:9-10 | scoring keeps `check_progress` in progress or failing as it was; a completed sole attempt now shows the fixed score; and unless the pair's only participation is the scored one, the report is exactly the same as before |
| `Tasks.EnrolmentStartsInProgress` | api/models.py:73-74 | a fresh enrolment is reported `in_progress` |
| `Tasks.FinishThenScoreStaysInProgress` | api/routers/exam.py:254-257 | after a successful finish and its job, progress is still `in_progress`, because neither step sets `finished_at` |
| `QuestionRouter.CreateQuestion` | api/routers/question.py:29-35 | the question row is added under the next key, followed by one choice per payload choice in payload order |
| `QuestionRouter.CreateChoices` | api/routers/question.py:123-128 | the creation loop adds exactly the payload's choices of the question, under consecutive fresh keys |
| `QuestionRouter.NewChoicesInPayloadOrder` | api/routers/question.py:123-128 | listing the created choices by key gives the payload order |
| `QuestionRouter.ReplaceChoices` | api/routers/question.py:120-128 | afterwards the question has exactly the payload's choices under fresh keys; answers that chose a deleted choice go; other questions' choices and all other tables are unchanged |
| `QuestionRouter.ReplaceWithNoChoices` | api/routers/question.py:160-161 | replacing with no choices is deleting the question's choices |
| `QuestionRouter.ReplaceQuestionChoices` | api/routers/question.py:121-128 | the delete-then-create steps produce `ReplaceChoices` |
| `QuestionRouter.Relink` | api/routers/question.py:157 | the question's exams become exactly the given set; other questions' links are unchanged |
| `QuestionRouter.AddThenRemoveIsRelink` | api/routers/question.py:102-118 | adding `new − current`, then removing `current − new`, gives exactly the new set of links |
| `QuestionRouter.ReconcileLinks` | api/routers/question.py:101-118 | the request fails exactly when an id to be added names no exam, with the 404 message listing, in `list()` order of the set, the payload's ids that were not among those found; otherwise the links become the requested set |
| `QuestionRouter.SetLinks` | api/routers/question.py:150-157 | no id list clears the links; otherwise it fails exactly when fewer exams are found than ids were sent, with the 404 message listing the unfound ids in `list()` order of the set, and otherwise the links become the sent set |
| `QuestionRouter.DuplicateIdsRefused` | api/routers/question.py:153-156 | a list with a repeated id is refused with 404 and an empty id list, even when every exam exists, for any `list()` order that names each member of a set once |
| `QuestionRouter.ExamLinkUpdatesAgree` | api/routers/question.py:101-118 | on a list without repeats, the partial and the full link updates agree |
| `QuestionRouter.ReconcileExamLinks` | api/routers/question.py:101-118 | the handler's add-then-remove steps store the links `ReconcileLinks` computes, or fail with its error and change nothing |
| `QuestionRouter.SetExamLinks` | api/routers/question.py:150-157 | the `clear()` or `set()` branch stores the links `SetLinks` computes, or fails with its error and changes nothing |
| `QuestionRouter.PartialUpdated` | api/routers/question.py:97-132 | unknown question gives 404; a non-empty text replaces the old one; the links are reconciled when ids are sent, or else kept; the choices are replaced when sent, or else kept; on success the store stays consistent |
| `QuestionRouter.PartialUpdateQuestion` | api/routers/question.py:88-132 | the handler's steps, in source order, produce `PartialUpdated`; a failure changes nothing |
| `QuestionRouter.Updated` | api/routers/question.py:143-174 | unknown question gives 404; a missing text gives 422; the links become the sent set, or are cleared when none is sent; the choices are always replaced, by none when none are sent |
| `QuestionRouter.UpdateQuestion` | api/routers/question.py:134-174 | the handler's steps produce `Updated`; a failure changes nothing |
| `QuestionRouter.LinkChangesOneExam` | api/routers/question.py:202 | adding or removing one link changes the question's exams by exactly that exam and touches no other question |
| `QuestionRouter.LinkQuestionToExam` | api/routers/question.py:200-205 | an unknown question or exam gives 404 and changes nothing; otherwise exactly that link is added, which is a no-op when it already exists |
| `QuestionRouter.UnlinkQuestionFromExam` | api/routers/question.py:217-222 | an unknown question or exam gives 404 and changes nothing; otherwise exactly that link is removed |
| `AnswerRouter.SubmissionCheck` | api/routers/answer.py:24-31 | the submission passes exactly when the caller owns the participation, the question exists and is linked to the participation's exam, and the choice is one of that question's; each failure has its own 404 or 403 |
| `AnswerRouter.CreateAnswer` | api/routers/answer.py:22-40 | a refused submission changes nothing; otherwise exactly one answer row is added under the next key |
| `AnswerRouter.ResubmissionAccepted` | api/routers/answer.py:34-38 | accepting a submission does not make the same one refused: repeated submissions add rows |
| `AnswerRouter.GetAnswerDetails` | api/routers/answer.py:109-114 | an unknown answer gives 404; another user's answer gives 403; otherwise the stored row is returned |
| `AnswerRouter.UpdatedAnswer` | api/routers/answer.py:49-58 | 404 and 403 as above; a non-zero choice id must name a choice of the answer's question, else 404; participation and question never change |
| `AnswerRouter.UpdateAnswer` | api/routers/answer.py:43-60 | a refusal changes nothing; otherwise only that answer becomes `UpdatedAnswer` |
| `AnswerRouter.DeleteAnswer` | api/routers/answer.py:122-129 | 404 and 403 as above, with nothing changed; otherwise exactly that answer is removed |
| `AnswerRouter.ListAnswers` | api/routers/answer.py:85-93 | a participation the caller does not own gives 404; otherwise the result is exactly the requested page of that participation's answers ordered on the key (a negative slice bound is refused; the model takes answer.py's `order_queryset` and `paginate_queryset` to be the two steps of `paginate_and_order` at api/utils.py, lines 34-38), so it holds only those answers, sorted, and at most `page_size` of them |
| `AnswerRouter.AnswersOfComplete` | api/routers/answer.py:87 | the filter on the participation lists every answer of that participation, and each one once (as many rows as answer ids) |
| `AnswerRouter.ListAnswersComplete` | api/routers/answer.py:85-93 | a first page at least as large as the table holds every answer of the participation |
| `ChoiceRouter.CreateChoice` | api/routers/choice.py:16-41 | the anonymous user fails in the guards and changes nothing; an unknown question gives 404 and changes nothing; otherwise one choice is stored with the payload's text and flag, and the returned data mirrors the stored row |
| `ChoiceRouter.GetChoice` | api/routers/choice.py:44-65 | the anonymous user fails in the guards; an unknown choice gives 404; otherwise the returned data mirrors the row |
| `ChoiceRouter.UpdatedChoice` | api/routers/choice.py:82-85 | text and `is_correct` change only when the payload value is not None; the question never changes |
| `ChoiceRouter.UpdateChoice` | api/routers/choice.py:68-96 | the anonymous user fails in the guards and an unknown choice gives 404, each changing nothing; otherwise only that row becomes `UpdatedChoice` |
| `ChoiceRouter.PatchedChoice` | api/routers/choice.py:113-116 | exactly the sent fields are overwritten; a field sent as null makes the save fail |
| `ChoiceRouter.PartialUpdateChoice` | api/routers/choice.py:99-125 | the anonymous user, an unknown choice or a failed save changes nothing; otherwise only that row becomes the patched one |
| `ChoiceRouter.PatchIsUpdate` | api/routers/choice.py:82-85 | a patch without nulls has the same effect as the full update given the same fields |
| `ChoiceRouter.UpdateIdempotent` | api/routers/choice.py:82-85 | sending the same update twice leaves the row as sending it once |
| `ChoiceRouter.EmptyPatchKeepsChoice` | api/routers/choice.py:113-116 | a patch that sends no field leaves the row unchanged |
| `ChoiceRouter.DeleteChoice` | api/routers/choice.py:128-143 | the anonymous user fails in the guards and an unknown choice gives 404, each changing nothing; otherwise that choice and the answers that chose it go |
| `ChoiceRouter.DeleteChoiceRemovesOnlyIt` | api/routers/choice.py:142 | only that choice and exactly the answers that chose it are removed |
| `ParticipationRouter.CreateParticipation` | api/routers/participation.py:10-19 | an unknown exam is refused (400) and changes nothing; otherwise the anonymous user makes the save raise `ValueError` and nothing changes, and an authenticated one gets one unfinished participation added, whether or not one exists already |
| `ParticipationRouter.SecondEnrolmentBreaksLookups` | api/routers/participation.py:15-18 | two enrolments of the same pair make the exam router's `.get()` on that pair fail |
| `ParticipationRouter.ListParticipations` | api/routers/participation.py:22-40 | an unknown exam id is refused (400) and a search term raises; otherwise the result is page `page` of the requested exam's participations ordered on the key: only such participations, sorted, at most `page_size` of them for page ≥ 1 |
| `ParticipationRouter.ExamParticipationsComplete` | api/routers/participation.py:23-29 | the rows paged are every participation of the requested exam (of all exams when none is given), each once |
| `ParticipationRouter.ListParticipationsComplete` | api/routers/participation.py:23-40 | a first page at least as large as the table holds every participation of the requested exam |
| `ParticipationRouter.OrderByScore` | api/routers/participation.py:36-40 | ordered by score, scores on a page do not decrease |
| `RankingRouter.RankingViews` | api/routers/ranking.py:21-35 | the rows of the exam ordered by position, projected: exactly one record per ranking row of that exam, positions non-decreasing, each record copying its row and the participant's username |
| `RankingRouter.GetRanking` | api/routers/ranking.py:10-35 | the anonymous user fails in the guards; an unknown exam gives 404 and an exam without rows gives "Ranking não encontrado"; otherwise there is one record per ranking row of the exam, by ascending position, each copying its row and the participant's username |
| `Utils.Guards` | api/utils.py:24-32 | calling `is_authenticated` then `is_admin` and dropping their results stops a handler only for the anonymous user, with the exception `is_admin` raises |
| `UserRouter.ListUsers` | api/routers/user.py:29-38 | exactly the users whose username or email contains the term ignoring case (everyone without a term) are listed, once each, ordered on the key |
| `UserRouter.GetUser` | api/routers/user.py:40-49 | an unknown user raises `HttpError(404)` with an `ErrorSchema` as its message; otherwise the user's own columns are returned |
| `UserRouter.Patched` | api/routers/user.py:62-74 | sent fields replace, unsent fields stay; a sent password is stored only through the hasher; each profile flag changes only when it was sent |
| `UserRouter.SetAttrLoop` | api/routers/user.py:62-66 | the loop leaves the user as applying the items one after another, in order, from the first |
| `UserRouter.LoopPatches` | api/routers/user.py:62-66 | the `setattr` loop over the sent items sets exactly the columns `Patched` says and leaves the profile alone |
| `UserRouter.ApplyPatch` | api/routers/user.py:62-104 | both the partial handler's loop-then-flags and the full handler's `get` with a default produce `Patched` |
| `UserRouter.UpdateUser` | api/routers/user.py:51-106 | an unknown user raises `HttpError(404)` with a `{"detail": ...}` dict as its message, and a username or email held by another user makes the save fail, each changing nothing; otherwise only that user becomes `Patched` |
| `UserRouter.PatchIdempotent` | api/routers/user.py:62-74 | sending the same fields twice leaves the user as sending them once |
| `UserRouter.EmptyPatchKeepsUser` | api/routers/user.py:62-74 | a patch that sends no field leaves the user unchanged |
| `UserRouter.DeleteUser` | api/routers/user.py:108-118 | an unknown user raises `HttpError(404)` with an `ErrorSchema` as its message and changes nothing; otherwise the user and the rows that cascade from it go |
| `UserRouter.DeleteRemovesOnlyThatUser` | api/routers/user.py:117 | deleting removes exactly that user from the users table |
| `Utils.IsAuthenticated` | api/utils.py:24-27 | the denial is returned exactly for the anonymous user |
| `Utils.IsAdmin` | api/utils.py:29-32 | the anonymous user has no profile, so reading it raises; otherwise the denial is returned exactly when the profile is not admin |
| `Utils.DecodeJwt` | api/utils.py:16-22 | a decodable token yields its claims; an expired one raises "Token expirado" and any other invalid one "Token inválido" |
| `Utils.PaginateAndOrder` | api/utils.py:34-38 | for page ≥ 1 the page has at most `page_size` rows; it is sorted and drawn from the rows; it fails exactly on a negative slice bound |
| `Utils.PaginationCovers` | api/utils.py:36-38 | pages 1 to k, glued together, are the first k·page_size rows of the ordered list, so pages are disjoint and cover it in order |
| `Utils.WholeFirstPage` | api/utils.py:34-38 | a first page at least as long as the list is the whole ordered list |
| `Middleware.BearerToken` | api/middleware.py:11 | the token is the field after "Bearer " up to the next space |
| `Middleware.BearerTokenIsFirstWord` | api/middleware.py:11 | the token is the longest space-free prefix of what follows "Bearer " |
| `Middleware.GetUserFromToken` | api/middleware.py:6-17 | a missing header or one not starting with "Bearer " yields the anonymous user, as do a failed decode and an unknown `user_id`; otherwise the result is the user the payload names |

## Left out

- Definitions the routers import but the repository does not contain:
  - `api/routers/answer.py` (line 5), `api/routers/exam.py` (line 7) and `api/routers/question.py` (line 11) import `order_queryset`, `paginate_queryset`, `clear_list_*_cache` and `add_*cache_key` from `api.utils`. `api/utils.py` defines none of them, so as written those modules do not import.
  - The model takes `order_queryset` followed by `paginate_queryset` to be `paginate_and_order` (api/utils.py, lines 34-38): order on the key, then slice `[(page - 1) * page_size : (page - 1) * page_size + page_size]`. This is `Utils.PaginateAndOrder`.
  - The model takes the cache helpers to have no effect.
  - `ModelUserProfile` is imported by `api/routers/user.py` (line 4) and `api/signals.py` (line 4) but is not defined in `api/models.py`. The profile inside `Models.User`, `SIGNAL_PROFILE` and `Utils.IsAdmin` take its table from `api/migrations/0001_initial.py`, lines 74-81 (`is_admin` default false, `is_participant` default true, one profile per user).
- Caching (`cache.get`/`cache.set` and the cache-key helpers) is a side store that does not change handler results on a miss. It is not modelled, and a cache hit returning stale data is not captured.
- The list handlers for exams, questions and participants of an exam are not modelled. Nor are `create_exam`, `update_exam`, `delete_exam`, `get_question_details`, `delete_question`, `get_participation_details` or the user router's `create_user`. They are outside the modelled core.
- `order_by` on a field-name string is modelled as sorting on an abstract key function of the row. A descending order is a negated key. Ties keep primary-key order, whereas the database leaves them unspecified.
- Timestamps (`auto_now_add`, `utcnow`) are opaque values passed in by the caller.
- JWT encoding and decoding, password hashing and `normalize_email` are library calls. They are function parameters of the model.
- The Celery queue is the `jobs` sequence. Running a queued job is the separate `Tasks.CalculateScore`, and no scheduler is modelled.
- The `generate_ranking` job is not part of this model. `RankingRouter.GetRanking` reads whatever rows the ranking table holds.
- Scores are `real` and are only stored and compared. Floating-point rounding is not modelled.
- Handlers of the exam, answer and question routers take an authenticated caller (`requires caller in users` where one is read). With an anonymous request those handlers fail inside Django, and that failure is not modelled. The user, choice and ranking routers model it through `Utils.Guards`, and `ParticipationRouter.CreateParticipation` through the failing save.
- ParticipationRouter.CreateParticipation, ParticipationRouter.ListParticipations: the unknown-exam branch of each returns the pair `({"detail": ...}, 400)` with body and status reversed. Both are modelled as the 400 refusal this was evidently meant to be, and the framework's handling of the reversed pair is not captured.
- ParticipationRouter.CreateParticipation: the `ValueError` for the anonymous user carries the field part of Django's message only; the part naming the assigned object is left out.
- `api/schemas.py` does not define the update schemas the routers import (`QuestionUpdateSchema`, `ChoicesUpdateSchema`, `UserUpdateSchema`, `AnswerUpdateSchema`, ...). Payloads are modelled on the fields each handler reads.
- The user router and the middleware (`api/middleware.py`, lines 4 and 15) use `django.contrib.auth.models.User`. The model assumes it names the project's user table.
- UserRouter.GetUser, UserRouter.UpdateUser, UserRouter.DeleteUser: the 404 is raised with an `ErrorSchema` instance or a dict as the `HttpError` message, as `Common.Failure.HttpErrorWith` records. How the framework's error handler turns such a message into a response is not modelled.
- QuestionRouter.ReconcileLinks, QuestionRouter.SetLinks: the order in which `list()` names the members of a set of ids is CPython's hash-table order, which depends on the values, the table size and the insertion history. It is the `listing` parameter of the model, and not computed.
- AnswerRouter.ListAnswers: the `query` search over the question's and the choice's text (`api/routers/answer.py`, lines 87-88) is not modelled; the model lists the participation's answers as with no search term.
- Middleware.GetUserFromToken: a `user_id` claim that is not an integer makes `User.objects.get` raise an uncaught `ValueError`; the claims are modelled as an optional integer, so that case is not captured.
- `Common.ContainsIgnoreCase` folds ASCII letters only, as SQLite's `LIKE` does; other case mappings are not modelled.
- The post-save profile signal is modelled only as the profile `create_user` leaves the row with.
- ChoiceRouter.UpdateChoice: answers keep pointing at an updated choice, and scoring does not read `is_correct`. So correctness changes have no modelled effect beyond the row.
- Concurrency, transactions and database errors other than the unique and non-null constraints are not modelled.
