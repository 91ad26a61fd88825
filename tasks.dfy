/** api/tasks.py: the `calculate_score` job, and how it fits the
    participation lifecycle of the exam router (enrol, finish, score, poll). */
module Tasks {
  import opened Common
  import opened Models
  import opened Store
  import ExamRouter

  /** The fixed score the job writes. */
  const FIXED_SCORE: real := 100.0

  /** The participations after scoring `pid`: its score becomes the fixed
      value and every other field and row stays. */
  function Scored(parts: map<ParticipationId, Participation>, pid: ParticipationId): (r: map<ParticipationId, Participation>)
    requires pid in parts
    ensures r.Keys == parts.Keys
    ensures r[pid].score == FIXED_SCORE
    ensures r[pid] == parts[pid].(score := r[pid].score)
    ensures forall q :: q in parts && q != pid ==> r[q] == parts[q]
  {
    parts[pid := parts[pid].(score := FIXED_SCORE)]
  }

  function ScoreMessage(pid: ParticipationId): string {
    "Score for participation " + NatToString(pid) + " calculated successfully!"
  }

  /** `calculate_score(participation_id)`: `.get()` raises for an unknown
      id; otherwise only the score of that row changes. */
  method CalculateScore(db: Database, pid: ParticipationId) returns (r: Result<string>)
    requires db.Valid()
    modifies db
    ensures db.Valid()
    ensures pid !in old(db.participations) ==>
      && r == Err(Exception("DoesNotExist", "ModelParticipation matching query does not exist."))
      && db.Snapshot() == old(db.Snapshot())
    ensures pid in old(db.participations) ==>
      && r == Ok(ScoreMessage(pid))
      && db.Snapshot() == old(db.Snapshot()).(participations := Scored(old(db.participations), pid))
  {
    if pid !in db.participations {
      return Err(Exception("DoesNotExist", "ModelParticipation matching query does not exist."));
    }
    var p := db.participations[pid];
    db.SaveParticipation(pid, p.(score := FIXED_SCORE));
    r := Ok(ScoreMessage(pid));
  }

  // ---------------------------------------------------------------------------
  // Properties

  /** Running the job twice leaves the same rows as running it once. */
  lemma ScoredIdempotent(parts: map<ParticipationId, Participation>, pid: ParticipationId)
    requires pid in parts
    ensures Scored(Scored(parts, pid), pid) == Scored(parts, pid)
  {
  }

  /** The success message names the participation: distinct ids give
      distinct messages. */
  lemma {:induction false} ScoreMessageNamesId(a: ParticipationId, b: ParticipationId)
    ensures ScoreMessage(a) == ScoreMessage(b) ==> a == b
  {
    if ScoreMessage(a) == ScoreMessage(b) {
      var pre := "Score for participation ";
      var post := " calculated successfully!";
      var sa, sb := NatToString(a), NatToString(b);
      assert |sa| == |sb|;
      assert sa == ScoreMessage(a)[|pre|..|pre| + |sa|];
      assert sb == ScoreMessage(b)[|pre|..|pre| + |sb|];
      NatToStringInjective(a, b);
    }
  }

  /** Scoring changes no participation's owner or exam, so every
      `(user, exam)` filter sees the same rows. */
  lemma {:induction false} ScoredKeepsEnrolments(
    parts: map<ParticipationId, Participation>, pid: ParticipationId, user: UserId, exam: ExamId)
    requires pid in parts
    ensures ParticipationsOf(Scored(parts, pid), user, exam) == ParticipationsOf(parts, user, exam)
  {
    var r := Scored(parts, pid);
    forall p ensures p in ParticipationsOf(r, user, exam) <==> p in ParticipationsOf(parts, user, exam) {
      if p in parts && p != pid {
        assert r[p] == parts[p];
      }
    }
  }

  /** The job does not touch `finished_at`, so `check_progress` keeps its
      status: an attempt in progress stays in progress, a finished one
      reports the fixed score, and unless the pair's only participation is
      the scored one the report does not change at all. */
  lemma {:induction false} ScoringKeepsProgress(
    parts: map<ParticipationId, Participation>, pid: ParticipationId, user: UserId, exam: ExamId)
    requires pid in parts
    ensures var before := ExamRouter.CheckProgress(parts, user, exam);
      var after := ExamRouter.CheckProgress(Scored(parts, pid), user, exam);
      && (before == Ok(ExamRouter.InProgress) <==> after == Ok(ExamRouter.InProgress))
      && (before.Err? <==> after.Err?)
      && (before.Ok? && before.value.Completed? && ParticipationsOf(parts, user, exam) == {pid} ==>
            after == Ok(ExamRouter.Completed(FIXED_SCORE)))
      && (ParticipationsOf(parts, user, exam) != {pid} ==> after == before)
  {
    ScoredKeepsEnrolments(parts, pid, user, exam);
    var r := Scored(parts, pid);
    var g := GetParticipation(parts, user, exam);
    var h := GetParticipation(r, user, exam);
    if g.Unique? {
      assert h.Unique? && h.id == g.id;
      assert r[g.id].finishedAt == parts[g.id].finishedAt;
      if g.id != pid {
        assert r[g.id] == parts[g.id];
      }
    } else if g.Multiple? {
      assert h.Multiple? && h.count == g.count;
    }
  }

  /** A fresh enrolment is reported in progress. */
  lemma {:induction false} EnrolmentStartsInProgress(
    parts: map<ParticipationId, Participation>, pid: ParticipationId, user: UserId, exam: ExamId, now: Time)
    requires pid !in parts && ParticipationsOf(parts, user, exam) == {}
    ensures ExamRouter.CheckProgress(parts[pid := NewParticipation(user, exam, now)], user, exam) == Ok(ExamRouter.InProgress)
  {
    var r := parts[pid := NewParticipation(user, exam, now)];
    forall p ensures p in ParticipationsOf(r, user, exam) <==> p == pid {
      if p != pid && p in r {
        assert p in parts && r[p] == parts[p];
      }
    }
    assert ParticipationsOf(r, user, exam) == {pid};
  }

  /** A successful `finish_exam` followed by the job it queued: the job finds
      its row, and afterwards `check_progress` still reports the attempt in
      progress, since neither step sets `finished_at`. */
  lemma {:induction false} FinishThenScoreStaysInProgress(t: Tables, caller: UserId, examId: ExamId)
    requires ExamRouter.FinishTarget(t, caller, examId).Ok?
    ensures var pid := ExamRouter.FinishTarget(t, caller, examId).value;
      && pid in t.participations
      && ExamRouter.CheckProgress(t.participations, caller, examId) == Ok(ExamRouter.InProgress)
      && ExamRouter.CheckProgress(Scored(t.participations, pid), caller, examId) == Ok(ExamRouter.InProgress)
  {
    var pid := ExamRouter.FinishTarget(t, caller, examId).value;
    assert pid in ParticipationsOf(t.participations, caller, examId);
    ScoringKeepsProgress(t.participations, pid, caller, examId);
  }
}
