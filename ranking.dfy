/** api/routers/ranking.py: the ranking of one exam, read from the ranking
    table, ordered by position and projected onto `RankingSchema`. */
module RankingRouter {
  import opened Common
  import opened Models
  import opened Store
  import opened Ordering
  import opened Utils

  /** `RankingSchema`. */
  datatype RankingView = RankingView(
    id: RankingId, examId: ExamId, participantId: UserId,
    participantUsername: string, score: real, position: nat)

  const NO_RANKING := HttpError(404, "Ranking não encontrado")

  /** The schema record of ranking row `k`; the participant's username comes
      from the users table. */
  function ViewOf(t: Tables, k: RankingId): (v: RankingView)
    requires k in t.rankings && t.rankings[k].participant in t.users
  {
    var row := t.rankings[k];
    RankingView(k, row.exam, row.participant, t.users[row.participant].username, row.score, row.position)
  }

  /** The keys of the exam's ranking rows. */
  function ExamRankingIds(t: Tables, examId: ExamId): set<RankingId> {
    set k | k in t.rankings && t.rankings[k].exam == examId
  }

  /** `ModelRanking.objects.filter(exam=exam)`. */
  function ExamRankings(t: Tables, examId: ExamId): seq<Entry<Ranking>> {
    Filter(Rows(t.rankings, t.next.ranking), (e: Entry<Ranking>) => e.row.exam == examId)
  }

  /** The filter lists exactly the exam's ranking rows, once each. */
  lemma ExamRankingsSpec(t: Tables, examId: ExamId)
    requires KeysBelow(t.rankings, t.next.ranking)
    ensures forall e :: e in ExamRankings(t, examId) ==> e.id in t.rankings && e.row == t.rankings[e.id] && e.row.exam == examId
    ensures forall k :: k in ExamRankingIds(t, examId) ==> Entry(k, t.rankings[k]) in ExamRankings(t, examId)
    ensures |ExamRankings(t, examId)| == |ExamRankingIds(t, examId)|
  {
    var p := (e: Entry<Ranking>) => e.row.exam == examId;
    FilterRows(t.rankings, t.next.ranking, p);
    assert (set k | k in t.rankings && p(Entry(k, t.rankings[k]))) == ExamRankingIds(t, examId);
  }

  /** `order_by("position")`. */
  function ByPosition(e: Entry<Ranking>): real {
    e.row.position as real
  }

  /** The list comprehension building one schema record per row. */
  function Project(t: Tables, rows: seq<Entry<Ranking>>): (out: seq<RankingView>)
    requires forall e :: e in rows ==> e.id in t.rankings && t.rankings[e.id].participant in t.users
    ensures |out| == |rows|
    ensures forall i :: 0 <= i < |rows| ==> out[i] == ViewOf(t, rows[i].id)
  {
    if rows == [] then [] else [ViewOf(t, rows[0].id)] + Project(t, rows[1..])
  }

  /** The records of the exam's ranking rows ordered by position: one per
      row of that exam, each copying its row. */
  function RankingViews(t: Tables, examId: ExamId): (out: seq<RankingView>)
    requires KeysBelow(t.rankings, t.next.ranking) && RankingsRefer(t.users, t.exams, t.rankings)
    ensures |out| == |ExamRankingIds(t, examId)|
    ensures forall i, j :: 0 <= i < j < |out| ==> out[i].position <= out[j].position
    ensures forall v :: v in out ==> v.id in ExamRankingIds(t, examId) && v == ViewOf(t, v.id)
    ensures forall k :: k in ExamRankingIds(t, examId) ==> ViewOf(t, k) in out
  {
    var rows := ExamRankings(t, examId);
    var sorted := SortBy(rows, ByPosition);
    ExamRankingsSpec(t, examId);
    SortByMembers(rows, ByPosition);
    var out := Project(t, sorted);
    GetRankingRows(t, examId, sorted, out);
    out
  }

  /** `get_ranking`: the guards, then 404 for an unknown exam, 404 "Ranking não encontrado"
      when the exam has no ranking rows, and otherwise one record per row of
      that exam, by ascending position, each copying its row. */
  function GetRanking(t: Tables, who: RequestUser, examId: ExamId): (r: Result<seq<RankingView>>)
    requires KeysBelow(t.rankings, t.next.ranking) && RankingsRefer(t.users, t.exams, t.rankings)
    ensures who.Anonymous? ==> r == Err(IsAdmin(who).failure)
    ensures who.Authenticated? && examId !in t.exams ==> r == Err(HttpError(404, NOT_FOUND))
    ensures who.Authenticated? && examId in t.exams && ExamRankingIds(t, examId) == {} ==> r == Err(NO_RANKING)
    ensures r.Ok? <==> who.Authenticated? && examId in t.exams && ExamRankingIds(t, examId) != {}
    ensures r.Ok? ==> |r.value| == |ExamRankingIds(t, examId)|
    ensures r.Ok? ==> forall i, j :: 0 <= i < j < |r.value| ==> r.value[i].position <= r.value[j].position
    ensures r.Ok? ==> forall v :: v in r.value ==> v.id in ExamRankingIds(t, examId) && v == ViewOf(t, v.id)
    ensures r.Ok? ==> forall k :: k in ExamRankingIds(t, examId) ==> ViewOf(t, k) in r.value
  {
    if Guards(who).Some? then Err(Guards(who).value)
    else if examId !in t.exams then Err(HttpError(404, NOT_FOUND))
    else
      var out := RankingViews(t, examId);
      if out == [] then Err(NO_RANKING) else Ok(out)
  }

  /** The projection of the sorted rows has the properties `GetRanking`
      promises. */
  lemma GetRankingRows(t: Tables, examId: ExamId, sorted: seq<Entry<Ranking>>, out: seq<RankingView>)
    requires KeysBelow(t.rankings, t.next.ranking) && RankingsRefer(t.users, t.exams, t.rankings)
    requires (forall e :: e in ExamRankings(t, examId) ==> e.id in t.rankings && e.row == t.rankings[e.id] && e.row.exam == examId)
    requires forall k :: k in ExamRankingIds(t, examId) ==> Entry(k, t.rankings[k]) in ExamRankings(t, examId)
    requires forall x :: x in sorted <==> x in ExamRankings(t, examId)
    requires SortedOn(sorted, ByPosition)
    requires |out| == |sorted|
    requires forall i :: 0 <= i < |sorted| ==> sorted[i].id in t.rankings && out[i] == ViewOf(t, sorted[i].id)
    ensures forall i, j :: 0 <= i < j < |out| ==> out[i].position <= out[j].position
    ensures forall v :: v in out ==> v.id in ExamRankingIds(t, examId) && v == ViewOf(t, v.id)
    ensures forall k :: k in ExamRankingIds(t, examId) ==> ViewOf(t, k) in out
  {
    forall i, j | 0 <= i < j < |out| ensures out[i].position <= out[j].position {
      assert ByPosition(sorted[i]) <= ByPosition(sorted[j]);
      assert sorted[i] in ExamRankings(t, examId) && sorted[j] in ExamRankings(t, examId);
    }
    forall v | v in out ensures v.id in ExamRankingIds(t, examId) && v == ViewOf(t, v.id) {
      var i :| 0 <= i < |out| && out[i] == v;
      assert sorted[i] in ExamRankings(t, examId);
    }
    forall k | k in ExamRankingIds(t, examId) ensures ViewOf(t, k) in out {
      var e := Entry(k, t.rankings[k]);
      assert e in sorted;
      var i :| 0 <= i < |sorted| && sorted[i] == e;
      assert out[i] == ViewOf(t, k);
    }
  }
}
