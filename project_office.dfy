/**
 * The project office pages (app/routes/project_office.py): the journal of
 * one event over the office's classes, the pivot table of all its events,
 * and the two writes on the office-event association table (which events
 * the office sees, and which of them are important).
 *
 * The joined query rows are inputs; the grouping that follows them is the
 * one-pass loop of the Grouping module, with the per-row updates below.
 */
module ProjectOffice {
  import opened Wrappers
  import opened Text
  import opened Users
  import opened Sorting
  import opened Grouping
  import opened Http

  const Passed: string := "зачет"
  const NotPassed: string := "незачет"
  const InProgress: string := "в процессе"
  const NotStarted: string := "не начато"
  const PupilPrefix: string := "Ученик "

  const EventNotFound: HttpError := HttpError(NotFound, "Мероприятие не найдено")
  const OfficeNotFound: HttpError := HttpError(NotFound, "Проектный офис не найден")
  const NoData: HttpError := HttpError(NotFound, "Нет данных для отображения")

  function Max(a: int, b: int): int {
    if a >= b then a else b
  }

  /** `display_name or f"Ученик {id}"` */
  function PupilName(name: Option<string>, id: int): (r: string)
    ensures r != []
    ensures Truthy(name) ==> r == name.value
    ensures !Truthy(name) ==> r == PupilPrefix + IntToString(id)
  {
    if Truthy(name) then name.value else PupilPrefix + IntToString(id)
  }

  // =====================================================================
  // Journal of one event

  /** One row of the journal query: a pupil, a stage of the event, and at most one achievement. */
  datatype JournalRow = JournalRow(
    studentId: int,
    studentName: Option<string>,
    groupName: string,
    classTeacherNames: Option<string>,
    eventTitle: string,
    dateStart: Option<Time>,
    eventTypeTitle: string,
    minStagesForCompletion: Option<int>,
    stageId: int,
    stageTitle: string,
    minScoreForFinished: Option<int>,
    stageOrder: int,
    possibleResultId: Option<int>,
    possibleResultTitle: Option<string>,
    possibleResultPoints: Option<int>,
    achievedAt: Option<Time>,
    currentScore: int  // coalesce(points_for_done, 0)
  )

  datatype PossibleResult = PossibleResult(id: int, title: Option<string>, points: Option<int>)

  /** What the loop gathers for one stage of one pupil. */
  datatype StageAcc = StageAcc(
    name: string,
    minRequiredScore: int,
    stageId: int,
    currentScore: int,
    resultTitle: Option<string>,
    date: Option<Time>,
    possibleResults: set<PossibleResult>
  )

  datatype StageResult = StageResult(
    name: string,
    status: string,
    date: Option<Time>,
    resultTitle: Option<string>,
    score: int,
    minRequiredScore: int,
    currentScore: int,
    stageId: int,
    possibleResults: set<PossibleResult>
  )

  datatype JournalEntry = JournalEntry(
    id: int,
    studentId: int,
    studentName: string,
    groupName: string,
    classTeacher: Option<string>,
    eventName: string,
    eventType: string,
    date: Time,
    stages: seq<StageResult>,
    totalScore: int,
    minStagesRequired: int,
    completedStagesCount: nat
  )

  function StageKey(row: JournalRow): int { row.stageId }

  /** A new stage entry: title and minimum (NULL read as 0) from the stage's first row. */
  function StageStart(row: JournalRow): StageAcc {
    StageAcc(row.stageTitle, row.minScoreForFinished.GetOr(0), row.stageId, 0, None, None, {})
  }

  /** `if row.possible_result_id:` */
  predicate HasPossibleResult(row: JournalRow) {
    row.possibleResultId.Some? && row.possibleResultId.value != 0
  }

  function PossibleOf(row: JournalRow): PossibleResult
    requires HasPossibleResult(row)
  {
    PossibleResult(row.possibleResultId.value, row.possibleResultTitle, row.possibleResultPoints)
  }

  /**
   * One row of a stage: a positive score raises the stage's score to it if
   * it is higher and, higher or not, sets the result title and date; a
   * possible result is added to the stage's set.
   */
  function StageStep(a: StageAcc, row: JournalRow): StageAcc {
    var scored :=
      if row.currentScore > 0 then
        a.(currentScore := Max(a.currentScore, row.currentScore),
           resultTitle := row.possibleResultTitle,
           date := row.achievedAt)
      else a;
    if HasPossibleResult(row) then scored.(possibleResults := scored.possibleResults + {PossibleOf(row)})
    else scored
  }

  /** The last row with a positive score, if any. */
  function LastScored(rs: seq<JournalRow>): (r: Option<nat>)
    ensures r.Some? ==> r.value < |rs| && rs[r.value].currentScore > 0
    ensures r.Some? ==> forall j :: r.value < j < |rs| ==> rs[j].currentScore <= 0
    ensures r.None? ==> forall j :: 0 <= j < |rs| ==> rs[j].currentScore <= 0
  {
    if rs == [] then None
    else if rs[|rs| - 1].currentScore > 0 then Some(|rs| - 1)
    else LastScored(rs[..|rs| - 1])
  }

  function PossibleResults(rs: seq<JournalRow>): set<PossibleResult> {
    set j | 0 <= j < |rs| && HasPossibleResult(rs[j]) :: PossibleOf(rs[j])
  }

  /**
   * What a stage's rows add up to: its score is the largest positive row
   * score (0 when there is none), its result title and date are those of
   * the last row with a positive score, and its possible results are those
   * of all its rows.
   */
  lemma StageFold(first: JournalRow, rs: seq<JournalRow>)
    ensures var a := Fold(StageStart(first), rs, StageStep);
      && a.name == first.stageTitle && a.stageId == first.stageId
      && a.minRequiredScore == first.minScoreForFinished.GetOr(0)
      && a.currentScore >= 0
      && (forall j :: 0 <= j < |rs| && rs[j].currentScore > 0 ==> a.currentScore >= rs[j].currentScore)
      && (a.currentScore == 0 || exists j :: 0 <= j < |rs| && rs[j].currentScore == a.currentScore)
      && a.resultTitle == (if LastScored(rs).Some? then rs[LastScored(rs).value].possibleResultTitle else None)
      && a.date == (if LastScored(rs).Some? then rs[LastScored(rs).value].achievedAt else None)
      && a.possibleResults == PossibleResults(rs)
  {
    StageFoldScore(first, rs);
    StageFoldLast(first, rs);
    StageFoldResults(first, rs);
  }

  lemma {:induction false} StageFoldScore(first: JournalRow, rs: seq<JournalRow>)
    ensures var a := Fold(StageStart(first), rs, StageStep);
      && a.name == first.stageTitle && a.stageId == first.stageId
      && a.minRequiredScore == first.minScoreForFinished.GetOr(0)
      && a.currentScore >= 0
      && (forall j :: 0 <= j < |rs| && rs[j].currentScore > 0 ==> a.currentScore >= rs[j].currentScore)
      && (a.currentScore == 0 || exists j :: 0 <= j < |rs| && rs[j].currentScore == a.currentScore)
  {
    if rs != [] {
      var front := rs[..|rs| - 1];
      var row := rs[|rs| - 1];
      StageFoldScore(first, front);
      var b := Fold(StageStart(first), front, StageStep);
      var a := StageStep(b, row);
      assert forall j :: 0 <= j < |front| ==> front[j] == rs[j];
      if b.currentScore != 0 && a.currentScore == b.currentScore {
        var j :| 0 <= j < |front| && front[j].currentScore == b.currentScore;
        assert rs[j].currentScore == a.currentScore;
      }
    }
  }

  lemma {:induction false} StageFoldLast(first: JournalRow, rs: seq<JournalRow>)
    ensures var a := Fold(StageStart(first), rs, StageStep);
      && a.resultTitle == (if LastScored(rs).Some? then rs[LastScored(rs).value].possibleResultTitle else None)
      && a.date == (if LastScored(rs).Some? then rs[LastScored(rs).value].achievedAt else None)
  {
    if rs != [] {
      var front := rs[..|rs| - 1];
      StageFoldLast(first, front);
      if LastScored(rs).Some? && LastScored(rs).value < |front| {
        assert front[LastScored(rs).value] == rs[LastScored(rs).value];
      }
    }
  }

  lemma {:induction false} StageFoldResults(first: JournalRow, rs: seq<JournalRow>)
    ensures Fold(StageStart(first), rs, StageStep).possibleResults == PossibleResults(rs)
  {
    if rs != [] {
      var front := rs[..|rs| - 1];
      var row := rs[|rs| - 1];
      StageFoldResults(first, front);
      assert PossibleResults(rs) == PossibleResults(front) + (if HasPossibleResult(row) then {PossibleOf(row)} else {}) by {
        forall p | p in PossibleResults(rs)
          ensures p in PossibleResults(front) + (if HasPossibleResult(row) then {PossibleOf(row)} else {})
        {
          var j :| 0 <= j < |rs| && HasPossibleResult(rs[j]) && PossibleOf(rs[j]) == p;
          if j < |front| {
            assert front[j] == rs[j];
          }
        }
        forall p | p in PossibleResults(front) ensures p in PossibleResults(rs) {
          var j :| 0 <= j < |front| && HasPossibleResult(front[j]) && PossibleOf(front[j]) == p;
          assert rs[j] == front[j];
        }
      }
    }
  }

  /** What the loop gathers for one pupil: the first row, and the stages in first-appearance order. */
  datatype StudentAcc = StudentAcc(first: JournalRow, stages: Groups<int, StageAcc>)

  function StudentKey(row: JournalRow): int { row.studentId }

  function StudentStart(row: JournalRow): StudentAcc {
    StudentAcc(row, Groups([], map[]))
  }

  function StudentStep(s: StudentAcc, row: JournalRow): StudentAcc {
    s.(stages := Absorb(s.stages, row, StageKey, StageStart, StageStep))
  }

  /** A pupil's entry keeps the first row and groups the pupil's rows by stage. */
  lemma {:induction false} StudentFold(first: JournalRow, rs: seq<JournalRow>)
    ensures Fold(StudentStart(first), rs, StudentStep) == StudentAcc(first, GroupAll(rs, StageKey, StageStart, StageStep))
  {
    if rs != [] {
      StudentFold(first, rs[..|rs| - 1]);
    }
  }

  /** A stage passes when its score reaches its minimum; the `score` field carries the minimum, as in the route. */
  function StageResultOf(a: StageAcc): (r: StageResult)
    ensures r.status == Passed <==> a.currentScore >= a.minRequiredScore
    ensures r.status == Passed || r.status == NotPassed
    ensures r.currentScore == a.currentScore && r.minRequiredScore == a.minRequiredScore && r.score == a.minRequiredScore
    ensures r.name == a.name && r.stageId == a.stageId && r.possibleResults == a.possibleResults
  {
    StageResult(a.name, if a.currentScore >= a.minRequiredScore then Passed else NotPassed,
                a.date, a.resultTitle, a.minRequiredScore, a.minRequiredScore, a.currentScore,
                a.stageId, a.possibleResults)
  }

  function TotalScore(stages: seq<StageResult>): int {
    if stages == [] then 0 else TotalScore(stages[..|stages| - 1]) + stages[|stages| - 1].currentScore
  }

  function CompletedCount(stages: seq<StageResult>): (n: nat)
    ensures n <= |stages|
  {
    if stages == [] then 0
    else CompletedCount(stages[..|stages| - 1]) + (if stages[|stages| - 1].status == Passed then 1 else 0)
  }

  lemma CountsSnoc(stages: seq<StageResult>, s: StageResult)
    ensures TotalScore(stages + [s]) == TotalScore(stages) + s.currentScore
    ensures CompletedCount(stages + [s]) == CompletedCount(stages) + (if s.status == Passed then 1 else 0)
  {
    assert (stages + [s])[..|stages|] == stages;
  }

  /** A pupil's journal entry: identity, class, event and date from the first row, and the stage results. */
  function EntryOf(first: JournalRow, stages: seq<StageResult>, now: Time): (e: JournalEntry)
    ensures e.id == first.studentId && e.studentId == first.studentId
    ensures e.studentName == PupilName(first.studentName, first.studentId) && e.groupName == first.groupName
    ensures e.classTeacher.Some? <==> Truthy(first.classTeacherNames)
    ensures e.date == first.dateStart.GetOr(now)
    ensures e.stages == stages
    ensures e.totalScore == TotalScore(stages) && e.completedStagesCount == CompletedCount(stages)
    ensures e.minStagesRequired == first.minStagesForCompletion.GetOr(0)
  {
    JournalEntry(first.studentId, first.studentId, PupilName(first.studentName, first.studentId),
                 first.groupName, if Truthy(first.classTeacherNames) then first.classTeacherNames else None,
                 first.eventTitle, first.eventTypeTitle, first.dateStart.GetOr(now), stages,
                 TotalScore(stages), first.minStagesForCompletion.GetOr(0), CompletedCount(stages))
  }

  /** The stage results of one pupil's rows: one per stage, in order of first appearance. */
  function StageResults(rs: seq<JournalRow>): (r: seq<StageResult>)
    ensures |r| == |Keys(rs, StageKey)|
  {
    var ids := Keys(rs, StageKey);
    seq(|ids|, k requires 0 <= k < |ids| =>
      assert ids[k] in ids;
      StageResultOf(Entry(Members(rs, StageKey, ids[k]), StageStart, StageStep)))
  }

  /** One entry per pupil, in order of first appearance. */
  function Entries(rows: seq<JournalRow>, now: Time): (r: seq<JournalEntry>)
    ensures |r| == |Keys(rows, StudentKey)|
  {
    var ids := Keys(rows, StudentKey);
    seq(|ids|, k requires 0 <= k < |ids| =>
      assert ids[k] in ids;
      var rs := Members(rows, StudentKey, ids[k]);
      EntryOf(rs[0], StageResults(rs), now))
  }

  /** The k-th entry is that of the k-th pupil's rows. */
  lemma EntriesAt(rows: seq<JournalRow>, now: Time, k: nat)
    requires k < |Keys(rows, StudentKey)|
    ensures var rs := Members(rows, StudentKey, Keys(rows, StudentKey)[k]);
      rs != [] && Entries(rows, now)[k] == EntryOf(rs[0], StageResults(rs), now)
  {
    assert Keys(rows, StudentKey)[k] in Keys(rows, StudentKey);
  }

  /** The sort key (group_name, student_name), compared as Python compares tuples of str. */
  predicate ByGroupThenName(a: JournalEntry, b: JournalEntry) {
    if a.groupName != b.groupName then LexLe(a.groupName, b.groupName) else LexLe(a.studentName, b.studentName)
  }

  lemma ByGroupThenNameOrders()
    ensures TotalPreorder(ByGroupThenName)
  {
    forall a, b ensures ByGroupThenName(a, b) || ByGroupThenName(b, a) {
      LexLeTotal(a.groupName, b.groupName);
      LexLeTotal(a.studentName, b.studentName);
    }
    forall a, b, c | ByGroupThenName(a, b) && ByGroupThenName(b, c) ensures ByGroupThenName(a, c) {
      if a.groupName == b.groupName && b.groupName == c.groupName {
        LexLeTransitive(a.studentName, b.studentName, c.studentName);
      } else {
        if a.groupName != b.groupName {
          if b.groupName != c.groupName {
            LexLeTransitive(a.groupName, b.groupName, c.groupName);
            if a.groupName == c.groupName {
              LexLeAntisymmetric(a.groupName, b.groupName);
            }
          }
        } else {
          assert LexLe(b.groupName, c.groupName);
        }
      }
    }
  }

  /** The journal: the pupils' entries, stably sorted by class and then name. */
  function Journal(rows: seq<JournalRow>, now: Time): (r: seq<JournalEntry>)
    ensures |r| == |Entries(rows, now)|
  {
    SortBy(Entries(rows, now), ByGroupThenName)
  }

  /** The journal lists each pupil of the rows once, sorted by class and then name. */
  lemma JournalSorted(rows: seq<JournalRow>, now: Time)
    ensures SortedBy(Journal(rows, now), ByGroupThenName)
    ensures multiset(Journal(rows, now)) == multiset(Entries(rows, now))
    ensures |Journal(rows, now)| == |Keys(rows, StudentKey)|
    ensures forall e <- Journal(rows, now) :: Mentions(rows, StudentKey, e.studentId)
  {
    ByGroupThenNameOrders();
    SortBySorted(Entries(rows, now), ByGroupThenName);
    JournalMentions(rows, now);
  }

  lemma JournalMentions(rows: seq<JournalRow>, now: Time)
    ensures forall e <- Journal(rows, now) :: Mentions(rows, StudentKey, e.studentId)
  {
    var es := Entries(rows, now);
    forall e <- Journal(rows, now) ensures Mentions(rows, StudentKey, e.studentId) {
      assert e in multiset(es);
      var k :| 0 <= k < |es| && es[k] == e;
      EntriesAt(rows, now, k);
      var id := Keys(rows, StudentKey)[k];
      var rs := Members(rows, StudentKey, id);
      assert rs[0].studentId == id;
      assert id in Keys(rows, StudentKey);
    }
  }

  /** The stage results of a pupil's grouped stages, in first-appearance order. */
  function StagesOf(g: Groups<int, StageAcc>): (r: seq<StageResult>)
    requires forall j :: 0 <= j < |g.order| ==> g.order[j] in g.entries
    ensures |r| == |g.order|
  {
    seq(|g.order|, k requires 0 <= k < |g.order| =>
      assert g.order[k] in g.order;
      StageResultOf(g.entries[g.order[k]]))
  }

  /** The second loop, for one pupil: the stage results, their total and the passed count. */
  method FinishStudent(s: StudentAcc, now: Time) returns (e: JournalEntry)
    requires forall j :: 0 <= j < |s.stages.order| ==> s.stages.order[j] in s.stages.entries
    ensures e == EntryOf(s.first, StagesOf(s.stages), now)
  {
    var total := 0;
    var completed := 0;
    var stages: seq<StageResult> := [];
    var j := 0;
    while j < |s.stages.order|
      invariant 0 <= j <= |s.stages.order|
      invariant stages == StagesOf(s.stages)[..j]
      invariant total == TotalScore(stages) && completed == CompletedCount(stages)
    {
      assert s.stages.order[j] in s.stages.order;
      var result := StageResultOf(s.stages.entries[s.stages.order[j]]);
      CountsSnoc(stages, result);
      if result.status == Passed {
        completed := completed + 1;
      }
      total := total + result.currentScore;
      stages := stages + [result];
      j := j + 1;
    }
    assert stages == StagesOf(s.stages);
    e := EntryOf(s.first, stages, now);
  }

  /** Grouped stages give the declarative stage results. */
  lemma StagesOfGrouped(rs: seq<JournalRow>, inner: Groups<int, StageAcc>)
    requires Grouped(rs, inner, StageKey, StageStart, StageStep)
    ensures forall j :: 0 <= j < |inner.order| ==> inner.order[j] in inner.entries
    ensures StagesOf(inner) == StageResults(rs)
  {
    var ids := Keys(rs, StageKey);
    forall k | 0 <= k < |ids| ensures StagesOf(inner)[k] == StageResults(rs)[k] {
      assert ids[k] in inner.order;
    }
  }

  /** The gathered entry of a pupil yields the pupil's declarative entry. */
  lemma FinishMatches(rows: seq<JournalRow>, g: Groups<int, StudentAcc>, k: nat, now: Time)
    requires Grouped(rows, g, StudentKey, StudentStart, StudentStep) && k < |g.order|
    ensures g.order[k] in g.entries
    ensures forall j :: 0 <= j < |g.entries[g.order[k]].stages.order| ==> g.entries[g.order[k]].stages.order[j] in g.entries[g.order[k]].stages.entries
    ensures EntryOf(g.entries[g.order[k]].first, StagesOf(g.entries[g.order[k]].stages), now) == Entries(rows, now)[k]
  {
    var id := g.order[k];
    assert id in g.order;
    var rs := Members(rows, StudentKey, id);
    assert rs != [] && g.entries[id] == Entry(rs, StudentStart, StudentStep);
    StudentFold(rs[0], rs);
    var inner := GroupAll(rs, StageKey, StageStart, StageStep);
    assert g.entries[id] == StudentAcc(rs[0], inner);
    GroupAllGrouped(rs, StageKey, StageStart, StageStep);
    StagesOfGrouped(rs, inner);
    EntriesAt(rows, now, k);
  }

  /** The second loop: one entry per gathered pupil, in the order the pupils first appeared. */
  method FinishAll(rows: seq<JournalRow>, g: Groups<int, StudentAcc>, now: Time) returns (entries: seq<JournalEntry>)
    requires Grouped(rows, g, StudentKey, StudentStart, StudentStep)
    ensures entries == Entries(rows, now)
  {
    ghost var es := Entries(rows, now);
    entries := [];
    var j := 0;
    while j < |g.order|
      invariant 0 <= j <= |g.order| == |es|
      invariant entries == es[..j]
    {
      FinishMatches(rows, g, j, now);
      var e := FinishStudent(g.entries[g.order[j]], now);
      PrefixSnoc(es, j);
      entries := entries + [e];
      j := j + 1;
    }
    PrefixAll(es);
  }

  /**
   * get_project_office_journal, from the fetched rows on: no rows is a 404
   * whose message says whether the event, the office or only the data is
   * missing; otherwise the sorted journal.
   */
  method GetJournal(rows: seq<JournalRow>, eventExists: bool, hasOffice: bool, now: Time)
    returns (r: Result<seq<JournalEntry>, HttpError>)
    ensures rows == [] ==> r == Failure(if !eventExists then EventNotFound else if !hasOffice then OfficeNotFound else NoData)
    ensures rows != [] ==> r == Success(Journal(rows, now))
  {
    if rows == [] {
      if !eventExists {
        return Failure(EventNotFound);
      }
      if !hasOffice {
        return Failure(OfficeNotFound);
      }
      return Failure(NoData);
    }
    var g := GroupRows(rows, StudentKey, StudentStart, StudentStep);
    var entries := FinishAll(rows, g, now);
    r := Success(SortBy(entries, ByGroupThenName));
  }

  // =====================================================================
  // Pivot table of all the office's events

  /** One row of the pivot query: a pupil, an active event of the office, a stage, at most one achievement. */
  datatype PivotRow = PivotRow(
    studentId: int,
    displayName: Option<string>,
    groupName: string,
    eventId: int,
    eventTitle: string,
    eventTypeId: int,
    minStagesForCompletion: Option<int>,
    stageId: int,
    stageTitle: string,
    minScoreForFinished: Option<int>,
    stageOrder: int,
    pointsForDone: Option<int>,
    achievedAt: Option<Time>
  )

  datatype PivotStage = PivotStage(name: string, status: string, currentScore: int)

  datatype PivotEvent = PivotEvent(
    eventName: string,
    totalScore: int,
    completedStagesCount: nat,
    minStagesRequired: int,
    stages: seq<PivotStage>,
    status: string
  )

  datatype PivotStudent = PivotStudent(first: PivotRow, events: Groups<int, PivotEvent>)

  datatype PivotEntry = PivotEntry(
    id: int,
    studentName: string,
    groupName: string,
    classTeacher: Option<string>,
    events: seq<(int, PivotEvent)>
  )

  /** A row's stage: its points (NULL read as 0), passed when they reach the stage minimum (NULL read as 0). */
  function PivotStageOf(row: PivotRow): (st: PivotStage)
    ensures st.name == row.stageTitle && st.currentScore == row.pointsForDone.GetOr(0)
    ensures st.status == Passed <==> row.pointsForDone.GetOr(0) >= row.minScoreForFinished.GetOr(0)
    ensures st.status == Passed || st.status == NotPassed
  {
    var score := row.pointsForDone.GetOr(0);
    PivotStage(row.stageTitle, if score >= row.minScoreForFinished.GetOr(0) then Passed else NotPassed, score)
  }

  /** `any(stage.get("name") == title for stage in stages)` */
  predicate HasStage(stages: seq<PivotStage>, title: string) {
    exists k :: 0 <= k < |stages| && stages[k].name == title
  }

  function EventKey(row: PivotRow): int { row.eventId }
  function TitleKey(row: PivotRow): string { row.stageTitle }

  /** A new event entry of a pupil: title and minimum (NULL read as 0) from its first row, status "не начато". */
  function EventStart(row: PivotRow): PivotEvent {
    PivotEvent(row.eventTitle, 0, 0, row.minStagesForCompletion.GetOr(0), [], NotStarted)
  }

  /** One row of a pupil's event: a stage whose title is not there yet is added and counted. */
  function EventStep(e: PivotEvent, row: PivotRow): PivotEvent {
    if HasStage(e.stages, row.stageTitle) then e
    else
      var st := PivotStageOf(row);
      e.(stages := e.stages + [st],
         totalScore := e.totalScore + st.currentScore,
         completedStagesCount := e.completedStagesCount + (if st.status == Passed then 1 else 0))
  }

  function PivotTotal(stages: seq<PivotStage>): int {
    if stages == [] then 0 else PivotTotal(stages[..|stages| - 1]) + stages[|stages| - 1].currentScore
  }

  function PivotCompleted(stages: seq<PivotStage>): (n: nat)
    ensures n <= |stages|
  {
    if stages == [] then 0
    else PivotCompleted(stages[..|stages| - 1]) + (if stages[|stages| - 1].status == Passed then 1 else 0)
  }

  /** The stage of the first row of each distinct stage title, in order of first appearance. */
  function FirstPerTitle(rs: seq<PivotRow>): (r: seq<PivotStage>)
    ensures |r| == |Keys(rs, TitleKey)|
    ensures forall k :: 0 <= k < |r| ==> r[k].name == Keys(rs, TitleKey)[k]
  {
    var titles := Keys(rs, TitleKey);
    seq(|titles|, k requires 0 <= k < |titles| =>
      assert titles[k] in titles;
      PivotStageOf(Members(rs, TitleKey, titles[k])[0]))
  }

  lemma HasStageKeys(rs: seq<PivotRow>, title: string)
    ensures HasStage(FirstPerTitle(rs), title) <==> title in Keys(rs, TitleKey)
  {
    var stages := FirstPerTitle(rs);
    if title in Keys(rs, TitleKey) {
      var k :| 0 <= k < |Keys(rs, TitleKey)| && Keys(rs, TitleKey)[k] == title;
      assert stages[k].name == title;
    }
  }

  lemma FirstPerTitleSnoc(rs: seq<PivotRow>)
    requires rs != []
    ensures var front := rs[..|rs| - 1];
      var row := rs[|rs| - 1];
      FirstPerTitle(rs) == if row.stageTitle in Keys(front, TitleKey) then FirstPerTitle(front)
                           else FirstPerTitle(front) + [PivotStageOf(row)]
  {
    var front := rs[..|rs| - 1];
    var row := rs[|rs| - 1];
    var titles := Keys(front, TitleKey);
    forall k | 0 <= k < |titles|
      ensures Members(rs, TitleKey, titles[k])[0] == Members(front, TitleKey, titles[k])[0]
    {
      assert titles[k] in titles;
      MembersFirst(rs, TitleKey, titles[k]);
    }
    if row.stageTitle !in titles {
      assert Members(rs, TitleKey, row.stageTitle) == [] + [row];
    }
  }

  /**
   * What a pupil's rows of one event add up to: only the first row of each
   * stage title adds a stage, and the total and the passed count are those
   * of the added stages.
   */
  lemma EventFold(first: PivotRow, rs: seq<PivotRow>)
    ensures var e := Fold(EventStart(first), rs, EventStep);
      && e.stages == FirstPerTitle(rs)
      && e.totalScore == PivotTotal(e.stages) && e.completedStagesCount == PivotCompleted(e.stages)
      && e.eventName == first.eventTitle && e.minStagesRequired == first.minStagesForCompletion.GetOr(0)
      && e.status == NotStarted
  {
    EventFoldStages(first, rs);
    EventFoldCounts(first, rs);
  }

  lemma {:induction false} EventFoldStages(first: PivotRow, rs: seq<PivotRow>)
    ensures Fold(EventStart(first), rs, EventStep).stages == FirstPerTitle(rs)
  {
    if rs != [] {
      var front := rs[..|rs| - 1];
      var row := rs[|rs| - 1];
      EventFoldStages(first, front);
      HasStageKeys(front, row.stageTitle);
      FirstPerTitleSnoc(rs);
    }
  }

  /** Each event step keeps the total and the passed count equal to those of its stages, and the identity fields. */
  lemma {:induction false} EventFoldCounts(first: PivotRow, rs: seq<PivotRow>)
    ensures var e := Fold(EventStart(first), rs, EventStep);
      && e.totalScore == PivotTotal(e.stages) && e.completedStagesCount == PivotCompleted(e.stages)
      && e.eventName == first.eventTitle && e.minStagesRequired == first.minStagesForCompletion.GetOr(0)
      && e.status == NotStarted
  {
    if rs != [] {
      var front := rs[..|rs| - 1];
      var row := rs[|rs| - 1];
      EventFoldCounts(first, front);
      var b := Fold(EventStart(first), front, EventStep);
      if !HasStage(b.stages, row.stageTitle) {
        var st := PivotStageOf(row);
        assert (b.stages + [st])[..|b.stages|] == b.stages;
      }
    }
  }

  function PStudentKey(row: PivotRow): int { row.studentId }

  function PStudentStart(row: PivotRow): PivotStudent {
    PivotStudent(row, Groups([], map[]))
  }

  function PStudentStep(s: PivotStudent, row: PivotRow): PivotStudent {
    s.(events := Absorb(s.events, row, EventKey, EventStart, EventStep))
  }

  lemma {:induction false} PStudentFold(first: PivotRow, rs: seq<PivotRow>)
    ensures Fold(PStudentStart(first), rs, PStudentStep) == PivotStudent(first, GroupAll(rs, EventKey, EventStart, EventStep))
  {
    if rs != [] {
      PStudentFold(first, rs[..|rs| - 1]);
    }
  }

  /** The pupils gathered so far, and the route's event -> minimum dict, written at each pupil's first row of an event. */
  datatype PivotState = PivotState(students: Groups<int, PivotStudent>, eventMin: map<int, int>)

  /** One row of the first loop. */
  function PivotAbsorb(st: PivotState, row: PivotRow): PivotState {
    var firstOfPair := !(row.studentId in st.students.entries && row.eventId in st.students.entries[row.studentId].events.entries);
    PivotState(Absorb(st.students, row, PStudentKey, PStudentStart, PStudentStep),
               if firstOfPair then st.eventMin[row.eventId := row.minStagesForCompletion.GetOr(0)] else st.eventMin)
  }

  function PivotAll(rows: seq<PivotRow>): PivotState {
    if rows == [] then PivotState(Groups([], map[]), map[])
    else PivotAbsorb(PivotAll(rows[..|rows| - 1]), rows[|rows| - 1])
  }

  /** Every event a gathered pupil has is in the minimum dict. */
  ghost predicate MinsCover(st: PivotState) {
    forall sid, eid :: sid in st.students.entries && eid in st.students.entries[sid].events.entries ==> eid in st.eventMin
  }

  /**
   * The first loop groups the rows by pupil, and the minimum dict has an
   * entry for every event of the rows, taken from one of that event's rows.
   */
  lemma PivotAllMeaning(rows: seq<PivotRow>)
    ensures PivotAll(rows).students == GroupAll(rows, PStudentKey, PStudentStart, PStudentStep)
    ensures MinsCover(PivotAll(rows))
    ensures forall j :: 0 <= j < |rows| ==> rows[j].eventId in PivotAll(rows).eventMin
    ensures forall e :: e in PivotAll(rows).eventMin ==>
      exists j :: 0 <= j < |rows| && rows[j].eventId == e && PivotAll(rows).eventMin[e] == rows[j].minStagesForCompletion.GetOr(0)
  {
    PivotAllStudents(rows);
    PivotAllCover(rows);
    PivotAllRows(rows);
    PivotAllFrom(rows);
  }

  lemma {:induction false} PivotAllStudents(rows: seq<PivotRow>)
    ensures PivotAll(rows).students == GroupAll(rows, PStudentKey, PStudentStart, PStudentStep)
  {
    if rows != [] {
      PivotAllStudents(rows[..|rows| - 1]);
    }
  }

  lemma {:induction false} PivotAllCover(rows: seq<PivotRow>)
    ensures MinsCover(PivotAll(rows))
  {
    if rows != [] {
      var front := rows[..|rows| - 1];
      var row := rows[|rows| - 1];
      PivotAllCover(front);
      var st := PivotAll(front);
      var st' := PivotAbsorb(st, row);
      forall sid, eid | sid in st'.students.entries && eid in st'.students.entries[sid].events.entries
        ensures eid in st'.eventMin
      {
        if sid != row.studentId {
          assert st'.students.entries[sid] == st.students.entries[sid];
        } else if eid != row.eventId {
          assert sid in st.students.entries;
          assert eid in st.students.entries[sid].events.entries;
        }
      }
    }
  }

  lemma {:induction false} PivotAllRows(rows: seq<PivotRow>)
    ensures forall j :: 0 <= j < |rows| ==> rows[j].eventId in PivotAll(rows).eventMin
  {
    if rows != [] {
      var front := rows[..|rows| - 1];
      var row := rows[|rows| - 1];
      PivotAllRows(front);
      PivotAllCover(front);
      var st := PivotAll(front);
      var st' := PivotAbsorb(st, row);
      assert st.eventMin.Keys <= st'.eventMin.Keys;
      forall j | 0 <= j < |rows| ensures rows[j].eventId in st'.eventMin {
        if j < |front| {
          assert front[j] == rows[j];
        }
      }
    }
  }

  lemma {:induction false} PivotAllFrom(rows: seq<PivotRow>)
    ensures forall e :: e in PivotAll(rows).eventMin ==>
      exists j :: 0 <= j < |rows| && rows[j].eventId == e && PivotAll(rows).eventMin[e] == rows[j].minStagesForCompletion.GetOr(0)
  {
    if rows != [] {
      var front := rows[..|rows| - 1];
      var row := rows[|rows| - 1];
      PivotAllFrom(front);
      var st := PivotAll(front);
      var st' := PivotAbsorb(st, row);
      forall e | e in st'.eventMin
        ensures exists j :: 0 <= j < |rows| && rows[j].eventId == e && st'.eventMin[e] == rows[j].minStagesForCompletion.GetOr(0)
      {
        if e in st.eventMin && st'.eventMin[e] == st.eventMin[e] {
          var j :| 0 <= j < |front| && front[j].eventId == e && st.eventMin[e] == front[j].minStagesForCompletion.GetOr(0);
          assert rows[j] == front[j];
        } else {
          assert rows[|rows| - 1].eventId == e;
        }
      }
    }
  }

  /** When every row of an event carries the same minimum, the dict holds that minimum. */
  lemma EventMinConsistent(rows: seq<PivotRow>, e: int, m: int)
    requires forall j :: 0 <= j < |rows| && rows[j].eventId == e ==> rows[j].minStagesForCompletion.GetOr(0) == m
    requires Mentions(rows, EventKey, e)
    ensures e in PivotAll(rows).eventMin && PivotAll(rows).eventMin[e] == m
  {
    PivotAllMeaning(rows);
  }

  /** The minimum a pupil's event is judged by: the dict's entry, else the number of its stages. */
  function MinRequired(mins: map<int, int>, eid: int, e: PivotEvent): int {
    if eid in mins then mins[eid] else |e.stages|
  }

  /** "зачет" with enough passed stages, else "в процессе" with some points, else "не начато". */
  function FinalEvent(e: PivotEvent, minRequired: int): (r: PivotEvent)
    ensures r == e.(status := r.status)
    ensures r.status == Passed <==> e.completedStagesCount >= minRequired
    ensures r.status == InProgress <==> e.completedStagesCount < minRequired && e.totalScore > 0
    ensures r.status == NotStarted <==> e.completedStagesCount < minRequired && e.totalScore <= 0
  {
    e.(status := if e.completedStagesCount >= minRequired then Passed
                 else if e.totalScore > 0 then InProgress
                 else NotStarted)
  }

  /** A pupil's events, each with its final status, in order of first appearance. */
  function PivotEvents(rs: seq<PivotRow>, mins: map<int, int>): (r: seq<(int, PivotEvent)>)
    ensures |r| == |Keys(rs, EventKey)|
  {
    var eids := Keys(rs, EventKey);
    seq(|eids|, k requires 0 <= k < |eids| =>
      assert eids[k] in eids;
      var e := Entry(Members(rs, EventKey, eids[k]), EventStart, EventStep);
      (eids[k], FinalEvent(e, MinRequired(mins, eids[k], e))))
  }

  function PivotEntryOf(first: PivotRow, events: seq<(int, PivotEvent)>): PivotEntry {
    PivotEntry(first.studentId, PupilName(first.displayName, first.studentId), first.groupName, None, events)
  }

  /** The pivot table: one entry per pupil, in order of first appearance. */
  function Pivot(rows: seq<PivotRow>): (r: seq<PivotEntry>)
    ensures |r| == |Keys(rows, PStudentKey)|
  {
    var ids := Keys(rows, PStudentKey);
    var mins := PivotAll(rows).eventMin;
    seq(|ids|, k requires 0 <= k < |ids| =>
      assert ids[k] in ids;
      var rs := Members(rows, PStudentKey, ids[k]);
      PivotEntryOf(rs[0], PivotEvents(rs, mins)))
  }

  /**
   * What the pivot table says about the k-th pupil's m-th event: its stages
   * are the first row of each stage title, its total and passed count are
   * theirs, and its status compares the passed count with the minimum the
   * dict holds for that event (the number of stages is never the fallback).
   */
  lemma PivotEventMeaning(rows: seq<PivotRow>, k: nat, m: nat)
    requires k < |Pivot(rows)| && m < |Pivot(rows)[k].events|
    ensures var sid := Keys(rows, PStudentKey)[k];
      var rs := Members(rows, PStudentKey, sid);
      var (eid, e) := Pivot(rows)[k].events[m];
      var ers := Members(rs, EventKey, eid);
      && Pivot(rows)[k].id == sid
      && rs != [] && ers != []
      && e.eventName == ers[0].eventTitle
      && e.stages == FirstPerTitle(ers)
      && e.totalScore == PivotTotal(e.stages) && e.completedStagesCount == PivotCompleted(e.stages)
      && eid in PivotAll(rows).eventMin
      && (e.status == Passed <==> e.completedStagesCount >= PivotAll(rows).eventMin[eid])
      && (e.status == InProgress <==> e.completedStagesCount < PivotAll(rows).eventMin[eid] && e.totalScore > 0)
  {
    var ids := Keys(rows, PStudentKey);
    var sid := ids[k];
    assert sid in ids;
    var rs := Members(rows, PStudentKey, sid);
    var eids := Keys(rs, EventKey);
    var eid := eids[m];
    assert eid in eids;
    var ers := Members(rs, EventKey, eid);
    EventFold(ers[0], ers);
    PivotAllMeaning(rows);
    var j :| 0 <= j < |rs| && rs[j].eventId == eid;
    assert rs[j] in rs;
    var i :| 0 <= i < |rows| && rows[i] == rs[j];
  }

  lemma PivotAllSnoc(rows: seq<PivotRow>, i: nat)
    requires i < |rows|
    ensures PivotAll(rows[..i + 1]) == PivotAbsorb(PivotAll(rows[..i]), rows[i])
  {
    var p := rows[..i + 1];
    assert p[..|p| - 1] == rows[..i];
    assert p[|p| - 1] == rows[i];
  }

  /** The pivot's row loop: pupils, their events and stages, and the minimum dict. */
  method PivotLoop(rows: seq<PivotRow>) returns (st: PivotState)
    ensures st == PivotAll(rows)
  {
    st := PivotState(Groups([], map[]), map[]);
    var i := 0;
    while i < |rows|
      invariant 0 <= i <= |rows|
      invariant st == PivotAll(rows[..i])
    {
      PivotAllSnoc(rows, i);
      var row := rows[i];
      var firstOfPair := !(row.studentId in st.students.entries && row.eventId in st.students.entries[row.studentId].events.entries);
      var mins := st.eventMin;
      if firstOfPair {
        mins := mins[row.eventId := row.minStagesForCompletion.GetOr(0)];
      }
      st := PivotState(Absorb(st.students, row, PStudentKey, PStudentStart, PStudentStep), mins);
      i := i + 1;
    }
    PrefixAll(rows);
  }

  /** The events of a grouped pupil with their final statuses, in first-appearance order. */
  function EventsOf(g: Groups<int, PivotEvent>, mins: map<int, int>): (r: seq<(int, PivotEvent)>)
    requires forall j :: 0 <= j < |g.order| ==> g.order[j] in g.entries
    ensures |r| == |g.order|
  {
    seq(|g.order|, k requires 0 <= k < |g.order| =>
      var e := g.entries[g.order[k]];
      (g.order[k], FinalEvent(e, MinRequired(mins, g.order[k], e))))
  }

  /** The second loop, for one pupil: each event gets its final status. */
  method FinishPivotStudent(s: PivotStudent, mins: map<int, int>) returns (p: PivotEntry)
    requires forall j :: 0 <= j < |s.events.order| ==> s.events.order[j] in s.events.entries
    ensures p == PivotEntryOf(s.first, EventsOf(s.events, mins))
  {
    ghost var target := EventsOf(s.events, mins);
    var events: seq<(int, PivotEvent)> := [];
    var j := 0;
    while j < |s.events.order|
      invariant 0 <= j <= |s.events.order| == |target|
      invariant events == target[..j]
    {
      var eid := s.events.order[j];
      var e := s.events.entries[eid];
      var minRequired := if eid in mins then mins[eid] else |e.stages|;
      var status := NotStarted;
      if e.completedStagesCount >= minRequired {
        status := Passed;
      } else if e.totalScore > 0 {
        status := InProgress;
      }
      PrefixSnoc(target, j);
      events := events + [(eid, e.(status := status))];
      j := j + 1;
    }
    PrefixAll(target);
    p := PivotEntryOf(s.first, events);
  }

  lemma EventsOfGrouped(rs: seq<PivotRow>, g: Groups<int, PivotEvent>, mins: map<int, int>)
    requires Grouped(rs, g, EventKey, EventStart, EventStep)
    ensures forall j :: 0 <= j < |g.order| ==> g.order[j] in g.entries
    ensures EventsOf(g, mins) == PivotEvents(rs, mins)
  {
    var eids := Keys(rs, EventKey);
    forall k | 0 <= k < |eids| ensures EventsOf(g, mins)[k] == PivotEvents(rs, mins)[k] {
      assert eids[k] in g.order;
    }
  }

  lemma PivotAt(rows: seq<PivotRow>, k: nat)
    requires k < |Keys(rows, PStudentKey)|
    ensures var rs := Members(rows, PStudentKey, Keys(rows, PStudentKey)[k]);
      rs != [] && Pivot(rows)[k] == PivotEntryOf(rs[0], PivotEvents(rs, PivotAll(rows).eventMin))
  {
    assert Keys(rows, PStudentKey)[k] in Keys(rows, PStudentKey);
  }

  lemma PivotFinishMatches(rows: seq<PivotRow>, g: Groups<int, PivotStudent>, k: nat)
    requires Grouped(rows, g, PStudentKey, PStudentStart, PStudentStep) && k < |g.order|
    ensures g.order[k] in g.entries
    ensures forall j :: 0 <= j < |g.entries[g.order[k]].events.order| ==>
      g.entries[g.order[k]].events.order[j] in g.entries[g.order[k]].events.entries
    ensures PivotEntryOf(g.entries[g.order[k]].first, EventsOf(g.entries[g.order[k]].events, PivotAll(rows).eventMin)) == Pivot(rows)[k]
  {
    var id := g.order[k];
    assert id in g.order;
    var rs := Members(rows, PStudentKey, id);
    assert rs != [] && g.entries[id] == Entry(rs, PStudentStart, PStudentStep);
    PStudentFold(rs[0], rs);
    var inner := GroupAll(rs, EventKey, EventStart, EventStep);
    assert g.entries[id] == PivotStudent(rs[0], inner);
    GroupAllGrouped(rs, EventKey, EventStart, EventStep);
    EventsOfGrouped(rs, inner, PivotAll(rows).eventMin);
    PivotAt(rows, k);
  }

  method FinishPivot(rows: seq<PivotRow>, g: Groups<int, PivotStudent>, mins: map<int, int>) returns (entries: seq<PivotEntry>)
    requires Grouped(rows, g, PStudentKey, PStudentStart, PStudentStep) && mins == PivotAll(rows).eventMin
    ensures entries == Pivot(rows)
  {
    ghost var target := Pivot(rows);
    entries := [];
    var j := 0;
    while j < |g.order|
      invariant 0 <= j <= |g.order| == |target|
      invariant entries == target[..j]
    {
      PivotFinishMatches(rows, g, j);
      var p := FinishPivotStudent(g.entries[g.order[j]], mins);
      PrefixSnoc(target, j);
      entries := entries + [p];
      j := j + 1;
    }
    PrefixAll(target);
  }

  /** get_project_office_pivot_data_optimized, from the office lookup on. */
  method GetPivot(rows: seq<PivotRow>, hasOffice: bool) returns (r: Result<seq<PivotEntry>, HttpError>)
    ensures !hasOffice ==> r == Failure(OfficeNotFound)
    ensures hasOffice ==> r == Success(Pivot(rows))
  {
    if !hasOffice {
      return Failure(OfficeNotFound);
    }
    if rows == [] {
      return Success([]);
    }
    var st := PivotLoop(rows);
    PivotAllMeaning(rows);
    GroupAllGrouped(rows, PStudentKey, PStudentStart, PStudentStep);
    var entries := FinishPivot(rows, st.students, st.eventMin);
    r := Success(entries);
  }

  // =====================================================================
  // The office-event association table

  const NotLinked: HttpError := HttpError(BadRequest, "Пользователь не привязан к проектному офису")
  /** The insert fails on the foreign key when the event does not exist; the exception text is not modelled. */
  const LinkFailed: HttpError := HttpError(ServerError, "Ошибка при создании связи")
  const PriorityInserted: string := "Приоритет установлен"
  const PriorityUpdated: string := "Приоритет обновлен"

  /** Python's repr of a list of ints: "[1, 2]". */
  function IdsRepr(ids: seq<int>): (r: string)
    ensures StartsWith(r, "[") && EndsWith(r, "]")
  {
    "[" + Join(seq(|ids|, k requires 0 <= k < |ids| => IntToString(ids[k])), ", ") + "]"
  }

  /** The requested ids that are not existing events, in request order. */
  function NotFoundIds(ids: seq<int>, found: set<int>): (r: seq<int>)
    ensures forall x :: x in r <==> x in ids && x !in found
  {
    if ids == [] then []
    else (if ids[0] in found then [] else [ids[0]]) + NotFoundIds(ids[1..], found)
  }

  function MissingEvents(ids: seq<int>, found: set<int>): HttpError {
    HttpError(NotFound, "Мероприятия с ID " + IdsRepr(NotFoundIds(ids, found)) + " не найдены")
  }

  /** The existing events among the requested ids: what the `Event.id.in_(ids)` query finds. */
  function Found(ids: seq<int>, events: set<int>): (r: set<int>)
    ensures forall e :: e in r <==> e in ids && e in events
  {
    set e | e in ids && e in events
  }

  /** set(ids) */
  function Elements(ids: seq<int>): set<int> {
    set e | e in ids
  }

  /** A request that names an id twice finds fewer events than it names, so it is refused even when all exist. */
  lemma RepeatedIdRefused(ids: seq<int>, events: set<int>, a: nat, b: nat)
    requires a < b < |ids| && ids[a] == ids[b]
    ensures |Found(ids, events)| < |ids|
  {
    var s := Elements(ids);
    var f := Found(ids, events);
    assert s == f + (s - f);
    DistinctCount(ids, a, b);
  }

  /** A sequence with a repeated element has fewer distinct elements than positions. */
  lemma DistinctCount(ids: seq<int>, a: nat, b: nat)
    requires a < b < |ids| && ids[a] == ids[b]
    ensures |Elements(ids)| < |ids|
  {
    var front := ids[..b];
    var back := ids[b + 1..];
    assert ids == front + [ids[b]] + back;
    assert ids[b] in front by { assert front[a] == ids[a]; }
    SetSize(front);
    SetSize(back);
    assert Elements(ids) == Elements(front) + Elements(back);
  }

  lemma {:induction false} SetSize(s: seq<int>)
    ensures |Elements(s)| <= |s|
  {
    if s != [] {
      SetSize(s[1..]);
      assert s == [s[0]] + s[1..];
      assert Elements(s) == {s[0]} + Elements(s[1..]);
    }
  }

  /** The events an office sees in the association table: its `accessible_events`. */
  function SeenBy(links: map<(int, int), bool>, office: int): set<int> {
    set p | p in links && p.0 == office :: p.1
  }

  /**
   * The project offices' view of the association table: which events each
   * office sees, with their importance flag, the existing events, and for
   * each leader the office that `.first()` finds for them.
   */
  class OfficeEvents {
    var events: set<int>
    var officeOf: map<int, int>
    var links: map<(int, int), bool>

    constructor(events: set<int>, officeOf: map<int, int>, links: map<(int, int), bool>)
      ensures this.events == events && this.officeOf == officeOf && this.links == links
    {
      this.events := events;
      this.officeOf := officeOf;
      this.links := links;
    }

    /** The events an office sees: `accessible_events`. */
    function Accessible(office: int): (r: set<int>)
      reads this
      ensures r == SeenBy(links, office)
    {
      SeenBy(links, office)
    }

    /**
     * set_events_for_p_office: no office is a 404; an empty list clears the
     * office's events; a list naming a missing event, or an event twice, is a
     * 404 with nothing changed; otherwise the office's events become exactly
     * the listed ones: the unlisted are removed, the new are added (not
     * important), the kept keep their flag. Other offices are not touched.
     */
    method SetEvents(leader: int, ids: seq<int>) returns (r: Result<seq<int>, HttpError>)
      modifies this
      ensures events == old(events) && officeOf == old(officeOf)
      ensures leader !in officeOf ==> r == Failure(OfficeNotFound) && links == old(links)
      ensures leader in officeOf && ids != [] && |Found(ids, events)| != |ids| ==>
        r == Failure(MissingEvents(ids, Found(ids, events))) && links == old(links)
      ensures leader in officeOf && (ids == [] || |Found(ids, events)| == |ids|) ==>
        && r == Success(ids)
        && (forall p :: p in links <==> (p in old(links) && p.0 != officeOf[leader]) || (p.0 == officeOf[leader] && p.1 in ids))
        && (forall p :: p in links && p in old(links) ==> links[p] == old(links)[p])
        && (forall p :: p in links && p !in old(links) ==> !links[p])
    {
      if leader !in officeOf {
        return Failure(OfficeNotFound);
      }
      var office := officeOf[leader];
      if ids == [] {
        links := map p | p in links && p.0 != office :: links[p];
        return Success([]);
      }
      var found := Found(ids, events);
      if |found| != |ids| {
        return Failure(MissingEvents(ids, found));
      }
      var current := Accessible(office);
      var wanted := Elements(ids);
      ghost var before := links;
      var kept := DropLinks(links, office, current - wanted);
      forall e | e in wanted - current ensures (office, e) !in kept {
        assert e !in SeenBy(links, office);
      }
      links := AddLinks(kept, office, wanted - current);
      SetEventsLinks(before, kept, links, office, current, wanted);
      r := Success(ids);
    }

    /**
     * set_priority_for_project_event: a user who leads no office gets 400;
     * otherwise the (event, office) row is updated, or inserted when absent,
     * so that its importance is the given value. Inserting a link to an event
     * that does not exist fails on the foreign key and changes nothing.
     */
    method SetPriority(leader: int, eventId: int, value: bool) returns (r: Result<string, HttpError>)
      modifies this
      ensures events == old(events) && officeOf == old(officeOf)
      ensures leader !in officeOf ==> r == Failure(NotLinked) && links == old(links)
      ensures leader in officeOf && (officeOf[leader], eventId) !in old(links) && eventId !in events ==>
        r == Failure(LinkFailed) && links == old(links)
      ensures leader in officeOf && (officeOf[leader], eventId) in old(links) ==>
        r == Success(PriorityUpdated) && links == old(links)[(officeOf[leader], eventId) := value]
      ensures leader in officeOf && (officeOf[leader], eventId) !in old(links) && eventId in events ==>
        r == Success(PriorityInserted) && links == old(links)[(officeOf[leader], eventId) := value]
    {
      if leader !in officeOf {
        return Failure(NotLinked);
      }
      var key := (officeOf[leader], eventId);
      if key !in links {
        if eventId !in events {
          return Failure(LinkFailed);
        }
        links := links[key := value];
        return Success(PriorityInserted);
      }
      links := links[key := value];
      r := Success(PriorityUpdated);
    }
  }

  /** The removal loop of set_events_for_p_office: the office's links to `drop` are deleted. */
  method DropLinks(links: map<(int, int), bool>, office: int, drop: set<int>) returns (out: map<(int, int), bool>)
    ensures forall p :: p in out <==> p in links && !(p.0 == office && p.1 in drop)
    ensures forall p :: p in out ==> out[p] == links[p]
  {
    out := links;
    var todo := drop;
    while exists e :: e in todo
      invariant todo <= drop
      invariant forall p :: p in out <==> p in links && !(p.0 == office && p.1 in drop - todo)
      invariant forall p :: p in out ==> out[p] == links[p]
      decreases |todo|
    {
      var e :| e in todo;
      out := out - {(office, e)};
      todo := todo - {e};
    }
  }

  /** The insertion loop of set_events_for_p_office: a link to each event of `add`, not important. */
  method AddLinks(links: map<(int, int), bool>, office: int, add: set<int>) returns (out: map<(int, int), bool>)
    requires forall e :: e in add ==> (office, e) !in links
    ensures forall p :: p in out <==> p in links || (p.0 == office && p.1 in add)
    ensures forall p :: p in out && p in links ==> out[p] == links[p]
    ensures forall p :: p in out && p !in links ==> !out[p]
  {
    out := links;
    var todo := add;
    while exists e :: e in todo
      invariant todo <= add
      invariant forall p :: p in out <==> p in links || (p.0 == office && p.1 in add - todo)
      invariant forall p :: p in out && p in links ==> out[p] == links[p]
      invariant forall p :: p in out && p !in links ==> !out[p]
      decreases |todo|
    {
      var e :| e in todo;
      out := out[(office, e) := false];
      todo := todo - {e};
    }
  }

  /** Dropping the unlisted and adding the new leaves the office linked to exactly the listed events. */
  lemma SetEventsLinks(before: map<(int, int), bool>, kept: map<(int, int), bool>, after: map<(int, int), bool>,
                       office: int, current: set<int>, wanted: set<int>)
    requires current == SeenBy(before, office)
    requires forall p :: p in kept <==> p in before && !(p.0 == office && p.1 in current - wanted)
    requires forall p :: p in kept ==> kept[p] == before[p]
    requires forall p :: p in after <==> p in kept || (p.0 == office && p.1 in wanted - current)
    requires forall p :: p in after && p in kept ==> after[p] == kept[p]
    requires forall p :: p in after && p !in kept ==> !after[p]
    ensures forall p :: p in after <==> (p in before && p.0 != office) || (p.0 == office && p.1 in wanted)
    ensures forall p :: p in after && p in before ==> after[p] == before[p]
    ensures forall p :: p in after && p !in before ==> !after[p]
  {
    forall p: (int, int) | p.0 == office && p.1 in wanted && p.1 in current ensures p in before {
      var q :| q in before && q.0 == office && q.1 == p.1;
      assert p == q;
    }
    forall p | p in before && p.0 == office ensures p.1 in current {
    }
    forall p | p in after && p in before ensures after[p] == before[p] {
      if p !in kept {
        assert false;
      }
    }
  }

  /** After a successful event update, the office sees exactly the listed events and other offices see what they saw. */
  lemma AccessibleAfterSet(before: map<(int, int), bool>, after: map<(int, int), bool>, office: int, ids: seq<int>)
    requires forall p :: p in after <==> (p in before && p.0 != office) || (p.0 == office && p.1 in ids)
    ensures SeenBy(after, office) == Elements(ids)
    ensures forall o :: o != office ==> SeenBy(after, o) == SeenBy(before, o)
  {
    forall e | e in ids ensures e in SeenBy(after, office) {
      assert (office, e) in after;
    }
    forall o | o != office ensures SeenBy(after, o) == SeenBy(before, o) {
      forall e | e in SeenBy(before, o) ensures e in SeenBy(after, o) {
        assert (o, e) in after;
      }
    }
  }
}
