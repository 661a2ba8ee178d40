/**
 * A teacher's class journal (app/routes/dailary.py): every pupil of a class
 * against every stage of an event's type, scored from the pupil's
 * achievement for that stage, and the two writes that set or remove such an
 * achievement.
 *
 * The table reads of the journal are inputs (the event, the class, its
 * users, the event type, the stages, the results, the achievements); the
 * writes work on a Gradebook object whose achievement table is keyed by
 * (pupil, event, stage).
 */
module Dailary {
  import opened Wrappers
  import opened Text
  import opened Users
  import opened Sorting
  import opened Grouping
  import opened Http

  const Passed: string := "зачет"
  const NotPassed: string := "незачет"
  const PupilPrefix: string := "Ученик "

  const EventNotFound: HttpError := HttpError(NotFound, "Мероприятие не найдено")
  const NoPupils: HttpError := HttpError(NotFound, "В классе нет учеников")
  /** `group.name` on a missing class raises, which FastAPI answers with a bare 500. */
  const ClassMissing: HttpError := HttpError(ServerError, "Internal Server Error")
  const PupilNotFound: HttpError := HttpError(NotFound, "Ученик не найден")
  const StageNotFound: HttpError := HttpError(NotFound, "Стадия не найдена")
  const ResultNotFound: HttpError := HttpError(NotFound, "Результат не найден")
  const TeacherNotFound: HttpError := HttpError(NotFound, "Учитель не найден")
  const Updated: string := "Результат успешно обновлен"
  const Deleted: string := "Результат успешно удален"

  datatype EventInfo = EventInfo(id: int, title: string, eventTypeId: int, dateStart: Option<Time>)
  datatype EventTypeInfo = EventTypeInfo(title: string, minStagesForCompletion: Option<int>)
  datatype StageInfo = StageInfo(id: int, title: string, stageOrder: int, minScoreForFinished: int)
  datatype ResultInfo = ResultInfo(id: int, stageId: int, title: string, pointsForDone: int)

  /** A row of student_achievements; `studentData` is the (name, class) snapshot taken when it was created. */
  datatype Achievement = Achievement(
    teacherId: int,
    resultId: int,
    achievedAt: Time,
    studentData: Option<(Option<string>, Option<string>)>
  )

  /** The achievement table's key: (pupil, event, stage). */
  type Key = (int, int, int)

  datatype StageCell = StageCell(
    name: string,
    status: string,
    date: Option<Time>,
    resultTitle: Option<string>,
    score: int,
    minRequiredScore: int,
    currentScore: int,
    stageId: int,
    possibleResults: seq<ResultInfo>
  )

  datatype PupilJournal = PupilJournal(
    id: int,
    studentName: string,
    studentId: int,
    eventName: string,
    eventType: string,
    date: Time,
    stages: seq<StageCell>,
    totalScore: int,
    minStagesRequired: int,
    completedStagesCount: nat
  )

  // ---------------------------------------------------------------------
  // The journal, stated over the fetched rows

  /** The class's pupils: its users that are not archived, in the order the query returns them. */
  function Pupils(users: seq<User>, groupName: string): (r: seq<User>)
    ensures |r| <= |users|
    ensures forall u :: u in r <==> u in users && u.groupName == Some(groupName) && !u.archived
  {
    if users == [] then []
    else
      var u := users[|users| - 1];
      Pupils(users[..|users| - 1], groupName) + (if u.groupName == Some(groupName) && !u.archived then [u] else [])
  }

  predicate ByStageOrder(a: StageInfo, b: StageInfo) {
    a.stageOrder <= b.stageOrder
  }

  lemma ByStageOrderOrders()
    ensures TotalPreorder(ByStageOrder)
  {
  }

  /** The results a stage offers: the results table's rows for that stage, in table order. */
  function PossibleFor(results: seq<ResultInfo>, stageId: int): (r: seq<ResultInfo>)
    ensures forall x :: x in r <==> x in results && x.stageId == stageId
  {
    if results == [] then []
    else
      var x := results[|results| - 1];
      PossibleFor(results[..|results| - 1], stageId) + (if x.stageId == stageId then [x] else [])
  }

  /** The result row an achievement points at (result ids are the table's primary key). */
  function ResultOf(results: seq<ResultInfo>, id: int): (r: Option<ResultInfo>)
    ensures r.Some? ==> r.value in results && r.value.id == id
    ensures r.None? ==> forall x :: x in results ==> x.id != id
  {
    if results == [] then None
    else if results[0].id == id then Some(results[0])
    else ResultOf(results[1..], id)
  }

  /** Every achievement's result is in the results table: the foreign key the route relies on. */
  ghost predicate ResultsExist(achievements: map<Key, Achievement>, results: seq<ResultInfo>) {
    forall k :: k in achievements ==> ResultOf(results, achievements[k].resultId).Some?
  }

  /**
   * One cell: with an achievement, its result's points and title, passed
   * when the points reach the stage minimum; without one, 0 points and not
   * passed, whatever the minimum.
   */
  function CellOf(stage: StageInfo, a: Option<Achievement>, results: seq<ResultInfo>): (c: StageCell)
    requires a.Some? ==> ResultOf(results, a.value.resultId).Some?
    ensures c.status == Passed <==> a.Some? && ResultOf(results, a.value.resultId).value.pointsForDone >= stage.minScoreForFinished
    ensures c.status == Passed || c.status == NotPassed
    ensures c.currentScore == if a.Some? then ResultOf(results, a.value.resultId).value.pointsForDone else 0
    ensures c.resultTitle == if a.Some? then Some(ResultOf(results, a.value.resultId).value.title) else None
    ensures c.date == if a.Some? then Some(a.value.achievedAt) else None
    ensures c.name == stage.title && c.stageId == stage.id
    ensures c.score == stage.minScoreForFinished && c.minRequiredScore == stage.minScoreForFinished
    ensures c.possibleResults == PossibleFor(results, stage.id)
  {
    var possible := PossibleFor(results, stage.id);
    match a
    case None => StageCell(stage.title, NotPassed, None, None, stage.minScoreForFinished,
                           stage.minScoreForFinished, 0, stage.id, possible)
    case Some(ach) =>
      var res := ResultOf(results, ach.resultId).value;
      StageCell(stage.title, if res.pointsForDone >= stage.minScoreForFinished then Passed else NotPassed,
                Some(ach.achievedAt), Some(res.title), stage.minScoreForFinished,
                stage.minScoreForFinished, res.pointsForDone, stage.id, possible)
  }

  function AchievementAt(achievements: map<Key, Achievement>, k: Key): Option<Achievement> {
    if k in achievements then Some(achievements[k]) else None
  }

  function Cells(pupil: int, eventId: int, stages: seq<StageInfo>, achievements: map<Key, Achievement>,
                 results: seq<ResultInfo>): (r: seq<StageCell>)
    requires ResultsExist(achievements, results)
    ensures |r| == |stages|
  {
    seq(|stages|, j requires 0 <= j < |stages| =>
      CellOf(stages[j], AchievementAt(achievements, (pupil, eventId, stages[j].id)), results))
  }

  function TotalScore(cells: seq<StageCell>): int {
    if cells == [] then 0 else TotalScore(cells[..|cells| - 1]) + cells[|cells| - 1].currentScore
  }

  function CompletedCount(cells: seq<StageCell>): (n: nat)
    ensures n <= |cells|
  {
    if cells == [] then 0
    else CompletedCount(cells[..|cells| - 1]) + (if cells[|cells| - 1].status == Passed then 1 else 0)
  }

  lemma CountsSnoc(cells: seq<StageCell>, c: StageCell)
    ensures TotalScore(cells + [c]) == TotalScore(cells) + c.currentScore
    ensures CompletedCount(cells + [c]) == CompletedCount(cells) + (if c.status == Passed then 1 else 0)
  {
    assert (cells + [c])[..|cells|] == cells;
  }

  /** `min_stages_for_completion or len(stages)`: a missing or zero minimum means every stage. */
  function MinStages(t: EventTypeInfo, stageCount: nat): (m: int)
    ensures t.minStagesForCompletion.None? || t.minStagesForCompletion.value == 0 ==> m == stageCount
    ensures t.minStagesForCompletion.Some? && t.minStagesForCompletion.value != 0 ==> m == t.minStagesForCompletion.value
  {
    match t.minStagesForCompletion
    case Some(m) => if m != 0 then m else stageCount
    case None => stageCount
  }

  function PupilRow(u: User, event: EventInfo, t: EventTypeInfo, cells: seq<StageCell>, now: Time): PupilJournal {
    PupilJournal(u.id, if Truthy(u.displayName) then u.displayName.value else PupilPrefix + IntToString(u.id),
                 u.id, event.title, t.title, event.dateStart.GetOr(now), cells,
                 TotalScore(cells), MinStages(t, |cells|), CompletedCount(cells))
  }

  /** The journal: one row per pupil of the class, each with one cell per stage in stage order. */
  function Journal(event: EventInfo, pupils: seq<User>, t: EventTypeInfo, stages: seq<StageInfo>,
                   achievements: map<Key, Achievement>, results: seq<ResultInfo>, now: Time): (r: seq<PupilJournal>)
    requires ResultsExist(achievements, results)
    ensures |r| == |pupils|
  {
    var ordered := SortBy(stages, ByStageOrder);
    seq(|pupils|, i requires 0 <= i < |pupils| =>
      PupilRow(pupils[i], event, t, Cells(pupils[i].id, event.id, ordered, achievements, results), now))
  }

  /**
   * What a pupil's row says: stages in stage order, the total of the cell
   * scores, the count of passed cells, at most one per stage, and a minimum
   * that is the number of stages when the type sets none.
   */
  lemma JournalRowMeaning(event: EventInfo, pupils: seq<User>, t: EventTypeInfo, stages: seq<StageInfo>,
                          achievements: map<Key, Achievement>, results: seq<ResultInfo>, now: Time, i: nat)
    requires ResultsExist(achievements, results) && i < |pupils|
    ensures var row := Journal(event, pupils, t, stages, achievements, results, now)[i];
      && row.id == pupils[i].id
      && |row.stages| == |stages|
      && SortedBy(SortBy(stages, ByStageOrder), ByStageOrder)
      && multiset(SortBy(stages, ByStageOrder)) == multiset(stages)
      && (forall j :: 0 <= j < |row.stages| ==>
            row.stages[j].stageId == SortBy(stages, ByStageOrder)[j].id
            && row.stages[j].name == SortBy(stages, ByStageOrder)[j].title)
      && row.totalScore == TotalScore(row.stages)
      && row.completedStagesCount == CompletedCount(row.stages) <= |stages|
      && (t.minStagesForCompletion.None? || t.minStagesForCompletion == Some(0) ==> row.minStagesRequired == |stages|)
  {
    ByStageOrderOrders();
    SortBySorted(stages, ByStageOrder);
  }

  // ---------------------------------------------------------------------
  // The loops

  /** The inner loop: one cell per stage, with the running total and passed count. */
  method PupilCells(pupil: int, eventId: int, stages: seq<StageInfo>, achievements: map<Key, Achievement>,
                    results: seq<ResultInfo>) returns (cells: seq<StageCell>, total: int, completed: nat)
    requires ResultsExist(achievements, results)
    ensures cells == Cells(pupil, eventId, stages, achievements, results)
    ensures total == TotalScore(cells) && completed == CompletedCount(cells)
  {
    ghost var target := Cells(pupil, eventId, stages, achievements, results);
    cells := [];
    total := 0;
    completed := 0;
    var j := 0;
    while j < |stages|
      invariant 0 <= j <= |stages| == |target|
      invariant cells == target[..j]
      invariant total == TotalScore(cells) && completed == CompletedCount(cells)
    {
      var stage := stages[j];
      var key := (pupil, eventId, stage.id);
      var cell: StageCell;
      if key in achievements {
        var res := ResultOf(results, achievements[key].resultId).value;
        var status := NotPassed;
        if res.pointsForDone >= stage.minScoreForFinished {
          status := Passed;
          completed := completed + 1;
        }
        cell := StageCell(stage.title, status, Some(achievements[key].achievedAt), Some(res.title),
                          stage.minScoreForFinished, stage.minScoreForFinished, res.pointsForDone,
                          stage.id, PossibleFor(results, stage.id));
      } else {
        cell := StageCell(stage.title, NotPassed, None, None, stage.minScoreForFinished,
                          stage.minScoreForFinished, 0, stage.id, PossibleFor(results, stage.id));
      }
      assert cell == target[j];
      CountsSnoc(cells, cell);
      total := total + cell.currentScore;
      PrefixSnoc(target, j);
      cells := cells + [cell];
      j := j + 1;
    }
    PrefixAll(target);
  }

  /**
   * get_class_journal, from the table reads on: a missing event is a 404, a
   * missing class a 500, a class without active pupils a 404; otherwise the
   * journal.
   */
  method ClassJournal(event: Option<EventInfo>, groupName: Option<string>, users: seq<User>, t: EventTypeInfo,
                      stages: seq<StageInfo>, achievements: map<Key, Achievement>, results: seq<ResultInfo>, now: Time)
    returns (r: Result<seq<PupilJournal>, HttpError>)
    requires ResultsExist(achievements, results)
    ensures event.None? ==> r == Failure(EventNotFound)
    ensures event.Some? && groupName.None? ==> r == Failure(ClassMissing)
    ensures event.Some? && groupName.Some? && Pupils(users, groupName.value) == [] ==> r == Failure(NoPupils)
    ensures event.Some? && groupName.Some? && Pupils(users, groupName.value) != [] ==>
      r == Success(Journal(event.value, Pupils(users, groupName.value), t, stages, achievements, results, now))
  {
    if event.None? {
      return Failure(EventNotFound);
    }
    if groupName.None? {
      return Failure(ClassMissing);
    }
    var pupils := Pupils(users, groupName.value);
    if pupils == [] {
      return Failure(NoPupils);
    }
    var ev := event.value;
    var ordered := SortBy(stages, ByStageOrder);
    ghost var target := Journal(ev, pupils, t, stages, achievements, results, now);
    var rows: seq<PupilJournal> := [];
    var i := 0;
    while i < |pupils|
      invariant 0 <= i <= |pupils| == |target|
      invariant rows == target[..i]
    {
      var u := pupils[i];
      var cells, total, completed := PupilCells(u.id, ev.id, ordered, achievements, results);
      var row := PupilJournal(u.id, if Truthy(u.displayName) then u.displayName.value else PupilPrefix + IntToString(u.id),
                              u.id, ev.title, t.title, ev.dateStart.GetOr(now), cells,
                              total, MinStages(t, |ordered|), completed);
      assert row == target[i];
      PrefixSnoc(target, i);
      rows := rows + [row];
      i := i + 1;
    }
    PrefixAll(target);
    r := Success(rows);
  }

  // ---------------------------------------------------------------------
  // Setting and removing a result

  /** The tables the writes check and the achievement table they change. */
  class Gradebook {
    var users: map<int, User>
    var events: set<int>
    var stages: set<int>
    var results: set<int>
    var achievements: map<Key, Achievement>

    constructor(users: map<int, User>, events: set<int>, stages: set<int>, results: set<int>,
                achievements: map<Key, Achievement>)
      ensures this.users == users && this.events == events && this.stages == stages
      ensures this.results == results && this.achievements == achievements
    {
      this.users := users;
      this.events := events;
      this.stages := stages;
      this.results := results;
      this.achievements := achievements;
    }

    /** The first missing entity, in the order the route checks them. */
    function Missing(eventId: int, pupil: int, stageId: int, resultId: int, teacher: int): (r: Option<HttpError>)
      reads this
      ensures r.None? <==> pupil in users && eventId in events && stageId in stages && resultId in results && teacher in users
      ensures pupil !in users ==> r == Some(PupilNotFound)
      ensures pupil in users && eventId !in events ==> r == Some(EventNotFound)
      ensures pupil in users && eventId in events && stageId !in stages ==> r == Some(StageNotFound)
      ensures pupil in users && eventId in events && stageId in stages && resultId !in results ==> r == Some(ResultNotFound)
    {
      if pupil !in users then Some(PupilNotFound)
      else if eventId !in events then Some(EventNotFound)
      else if stageId !in stages then Some(StageNotFound)
      else if resultId !in results then Some(ResultNotFound)
      else if teacher !in users then Some(TeacherNotFound)
      else None
    }

    /**
     * update_student_result: after the checks, the (pupil, event, stage)
     * achievement gets the result, the teacher and the current time; a new
     * one also records the pupil's name and class. No other achievement
     * changes, and nothing is written when a check fails.
     */
    method UpdateResult(eventId: int, pupil: int, stageId: int, resultId: int, teacher: int, now: Time)
      returns (r: Result<string, HttpError>)
      modifies this
      ensures users == old(users) && events == old(events) && stages == old(stages) && results == old(results)
      ensures Missing(eventId, pupil, stageId, resultId, teacher).Some? ==>
        r == Failure(Missing(eventId, pupil, stageId, resultId, teacher).value) && achievements == old(achievements)
      ensures Missing(eventId, pupil, stageId, resultId, teacher).None? ==>
        && r == Success(Updated)
        && achievements == old(achievements)[(pupil, eventId, stageId) := Achievement(teacher, resultId, now,
             if (pupil, eventId, stageId) in old(achievements) then old(achievements)[(pupil, eventId, stageId)].studentData
             else Some((users[pupil].displayName, users[pupil].groupName)))]
    {
      var missing := Missing(eventId, pupil, stageId, resultId, teacher);
      if missing.Some? {
        return Failure(missing.value);
      }
      var key := (pupil, eventId, stageId);
      if key in achievements {
        var a := achievements[key];
        achievements := achievements[key := a.(resultId := resultId, teacherId := teacher, achievedAt := now)];
      } else {
        var u := users[pupil];
        achievements := achievements[key := Achievement(teacher, resultId, now, Some((u.displayName, u.groupName)))];
      }
      r := Success(Updated);
    }

    /** delete_student_result: a 404 when there is no such achievement, else exactly that one is removed. */
    method DeleteResult(eventId: int, pupil: int, stageId: int) returns (r: Result<string, HttpError>)
      modifies this
      ensures users == old(users) && events == old(events) && stages == old(stages) && results == old(results)
      ensures (pupil, eventId, stageId) !in old(achievements) ==> r == Failure(ResultNotFound) && achievements == old(achievements)
      ensures (pupil, eventId, stageId) in old(achievements) ==>
        r == Success(Deleted) && achievements == old(achievements) - {(pupil, eventId, stageId)}
    {
      var key := (pupil, eventId, stageId);
      if key !in achievements {
        return Failure(ResultNotFound);
      }
      achievements := achievements - {key};
      r := Success(Deleted);
    }
  }

  /** After a result is set, that pupil's cell for the stage shows the result's points and title. */
  lemma CellAfterUpdate(stage: StageInfo, a: Achievement, results: seq<ResultInfo>, res: ResultInfo)
    requires res in results && a.resultId == res.id && ResultOf(results, res.id) == Some(res)
    ensures CellOf(stage, Some(a), results).currentScore == res.pointsForDone
    ensures CellOf(stage, Some(a), results).resultTitle == Some(res.title)
    ensures CellOf(stage, Some(a), results).status == Passed <==> res.pointsForDone >= stage.minScoreForFinished
  {
  }

  /** After a result is removed, the cell is back to 0 points and not passed, even for a zero minimum. */
  lemma CellAfterDelete(stage: StageInfo, results: seq<ResultInfo>)
    ensures CellOf(stage, None, results).currentScore == 0
    ensures CellOf(stage, None, results).status == NotPassed
    ensures CellOf(stage, None, results).resultTitle == None
  {
  }
}
