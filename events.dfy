/**
 * An event's detail page (app/routes/events.py, `get_event`): the pupils of
 * grades 10 and 11, the event's achievements counted per stage of its type,
 * the distinct pupils among them and how many of the older pupils took part.
 *
 * The users table, the event with its type's stages and the event's
 * achievements are inputs.
 */
module Events {
  import opened Wrappers
  import opened Text
  import opened Users
  import opened Sorting
  import opened Grouping
  import opened Http

  const EventNotFound: HttpError := HttpError(NotFound, "Мероприятие не найдено")

  datatype StageRow = StageRow(id: int, title: string, stageOrder: int)

  /** The event with its type (None when the type row is gone) and that type's stages. */
  datatype EventView = EventView(
    id: int,
    title: string,
    description: Option<string>,
    eventTypeId: int,
    eventTypeTitle: Option<string>,
    stages: seq<StageRow>
  )

  /** An achievement of the event, with its pupil's name (None when the pupil row is gone) and its result's title. */
  datatype AchRow = AchRow(
    id: int,
    studentId: int,
    teacherId: int,
    stageId: int,
    resultId: int,
    studentName: Option<Option<string>>,
    resultTitle: Option<string>
  )

  datatype AchView = AchView(id: int, studentId: int, studentName: string, teacherId: int, stageId: int,
                             resultId: int, resultTitle: Option<string>)

  datatype StageStat = StageStat(stageId: int, title: string, order: int, achievementCount: nat, achievements: seq<AchView>)

  datatype Detail = Detail(
    id: int,
    title: string,
    description: string,
    eventTypeId: int,
    eventTypeName: string,
    totalAchievements: nat,
    stageStatistics: seq<StageStat>,
    uniqueStudentsCount: nat,
    totalHighschoolStudents: nat,
    participatingHighschoolStudents: nat
  )

  // ---------------------------------------------------------------------
  // Grades 10 and 11

  predicate IsHighSchool(u: User) {
    Truthy(u.groupName) && (StartsWith(u.groupName.value, "10") || StartsWith(u.groupName.value, "11"))
  }

  function HighSchool(users: seq<User>): (r: seq<User>)
    ensures |r| <= |users|
  {
    if users == [] then []
    else
      var u := users[|users| - 1];
      HighSchool(users[..|users| - 1]) + (if IsHighSchool(u) then [u] else [])
  }

  /** Exactly the grade 10 and 11 users are kept. */
  lemma {:induction false} HighSchoolMembers(users: seq<User>)
    ensures forall u :: u in HighSchool(users) <==> u in users && IsHighSchool(u)
  {
    if users != [] {
      var front := users[..|users| - 1];
      HighSchoolMembers(front);
      assert users == front + [users[|users| - 1]];
    }
  }

  lemma HighSchoolSnoc(users: seq<User>, i: nat)
    requires i < |users|
    ensures HighSchool(users[..i + 1]) == HighSchool(users[..i]) + (if IsHighSchool(users[i]) then [users[i]] else [])
  {
    var p := users[..i + 1];
    assert p[..|p| - 1] == users[..i];
    assert p[|p| - 1] == users[i];
  }

  /** The first loop of the route: the users whose class name starts with "10" or "11", in table order. */
  method HighSchoolPupils(users: seq<User>) returns (hs: seq<User>)
    ensures hs == HighSchool(users)
  {
    hs := [];
    var i := 0;
    while i < |users|
      invariant 0 <= i <= |users|
      invariant hs == HighSchool(users[..i])
    {
      HighSchoolSnoc(users, i);
      var u := users[i];
      if u.groupName.Some? && u.groupName.value != []
         && (StartsWith(u.groupName.value, "10") || StartsWith(u.groupName.value, "11")) {
        assert IsHighSchool(u);
        hs := hs + [u];
      } else {
        assert !IsHighSchool(u);
      }
      i := i + 1;
    }
    PrefixAll(users);
  }

  /** A class name that is "10" or "11" with anything after it is a high-school class; "1", "9А" and "" are not. */
  lemma HighSchoolClasses(u: User)
    ensures u.groupName == Some("10А") ==> IsHighSchool(u)
    ensures u.groupName == Some("11-Б") ==> IsHighSchool(u)
    ensures u.groupName == Some("1") || u.groupName == Some("9А") || u.groupName == Some("") || u.groupName.None?
      ==> !IsHighSchool(u)
  {
    if u.groupName == Some("10А") {
      assert u.groupName.value[..2] == "10";
    }
    if u.groupName == Some("11-Б") {
      assert u.groupName.value[..2] == "11";
    }
    if u.groupName == Some("9А") {
      assert u.groupName.value[..2][0] == '9';
    }
  }

  // ---------------------------------------------------------------------
  // Counting per stage

  /** The achievements of one stage, in the order the query returned them. */
  function OfStage(achs: seq<AchRow>, stageId: int): (r: seq<AchRow>)
    ensures |r| <= |achs|
    ensures forall a :: a in r <==> a in achs && a.stageId == stageId
  {
    if achs == [] then []
    else
      var a := achs[|achs| - 1];
      OfStage(achs[..|achs| - 1], stageId) + (if a.stageId == stageId then [a] else [])
  }

  function ViewOf(a: AchRow): AchView {
    AchView(a.id, a.studentId, if a.studentName.Some? then Strip(a.studentName.value.GetOr("")) else "",
            a.teacherId, a.stageId, a.resultId, a.resultTitle)
  }

  function Views(rows: seq<AchRow>): (r: seq<AchView>)
    ensures |r| == |rows|
    ensures forall j :: 0 <= j < |rows| ==> r[j].id == rows[j].id && r[j].stageId == rows[j].stageId
  {
    seq(|rows|, j requires 0 <= j < |rows| => ViewOf(rows[j]))
  }

  /** A stage's statistic, listing its achievements; `order` is the value the sort uses. */
  function StatOf(stage: StageRow, achs: seq<AchRow>, order: int): (s: StageStat)
    ensures s.achievementCount == |OfStage(achs, stage.id)| == |s.achievements|
    ensures forall v :: v in s.achievements ==> v.stageId == stage.id
  {
    StageStat(stage.id, stage.title, order, |OfStage(achs, stage.id)|, Views(OfStage(achs, stage.id)))
  }

  /** One statistic per stage of the type, in the type's stage order, each ordered by its `stage_order`. */
  function Unsorted(stages: seq<StageRow>, achs: seq<AchRow>): (r: seq<StageStat>)
    ensures |r| == |stages|
  {
    if stages == [] then []
    else
      var s := stages[|stages| - 1];
      Unsorted(stages[..|stages| - 1], achs) + [StatOf(s, achs, s.stageOrder)]
  }

  lemma UnsortedAt(stages: seq<StageRow>, achs: seq<AchRow>, j: nat)
    requires j < |stages|
    ensures Unsorted(stages, achs)[j] == StatOf(stages[j], achs, stages[j].stageOrder)
  {
    if j < |stages| - 1 {
      UnsortedAt(stages[..|stages| - 1], achs, j);
    }
  }

  /**
   * The statistics as the route's loop records them: `getattr(stage,
   * 'order', 0)` reads an attribute stages do not have, so every order is 0.
   */
  function Recorded(stages: seq<StageRow>, achs: seq<AchRow>): (r: seq<StageStat>)
    ensures |r| == |stages|
  {
    if stages == [] then []
    else
      var s := stages[|stages| - 1];
      Recorded(stages[..|stages| - 1], achs) + [StatOf(s, achs, 0)]
  }

  lemma {:induction false} RecordedAt(stages: seq<StageRow>, achs: seq<AchRow>, j: nat)
    requires j < |stages|
    ensures Recorded(stages, achs)[j] == StatOf(stages[j], achs, 0)
  {
    if j < |stages| - 1 {
      RecordedAt(stages[..|stages| - 1], achs, j);
    }
  }

  predicate ByOrder(a: StageStat, b: StageStat) {
    a.order <= b.order
  }

  lemma ByOrderOrders()
    ensures TotalPreorder(ByOrder)
  {
  }

  /** The corrected statistics: sorted by the stages' `stage_order`. */
  function Stats(stages: seq<StageRow>, achs: seq<AchRow>): (r: seq<StageStat>)
    ensures |r| == |stages|
  {
    SortBy(Unsorted(stages, achs), ByOrder)
  }

  /** The corrected sort: statistics in `stage_order`, one per stage, and each counts exactly its stage's achievements. */
  lemma StatsOrdered(stages: seq<StageRow>, achs: seq<AchRow>)
    ensures SortedBy(Stats(stages, achs), ByOrder)
    ensures multiset(Stats(stages, achs)) == multiset(Unsorted(stages, achs))
    ensures forall s :: s in Stats(stages, achs) ==> s.achievementCount == |OfStage(achs, s.stageId)|
  {
    ByOrderOrders();
    SortBySorted(Unsorted(stages, achs), ByOrder);
    forall s | s in Stats(stages, achs) ensures s.achievementCount == |OfStage(achs, s.stageId)| {
      assert s in multiset(Unsorted(stages, achs));
      var j :| 0 <= j < |stages| && Unsorted(stages, achs)[j] == s;
      UnsortedAt(stages, achs, j);
    }
  }

  // --- as written: the sort key reads an attribute stages do not have

  /** The route as written: the recorded statistics sorted by their `order`, which is 0 for every stage. */
  function StatsAsWritten(stages: seq<StageRow>, achs: seq<AchRow>): (r: seq<StageStat>)
    ensures |r| == |stages|
  {
    SortBy(Recorded(stages, achs), ByOrder)
  }

  /** A stable sort under a comparison that holds everywhere changes nothing. */
  lemma {:induction false} SortByAllEqual(s: seq<StageStat>)
    requires forall j :: 0 <= j < |s| ==> s[j].order == 0
    ensures SortBy(s, ByOrder) == s
  {
    if s != [] {
      SortByAllEqual(s[1..]);
      assert s == [s[0]] + s[1..];
    }
  }

  /**
   * As written, the statistics stay in the type's stored stage order,
   * `stage_order` is never consulted, and each counts its stage's achievements.
   */
  lemma AsWrittenKeepsTypeOrder(stages: seq<StageRow>, achs: seq<AchRow>)
    ensures StatsAsWritten(stages, achs) == Recorded(stages, achs)
    ensures |StatsAsWritten(stages, achs)| == |stages|
    ensures forall j :: 0 <= j < |stages| ==>
      && StatsAsWritten(stages, achs)[j].stageId == stages[j].id
      && StatsAsWritten(stages, achs)[j].order == 0
      && StatsAsWritten(stages, achs)[j].achievementCount == |OfStage(achs, stages[j].id)|
  {
    forall j | 0 <= j < |stages| ensures Recorded(stages, achs)[j] == StatOf(stages[j], achs, 0) {
      RecordedAt(stages, achs, j);
    }
    SortByAllEqual(Recorded(stages, achs));
  }

  /** Two stages whose `stage_order` is the reverse of their stored order come out unsorted. */
  lemma AsWrittenIgnoresStageOrder()
    ensures var stages := [StageRow(1, "финал", 2), StageRow(2, "отбор", 1)];
      StatsAsWritten(stages, [])[0].stageId == 1 && stages[0].stageOrder > stages[1].stageOrder
      && Stats(stages, [])[0].stageId == 2
  {
    var stages := [StageRow(1, "финал", 2), StageRow(2, "отбор", 1)];
    AsWrittenKeepsTypeOrder(stages, []);
    assert stages[..1] == [stages[0]];
    assert Unsorted(stages, []) == [StatOf(stages[0], [], 2), StatOf(stages[1], [], 1)];
  }

  // ---------------------------------------------------------------------
  // Totals and distinct pupils

  /** Some stage of the type has this id. */
  predicate HasStage(stages: seq<StageRow>, stageId: int) {
    exists j :: 0 <= j < |stages| && stages[j].id == stageId
  }

  lemma HasStageSnoc(stages: seq<StageRow>, stageId: int)
    requires stages != []
    ensures HasStage(stages, stageId) <==> HasStage(stages[..|stages| - 1], stageId) || stages[|stages| - 1].id == stageId
  {
    var front := stages[..|stages| - 1];
    if HasStage(stages, stageId) && stages[|stages| - 1].id != stageId {
      var j :| 0 <= j < |stages| && stages[j].id == stageId;
      assert front[j].id == stageId;
    }
    if HasStage(front, stageId) {
      var j :| 0 <= j < |front| && front[j].id == stageId;
      assert stages[j].id == stageId;
    }
  }

  /** The stage ids of a type are its stages' primary keys. */
  predicate DistinctIds(stages: seq<StageRow>) {
    forall i, j :: 0 <= i < j < |stages| ==> stages[i].id != stages[j].id
  }

  /** `total_achievements`: the per-stage counts added up. */
  function Total(stages: seq<StageRow>, achs: seq<AchRow>): nat {
    if stages == [] then 0
    else Total(stages[..|stages| - 1], achs) + |OfStage(achs, stages[|stages| - 1].id)|
  }

  /** The achievements that belong to some stage of the type. */
  function Counted(achs: seq<AchRow>, stages: seq<StageRow>): (r: seq<AchRow>)
    ensures forall a :: a in r <==> a in achs && HasStage(stages, a.stageId)
  {
    if achs == [] then []
    else
      var a := achs[|achs| - 1];
      Counted(achs[..|achs| - 1], stages) + (if HasStage(stages, a.stageId) then [a] else [])
  }

  /** How many stages carry this id. */
  function Hits(stages: seq<StageRow>, stageId: int): nat {
    if stages == [] then 0
    else Hits(stages[..|stages| - 1], stageId) + (if stages[|stages| - 1].id == stageId then 1 else 0)
  }

  lemma {:induction false} HitsDistinct(stages: seq<StageRow>, stageId: int)
    requires DistinctIds(stages)
    ensures Hits(stages, stageId) == if HasStage(stages, stageId) then 1 else 0
  {
    if stages != [] {
      var front := stages[..|stages| - 1];
      HitsDistinct(front, stageId);
      HasStageSnoc(stages, stageId);
      if HasStage(front, stageId) {
        var j :| 0 <= j < |front| && front[j].id == stageId;
        assert stages[j].id == stageId;
      }
    }
  }

  lemma {:induction false} TotalSnoc(stages: seq<StageRow>, achs: seq<AchRow>, a: AchRow)
    ensures Total(stages, achs + [a]) == Total(stages, achs) + Hits(stages, a.stageId)
  {
    if stages != [] {
      var front := stages[..|stages| - 1];
      TotalSnoc(front, achs, a);
      var sid := stages[|stages| - 1].id;
      assert (achs + [a])[..|achs|] == achs;
      assert OfStage(achs + [a], sid) == OfStage(achs, sid) + (if a.stageId == sid then [a] else []);
    }
  }

  /**
   * `total_achievements` counts every achievement of a stage of the type
   * once, and achievements of any other stage not at all.
   */
  lemma {:induction false} TotalIsCounted(stages: seq<StageRow>, achs: seq<AchRow>)
    requires DistinctIds(stages)
    ensures Total(stages, achs) == |Counted(achs, stages)|
  {
    if achs == [] {
      TotalEmpty(stages);
    } else {
      var front := achs[..|achs| - 1];
      var a := achs[|achs| - 1];
      TotalIsCounted(stages, front);
      assert front + [a] == achs;
      TotalSnoc(stages, front, a);
      HitsDistinct(stages, a.stageId);
    }
  }

  lemma {:induction false} TotalEmpty(stages: seq<StageRow>)
    ensures Total(stages, []) == 0
  {
    if stages != [] {
      TotalEmpty(stages[..|stages| - 1]);
    }
  }

  /** The pupils of the counted achievements, stage by stage. */
  function StudentIds(stages: seq<StageRow>, achs: seq<AchRow>): set<int> {
    if stages == [] then {}
    else StudentIds(stages[..|stages| - 1], achs) + (set a | a in OfStage(achs, stages[|stages| - 1].id) :: a.studentId)
  }

  /** `unique_students_count` counts the distinct pupils among the achievements of the type's stages. */
  lemma {:induction false} StudentIdsMeaning(stages: seq<StageRow>, achs: seq<AchRow>)
    ensures StudentIds(stages, achs) == set a | a in Counted(achs, stages) :: a.studentId
  {
    if stages != [] {
      var front := stages[..|stages| - 1];
      StudentIdsMeaning(front, achs);
      forall x ensures x in StudentIds(stages, achs) <==> x in set a | a in Counted(achs, stages) :: a.studentId {
        if x in set a | a in Counted(achs, stages) :: a.studentId {
          var a :| a in Counted(achs, stages) && a.studentId == x;
          HasStageSnoc(stages, a.stageId);
        }
        if x in StudentIds(stages, achs) && x !in StudentIds(front, achs) {
          var a :| a in OfStage(achs, stages[|stages| - 1].id) && a.studentId == x;
          HasStageSnoc(stages, a.stageId);
        }
        if x in StudentIds(front, achs) {
          var a :| a in Counted(achs, front) && a.studentId == x;
          HasStageSnoc(stages, a.stageId);
        }
      }
    }
  }

  /** The older pupils who have an achievement among the counted ones. */
  function Participating(hs: seq<User>, ids: set<int>): (r: seq<User>)
    ensures |r| <= |hs|
    ensures forall u :: u in r <==> u in hs && u.id in ids
  {
    if hs == [] then []
    else
      var u := hs[|hs| - 1];
      Participating(hs[..|hs| - 1], ids) + (if u.id in ids then [u] else [])
  }

  /** Taking part implies being in grade 10 or 11; with no such pupils nobody takes part. */
  lemma ParticipatingHighSchool(users: seq<User>, ids: set<int>)
    ensures forall u :: u in Participating(HighSchool(users), ids) ==> u in users && IsHighSchool(u) && u.id in ids
    ensures HighSchool(users) == [] ==> Participating(HighSchool(users), ids) == []
  {
    HighSchoolMembers(users);
  }

  /** The page for an event that exists, as the route builds it. */
  function DetailOf(e: EventView, users: seq<User>, achs: seq<AchRow>): (d: Detail)
    ensures d.id == e.id && d.eventTypeId == e.eventTypeId
    ensures d.participatingHighschoolStudents <= d.totalHighschoolStudents <= |users|
  {
    var hs := HighSchool(users);
    var ids := StudentIds(e.stages, achs);
    Detail(e.id, e.title, e.description.GetOr(""), e.eventTypeId, e.eventTypeTitle.GetOr(""),
           Total(e.stages, achs), StatsAsWritten(e.stages, achs), |ids|, |hs|, |Participating(hs, ids)|)
  }

  /**
   * What the page says: the statistics in the stored stage order, each with
   * its stage's count; the total is the number of the type's achievements
   * and the pupil count the number of distinct pupils among them.
   */
  lemma DetailMeaning(e: EventView, users: seq<User>, achs: seq<AchRow>)
    requires DistinctIds(e.stages)
    ensures var d := DetailOf(e, users, achs);
      && |d.stageStatistics| == |e.stages|
      && (forall j :: 0 <= j < |e.stages| ==>
            d.stageStatistics[j].stageId == e.stages[j].id
            && d.stageStatistics[j].achievementCount == |OfStage(achs, e.stages[j].id)|)
      && d.totalAchievements == |Counted(achs, e.stages)|
      && d.uniqueStudentsCount == |set a | a in Counted(achs, e.stages) :: a.studentId|
      && d.totalHighschoolStudents == |HighSchool(users)|
  {
    AsWrittenKeepsTypeOrder(e.stages, achs);
    TotalIsCounted(e.stages, achs);
    StudentIdsMeaning(e.stages, achs);
  }

  // ---------------------------------------------------------------------
  // The loops of the route

  /** The inner loop: the pupils of one stage's achievements added to the set. */
  method AddStudents(ids: set<int>, rows: seq<AchRow>) returns (r: set<int>)
    ensures r == ids + set a | a in rows :: a.studentId
  {
    r := ids;
    var i := 0;
    while i < |rows|
      invariant 0 <= i <= |rows|
      invariant r == ids + set a | a in rows[..i] :: a.studentId
    {
      PrefixSnoc(rows, i);
      r := r + {rows[i].studentId};
      i := i + 1;
    }
    PrefixAll(rows);
  }

  /** The loop over the type's stages: statistics, the running total and the pupils seen. */
  method StageLoop(stages: seq<StageRow>, achs: seq<AchRow>) returns (stats: seq<StageStat>, total: nat, ids: set<int>)
    ensures stats == Recorded(stages, achs) && total == Total(stages, achs) && ids == StudentIds(stages, achs)
  {
    stats := [];
    total := 0;
    ids := {};
    var i := 0;
    while i < |stages|
      invariant 0 <= i <= |stages|
      invariant stats == Recorded(stages[..i], achs)
      invariant total == Total(stages[..i], achs)
      invariant ids == StudentIds(stages[..i], achs)
    {
      PrefixSnoc(stages, i);
      assert stages[..i + 1][..i] == stages[..i];
      var stage := stages[i];
      var rows := OfStage(achs, stage.id);
      total := total + |rows|;
      ids := AddStudents(ids, rows);
      stats := stats + [StageStat(stage.id, stage.title, 0, |rows|, Views(rows))];
      i := i + 1;
    }
    PrefixAll(stages);
  }

  /** get_event: 404 for an unknown event, otherwise its page with the statistics in the stored stage order. */
  method GetEvent(event: Option<EventView>, users: seq<User>, achs: seq<AchRow>) returns (r: Result<Detail, HttpError>)
    ensures event.None? ==> r == Failure(EventNotFound)
    ensures event.Some? ==> r == Success(DetailOf(event.value, users, achs))
  {
    var hs := HighSchoolPupils(users);
    if event.None? {
      return Failure(EventNotFound);
    }
    var e := event.value;
    var stats, total, ids := StageLoop(e.stages, achs);
    stats := SortBy(stats, ByOrder);
    var participating: seq<User> := [];
    if hs != [] {
      participating := Participating(hs, ids);
    }
    r := Success(Detail(e.id, e.title, e.description.GetOr(""), e.eventTypeId, e.eventTypeTitle.GetOr(""),
                        total, stats, |ids|, |hs|, |participating|));
  }
}
