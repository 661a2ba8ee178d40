/**
 * A pupil's record book (app/routes/mark_book.py, the grouping after the
 * query): one joined row per (event, stage), already summed over the
 * pupil's achievements, is folded into one mark per event with its stage
 * marks, total score and pass/fail status.
 */
module MarkBook {
  import opened Wrappers
  import opened Text
  import opened Users

  const Passed: string := "зачет"
  const NotPassed: string := "незачет"
  const ResultSeparator: string := ", "

  /** One row of the aggregate query; None stands for SQL NULL. */
  datatype BookRow = BookRow(
    eventId: int,
    eventTitle: string,
    dateStart: Option<Time>,
    dateEnd: Option<Time>,
    minStagesForCompletion: Option<int>,
    stageId: int,
    stageTitle: string,
    minScoreForFinished: Option<int>,
    stageOrder: int,
    stageScore: int,
    lastAchievementDate: Option<Time>,
    resultTitles: Option<string>
  )

  datatype StageMark = StageMark(
    name: string,
    status: string,
    date: Option<Time>,
    resultTitle: Option<string>,
    score: int,
    minRequiredScore: int,
    currentScore: int
  )

  datatype EventMark = EventMark(
    id: int,
    eventName: string,
    status: string,
    date: Time,
    stages: seq<StageMark>,
    totalScore: int,
    minStagesRequired: int,
    completedStagesCount: nat
  )

  // ---------------------------------------------------------------------
  // One row

  /** The last ", "-separated title of the aggregated result titles, if there are any. */
  function LastResultTitle(titles: Option<string>): (r: Option<string>)
    ensures r.Some? <==> Truthy(titles)
    ensures r.Some? ==> && EndsWith(titles.value, r.value)
                        && !Contains(r.value, ResultSeparator)
                        && (r.value == titles.value || EndsWith(titles.value, ResultSeparator + r.value))
  {
    if !Truthy(titles) then None
    else
      var parts := Split(titles.value, ResultSeparator);
      JoinLast(parts, ResultSeparator);
      Some(parts[|parts| - 1])
  }

  /** The join of several parts ends with the separator and the last part. */
  lemma {:induction false} JoinLast(parts: seq<string>, sep: string)
    requires |parts| >= 1
    ensures |parts| == 1 ==> Join(parts, sep) == parts[0]
    ensures |parts| >= 2 ==> Join(parts, sep) == Join(parts[..|parts| - 1], sep) + sep + parts[|parts| - 1]
  {
    if |parts| >= 3 {
      JoinLast(parts[1..], sep);
      assert parts[1..][..|parts| - 2] == parts[..|parts| - 1][1..];
    } else if |parts| == 2 {
      assert parts[1..] == [parts[1]];
    }
  }

  /** A stage passes when its summed score reaches its minimum, a NULL minimum being 0. */
  function StageOf(row: BookRow): (m: StageMark)
    ensures m.status == Passed <==> row.stageScore >= row.minScoreForFinished.GetOr(0)
    ensures m.status == Passed || m.status == NotPassed
    ensures m.name == row.stageTitle && m.date == row.lastAchievementDate
    ensures m.score == row.stageScore && m.currentScore == row.stageScore
    ensures m.minRequiredScore == row.minScoreForFinished.GetOr(0)
    ensures m.resultTitle == LastResultTitle(row.resultTitles)
  {
    var minimum := row.minScoreForFinished.GetOr(0);
    StageMark(row.stageTitle, if row.stageScore >= minimum then Passed else NotPassed,
              row.lastAchievementDate, LastResultTitle(row.resultTitles), row.stageScore, minimum, row.stageScore)
  }

  // ---------------------------------------------------------------------
  // Grouping, stated over the whole row sequence

  /** Some row belongs to event id. */
  predicate Mentions(rows: seq<BookRow>, id: int) {
    exists k :: 0 <= k < |rows| && rows[k].eventId == id
  }

  lemma MentionsSnoc(rows: seq<BookRow>, id: int)
    requires rows != []
    ensures Mentions(rows, id) <==> Mentions(rows[..|rows| - 1], id) || rows[|rows| - 1].eventId == id
  {
    var front := rows[..|rows| - 1];
    if Mentions(front, id) {
      var k :| 0 <= k < |front| && front[k].eventId == id;
      assert rows[k].eventId == id;
    }
    if Mentions(rows, id) && rows[|rows| - 1].eventId != id {
      var k :| 0 <= k < |rows| && rows[k].eventId == id;
      assert front[k].eventId == id;
    }
  }

  /** The distinct event ids, in order of first appearance. */
  function EventIds(rows: seq<BookRow>): (ids: seq<int>)
    ensures forall a, b :: 0 <= a < b < |ids| ==> ids[a] != ids[b]
    ensures forall id :: id in ids <==> Mentions(rows, id)
  {
    if rows == [] then []
    else
      var front := rows[..|rows| - 1];
      var ids := EventIds(front);
      var last := rows[|rows| - 1].eventId;
      assert forall id :: Mentions(rows, id) <==> Mentions(front, id) || last == id by {
        forall id ensures Mentions(rows, id) <==> Mentions(front, id) || last == id {
          MentionsSnoc(rows, id);
        }
      }
      if last in ids then ids else ids + [last]
  }

  /** The position of the first row of event id. */
  function FirstRow(rows: seq<BookRow>, id: int): (k: nat)
    requires Mentions(rows, id)
    ensures k < |rows| && rows[k].eventId == id
    ensures forall j :: 0 <= j < k ==> rows[j].eventId != id
  {
    var front := rows[..|rows| - 1];
    MentionsSnoc(rows, id);
    if Mentions(front, id) then
      var k := FirstRow(front, id);
      assert forall j :: 0 <= j <= k ==> rows[j] == front[j];
      k
    else
      |rows| - 1
  }

  /**
   * The ids come in order of first appearance, as the insertion order of
   * the dictionary the route fills: an earlier id's first row comes first.
   */
  lemma {:induction false} EventIdsOrder(rows: seq<BookRow>)
    ensures forall a, b :: 0 <= a < b < |EventIds(rows)| ==>
      FirstRow(rows, EventIds(rows)[a]) < FirstRow(rows, EventIds(rows)[b])
  {
    if rows != [] {
      var front := rows[..|rows| - 1];
      var last := rows[|rows| - 1].eventId;
      EventIdsOrder(front);
      var ids := EventIds(rows);
      var earlier := EventIds(front);
      assert ids == if last in earlier then earlier else earlier + [last];
      forall a | 0 <= a < |earlier|
        ensures FirstRow(rows, earlier[a]) == FirstRow(front, earlier[a])
      {
        assert earlier[a] in earlier;
        MentionsSnoc(rows, earlier[a]);
      }
      forall a, b | 0 <= a < b < |ids| ensures FirstRow(rows, ids[a]) < FirstRow(rows, ids[b]) {
        if b < |earlier| {
          assert ids[a] == earlier[a] && ids[b] == earlier[b];
        } else {
          assert ids[b] == last && last !in earlier;
          assert !Mentions(front, last);
          MentionsSnoc(rows, last);
          assert ids[a] == earlier[a] && earlier[a] in earlier;
        }
      }
    }
  }

  /** The rows of one event, in row order. */
  function RowsOf(rows: seq<BookRow>, id: int): (r: seq<BookRow>)
    ensures forall k :: 0 <= k < |r| ==> r[k].eventId == id
    ensures r != [] <==> Mentions(rows, id)
  {
    if rows == [] then []
    else
      var front := rows[..|rows| - 1];
      var last := rows[|rows| - 1];
      MentionsSnoc(rows, id);
      RowsOf(front, id) + (if last.eventId == id then [last] else [])
  }

  function Stages(rows: seq<BookRow>): (r: seq<StageMark>)
    ensures |r| == |rows|
  {
    if rows == [] then [] else Stages(rows[..|rows| - 1]) + [StageOf(rows[|rows| - 1])]
  }

  function TotalScore(stages: seq<StageMark>): int {
    if stages == [] then 0 else TotalScore(stages[..|stages| - 1]) + stages[|stages| - 1].score
  }

  function CompletedCount(stages: seq<StageMark>): (n: nat)
    ensures n <= |stages|
  {
    if stages == [] then 0
    else CompletedCount(stages[..|stages| - 1]) + (if stages[|stages| - 1].status == Passed then 1 else 0)
  }

  /** The mark's date: the event's start, else its end, else the time of the request. */
  function MarkDate(first: BookRow, now: Time): Time {
    match first.dateStart
    case Some(d) => d
    case None => first.dateEnd.GetOr(now)
  }

  /**
   * The mark of one event: title, dates and stage minimum from its first
   * row, one stage mark per row, and "зачет" when enough stages passed and
   * there is at least one.
   */
  function MarkOf(first: BookRow, stages: seq<StageMark>, now: Time): (m: EventMark)
    ensures m.status == Passed <==> m.completedStagesCount >= m.minStagesRequired && stages != []
    ensures m.id == first.eventId && m.stages == stages
    ensures m.totalScore == TotalScore(stages) && m.completedStagesCount == CompletedCount(stages)
    ensures m.minStagesRequired == first.minStagesForCompletion.GetOr(0)
    ensures m.eventName == first.eventTitle
    ensures first.dateStart.Some? ==> m.date == first.dateStart.value
    ensures first.dateStart.None? && first.dateEnd.Some? ==> m.date == first.dateEnd.value
    ensures first.dateStart.None? && first.dateEnd.None? ==> m.date == now
  {
    var minimum := first.minStagesForCompletion.GetOr(0);
    var completed := CompletedCount(stages);
    EventMark(first.eventId, first.eventTitle,
              if completed >= minimum && stages != [] then Passed else NotPassed,
              MarkDate(first, now), stages, TotalScore(stages), minimum, completed)
  }

  /** Every event id the rows mention has rows. */
  lemma IdHasRows(rows: seq<BookRow>, id: int)
    requires id in EventIds(rows)
    ensures RowsOf(rows, id) != []
  {
  }

  /** The record book: one mark per distinct event, in order of first appearance. */
  function Marks(rows: seq<BookRow>, now: Time): (marks: seq<EventMark>)
    ensures |marks| == |EventIds(rows)|
    ensures forall k :: 0 <= k < |marks| ==>
      var rs := RowsOf(rows, EventIds(rows)[k]);
      rs != [] && marks[k] == MarkOf(rs[0], Stages(rs), now)
  {
    var ids := EventIds(rows);
    assert forall k :: 0 <= k < |ids| ==> RowsOf(rows, ids[k]) != [] by {
      forall k | 0 <= k < |ids| ensures RowsOf(rows, ids[k]) != [] {
        IdHasRows(rows, ids[k]);
      }
    }
    seq(|ids|, k requires 0 <= k < |ids| =>
      var rs := RowsOf(rows, ids[k]);
      assert ids[k] in ids;
      MarkOf(rs[0], Stages(rs), now))
  }

  /** No rows, no marks; otherwise every mark has a stage, so its status is "enough stages passed". */
  lemma MarksShape(rows: seq<BookRow>, now: Time)
    ensures Marks(rows, now) == [] <==> rows == []
    ensures forall m <- Marks(rows, now) :: m.stages != [] && (m.status == Passed <==> m.completedStagesCount >= m.minStagesRequired)
  {
    if rows != [] {
      assert rows[0].eventId in EventIds(rows);
    }
  }

  // ---------------------------------------------------------------------
  // The loop

  /** What the loop has gathered for one event so far. */
  datatype Acc = Acc(first: BookRow, stages: seq<StageMark>, totalScore: int, completed: nat)

  ghost function AccOf(rows: seq<BookRow>, id: int): Acc
    requires RowsOf(rows, id) != []
  {
    var rs := RowsOf(rows, id);
    Acc(rs[0], Stages(rs), TotalScore(Stages(rs)), CompletedCount(Stages(rs)))
  }

  lemma RowsOfSnoc(rows: seq<BookRow>, i: nat, id: int)
    requires i < |rows|
    ensures RowsOf(rows[..i + 1], id) == RowsOf(rows[..i], id) + (if rows[i].eventId == id then [rows[i]] else [])
  {
    assert rows[..i + 1][..i] == rows[..i];
  }

  lemma EventIdsSnoc(rows: seq<BookRow>, i: nat)
    requires i < |rows|
    ensures EventIds(rows[..i + 1]) == if rows[i].eventId in EventIds(rows[..i]) then EventIds(rows[..i])
                                       else EventIds(rows[..i]) + [rows[i].eventId]
  {
    assert rows[..i + 1][..i] == rows[..i];
  }

  lemma StagesSnoc(rs: seq<BookRow>, row: BookRow)
    ensures Stages(rs + [row]) == Stages(rs) + [StageOf(row)]
  {
    assert (rs + [row])[..|rs|] == rs;
  }

  lemma CountsSnoc(stages: seq<StageMark>, m: StageMark)
    ensures TotalScore(stages + [m]) == TotalScore(stages) + m.score
    ensures CompletedCount(stages + [m]) == CompletedCount(stages) + (if m.status == Passed then 1 else 0)
  {
    assert (stages + [m])[..|stages|] == stages;
  }

  /** The loop's state after a prefix of the rows: ids in first-appearance order and one Acc per id. */
  ghost predicate Grouped(rows: seq<BookRow>, order: seq<int>, acc: map<int, Acc>) {
    && order == EventIds(rows)
    && (forall id :: id in acc <==> id in order)
    && (forall id :: id in acc ==> RowsOf(rows, id) != [] && acc[id] == AccOf(rows, id))
  }

  /** Folding one row into what the loop has gathered. */
  function Absorb(order: seq<int>, acc: map<int, Acc>, row: BookRow): (seq<int>, map<int, Acc>) {
    var id := row.eventId;
    if id in acc then (order, acc[id := Extend(acc[id], row)])
    else (order + [id], acc[id := Extend(Acc(row, [], 0, 0), row)])
  }

  /** The gathered value for one event after one more of its rows. */
  function Extend(a: Acc, row: BookRow): Acc {
    var stage := StageOf(row);
    a.(stages := a.stages + [stage],
       totalScore := a.totalScore + stage.score,
       completed := a.completed + (if stage.status == Passed then 1 else 0))
  }

  lemma AbsorbGrouped(rows: seq<BookRow>, i: nat, order: seq<int>, acc: map<int, Acc>)
    requires i < |rows| && Grouped(rows[..i], order, acc)
    ensures Grouped(rows[..i + 1], Absorb(order, acc, rows[i]).0, Absorb(order, acc, rows[i]).1)
  {
    AbsorbOrder(rows, i, order, acc);
    AbsorbValues(rows, i, order, acc);
  }

  lemma AbsorbOrder(rows: seq<BookRow>, i: nat, order: seq<int>, acc: map<int, Acc>)
    requires i < |rows| && Grouped(rows[..i], order, acc)
    ensures Absorb(order, acc, rows[i]).0 == EventIds(rows[..i + 1])
    ensures forall x :: x in Absorb(order, acc, rows[i]).1 <==> x in Absorb(order, acc, rows[i]).0
  {
    EventIdsSnoc(rows, i);
  }

  lemma AbsorbValues(rows: seq<BookRow>, i: nat, order: seq<int>, acc: map<int, Acc>)
    requires i < |rows| && Grouped(rows[..i], order, acc)
    ensures var acc' := Absorb(order, acc, rows[i]).1;
      forall x :: x in acc' ==> RowsOf(rows[..i + 1], x) != [] && acc'[x] == AccOf(rows[..i + 1], x)
  {
    var row := rows[i];
    var id := row.eventId;
    var acc' := Absorb(order, acc, row).1;
    forall x | x in acc'
      ensures RowsOf(rows[..i + 1], x) != [] && acc'[x] == AccOf(rows[..i + 1], x)
    {
      if x != id {
        AbsorbOther(rows, i, x, acc[x]);
      } else if id in acc {
        AbsorbExisting(rows, i, acc[id]);
      } else {
        AbsorbNew(rows, i);
      }
    }
  }

  lemma AbsorbOther(rows: seq<BookRow>, i: nat, other: int, a: Acc)
    requires i < |rows| && other != rows[i].eventId
    requires RowsOf(rows[..i], other) != [] && a == AccOf(rows[..i], other)
    ensures RowsOf(rows[..i + 1], other) != [] && a == AccOf(rows[..i + 1], other)
  {
    RowsOfSnoc(rows, i, other);
    assert RowsOf(rows[..i + 1], other) == RowsOf(rows[..i], other) + [];
    assert RowsOf(rows[..i], other) + [] == RowsOf(rows[..i], other);
  }

  lemma AbsorbNew(rows: seq<BookRow>, i: nat)
    requires i < |rows| && !Mentions(rows[..i], rows[i].eventId)
    ensures RowsOf(rows[..i + 1], rows[i].eventId) != []
    ensures Extend(Acc(rows[i], [], 0, 0), rows[i]) == AccOf(rows[..i + 1], rows[i].eventId)
  {
    var row := rows[i];
    RowsOfSnoc(rows, i, row.eventId);
    assert RowsOf(rows[..i], row.eventId) == [];
    assert RowsOf(rows[..i + 1], row.eventId) == [row];
    SingleAcc(row);
  }

  lemma SingleAcc(row: BookRow)
    ensures Extend(Acc(row, [], 0, 0), row) == Acc(row, Stages([row]), TotalScore(Stages([row])), CompletedCount(Stages([row])))
  {
    var m := StageOf(row);
    assert [row][..0] == [];
    assert Stages([row]) == [m];
    assert [m][..0] == [];
  }

  lemma AbsorbExisting(rows: seq<BookRow>, i: nat, a: Acc)
    requires i < |rows| && RowsOf(rows[..i], rows[i].eventId) != [] && a == AccOf(rows[..i], rows[i].eventId)
    ensures RowsOf(rows[..i + 1], rows[i].eventId) != []
    ensures Extend(a, rows[i]) == AccOf(rows[..i + 1], rows[i].eventId)
  {
    var row := rows[i];
    RowsOfSnoc(rows, i, row.eventId);
    StagesSnoc(RowsOf(rows[..i], row.eventId), row);
    CountsSnoc(a.stages, StageOf(row));
  }

  /** Once every row is gathered, the k-th id's gathered value yields the k-th mark. */
  lemma FinishMark(rows: seq<BookRow>, order: seq<int>, acc: map<int, Acc>, k: nat, now: Time)
    requires Grouped(rows, order, acc) && k < |order|
    ensures order[k] in acc
    ensures MarkOf(acc[order[k]].first, acc[order[k]].stages, now) == Marks(rows, now)[k]
  {
    assert order[k] in order;
  }

  /** The first loop: every row folded into the per-event values, ids in first-appearance order. */
  method GatherRows(rows: seq<BookRow>) returns (order: seq<int>, acc: map<int, Acc>)
    ensures Grouped(rows, order, acc)
  {
    order, acc := [], map[];
    var i := 0;
    while i < |rows|
      invariant 0 <= i <= |rows|
      invariant Grouped(rows[..i], order, acc)
    {
      AbsorbGrouped(rows, i, order, acc);
      var next := Absorb(order, acc, rows[i]);
      order, acc := next.0, next.1;
      i := i + 1;
    }
    assert rows[..|rows|] == rows;
  }

  /** The second loop: one mark per gathered event, in id order. */
  method EmitMarks(rows: seq<BookRow>, order: seq<int>, acc: map<int, Acc>, now: Time) returns (marks: seq<EventMark>)
    requires Grouped(rows, order, acc)
    ensures marks == Marks(rows, now)
  {
    ghost var target := Marks(rows, now);
    marks := [];
    var j := 0;
    while j < |order|
      invariant 0 <= j <= |order|
      invariant marks == target[..j]
    {
      FinishMark(rows, order, acc, j, now);
      var a := acc[order[j]];
      marks := marks + [MarkOf(a.first, a.stages, now)];
      assert target[..j + 1] == target[..j] + [target[j]];
      j := j + 1;
    }
    assert target[..|order|] == target;
  }

  /** get_student_record_book_marks_optimized, from the fetched rows on. */
  method RecordBook(rows: seq<BookRow>, now: Time) returns (marks: seq<EventMark>)
    ensures marks == Marks(rows, now)
  {
    if rows == [] {
      MarksShape(rows, now);
      return [];
    }
    var order, acc := GatherRows(rows);
    marks := EmitMarks(rows, order, acc, now);
  }
}
