/**
 * The event-type catalogue
 * (app/services/event_type_service/event_type_service.py): event types with
 * unique titles, their stages and each stage's possible results.
 *
 * The tables are map fields of a `Catalogue` object keyed by row id; new
 * rows take ids from the `nextId` counter, in the order the service adds
 * them. Errors the service raises as ValueError are `Invalid(message)`; a
 * database error that the service turns into a plain Exception after a
 * rollback is `DbFailure`, with nothing changed.
 */
module EventTypes {
  import opened Wrappers
  import opened Text
  import opened Sorting

  const TitleTaken: string := "Тип мероприятия с таким названием уже существует"
  const LeaderMissing: string := "Указанный руководитель не найден"
  const HasEvents: string := "Нельзя удалить тип мероприятия, к которому привязаны мероприятия"

  datatype EventType = EventType(title: string, description: Option<string>, leaderId: Option<int>, minStagesForCompletion: Option<int>)
  datatype Stage = Stage(eventTypeId: int, title: string, minScoreForFinished: int, stageOrder: int)
  datatype PossibleResult = PossibleResult(stageId: int, title: string, pointsForDone: int)

  datatype ServiceError = Invalid(message: string) | DbFailure

  /** The request bodies. A missing `min_stages_for_completion` key is the outer None. */
  datatype ResultSpec = ResultSpec(title: string, pointsForDone: int)
  datatype StageSpec = StageSpec(title: string, minScoreForFinished: int, stageOrder: int, possibleResults: seq<ResultSpec>)
  datatype TypeSpec = TypeSpec(title: string, description: Option<string>, leaderId: Option<int>,
                               minStagesForCompletion: Option<Option<int>>, stages: seq<StageSpec>)

  /** An update body: each field is None when the key is absent; `stages` is accepted and ignored. */
  datatype Patch = Patch(title: Option<string>, description: Option<Option<string>>, leaderId: Option<Option<int>>,
                         minStagesForCompletion: Option<Option<int>>, stages: Option<seq<StageSpec>>)

  predicate TitlesUnique(types: map<int, EventType>) {
    forall a, b :: a in types && b in types && a != b ==> types[a].title != types[b].title
  }

  predicate TitleUsed(types: map<int, EventType>, title: string) {
    exists k :: k in types && types[k].title == title
  }

  predicate TitleUsedByOther(types: map<int, EventType>, title: string, id: int) {
    exists k :: k in types && k != id && types[k].title == title
  }

  /** `if leader_id:` — an id of 0 is falsy and skips the lookup. */
  predicate LeaderChecked(leaderId: Option<int>) {
    leaderId.Some? && leaderId.value != 0
  }

  /** The foreign key on `leader_id`. */
  predicate LeaderExists(leaderId: Option<int>, users: set<int>) {
    leaderId.None? || leaderId.value in users
  }

  /** `event_type_data.get("min_stages_for_completion", 0)`. */
  function MinStagesOf(spec: TypeSpec): (m: Option<int>)
    ensures spec.minStagesForCompletion.None? ==> m == Some(0)
    ensures spec.minStagesForCompletion.Some? ==> m == spec.minStagesForCompletion.value
  {
    spec.minStagesForCompletion.GetOr(Some(0))
  }

  // ---------------------------------------------------------------------
  // Creating the rows of the stages and results

  /** The results of one stage, inserted with ids from `next` on. */
  function AddResults(specs: seq<ResultSpec>, stageId: int, next: int, rs: map<int, PossibleResult>): (out: (int, map<int, PossibleResult>))
    ensures out.0 == next + |specs|
  {
    if specs == [] then (next, rs)
    else
      var front := AddResults(specs[..|specs| - 1], stageId, next, rs);
      var s := specs[|specs| - 1];
      (front.0 + 1, front.1[front.0 := PossibleResult(stageId, s.title, s.pointsForDone)])
  }

  /** One result row per requested result, under consecutive new ids; the rows already there are kept. */
  lemma AddResultsRows(specs: seq<ResultSpec>, stageId: int, next: int, rs: map<int, PossibleResult>)
    ensures var out := AddResults(specs, stageId, next, rs);
      && (forall k :: k in out.1 <==> k in rs || next <= k < out.0)
      && (forall i :: 0 <= i < |specs| ==> out.1[next + i] == PossibleResult(stageId, specs[i].title, specs[i].pointsForDone))
      && (forall k :: k in rs && !(next <= k < out.0) ==> out.1[k] == rs[k])
      && (forall k :: next <= k < out.0 ==> out.1[k].stageId == stageId)
  {
    AddResultsKeys(specs, stageId, next, rs);
    AddResultsValues(specs, stageId, next, rs);
    AddResultsStage(specs, stageId, next, rs);
    var out := AddResults(specs, stageId, next, rs);
    forall i | 0 <= i < |specs|
      ensures out.1[next + i] == PossibleResult(stageId, specs[i].title, specs[i].pointsForDone)
    {
      assert next + i - next == i;
    }
  }

  lemma {:induction false} AddResultsKeys(specs: seq<ResultSpec>, stageId: int, next: int, rs: map<int, PossibleResult>)
    ensures var out := AddResults(specs, stageId, next, rs);
      && (forall k :: k in out.1 <==> k in rs || next <= k < out.0)
      && (forall k :: k in rs && !(next <= k < out.0) ==> out.1[k] == rs[k])
  {
    if specs != [] {
      AddResultsKeys(specs[..|specs| - 1], stageId, next, rs);
    }
  }

  lemma {:induction false} AddResultsValues(specs: seq<ResultSpec>, stageId: int, next: int, rs: map<int, PossibleResult>)
    ensures forall k :: next <= k < next + |specs| ==>
      (k in AddResults(specs, stageId, next, rs).1
       && AddResults(specs, stageId, next, rs).1[k] == PossibleResult(stageId, specs[k - next].title, specs[k - next].pointsForDone))
  {
    if specs != [] {
      AddResultsValues(specs[..|specs| - 1], stageId, next, rs);
      var front := AddResults(specs[..|specs| - 1], stageId, next, rs);
      var out := AddResults(specs, stageId, next, rs);
      forall k | next <= k < next + |specs|
        ensures k in out.1 && out.1[k] == PossibleResult(stageId, specs[k - next].title, specs[k - next].pointsForDone)
      {
        if k < front.0 {
          assert specs[..|specs| - 1][k - next] == specs[k - next];
          assert k in front.1;
        }
      }
    }
  }

  lemma {:induction false} AddResultsStage(specs: seq<ResultSpec>, stageId: int, next: int, rs: map<int, PossibleResult>)
    ensures forall k :: next <= k < next + |specs| ==>
      k in AddResults(specs, stageId, next, rs).1 && AddResults(specs, stageId, next, rs).1[k].stageId == stageId
  {
    if specs != [] {
      var front := AddResults(specs[..|specs| - 1], stageId, next, rs);
      AddResultsStage(specs[..|specs| - 1], stageId, next, rs);
      var out := AddResults(specs, stageId, next, rs);
      forall k | next <= k < out.0 ensures k in out.1 && out.1[k].stageId == stageId {
        if k < front.0 {
          assert k in front.1 && front.1[k].stageId == stageId;
        }
      }
    }
  }

  lemma {:induction false} AddResultsSnoc(specs: seq<ResultSpec>, j: nat, stageId: int, next: int, rs: map<int, PossibleResult>)
    requires j < |specs|
    ensures var f := AddResults(specs[..j], stageId, next, rs);
      AddResults(specs[..j + 1], stageId, next, rs)
        == (f.0 + 1, f.1[f.0 := PossibleResult(stageId, specs[j].title, specs[j].pointsForDone)])
  {
    var p := specs[..j + 1];
    assert p[..|p| - 1] == specs[..j];
    assert p[|p| - 1] == specs[j];
  }

  /** Row ids below `next`: every new id is fresh. */
  predicate Below<V>(m: map<int, V>, next: int) {
    forall k :: k in m ==> k < next
  }

  /** The stages of a new type, each stage row followed by its results' rows. */
  function AddStages(specs: seq<StageSpec>, typeId: int, next: int, st: map<int, Stage>, rs: map<int, PossibleResult>)
    : (out: (int, map<int, Stage>, map<int, PossibleResult>))
    ensures out.0 >= next + |specs|
  {
    if specs == [] then (next, st, rs)
    else
      var front := AddStages(specs[..|specs| - 1], typeId, next, st, rs);
      var s := specs[|specs| - 1];
      var added := AddResults(s.possibleResults, front.0, front.0 + 1, front.2);
      (added.0, front.1[front.0 := Stage(typeId, s.title, s.minScoreForFinished, s.stageOrder)], added.1)
  }

  /** New ids stay below the counter, and the rows already there are kept. */
  lemma {:induction false} AddStagesFrame(specs: seq<StageSpec>, typeId: int, next: int, st: map<int, Stage>, rs: map<int, PossibleResult>)
    requires Below(st, next) && Below(rs, next)
    ensures var out := AddStages(specs, typeId, next, st, rs);
      && Below(out.1, out.0) && Below(out.2, out.0)
      && (forall k :: k in st ==> k in out.1 && out.1[k] == st[k])
      && (forall k :: k in rs ==> k in out.2 && out.2[k] == rs[k])
  {
    if specs != [] {
      var front := AddStages(specs[..|specs| - 1], typeId, next, st, rs);
      AddStagesFrame(specs[..|specs| - 1], typeId, next, st, rs);
      AddResultsKeys(specs[|specs| - 1].possibleResults, front.0, front.0 + 1, front.2);
    }
  }

  /** Every new stage belongs to the new type, and every new result to one of the new stages. */
  lemma AddStagesLinks(specs: seq<StageSpec>, typeId: int, next: int, st: map<int, Stage>, rs: map<int, PossibleResult>)
    requires Below(st, next) && Below(rs, next)
    ensures var out := AddStages(specs, typeId, next, st, rs);
      && (forall k :: k in out.1 && k !in st ==> out.1[k].eventTypeId == typeId)
      && (forall k :: k in out.2 && k !in rs ==> out.2[k].stageId in out.1 && out.2[k].stageId !in st)
  {
    StageOwners(specs, typeId, next, st, rs);
    ResultOwners(specs, typeId, next, st, rs);
  }

  lemma {:induction false} StageOwners(specs: seq<StageSpec>, typeId: int, next: int, st: map<int, Stage>, rs: map<int, PossibleResult>)
    ensures var out := AddStages(specs, typeId, next, st, rs);
      forall k :: k in out.1 && k !in st ==> out.1[k].eventTypeId == typeId
  {
    if specs != [] {
      StageOwners(specs[..|specs| - 1], typeId, next, st, rs);
    }
  }

  lemma {:induction false} ResultOwners(specs: seq<StageSpec>, typeId: int, next: int, st: map<int, Stage>, rs: map<int, PossibleResult>)
    requires Below(st, next) && Below(rs, next)
    ensures var out := AddStages(specs, typeId, next, st, rs);
      forall k :: k in out.2 && k !in rs ==> out.2[k].stageId in out.1 && out.2[k].stageId !in st
  {
    if specs != [] {
      var front := AddStages(specs[..|specs| - 1], typeId, next, st, rs);
      ResultOwners(specs[..|specs| - 1], typeId, next, st, rs);
      AddStagesFrame(specs[..|specs| - 1], typeId, next, st, rs);
      var s := specs[|specs| - 1];
      ResultOwnersStep(front.1, front.2, st, rs, front.0, Stage(typeId, s.title, s.minScoreForFinished, s.stageOrder), s.possibleResults);
    }
  }

  /** One stage's results all point at that stage, which is new. */
  lemma ResultOwnersStep(st1: map<int, Stage>, rs1: map<int, PossibleResult>, st: map<int, Stage>, rs: map<int, PossibleResult>,
                         id: int, stage: Stage, specs: seq<ResultSpec>)
    requires Below(st1, id) && Below(rs1, id) && id !in st
    requires forall k :: k in rs1 && k !in rs ==> rs1[k].stageId in st1 && rs1[k].stageId !in st
    ensures var added := AddResults(specs, id, id + 1, rs1);
      forall k :: k in added.1 && k !in rs ==> added.1[k].stageId in st1[id := stage] && added.1[k].stageId !in st
  {
    var added := AddResults(specs, id, id + 1, rs1);
    AddResultsKeys(specs, id, id + 1, rs1);
    AddResultsStage(specs, id, id + 1, rs1);
    forall k | k in added.1 && k !in rs ensures added.1[k].stageId in st1[id := stage] && added.1[k].stageId !in st {
      if k in rs1 {
        assert added.1[k] == rs1[k];
      }
    }
  }

  lemma {:induction false} AddStagesSnoc(specs: seq<StageSpec>, i: nat, typeId: int, next: int, st: map<int, Stage>, rs: map<int, PossibleResult>)
    requires i < |specs|
    ensures var f := AddStages(specs[..i], typeId, next, st, rs);
      var added := AddResults(specs[i].possibleResults, f.0, f.0 + 1, f.2);
      AddStages(specs[..i + 1], typeId, next, st, rs)
        == (added.0, f.1[f.0 := Stage(typeId, specs[i].title, specs[i].minScoreForFinished, specs[i].stageOrder)], added.1)
  {
    var p := specs[..i + 1];
    assert p[..|p| - 1] == specs[..i];
    assert p[|p| - 1] == specs[i];
  }

  /** One new stage row per stage of the request. */
  lemma {:induction false} AddStagesCount(specs: seq<StageSpec>, typeId: int, next: int, st: map<int, Stage>, rs: map<int, PossibleResult>)
    requires Below(st, next) && Below(rs, next)
    ensures |AddStages(specs, typeId, next, st, rs).1.Keys| == |st.Keys| + |specs|
  {
    if specs != [] {
      var front := AddStages(specs[..|specs| - 1], typeId, next, st, rs);
      AddStagesCount(specs[..|specs| - 1], typeId, next, st, rs);
      AddStagesFrame(specs[..|specs| - 1], typeId, next, st, rs);
      var s := specs[|specs| - 1];
      var st' := front.1[front.0 := Stage(typeId, s.title, s.minScoreForFinished, s.stageOrder)];
      assert front.0 !in front.1;
      assert st'.Keys == front.1.Keys + {front.0};
    }
  }

  /**
   * Titles in code-point order. `ORDER BY title` follows the database's
   * collation instead, which can order mixed-case Cyrillic titles otherwise.
   */
  predicate ByTitle(a: (int, EventType), b: (int, EventType)) {
    LexLe(a.1.title, b.1.title)
  }

  lemma ByTitleOrders()
    ensures TotalPreorder(ByTitle)
  {
    forall a: (int, EventType), b: (int, EventType) ensures ByTitle(a, b) || ByTitle(b, a) {
      LexLeTotal(a.1.title, b.1.title);
    }
    forall a: (int, EventType), b: (int, EventType), c: (int, EventType) | ByTitle(a, b) && ByTitle(b, c)
      ensures ByTitle(a, c)
    {
      LexLeTransitive(a.1.title, b.1.title, c.1.title);
    }
  }

  function Patched(t: EventType, p: Patch): (u: EventType)
    ensures u.title == p.title.GetOr(t.title)
    ensures u.description == p.description.GetOr(t.description)
    ensures u.leaderId == p.leaderId.GetOr(t.leaderId)
    ensures u.minStagesForCompletion == p.minStagesForCompletion.GetOr(t.minStagesForCompletion)
  {
    EventType(p.title.GetOr(t.title), p.description.GetOr(t.description), p.leaderId.GetOr(t.leaderId),
              p.minStagesForCompletion.GetOr(t.minStagesForCompletion))
  }

  /** The stages of a patch never reach the catalogue: two patches that differ only there patch alike. */
  lemma PatchIgnoresStages(t: EventType, p: Patch, stages: Option<seq<StageSpec>>)
    ensures Patched(t, p) == Patched(t, p.(stages := stages))
  {
  }

  class Catalogue {
    var types: map<int, EventType>
    var stages: map<int, Stage>
    var results: map<int, PossibleResult>
    /** The event type of each event. */
    var eventTypeOf: map<int, int>
    var users: set<int>
    var nextId: int

    predicate Valid()
      reads this
    {
      TitlesUnique(types) && Below(types, nextId) && Below(stages, nextId) && Below(results, nextId)
    }

    constructor(users: set<int>, nextId: int)
      ensures Valid()
      ensures types == map[] && stages == map[] && results == map[] && eventTypeOf == map[]
      ensures this.users == users && this.nextId == nextId
    {
      types := map[];
      stages := map[];
      results := map[];
      eventTypeOf := map[];
      this.users := users;
      this.nextId := nextId;
    }

    /** The results loop of one stage. */
    method InsertResults(specs: seq<ResultSpec>, stageId: int)
      modifies this
      ensures (nextId, results) == AddResults(specs, stageId, old(nextId), old(results))
      ensures types == old(types) && stages == old(stages) && eventTypeOf == old(eventTypeOf) && users == old(users)
    {
      ghost var next0 := nextId;
      ghost var rs0 := results;
      var j := 0;
      while j < |specs|
        invariant 0 <= j <= |specs|
        invariant (nextId, results) == AddResults(specs[..j], stageId, next0, rs0)
        invariant types == old(types) && stages == old(stages) && eventTypeOf == old(eventTypeOf) && users == old(users)
      {
        AddResultsSnoc(specs, j, stageId, next0, rs0);
        results := results[nextId := PossibleResult(stageId, specs[j].title, specs[j].pointsForDone)];
        nextId := nextId + 1;
        j := j + 1;
      }
      assert specs[..|specs|] == specs;
    }

    /** The stages loop of a new type, each stage followed by its results. */
    method InsertStages(specs: seq<StageSpec>, typeId: int)
      modifies this
      ensures (nextId, stages, results) == AddStages(specs, typeId, old(nextId), old(stages), old(results))
      ensures types == old(types) && eventTypeOf == old(eventTypeOf) && users == old(users)
    {
      ghost var next0 := nextId;
      ghost var st0 := stages;
      ghost var rs0 := results;
      var i := 0;
      while i < |specs|
        invariant 0 <= i <= |specs|
        invariant (nextId, stages, results) == AddStages(specs[..i], typeId, next0, st0, rs0)
        invariant types == old(types) && eventTypeOf == old(eventTypeOf) && users == old(users)
      {
        AddStagesSnoc(specs, i, typeId, next0, st0, rs0);
        var id := nextId;
        stages := stages[id := Stage(typeId, specs[i].title, specs[i].minScoreForFinished, specs[i].stageOrder)];
        nextId := nextId + 1;
        InsertResults(specs[i].possibleResults, id);
        i := i + 1;
      }
      assert specs[..|specs|] == specs;
    }

    /**
     * create_event_type: a taken title, then an unknown leader, are
     * refused; otherwise the type is added with its stages and results.
     */
    method Create(spec: TypeSpec) returns (r: Result<int, ServiceError>)
      requires Valid()
      modifies this
      ensures Valid() && eventTypeOf == old(eventTypeOf) && users == old(users)
      ensures TitleUsed(old(types), spec.title) ==>
        r == Failure(Invalid(TitleTaken)) && types == old(types) && stages == old(stages) && results == old(results)
      ensures !TitleUsed(old(types), spec.title) && LeaderChecked(spec.leaderId) && spec.leaderId.value !in old(users) ==>
        r == Failure(Invalid(LeaderMissing)) && types == old(types) && stages == old(stages) && results == old(results)
      ensures !TitleUsed(old(types), spec.title) && !LeaderChecked(spec.leaderId) && !LeaderExists(spec.leaderId, old(users)) ==>
        r == Failure(DbFailure) && types == old(types) && stages == old(stages) && results == old(results)
      ensures !TitleUsed(old(types), spec.title) && LeaderExists(spec.leaderId, old(users)) ==>
        && r == Success(old(nextId))
        && types == old(types)[old(nextId) := EventType(spec.title, spec.description, spec.leaderId, MinStagesOf(spec))]
        && (nextId, stages, results) == AddStages(spec.stages, old(nextId), old(nextId) + 1, old(stages), old(results))
    {
      if TitleUsed(types, spec.title) {
        return Failure(Invalid(TitleTaken));
      }
      if spec.leaderId.Some? && spec.leaderId.value != 0 && spec.leaderId.value !in users {
        return Failure(Invalid(LeaderMissing));
      }
      if spec.leaderId.Some? && spec.leaderId.value !in users {
        return Failure(DbFailure);
      }
      var id := InsertType(spec);
      r := Success(id);
    }

    /** The inserts of a create that passed its checks: the type row, then its stages and results. */
    method InsertType(spec: TypeSpec) returns (id: int)
      requires Valid() && !TitleUsed(types, spec.title)
      modifies this
      ensures Valid() && eventTypeOf == old(eventTypeOf) && users == old(users)
      ensures id == old(nextId)
      ensures types == old(types)[id := EventType(spec.title, spec.description, spec.leaderId, MinStagesOf(spec))]
      ensures (nextId, stages, results) == AddStages(spec.stages, id, id + 1, old(stages), old(results))
    {
      id := nextId;
      var t := EventType(spec.title, spec.description, spec.leaderId, MinStagesOf(spec));
      CreateKeepsValid(types, stages, results, id, t, spec.stages);
      types := types[id := t];
      nextId := nextId + 1;
      InsertStages(spec.stages, id);
    }

    /**
     * update_event_type: None for an unknown id; a title another type
     * holds, or a changed leader that does not exist, is refused; otherwise
     * every given field except the stages is copied.
     */
    method Update(id: int, patch: Patch) returns (r: Result<Option<int>, ServiceError>)
      requires Valid()
      modifies this
      ensures Valid()
      ensures stages == old(stages) && results == old(results) && eventTypeOf == old(eventTypeOf)
      ensures users == old(users) && nextId == old(nextId)
      ensures id !in old(types) ==> r == Success(None) && types == old(types)
      ensures (id in old(types) && patch.title.Some? && patch.title.value != old(types)[id].title
               && TitleUsedByOther(old(types), patch.title.value, id)) ==>
        r == Failure(Invalid(TitleTaken)) && types == old(types)
      ensures r.Success? && id in old(types) ==>
        r == Success(Some(id)) && types == old(types)[id := Patched(old(types)[id], patch)]
      ensures id in old(types) && r.Failure? ==> types == old(types)
      ensures (id in old(types) && !(patch.title.Some? && TitleUsedByOther(old(types), patch.title.value, id))
               && LeaderExists(Patched(old(types)[id], patch).leaderId, old(users))) ==> r.Success?
      ensures (id in old(types) && !(patch.title.Some? && patch.title.value != old(types)[id].title
                                     && TitleUsedByOther(old(types), patch.title.value, id))
               && patch.leaderId.Some? && patch.leaderId.value != old(types)[id].leaderId
               && patch.leaderId.value.Some? && patch.leaderId.value.value != 0
               && patch.leaderId.value.value !in old(users)) ==>
        r == Failure(Invalid(LeaderMissing)) && types == old(types)
      // a leader the refusal lets through (id 0, or one left unchanged) that no user has fails on its foreign key
      ensures (id in old(types) && !(patch.title.Some? && patch.title.value != old(types)[id].title
                                     && TitleUsedByOther(old(types), patch.title.value, id))
               && !(patch.leaderId.Some? && patch.leaderId.value != old(types)[id].leaderId
                    && patch.leaderId.value.Some? && patch.leaderId.value.value != 0
                    && patch.leaderId.value.value !in old(users))
               && !LeaderExists(Patched(old(types)[id], patch).leaderId, old(users))) ==>
        r == Failure(DbFailure) && types == old(types)
    {
      if id !in types {
        return Success(None);
      }
      var current := types[id];
      if patch.title.Some? && patch.title.value != current.title
         && exists k :: k in types && k != id && types[k].title == patch.title.value {
        return Failure(Invalid(TitleTaken));
      }
      if patch.leaderId.Some? && patch.leaderId.value != current.leaderId
         && patch.leaderId.value.Some? && patch.leaderId.value.value != 0 && patch.leaderId.value.value !in users {
        return Failure(Invalid(LeaderMissing));
      }
      var updated := Patched(current, patch);
      if updated.leaderId.Some? && updated.leaderId.value !in users {
        return Failure(DbFailure);
      }
      types := types[id := updated];
      r := Success(Some(id));
    }

    /**
     * delete_event_type: false for an unknown id; refused while events use
     * the type. The ORM then clears the stages' non-null `event_type_id`,
     * so a type that still has stages ends in a database error.
     */
    method Delete(id: int) returns (r: Result<bool, ServiceError>)
      requires Valid()
      modifies this
      ensures Valid()
      ensures stages == old(stages) && results == old(results) && eventTypeOf == old(eventTypeOf)
      ensures users == old(users) && nextId == old(nextId)
      ensures id !in old(types) ==> r == Success(false) && types == old(types)
      ensures id in old(types) && (exists e :: e in eventTypeOf && eventTypeOf[e] == id) ==>
        r == Failure(Invalid(HasEvents)) && types == old(types)
      ensures (id in old(types) && !(exists e :: e in eventTypeOf && eventTypeOf[e] == id)
               && (exists s :: s in stages && stages[s].eventTypeId == id)) ==>
        r == Failure(DbFailure) && types == old(types)
      ensures (id in old(types) && !(exists e :: e in eventTypeOf && eventTypeOf[e] == id)
               && !(exists s :: s in stages && stages[s].eventTypeId == id)) ==>
        r == Success(true) && types == old(types) - {id}
    {
      if id !in types {
        return Success(false);
      }
      if exists e :: e in eventTypeOf && eventTypeOf[e] == id {
        return Failure(Invalid(HasEvents));
      }
      if exists s :: s in stages && stages[s].eventTypeId == id {
        return Failure(DbFailure);
      }
      types := types - {id};
      r := Success(true);
    }

    /** get_event_types_by_leader: the types of one leader, ordered by title. */
    method ByLeader(leader: int) returns (r: seq<(int, EventType)>)
      ensures forall p :: p in r <==> p.0 in types && types[p.0] == p.1 && p.1.leaderId == Some(leader)
      ensures SortedBy(r, ByTitle)
      ensures forall i, j :: 0 <= i < j < |r| ==> r[i].0 != r[j].0
    {
      var picked: seq<(int, EventType)> := [];
      var todo := types.Keys;
      while exists k :: k in todo
        invariant todo <= types.Keys
        invariant forall p :: p in picked <==> p.0 in types && p.0 !in todo && types[p.0] == p.1 && p.1.leaderId == Some(leader)
        invariant forall i, j :: 0 <= i < j < |picked| ==> picked[i].0 != picked[j].0
        decreases |todo|
      {
        var k :| k in todo;
        if types[k].leaderId == Some(leader) {
          forall i | 0 <= i < |picked| ensures picked[i].0 != k {
            assert picked[i] in picked;
          }
          picked := picked + [(k, types[k])];
        }
        todo := todo - {k};
      }
      r := SortBy(picked, ByTitle);
      SortedByTitle(picked);
      forall i, j | 0 <= i < j < |r| ensures r[i].0 != r[j].0 {
        assert r[i] in r && r[j] in r;
      }
    }
  }

  /** Ordering by title keeps the same pairs, without repeats, and orders them. */
  lemma SortedByTitle(s: seq<(int, EventType)>)
    requires forall i, j :: 0 <= i < j < |s| ==> s[i] != s[j]
    ensures var r := SortBy(s, ByTitle);
      && (forall p :: p in r <==> p in s)
      && SortedBy(r, ByTitle)
      && (forall i, j :: 0 <= i < j < |r| ==> r[i] != r[j])
  {
    var r := SortBy(s, ByTitle);
    ByTitleOrders();
    SortBySorted(s, ByTitle);
    forall p ensures p in r <==> p in s {
      assert p in r <==> p in multiset(r);
    }
    forall i, j | 0 <= i < j < |r| ensures r[i] != r[j] {
      NoRepeats(s, r, i, j);
    }
  }

  /** A sequence without repeated elements holds each value at most once. */
  lemma {:induction false} AtMostOnce<T>(s: seq<T>, x: T)
    requires forall a, b :: 0 <= a < b < |s| ==> s[a] != s[b]
    ensures multiset(s)[x] <= 1
  {
    if s != [] {
      var front := s[..|s| - 1];
      AtMostOnce(front, x);
      assert s == front + [s[|s| - 1]];
      if s[|s| - 1] == x {
        assert x !in front;
      }
    }
  }

  /** A value at two positions is counted at least twice. */
  lemma TwoPositions<T>(r: seq<T>, i: nat, j: nat)
    requires i < j < |r|
    ensures r[i] == r[j] ==> multiset(r)[r[i]] >= 2
  {
    assert r == r[..i] + [r[i]] + r[i + 1..j] + [r[j]] + r[j + 1..];
  }

  /** A permutation of a sequence without repeats has no repeats. */
  lemma NoRepeats<T>(s: seq<T>, r: seq<T>, i: nat, j: nat)
    requires multiset(r) == multiset(s)
    requires forall a, b :: 0 <= a < b < |s| ==> s[a] != s[b]
    requires i < j < |r|
    ensures r[i] != r[j]
  {
    TwoPositions(r, i, j);
    AtMostOnce(s, r[i]);
  }

  /** The rows a successful create leaves behind satisfy the catalogue's invariant. */
  lemma {:induction false} CreateKeepsValid(types: map<int, EventType>, st: map<int, Stage>, rs: map<int, PossibleResult>,
                                            next: int, t: EventType, specs: seq<StageSpec>)
    requires TitlesUnique(types) && Below(types, next) && Below(st, next) && Below(rs, next)
    requires !TitleUsed(types, t.title)
    ensures var out := AddStages(specs, next, next + 1, st, rs);
      && TitlesUnique(types[next := t]) && Below(types[next := t], out.0)
      && Below(out.1, out.0) && Below(out.2, out.0)
  {
    UniqueTitleAfterAdd(types, next, t);
    AddStagesFrame(specs, next, next + 1, st, rs);
  }

  /** Creating keeps titles unique only because a taken title is refused: the same title twice cannot both be there. */
  lemma UniqueTitleAfterAdd(types: map<int, EventType>, id: int, t: EventType)
    requires TitlesUnique(types) && id !in types && !TitleUsed(types, t.title)
    ensures TitlesUnique(types[id := t])
  {
  }
}
