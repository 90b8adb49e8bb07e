/** The training repository (`backend/repositories/trainings_repository.py`):
    the queries over the step table, and the statements that change it. Each
    statement that fails (IntegrityError and the like) has no effect of its own;
    undoing the rest of the transaction is the caller's rollback. */
module TrainingsRepository {
  import opened Common
  import opened Sorting
  import opened TrainingModels
  import opened TrainingSchemas
  import opened Persistence

  /** A `TrainingStep` object before its INSERT. An attribute left None is not
      written, so the id comes from the sequence and a missing `step_number`
      violates NOT NULL; `zeroId` is an explicit `id=0`. */
  datatype StepDraft = StepDraft(
    zeroId: bool,
    trainingUuid: Option<Uuid>,
    stepNumber: Option<int>,
    actionTypeId: Option<int>,
    parentStepId: Option<int>,
    area: Option<map<string, int>>,
    meta: Option<map<string, Json>>,
    annotation: Option<string>,
    imageUrl: Option<string>)

  /** The row an INSERT of `d` writes. */
  function DraftRow(d: StepDraft): Step
    requires d.trainingUuid.Some? && d.stepNumber.Some?
  {
    Step(d.trainingUuid.value, d.stepNumber.value, d.actionTypeId, d.parentStepId,
         d.area, d.meta, d.annotation, d.imageUrl)
  }

  /** The INSERT of `d` passes every constraint: NOT NULL columns, foreign keys
      and, for an explicit id, the primary key. */
  predicate Insertable(db: Db, d: StepDraft) {
    && d.trainingUuid.Some? && d.stepNumber.Some?
    && StepRefsExist(db, DraftRow(d))
    && (d.zeroId ==> 0 !in db.steps)
  }

  /** The SET clause of an UPDATE on `training_steps`: the keys of the update
      dict. `steps` is not a column; a dict holding it cannot be compiled. */
  datatype StepChanges = StepChanges(
    stepNumber: Field<Option<int>>,
    actionTypeId: Field<Option<int>>,
    parentStepId: Field<Option<int>>,
    area: Field<Option<map<string, int>>>,
    meta: Field<Option<map<string, Json>>>,
    annotation: Field<Option<string>>,
    imageUrl: Field<Option<string>>,
    steps: Field<Option<seq<StepItem>>>)

  /** `model_dump(exclude_unset=True, exclude={"id"})`, and also without
      `steps` when `dropSteps` holds. */
  function ChangesOf(u: StepUpdate, dropSteps: bool): StepChanges {
    StepChanges(u.stepNumber, u.actionTypeId, u.parentStepId, u.area, u.meta,
                u.annotation, u.imageUrl, if dropSteps then Unset else u.steps)
  }

  /** The update dict is empty (`if not update_data`). */
  predicate NoStepChange(c: StepChanges) {
    && c.stepNumber.Unset? && c.actionTypeId.Unset? && c.parentStepId.Unset?
    && c.area.Unset? && c.meta.Unset? && c.annotation.Unset? && c.imageUrl.Unset?
    && c.steps.Unset?
  }

  /** A step row with the columns of `c` written; a NULL `step_number` is
      refused before this is reached. */
  function ApplyStepChanges(s: Step, c: StepChanges): Step {
    s.(stepNumber := if c.stepNumber.Set? && c.stepNumber.value.Some? then c.stepNumber.value.value else s.stepNumber,
       actionTypeId := c.actionTypeId.Or(s.actionTypeId),
       parentStepId := c.parentStepId.Or(s.parentStepId),
       area := c.area.Or(s.area),
       meta := c.meta.Or(s.meta),
       annotation := c.annotation.Or(s.annotation),
       imageUrl := c.imageUrl.Or(s.imageUrl))
  }

  /** The SET clause of an UPDATE on `trainings`. */
  datatype TrainingChanges = TrainingChanges(
    title: Field<Option<string>>,
    description: Field<Option<string>>,
    levelId: Field<Option<int>>,
    durationMinutes: Field<Option<int>>,
    publish: Field<Option<bool>>)

  /** `model_dump(exclude_unset=True, exclude={"steps", "tag_ids"})`. */
  function TrainingChangesOf(u: TrainingUpdate): TrainingChanges {
    TrainingChanges(u.title, u.description, u.levelId, u.durationMinutes, u.publish)
  }

  predicate NoTrainingChange(c: TrainingChanges) {
    c.title.Unset? && c.description.Unset? && c.levelId.Unset? && c.durationMinutes.Unset? && c.publish.Unset?
  }

  /** The UPDATE passes the NOT NULL columns and the level foreign key. */
  predicate TrainingChangesAllowed(db: Db, c: TrainingChanges) {
    && c.title != Set(None) && c.description != Set(None) && c.publish != Set(None)
    && (c.levelId.Set? && c.levelId.value.Some? ==> c.levelId.value.value in db.levels)
  }

  function ApplyTrainingChanges(t: Training, c: TrainingChanges): Training
    requires c.title != Set(None) && c.description != Set(None) && c.publish != Set(None)
  {
    t.(title := if c.title.Set? then c.title.value.value else t.title,
       description := if c.description.Set? then c.description.value.value else t.description,
       levelId := c.levelId.Or(t.levelId),
       durationMinutes := c.durationMinutes.Or(t.durationMinutes),
       publish := if c.publish.Set? then c.publish.value.value else t.publish)
  }

  /** `get_step_by_id_and_training`: the step, only when it belongs to `u`. */
  function GetStepByIdAndTraining(db: Db, id: int, u: Uuid): (r: Option<Step>)
    ensures r.Some? <==> id in StepIdsOf(db, u)
    ensures r.Some? ==> r.value == db.steps[id] && r.value.trainingUuid == u
  {
    if id in db.steps && db.steps[id].trainingUuid == u then Some(db.steps[id]) else None
  }

  /** `check_training_exists`. In a consistent state a training that does not
      exist owns no step. */
  function CheckTrainingExists(db: Db, u: Uuid): (b: bool)
    ensures b <==> u in db.trainings
    ensures Consistent(db) && !b ==> StepIdsOf(db, u) == {}
  {
    MissingTrainingOwnsNoStep(db, u);
    u in db.trainings
  }

  lemma MissingTrainingOwnsNoStep(db: Db, u: Uuid)
    ensures Consistent(db) && u !in db.trainings ==> StepIdsOf(db, u) == {}
  {
    if Consistent(db) && u !in db.trainings {
      forall k | k in db.steps ensures db.steps[k].trainingUuid != u {
        assert StepRefsExist(db, db.steps[k]);
      }
    }
  }

  /** The order of `ORDER BY step_number`, ties broken by id. */
  function StepNumberKey(db: Db, k: int): int {
    if k in db.steps then db.steps[k].stepNumber else 0
  }

  function StepOrder(db: Db): (int, int) -> bool {
    (a: int, b: int) => StepNumberKey(db, a) < StepNumberKey(db, b) || (StepNumberKey(db, a) == StepNumberKey(db, b) && a <= b)
  }

  lemma StepOrderIsTotal(db: Db)
    ensures IsTotalOrder(StepOrder(db))
  {
  }

  /** `get_training_steps`: the ids of the root steps of `u`, by step number. */
  ghost function GetTrainingSteps(db: Db, u: Uuid): (r: seq<int>)
    ensures |r| == |RootIdsOf(db, u)| && Distinct(r)
    ensures forall k :: k in r <==> k in db.steps && db.steps[k].trainingUuid == u && db.steps[k].parentStepId.None?
    ensures forall i :: 0 <= i < |r| ==> r[i] in RootIdsOf(db, u)
    ensures ByStepNumber(db, r)
  {
    StepOrderIsTotal(db);
    var r := SortSet(RootIdsOf(db, u), StepOrder(db));
    SortedSteps(db, r, RootIdsOf(db, u));
    r
  }

  /** Step ids listed in ascending `step_number`. */
  ghost predicate ByStepNumber(db: Db, r: seq<int>) {
    forall i, j :: 0 <= i < j < |r| ==> r[i] in db.steps && r[j] in db.steps && db.steps[r[i]].stepNumber <= db.steps[r[j]].stepNumber
  }

  /** A listing of a set of step ids sorted by `StepOrder` holds only members
      of the set and is in ascending `step_number`. */
  lemma SortedSteps(db: Db, r: seq<int>, ids: set<int>)
    requires forall k :: k in r <==> k in ids
    requires forall k :: k in ids ==> k in db.steps
    requires SortedBy(r, StepOrder(db))
    ensures forall i :: 0 <= i < |r| ==> r[i] in ids
    ensures ByStepNumber(db, r)
  {
    assert forall i :: 0 <= i < |r| ==> r[i] in r;
  }

  /** `count_steps_in_training`: how many steps of `u` have their id listed. */
  function CountStepsInTraining(db: Db, u: Uuid, ids: seq<int>): (n: nat)
    ensures n <= |StepIdsOf(db, u)|
  {
    if ids == [] then 0
    else
      var found := set k | k in db.steps && db.steps[k].trainingUuid == u && k in ids;
      assert found <= StepIdsOf(db, u);
      if found == StepIdsOf(db, u) then |found|
      else ProperSubsetIsSmaller(found, StepIdsOf(db, u)); |found|
  }

  /** The count is at most the number of distinct ids, and equals the length of
      the list exactly when the list is empty or repeats no id and names only
      steps of `u`: the test `reorder_steps` relies on. */
  lemma CountStepsMatchesLength(db: Db, u: Uuid, ids: seq<int>)
    ensures CountStepsInTraining(db, u, ids) <= |Elements(ids)|
    ensures CountStepsInTraining(db, u, ids) == |ids| <==>
              (ids == [] || (Distinct(ids) && forall i :: 0 <= i < |ids| ==> ids[i] in StepIdsOf(db, u)))
  {
    ElementsCard(ids);
    if ids != [] {
      var found := set k | k in db.steps && db.steps[k].trainingUuid == u && k in ids;
      assert found <= Elements(ids);
      if forall i :: 0 <= i < |ids| ==> ids[i] in StepIdsOf(db, u) {
        forall x | x in Elements(ids) ensures x in found {
          var i :| 0 <= i < |ids| && ids[i] == x;
        }
        assert found == Elements(ids);
      } else {
        var i :| 0 <= i < |ids| && ids[i] !in StepIdsOf(db, u);
        assert ids[i] in Elements(ids) && ids[i] !in found;
        ProperSubsetIsSmaller(found, Elements(ids));
      }
    }
  }

  /** Insertion of the draft `d`; returns the new state, the next sequence value
      and the id of the new row. */
  function InsertStep(db: Db, next: int, d: StepDraft): (r: Result<(Db, int, int)>)
    ensures r.Ok? <==> Insertable(db, d)
    ensures r.Ok? ==> r.value.0 == db.(steps := r.value.0.steps) && r.value.0.steps.Keys == db.steps.Keys + {r.value.2}
    ensures r.Ok? ==> r.value.0.steps[r.value.2].trainingUuid == d.trainingUuid.value
  {
    if !Insertable(db, d) then Err(IntegrityError)
    else if d.zeroId then Ok((db.(steps := db.steps[0 := DraftRow(d)]), next, 0))
    else Ok((db.(steps := db.steps[next := DraftRow(d)]), next + 1, next))
  }

  /** UPDATE of one step row; the flag is `rowcount > 0`. */
  function UpdateStepRow(db: Db, id: int, c: StepChanges): (r: Result<(Db, bool)>)
    ensures NoStepChange(c) ==> r == Ok((db, false))
    ensures !NoStepChange(c) && c.steps.Set? ==> r == Err(RuntimeFailure)
    ensures r.Err? && !c.steps.Set? ==> r.error == IntegrityError && id in db.steps
    ensures r.Ok? ==> (r.value.1 <==> id in db.steps && !NoStepChange(c))
    ensures r.Ok? ==> r.value.0 == db.(steps := r.value.0.steps) && r.value.0.steps.Keys == db.steps.Keys
    ensures r.Ok? ==> forall k :: k in db.steps && k != id ==> r.value.0.steps[k] == db.steps[k]
  {
    if NoStepChange(c) then Ok((db, false))
    else if c.steps.Set? then Err(RuntimeFailure)
    else if id !in db.steps then Ok((db, false))
    else if c.stepNumber == Set(None) then Err(IntegrityError)
    else
      var row := ApplyStepChanges(db.steps[id], c);
      if !StepRefsExist(db, row) then Err(IntegrityError)
      else Ok((db.(steps := db.steps[id := row]), true))
  }

  /** A successful INSERT adds exactly the draft's row under a fresh id and
      keeps every constraint; the sequence moves only when it supplied the id. */
  lemma InsertStepKeepsConsistent(db: Db, next: int, d: StepDraft)
    requires Consistent(db) && next >= 1 && KeysBelow(db.steps, next)
    requires InsertStep(db, next, d).Ok?
    ensures var (db', next', id) := InsertStep(db, next, d).value;
      && Consistent(db') && KeysBelow(db'.steps, next') && next' >= next
      && id !in db.steps && db' == db.(steps := db.steps[id := DraftRow(d)])
      && (d.zeroId ==> id == 0 && next' == next)
      && (!d.zeroId ==> id == next && next' == next + 1)
  {
    var (db', next', id) := InsertStep(db, next, d).value;
    forall k | k in db'.steps ensures StepRefsExist(db', db'.steps[k]) {
      if k != id {
        assert StepRefsExist(db, db.steps[k]);
      }
    }
  }

  /** A successful UPDATE of a step keeps every constraint, every key, every
      other row, and the training the step belongs to. */
  lemma UpdateStepRowKeepsConsistent(db: Db, id: int, c: StepChanges)
    requires Consistent(db) && UpdateStepRow(db, id, c).Ok?
    ensures var (db', found) := UpdateStepRow(db, id, c).value;
      && Consistent(db') && db'.steps.Keys == db.steps.Keys
      && (found <==> id in db.steps && !NoStepChange(c))
      && (found ==> db' == db.(steps := db.steps[id := ApplyStepChanges(db.steps[id], c)]))
      && (!found ==> db' == db)
      && (forall k :: k in db.steps ==> db'.steps[k].trainingUuid == db.steps[k].trainingUuid)
  {
    var (db', found) := UpdateStepRow(db, id, c).value;
    if found {
      forall k | k in db'.steps ensures StepRefsExist(db', db'.steps[k]) {
        if k != id {
          assert StepRefsExist(db, db.steps[k]);
        }
      }
    }
  }

  /** The step `create_steps_from_photos` adds for one URL. */
  function PhotoStep(u: Uuid, stepNumber: int, url: string): Step {
    Step(u, stepNumber, None, None, None, Some(map["name" := JString("Шаг без названия")]), None, Some(url))
  }

  /** The new `step_number` of each listed step, applied in list order. */
  function ApplyStepNumbers(steps: map<int, Step>, data: seq<StepOrderUpdate>): (r: map<int, Step>)
    ensures r.Keys == steps.Keys
    ensures forall k :: k in steps ==> r[k] == steps[k].(stepNumber := r[k].stepNumber)
    decreases |data|
  {
    if data == [] then steps
    else
      var d := data[0];
      var steps' := if d.id in steps then steps[d.id := steps[d.id].(stepNumber := d.stepNumber)] else steps;
      ApplyStepNumbers(steps', data[1..])
  }

  /** The last number the list gives to step `k`, if it lists `k`. */
  function LastNumberFor(data: seq<StepOrderUpdate>, k: int): Option<int>
    decreases |data|
  {
    if data == [] then None
    else if data[|data| - 1].id == k then Some(data[|data| - 1].stepNumber)
    else LastNumberFor(data[..|data| - 1], k)
  }

  lemma {:induction false} LastNumberForListed(data: seq<StepOrderUpdate>, k: int)
    ensures LastNumberFor(data, k).Some? <==> exists i :: 0 <= i < |data| && data[i].id == k
    decreases |data|
  {
    if data != [] {
      var init := data[..|data| - 1];
      LastNumberForListed(init, k);
      if data[|data| - 1].id != k {
        if exists i :: 0 <= i < |data| && data[i].id == k {
          var i :| 0 <= i < |data| && data[i].id == k;
          assert init[i] == data[i];
        }
        if exists i :: 0 <= i < |init| && init[i].id == k {
          var i :| 0 <= i < |init| && init[i].id == k;
          assert data[i] == init[i];
        }
      }
    }
  }

  lemma {:induction false} LastNumberForCons(d: StepOrderUpdate, rest: seq<StepOrderUpdate>, k: int)
    ensures LastNumberFor([d] + rest, k) ==
              if LastNumberFor(rest, k).Some? then LastNumberFor(rest, k)
              else if d.id == k then Some(d.stepNumber) else None
    decreases |rest|
  {
    var data := [d] + rest;
    if rest != [] {
      assert data[|data| - 1] == rest[|rest| - 1];
      assert data[..|data| - 1] == [d] + rest[..|rest| - 1];
      LastNumberForCons(d, rest[..|rest| - 1], k);
    }
  }

  /** The bulk update writes, for each step it lists, the last number given to
      it, touches no other step and no other column, and creates or removes no
      row (ids that match no row are skipped). */
  lemma {:induction false} ApplyStepNumbersEffect(steps: map<int, Step>, data: seq<StepOrderUpdate>)
    ensures ApplyStepNumbers(steps, data).Keys == steps.Keys
    ensures forall k :: k in steps ==>
              ApplyStepNumbers(steps, data)[k] ==
                if LastNumberFor(data, k).Some? then steps[k].(stepNumber := LastNumberFor(data, k).value) else steps[k]
    decreases |data|
  {
    if data != [] {
      var d := data[0];
      var steps' := if d.id in steps then steps[d.id := steps[d.id].(stepNumber := d.stepNumber)] else steps;
      ApplyStepNumbersEffect(steps', data[1..]);
      assert data == [d] + data[1..];
      forall k | k in steps
        ensures ApplyStepNumbers(steps, data)[k] ==
                  if LastNumberFor(data, k).Some? then steps[k].(stepNumber := LastNumberFor(data, k).value) else steps[k]
      {
        LastNumberForCons(d, data[1..], k);
      }
    }
  }

  /** Changing step numbers keeps every constraint. */
  lemma ApplyStepNumbersKeepsConsistent(db: Db, data: seq<StepOrderUpdate>)
    requires Consistent(db)
    ensures Consistent(db.(steps := ApplyStepNumbers(db.steps, data)))
  {
    ApplyStepNumbersEffect(db.steps, data);
    var r := db.(steps := ApplyStepNumbers(db.steps, data));
    forall k | k in r.steps ensures StepRefsExist(r, r.steps[k]) {
      assert StepRefsExist(db, db.steps[k]);
    }
  }

  /** The loop of `create_steps_from_photos`: the i-th URL becomes a root step
      of `u` numbered `n + 1 + i`, under the id `next + i`. */
  method AddPhotoSteps(steps: map<int, Step>, u: Uuid, n: int, next: int, urls: seq<string>)
      returns (steps': map<int, Step>, info: seq<(int, string)>)
    requires forall k :: k in steps ==> k < next
    ensures |info| == |urls|
    ensures forall i :: 0 <= i < |urls| ==> info[i] == (n + 1 + i, urls[i])
    ensures forall k :: k in steps' <==> k in steps || next <= k < next + |urls|
    ensures steps.Keys <= steps'.Keys
    ensures forall k :: k in steps ==> steps'[k] == steps[k]
    ensures forall i :: 0 <= i < |urls| ==> steps'[next + i] == PhotoStep(u, n + 1 + i, urls[i])
  {
    info := [];
    steps' := steps;
    for i := 0 to |urls|
      invariant |info| == i
      invariant forall j :: 0 <= j < i ==> info[j] == (n + 1 + j, urls[j])
      invariant forall k :: k in steps' <==> k in steps || next <= k < next + i
      invariant steps.Keys <= steps'.Keys
      invariant forall k :: k in steps ==> steps'[k] == steps[k]
      invariant forall j :: 0 <= j < i ==> steps'[next + j] == PhotoStep(u, n + 1 + j, urls[j])
    {
      steps' := steps'[next + i := PhotoStep(u, n + 1 + i, urls[i])];
      info := info + [(n + 1 + i, urls[i])];
    }
  }

  lemma PhotoStepsKeepConsistent(db: Db, steps': map<int, Step>, u: Uuid, n: int, next: int, urls: seq<string>)
    requires Consistent(db) && KeysBelow(db.steps, next)
    requires urls != [] ==> u in db.trainings
    requires forall k :: k in steps' <==> k in db.steps || next <= k < next + |urls|
    requires db.steps.Keys <= steps'.Keys
    requires forall k :: k in db.steps ==> steps'[k] == db.steps[k]
    requires forall i :: 0 <= i < |urls| ==> steps'[next + i] == PhotoStep(u, n + 1 + i, urls[i])
    ensures Consistent(db.(steps := steps')) && KeysBelow(steps', next + |urls|)
  {
    var db' := db.(steps := steps');
    forall k | k in steps' ensures StepRefsExist(db', steps'[k]) {
      if k in db.steps {
        assert StepRefsExist(db, db.steps[k]);
        var p := db.steps[k].parentStepId;
        assert p.Some? ==> p.value in steps'.Keys;
      } else {
        assert steps'[next + (k - next)] == PhotoStep(u, n + 1 + (k - next), urls[k - next]);
      }
    }
  }

  class TrainingRepository {
    const session: Session

    constructor(session: Session)
      ensures this.session == session
    {
      this.session := session;
    }

    /** `create`: INSERT of the training `t` under the fresh UUID `u`, with the
        `training_tags` rows of the tags in `tagValues`. */
    method Create(u: Uuid, t: Training, tagValues: set<int>) returns (r: Result<Uuid>)
      requires session.Valid() && u !in session.db.trainings && tagValues <= session.db.tags.Keys
      modifies session
      ensures session.Valid()
      ensures session.committed == old(session.committed) && session.nextStepId == old(session.nextStepId)
      ensures session.nextTagValue == old(session.nextTagValue)
      ensures r.Ok? <==> TrainingRefsExist(old(session.db), t)
      ensures r.Err? ==> r.error == IntegrityError && session.db == old(session.db)
      ensures r.Ok? ==> r.value == u && session.db == old(session.db).(
                trainings := old(session.db).trainings[u := t],
                trainingTags := old(session.db).trainingTags + Links(u, tagValues))
    {
      var db := session.db;
      if !TrainingRefsExist(db, t) {
        return Err(IntegrityError);
      }
      session.db := db.(trainings := db.trainings[u := t],
                        trainingTags := db.trainingTags + Links(u, tagValues));
      r := Ok(u);
    }

    /** `patch_training_fields`: no statement for an empty dict; otherwise the
        flag says whether the training exists. */
    method PatchTrainingFields(u: Uuid, c: TrainingChanges) returns (r: Result<bool>)
      requires session.Valid()
      modifies session
      ensures session.Valid()
      ensures session.committed == old(session.committed) && session.nextStepId == old(session.nextStepId)
      ensures session.nextTagValue == old(session.nextTagValue)
      ensures NoTrainingChange(c) ==> r == Ok(false)
      ensures !NoTrainingChange(c) && u !in old(session.db).trainings ==> r == Ok(false)
      ensures r.Err? <==> !NoTrainingChange(c) && u in old(session.db).trainings && !TrainingChangesAllowed(old(session.db), c)
      ensures r.Err? ==> r.error == IntegrityError
      ensures r == Ok(false) ==> NoTrainingChange(c) || u !in old(session.db).trainings
      ensures r != Ok(true) ==> session.db == old(session.db)
      ensures r == Ok(true) ==> session.db == old(session.db).(trainings :=
                old(session.db).trainings[u := ApplyTrainingChanges(old(session.db).trainings[u], c)])
    {
      var db := session.db;
      if NoTrainingChange(c) || u !in db.trainings {
        return Ok(false);
      }
      if !TrainingChangesAllowed(db, c) {
        return Err(IntegrityError);
      }
      var t := ApplyTrainingChanges(db.trainings[u], c);
      session.db := db.(trainings := db.trainings[u := t]);
      assert forall v :: v in session.db.trainings ==> TrainingRefsExist(db, session.db.trainings[v]);
      r := Ok(true);
    }

    /** `create_training_step`: INSERT of the draft; returns the new id. */
    method CreateTrainingStep(d: StepDraft) returns (r: Result<int>)
      requires session.Valid()
      modifies session
      ensures session.Valid()
      ensures session.committed == old(session.committed) && session.nextTagValue == old(session.nextTagValue)
      ensures r.Ok? <==> Insertable(old(session.db), d)
      ensures r.Err? ==> r.error == IntegrityError && session.db == old(session.db) && session.nextStepId == old(session.nextStepId)
      ensures r.Ok? ==> r.value !in old(session.db).steps
      ensures r.Ok? ==> session.db == old(session.db).(steps := old(session.db).steps[r.value := DraftRow(d)])
      ensures r.Ok? && !d.zeroId ==> r.value == old(session.nextStepId) && session.nextStepId == old(session.nextStepId) + 1
      ensures r.Ok? && d.zeroId ==> r.value == 0 && session.nextStepId == old(session.nextStepId)
    {
      var db := session.db;
      if !Insertable(db, d) {
        return Err(IntegrityError);
      }
      InsertStepKeepsConsistent(db, session.nextStepId, d);
      var (db', next', id) := InsertStep(db, session.nextStepId, d).value;
      session.db := db';
      session.nextStepId := next';
      r := Ok(id);
    }

    /** `update_training_step`: no statement for an empty dict; a dict with a
        non-column key fails; otherwise the flag says whether the step exists. */
    method UpdateTrainingStep(id: int, c: StepChanges) returns (r: Result<bool>)
      requires session.Valid()
      modifies session
      ensures session.Valid()
      ensures session.committed == old(session.committed) && session.nextStepId == old(session.nextStepId)
      ensures session.nextTagValue == old(session.nextTagValue)
      ensures NoStepChange(c) ==> r == Ok(false)
      ensures !NoStepChange(c) && c.steps.Set? ==> r == Err(RuntimeFailure)
      ensures !NoStepChange(c) && c.steps.Unset? && id !in old(session.db).steps ==> r == Ok(false)
      ensures r.Err? && c.steps.Unset? ==> r.error == IntegrityError
      ensures r != Ok(true) ==> session.db == old(session.db)
      ensures r == Ok(true) ==> id in old(session.db).steps && session.db == old(session.db).(steps :=
                old(session.db).steps[id := ApplyStepChanges(old(session.db).steps[id], c)])
      ensures r == Ok(true) ==> session.db.steps[id].trainingUuid == old(session.db).steps[id].trainingUuid
      ensures r.Ok? ==> UpdateStepRow(old(session.db), id, c) == Ok((session.db, r.value))
      ensures r.Err? ==> UpdateStepRow(old(session.db), id, c) == Err(r.error)
    {
      var db := session.db;
      var res := UpdateStepRow(db, id, c);
      if res.Err? {
        return Err(res.error);
      }
      UpdateStepRowKeepsConsistent(db, id, c);
      var (db', found) := res.value;
      session.db := db';
      r := Ok(found);
    }

    /** `delete_training_step`: DELETE with the cascade to sub-steps; true iff
        the step existed. */
    method DeleteTrainingStep(id: int) returns (found: bool)
      requires session.Valid()
      modifies session
      ensures session.Valid()
      ensures session.committed == old(session.committed) && session.nextStepId == old(session.nextStepId)
      ensures session.nextTagValue == old(session.nextTagValue)
      ensures found <==> id in old(session.db).steps
      ensures found ==> session.db == DeleteSteps(old(session.db), {id}) && id !in session.db.steps
      ensures !found ==> session.db == old(session.db)
    {
      var db := session.db;
      found := id in db.steps;
      if found {
        DeleteStepsKeepsConsistent(db, {id});
        session.db := DeleteSteps(db, {id});
      }
    }

    /** `delete`: DELETE of the training (its steps and tag links cascade),
        then COMMIT; true iff the training existed. */
    method Delete(u: Uuid) returns (found: bool)
      requires session.Valid()
      modifies session
      ensures session.Valid() && session.Clean()
      ensures session.nextStepId == old(session.nextStepId) && session.nextTagValue == old(session.nextTagValue)
      ensures found <==> u in old(session.db).trainings
      ensures found ==> session.db == DeleteTraining(old(session.db), u)
      ensures !found ==> session.db == old(session.db)
    {
      var db := session.db;
      found := u in db.trainings;
      if found {
        DeleteTrainingKeepsConsistent(db, u);
        session.db := DeleteTraining(db, u);
      }
      session.Commit();
    }

    /** `create_steps_from_photos`: one new root step per URL, numbered after
        the existing root steps (as many as `GetTrainingSteps` lists); returns
        (step number, URL) per URL. The rows
        are written at the final flush, which fails when the training is
        missing. */
    method CreateStepsFromPhotos(u: Uuid, urls: seq<string>) returns (r: Result<seq<(int, string)>>)
      requires session.Valid()
      modifies session
      ensures session.Valid()
      ensures session.committed == old(session.committed) && session.nextTagValue == old(session.nextTagValue)
      ensures r.Err? <==> urls != [] && u !in old(session.db).trainings
      ensures r.Err? ==> r.error == IntegrityError && session.db == old(session.db) && session.nextStepId == old(session.nextStepId)
      ensures r.Ok? ==> |r.value| == |urls|
      ensures r.Ok? ==> forall i :: 0 <= i < |urls| ==>
                r.value[i] == (|RootIdsOf(old(session.db), u)| + 1 + i, urls[i])
      ensures r.Ok? ==> session.nextStepId == old(session.nextStepId) + |urls|
      ensures r.Ok? ==> session.db == old(session.db).(steps := session.db.steps)
      ensures r.Ok? ==> forall k :: k in session.db.steps <==>
                k in old(session.db).steps || old(session.nextStepId) <= k < old(session.nextStepId) + |urls|
      ensures r.Ok? ==> forall k :: k in old(session.db).steps ==> session.db.steps[k] == old(session.db).steps[k]
      ensures r.Ok? ==> forall i :: 0 <= i < |urls| ==>
                session.db.steps[old(session.nextStepId) + i] ==
                  PhotoStep(u, |RootIdsOf(old(session.db), u)| + 1 + i, urls[i])
    {
      var db := session.db;
      if urls != [] && u !in db.trainings {
        return Err(IntegrityError);
      }
      var n := |RootIdsOf(db, u)|;
      var next := session.nextStepId;
      var steps, info := AddPhotoSteps(db.steps, u, n, next, urls);
      PhotoStepsKeepConsistent(db, steps, u, n, next, urls);
      session.db := db.(steps := steps);
      session.nextStepId := next + |urls|;
      r := Ok(info);
    }
    /** `bulk_update_step_numbers`: one UPDATE per entry, in list order; returns
        the length of the list whatever the number of rows matched. */
    method BulkUpdateStepNumbers(data: seq<StepOrderUpdate>) returns (n: int)
      requires session.Valid()
      modifies session
      ensures session.Valid()
      ensures session.committed == old(session.committed) && session.nextStepId == old(session.nextStepId)
      ensures session.nextTagValue == old(session.nextTagValue)
      ensures n == |data|
      ensures session.db == old(session.db).(steps := ApplyStepNumbers(old(session.db).steps, data))
    {
      if data == [] {
        return 0;
      }
      var db := session.db;
      var steps := db.steps;
      for i := 0 to |data|
        invariant ApplyStepNumbers(steps, data[i..]) == ApplyStepNumbers(db.steps, data)
      {
        assert data[i..][1..] == data[i + 1..];
        var d := data[i];
        if d.id in steps {
          steps := steps[d.id := steps[d.id].(stepNumber := d.stepNumber)];
        }
      }
      ApplyStepNumbersKeepsConsistent(db, data);
      ApplyStepNumbersEffect(db.steps, data);
      session.db := db.(steps := steps);
      n := |data|;
    }
  }
}
