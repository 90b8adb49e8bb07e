/** The tables behind trainings (`backend/models/trainings.py`): trainings keyed by
    UUID, steps keyed by id with a parent pointer, tags, levels, action types and
    the `training_tags` link table, together with the referential actions the
    foreign keys declare (ON DELETE CASCADE / SET NULL). */
module TrainingModels {
  import opened Common
  import opened Sorting

  /** UUIDs are opaque: only equality matters. */
  type Uuid = int

  datatype Training = Training(
    title: string,
    description: string,
    creatorId: int,
    levelId: Option<int>,
    durationMinutes: Option<int>,
    publish: bool,
    skipSteps: bool)

  datatype Step = Step(
    trainingUuid: Uuid,
    stepNumber: int,
    actionTypeId: Option<int>,
    parentStepId: Option<int>,
    area: Option<map<string, int>>,
    meta: Option<map<string, Json>>,
    annotation: Option<string>,
    imageUrl: Option<string>)

  datatype Tag = Tag(labelText: string)

  datatype Level = Level(labelText: string)

  datatype ActionType = ActionType(kind: string, name: Option<string>, meta: Option<Json>)

  /** The database state. `trainingTags` holds the rows (training_uuid, tag_value). */
  datatype Db = Db(
    trainings: map<Uuid, Training>,
    steps: map<int, Step>,
    tags: map<int, Tag>,
    levels: map<int, Level>,
    actionTypes: map<int, ActionType>,
    trainingTags: set<(Uuid, int)>)

  const EmptyDb := Db(map[], map[], map[], map[], map[], {})

  /** The foreign keys of a training row hold in `db`. */
  predicate TrainingRefsExist(db: Db, t: Training) {
    t.levelId.Some? ==> t.levelId.value in db.levels
  }

  /** The foreign keys of a step row hold in `db`. */
  predicate StepRefsExist(db: Db, s: Step) {
    && s.trainingUuid in db.trainings
    && (s.parentStepId.Some? ==> s.parentStepId.value in db.steps)
    && (s.actionTypeId.Some? ==> s.actionTypeId.value in db.actionTypes)
  }

  /** The UNIQUE constraint on `tags.label`. */
  predicate TagLabelsUnique(tags: map<int, Tag>) {
    forall a, b :: a in tags && b in tags && tags[a].labelText == tags[b].labelText ==> a == b
  }

  /** The UNIQUE constraint on `levels.label`. */
  predicate LevelLabelsUnique(levels: map<int, Level>) {
    forall a, b :: a in levels && b in levels && levels[a].labelText == levels[b].labelText ==> a == b
  }

  /** Every constraint the schema declares holds: foreign keys and unique labels. */
  ghost predicate Consistent(db: Db) {
    && (forall u :: u in db.trainings ==> TrainingRefsExist(db, db.trainings[u]))
    && (forall k :: k in db.steps ==> StepRefsExist(db, db.steps[k]))
    && (forall link :: link in db.trainingTags ==> link.0 in db.trainings && link.1 in db.tags)
    && TagLabelsUnique(db.tags)
    && LevelLabelsUnique(db.levels)
  }

  /** The `training_tags` rows of training `u` to `values`. */
  function Links(u: Uuid, values: set<int>): (r: set<(Uuid, int)>)
    ensures forall link :: link in r <==> link.0 == u && link.1 in values
  {
    var r := set v | v in values :: (u, v);
    assert forall v :: v in values ==> (u, v) in r;
    r
  }

  /** Ids of all steps of a training, nested or not. */
  function StepIdsOf(db: Db, u: Uuid): set<int> {
    set k | k in db.steps && db.steps[k].trainingUuid == u
  }

  /** Ids of the root steps of a training (`parent_step_id IS NULL`). */
  function RootIdsOf(db: Db, u: Uuid): set<int> {
    set k | k in db.steps && db.steps[k].trainingUuid == u && db.steps[k].parentStepId.None?
  }

  /** Steps whose parent is in `ids`. */
  function ChildrenOf(steps: map<int, Step>, ids: set<int>): set<int> {
    set k | k in steps && steps[k].parentStepId.Some? && steps[k].parentStepId.value in ids
  }

  /** The rows that ON DELETE CASCADE on `parent_step_id` removes along with `ids`:
      the least set containing `ids` that holds every child of its members. */
  function CascadeClosure(steps: map<int, Step>, ids: set<int>): (r: set<int>)
    requires ids <= steps.Keys
    ensures ids <= r <= steps.Keys
    ensures ChildrenOf(steps, r) <= r
    decreases |steps.Keys - ids|
  {
    var next := ids + ChildrenOf(steps, ids);
    if next == ids then ids
    else
      ProperSubsetIsSmaller(steps.Keys - next, steps.Keys - ids);
      CascadeClosure(steps, next)
  }

  lemma ProperSubsetIsSmaller(a: set<int>, b: set<int>)
    requires a < b
    ensures |a| < |b|
  {
    assert b == a + (b - a);
    assert a !! (b - a);
  }

  /** Nothing outside the descendants of `ids` is removed: the closure lies within
      every child-closed set that contains `ids`. */
  lemma {:induction false} CascadeClosureIsLeast(steps: map<int, Step>, ids: set<int>, t: set<int>)
    requires ids <= steps.Keys
    requires ids <= t && ChildrenOf(steps, t) <= t
    ensures CascadeClosure(steps, ids) <= t
    decreases |steps.Keys - ids|
  {
    var next := ids + ChildrenOf(steps, ids);
    if next != ids {
      ProperSubsetIsSmaller(steps.Keys - next, steps.Keys - ids);
      assert ChildrenOf(steps, ids) <= ChildrenOf(steps, t);
      CascadeClosureIsLeast(steps, next, t);
    }
  }

  /** DELETE of the step rows `ids`, with the cascade to their sub-steps. */
  function DeleteSteps(db: Db, ids: set<int>): (r: Db)
    requires ids <= db.steps.Keys
    ensures r == db.(steps := r.steps)
    ensures r.steps.Keys == db.steps.Keys - CascadeClosure(db.steps, ids)
    ensures forall k :: k in r.steps ==> r.steps[k] == db.steps[k]
  {
    db.(steps := db.steps - CascadeClosure(db.steps, ids))
  }

  /** DELETE of the training `u`: its steps cascade (and theirs sub-steps), its
      `training_tags` rows cascade. */
  function DeleteTraining(db: Db, u: Uuid): (r: Db)
    ensures r.trainings == db.trainings - {u}
    ensures r.tags == db.tags && r.levels == db.levels && r.actionTypes == db.actionTypes
    ensures r.steps.Keys == db.steps.Keys - CascadeClosure(db.steps, StepIdsOf(db, u))
    ensures forall k :: k in r.steps ==> r.steps[k] == db.steps[k]
    ensures forall link :: link in r.trainingTags <==> link in db.trainingTags && link.0 != u
  {
    var gone := CascadeClosure(db.steps, StepIdsOf(db, u));
    db.(trainings := db.trainings - {u},
        steps := db.steps - gone,
        trainingTags := set link | link in db.trainingTags && link.0 != u)
  }

  /** DELETE of a tag: its `training_tags` rows cascade. */
  function DeleteTag(db: Db, value: int): (r: Db)
    ensures r == db.(tags := r.tags, trainingTags := r.trainingTags)
    ensures r.tags == db.tags - {value}
    ensures forall link :: link in r.trainingTags <==> link in db.trainingTags && link.1 != value
  {
    db.(tags := db.tags - {value},
        trainingTags := set link | link in db.trainingTags && link.1 != value)
  }

  /** DELETE of an action type: `action_type_id` is SET NULL on the steps using it. */
  function DeleteActionType(db: Db, id: int): (r: Db)
    ensures r == db.(actionTypes := r.actionTypes, steps := r.steps) && id !in r.actionTypes
    ensures r.actionTypes.Keys == db.actionTypes.Keys - {id} && r.steps.Keys == db.steps.Keys
    ensures forall k :: k in r.steps ==> r.steps[k].actionTypeId != Some(id)
    ensures forall k :: k in r.steps ==> r.steps[k] == db.steps[k].(actionTypeId := r.steps[k].actionTypeId)
    ensures forall k :: k in r.steps && db.steps[k].actionTypeId != Some(id) ==> r.steps[k] == db.steps[k]
  {
    db.(actionTypes := db.actionTypes - {id},
        steps := map k | k in db.steps ::
          if db.steps[k].actionTypeId == Some(id) then db.steps[k].(actionTypeId := None) else db.steps[k])
  }

  /** DELETE of a level: `level_id` is SET NULL on the trainings using it. */
  function DeleteLevel(db: Db, value: int): (r: Db)
    ensures r == db.(levels := r.levels, trainings := r.trainings) && value !in r.levels
    ensures r.levels.Keys == db.levels.Keys - {value} && r.trainings.Keys == db.trainings.Keys
    ensures forall u :: u in r.trainings ==> r.trainings[u].levelId != Some(value)
    ensures forall u :: u in r.trainings ==> r.trainings[u] == db.trainings[u].(levelId := r.trainings[u].levelId)
    ensures forall u :: u in r.trainings && db.trainings[u].levelId != Some(value) ==> r.trainings[u] == db.trainings[u]
  {
    db.(levels := db.levels - {value},
        trainings := map u | u in db.trainings ::
          if db.trainings[u].levelId == Some(value) then db.trainings[u].(levelId := None) else db.trainings[u])
  }

  lemma DeleteStepsKeepsConsistent(db: Db, ids: set<int>)
    requires Consistent(db) && ids <= db.steps.Keys
    ensures Consistent(DeleteSteps(db, ids))
    ensures forall k :: k in DeleteSteps(db, ids).steps ==>
              var p := db.steps[k].parentStepId; p.Some? ==> p.value !in CascadeClosure(db.steps, ids)
  {
    var gone := CascadeClosure(db.steps, ids);
    var r := DeleteSteps(db, ids);
    forall k | k in r.steps
      ensures StepRefsExist(r, r.steps[k])
      ensures db.steps[k].parentStepId.Some? ==> db.steps[k].parentStepId.value !in gone
    {
    }
  }

  /** Deleting a training leaves no step of it and keeps every constraint. */
  lemma DeleteTrainingKeepsConsistent(db: Db, u: Uuid)
    requires Consistent(db)
    ensures Consistent(DeleteTraining(db, u))
    ensures u !in DeleteTraining(db, u).trainings
    ensures StepIdsOf(DeleteTraining(db, u), u) == {}
    ensures forall link :: link in DeleteTraining(db, u).trainingTags ==> link.0 != u
  {
    var roots := StepIdsOf(db, u);
    var gone := CascadeClosure(db.steps, roots);
    var r := DeleteTraining(db, u);
    forall k | k in r.steps
      ensures StepRefsExist(r, r.steps[k])
      ensures r.steps[k].trainingUuid != u
    {
      assert k !in roots;
    }
  }

  lemma DeleteTagKeepsConsistent(db: Db, value: int)
    requires Consistent(db)
    ensures Consistent(DeleteTag(db, value))
    ensures forall link :: link in DeleteTag(db, value).trainingTags ==> link.1 != value
  {
  }

  lemma DeleteActionTypeKeepsConsistent(db: Db, id: int)
    requires Consistent(db)
    ensures Consistent(DeleteActionType(db, id))
    ensures forall k :: k in DeleteActionType(db, id).steps ==> DeleteActionType(db, id).steps[k].actionTypeId != Some(id)
  {
    var r := DeleteActionType(db, id);
    forall k | k in r.steps ensures StepRefsExist(r, r.steps[k]) {
      assert StepRefsExist(db, db.steps[k]);
    }
  }

  lemma DeleteLevelKeepsConsistent(db: Db, value: int)
    requires Consistent(db)
    ensures Consistent(DeleteLevel(db, value))
    ensures forall u :: u in DeleteLevel(db, value).trainings ==> DeleteLevel(db, value).trainings[u].levelId != Some(value)
  {
    var r := DeleteLevel(db, value);
    forall u | u in r.trainings ensures TrainingRefsExist(r, r.trainings[u]) {
      assert TrainingRefsExist(db, db.trainings[u]);
    }
    forall k | k in r.steps ensures StepRefsExist(r, r.steps[k]) {
      assert StepRefsExist(db, db.steps[k]);
    }
  }

  lemma IntLeIsTotalOrder()
    ensures IsTotalOrder((a: int, b: int) => a <= b)
  {
  }

  /** `Training.steps` as the relationship loads it: every step of the training,
      ordered by step id (not by `step_number`). */
  ghost function StepsById(db: Db, u: Uuid): (r: seq<int>)
    ensures forall k :: k in r <==> k in db.steps && db.steps[k].trainingUuid == u
    ensures forall i, j :: 0 <= i < j < |r| ==> r[i] < r[j]
  {
    IntLeIsTotalOrder();
    SortSet(StepIdsOf(db, u), (a: int, b: int) => a <= b)
  }
}
