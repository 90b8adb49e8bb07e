/** The training service (`backend/services/trainings_service.py`). Each public
    operation is one transaction: it starts from a committed state and ends
    either with a COMMIT or with a ROLLBACK to that state, reporting the error
    as an HTTP status. The loops of the service are specified by folds over
    the list they walk. */
module TrainingsService {
  import opened Common
  import opened Sorting
  import opened TrainingModels
  import opened TrainingSchemas
  import opened Persistence
  import opened TrainingsRepository

  /** Python truthiness of an optional id: None and 0 are false. */
  predicate Truthy(id: Option<int>) {
    id.Some? && id.value != 0
  }

  /** The `action_type_id` of a payload (an unset update field is None). */
  function ActionTypeIdOf(item: StepItem): Option<int> {
    match item
    case CreateItem(c) => c.actionTypeId
    case UpdateItem(u) => u.actionTypeId.Or(None)
  }

  /** The payload's children are the empty list: anything else cannot be
      passed to the `TrainingStep` constructor (a list of pydantic dicts, or
      None, for a relationship collection). */
  predicate NoChildren(item: StepItem) {
    match item
    case CreateItem(c) => c.steps == Some([])
    case UpdateItem(u) => u.steps.Or(Some([])) == Some([])
  }

  /** `create_training_step`: 404 for a truthy action type id that does not
      exist; a falsy one is dropped without a lookup; nested children fail. */
  function BuildStep(actionTypes: map<int, ActionType>, item: StepItem): (r: Result<StepDraft>)
    ensures Truthy(ActionTypeIdOf(item)) && ActionTypeIdOf(item).value !in actionTypes ==> r == Err(HttpError(NOT_FOUND))
    ensures r.Ok? <==> (!Truthy(ActionTypeIdOf(item)) || ActionTypeIdOf(item).value in actionTypes) && NoChildren(item)
    ensures r.Err? && r.error != HttpError(NOT_FOUND) ==> r.error == RuntimeFailure
    ensures r.Ok? && Truthy(ActionTypeIdOf(item)) ==> r.value.actionTypeId == ActionTypeIdOf(item)
    ensures r.Ok? && !Truthy(ActionTypeIdOf(item)) ==> r.value.actionTypeId == None
    ensures r.Ok? ==> (r.value.zeroId <==> ItemId(item) == Some(0))
  {
    var aid := ActionTypeIdOf(item);
    if Truthy(aid) && aid.value !in actionTypes then Err(HttpError(NOT_FOUND))
    else if !NoChildren(item) then Err(RuntimeFailure)
    else
      var kept := if Truthy(aid) then aid else None;
      match item
      case CreateItem(c) =>
        Ok(StepDraft(false, c.trainingUuid, Some(c.stepNumber), kept, c.parentStepId,
                     c.area, c.meta, c.annotation, c.imageUrl))
      case UpdateItem(u) =>
        Ok(StepDraft(u.id.Or(None) == Some(0), None, u.stepNumber.Or(None), kept, u.parentStepId.Or(None),
                     u.area.Or(None), u.meta.Or(None), u.annotation.Or(None), u.imageUrl.Or(None)))
  }

  /** The row a `TrainingStepCreate` becomes in training `u`. */
  function CreatedRow(u: Uuid, c: StepCreate): Step {
    Step(u, c.stepNumber, if Truthy(c.actionTypeId) then c.actionTypeId else None, c.parentStepId,
         c.area, c.meta, c.annotation, c.imageUrl)
  }

  /** Build the step, set its training to `u`, insert it. */
  function InsertItem(db: Db, next: int, u: Uuid, item: StepItem): Result<(Db, int, int)> {
    match BuildStep(db.actionTypes, item)
    case Err(e) => Err(e)
    case Ok(d) => InsertStep(db, next, d.(trainingUuid := Some(u)))
  }

  /** A created step belongs to the training of the call whatever
      `training_uuid` the payload carried, and gets the payload's columns. */
  lemma InsertItemRow(db: Db, next: int, u: Uuid, c: StepCreate)
    requires KeysBelow(db.steps, next)
    requires InsertItem(db, next, u, CreateItem(c)).Ok?
    ensures var (db', next', id) := InsertItem(db, next, u, CreateItem(c)).value;
      && id == next && next' == next + 1 && id !in db.steps
      && db' == db.(steps := db.steps[id := CreatedRow(u, c)])
      && db'.steps[id].trainingUuid == u
      && (Consistent(db) && next >= 1 ==> Consistent(db') && KeysBelow(db'.steps, next'))
  {
    if Consistent(db) && next >= 1 {
      InsertStepKeepsConsistent(db, next, BuildStep(db.actionTypes, CreateItem(c)).value.(trainingUuid := Some(u)));
    }
  }

  /** The steps loop of `create_training` and `add_steps_bulk`: insert each
      payload in order, collecting the new ids after `acc`. */
  function InsertSteps(db: Db, next: int, u: Uuid, items: seq<StepCreate>, acc: seq<int>): (r: Result<(Db, int, seq<int>)>)
    ensures r.Ok? ==> r.value.1 == next + |items| && |r.value.2| == |acc| + |items| && r.value.2[..|acc|] == acc
    decreases |items|
  {
    if items == [] then Ok((db, next, acc))
    else match InsertItem(db, next, u, CreateItem(items[0]))
      case Err(e) => Err(e)
      case Ok((db', next', id)) => InsertSteps(db', next', u, items[1..], acc + [id])
  }

  /** What a successful batch leaves behind: its rows numbered from the
      sequence in input order, one per payload, after the ids in `acc`;
      nothing else added and no existing row changed. */
  ghost predicate BatchEffect(db: Db, next: int, u: Uuid, items: seq<StepCreate>, acc: seq<int>,
                              result: (Db, int, seq<int>)) {
    var (db', next', ids) := result;
    && Consistent(db') && KeysBelow(db'.steps, next') && next' == next + |items|
    && |ids| == |acc| + |items| && ids[..|acc|] == acc
    && (forall i :: |acc| <= i < |ids| ==> ids[i] == next + (i - |acc|))
    && db' == db.(steps := db'.steps)
    && (forall k :: k in db'.steps <==> k in db.steps || next <= k < next + |items|)
    && (forall k :: k in db.steps ==> db'.steps[k] == db.steps[k])
    && (forall i :: 0 <= i < |items| ==> db'.steps[next + i] == CreatedRow(u, items[i]))
  }

  /** A successful batch numbers its rows from the sequence in input order,
      one per payload, adds nothing else and changes no existing row. */
  lemma {:induction false} InsertStepsEffect(db: Db, next: int, u: Uuid, items: seq<StepCreate>, acc: seq<int>)
    requires Consistent(db) && next >= 1 && KeysBelow(db.steps, next)
    requires InsertSteps(db, next, u, items, acc).Ok?
    ensures BatchEffect(db, next, u, items, acc, InsertSteps(db, next, u, items, acc).value)
    decreases |items|
  {
    if items != [] {
      var db1 := InsertStepsFirst(db, next, u, items, acc);
      InsertStepsEffect(db1, next + 1, u, items[1..], acc + [next]);
      BatchEffectStep(db, next, u, items, acc, db1, InsertSteps(db, next, u, items, acc).value);
    }
  }

  /** A successful batch starts by inserting its first row under `next`. */
  lemma InsertStepsFirst(db: Db, next: int, u: Uuid, items: seq<StepCreate>, acc: seq<int>) returns (db1: Db)
    requires Consistent(db) && next >= 1 && KeysBelow(db.steps, next)
    requires items != [] && InsertSteps(db, next, u, items, acc).Ok?
    ensures next !in db.steps && db1 == db.(steps := db.steps[next := CreatedRow(u, items[0])])
    ensures Consistent(db1) && KeysBelow(db1.steps, next + 1)
    ensures InsertSteps(db, next, u, items, acc) == InsertSteps(db1, next + 1, u, items[1..], acc + [next])
  {
    InsertItemRow(db, next, u, items[0]);
    db1 := InsertItem(db, next, u, CreateItem(items[0])).value.0;
  }

  /** The effect of the first insertion followed by that of the rest is the
      effect of the whole batch. */
  lemma BatchEffectStep(db: Db, next: int, u: Uuid, items: seq<StepCreate>, acc: seq<int>,
                        db1: Db, result: (Db, int, seq<int>))
    requires items != [] && next !in db.steps
    requires db1 == db.(steps := db.steps[next := CreatedRow(u, items[0])])
    requires BatchEffect(db1, next + 1, u, items[1..], acc + [next], result)
    ensures BatchEffect(db, next, u, items, acc, result)
  {
    var (db', next', ids) := result;
    assert ids[..|acc|] == (acc + [next])[..|acc|];
    forall i | 0 <= i < |items| ensures db'.steps[next + i] == CreatedRow(u, items[i]) {
      if i > 0 {
        assert items[1..][i - 1] == items[i];
      }
    }
    assert ids[..|acc + [next]|] == acc + [next];
    assert ids[|acc|] == (acc + [next])[|acc|];
  }

  /** One entry of `patch_training_steps`: an existing root step is updated,
      an entry without a (truthy) id is created, any other id is ignored. */
  function PatchItem(db: Db, next: int, u: Uuid, roots: set<int>, item: StepItem): (r: Result<(Db, int)>)
    ensures Truthy(ItemId(item)) && ItemId(item).value !in roots ==> r == Ok((db, next))
    ensures r.Ok? ==> r.value.1 == next + (if ItemId(item).None? then 1 else 0)
    ensures r.Ok? ==> r.value.0 == db.(steps := r.value.0.steps) && db.steps.Keys <= r.value.0.steps.Keys
  {
    var id := ItemId(item);
    if Truthy(id) && id.value in roots then
      match UpdateStepRow(db, id.value, ChangesOf(item.update, false))
      case Err(e) => Err(e)
      case Ok((db', _)) => Ok((db', next))
    else if Truthy(id) then Ok((db, next))
    else
      match InsertItem(db, next, u, item)
      case Err(e) => Err(e)
      case Ok((db', next', _)) => Ok((db', next'))
  }

  /** The loop of `patch_training_steps` over its entries. */
  function PatchSteps(db: Db, next: int, u: Uuid, roots: set<int>, items: seq<StepItem>): (r: Result<(Db, int)>)
    ensures r.Ok? ==> r.value.1 == next + |Numbered(items)|
    ensures r.Ok? ==> r.value.0 == db.(steps := r.value.0.steps) && db.steps.Keys <= r.value.0.steps.Keys
    decreases |items|
  {
    if items == [] then Ok((db, next))
    else match PatchItem(db, next, u, roots, items[0])
      case Err(e) => Err(e)
      case Ok((db', next')) => PatchSteps(db', next', u, roots, items[1..])
  }

  /** What a successful step patch can change: only the listed root steps are
      rewritten (a nested step or a step of another training named by id is
      left alone), no step is removed or moved to another training, and every
      created step belongs to `u`. */
  ghost predicate PatchEffect(db: Db, next: int, u: Uuid, roots: set<int>, result: (Db, int)) {
    var (db', next') := result;
    && Consistent(db') && KeysBelow(db'.steps, next') && next' >= next
    && db' == db.(steps := db'.steps)
    && db.steps.Keys <= db'.steps.Keys
    && (forall k :: k in db.steps && k !in roots ==> db'.steps[k] == db.steps[k])
    && (forall k :: k in db.steps ==> db'.steps[k].trainingUuid == db.steps[k].trainingUuid)
    && (forall k :: k in db'.steps && k !in db.steps ==> db'.steps[k].trainingUuid == u)
  }

  lemma {:induction false} PatchStepsFrame(db: Db, next: int, u: Uuid, roots: set<int>, items: seq<StepItem>)
    requires Consistent(db) && next >= 1 && KeysBelow(db.steps, next)
    requires PatchSteps(db, next, u, roots, items).Ok?
    ensures PatchEffect(db, next, u, roots, PatchSteps(db, next, u, roots, items).value)
    decreases |items|
  {
    if items != [] {
      PatchItemEffect(db, next, u, roots, items[0]);
      var first := PatchItem(db, next, u, roots, items[0]).value;
      PatchStepsFrame(first.0, first.1, u, roots, items[1..]);
      PatchEffectThen(db, next, u, roots, first, PatchSteps(db, next, u, roots, items).value);
    }
  }

  /** One entry of the patch has the effect the whole patch promises. */
  lemma PatchItemEffect(db: Db, next: int, u: Uuid, roots: set<int>, item: StepItem)
    requires Consistent(db) && next >= 1 && KeysBelow(db.steps, next)
    requires PatchItem(db, next, u, roots, item).Ok?
    ensures PatchEffect(db, next, u, roots, PatchItem(db, next, u, roots, item).value)
    ensures PatchItem(db, next, u, roots, item).value.1 >= 1
  {
    var id := ItemId(item);
    if Truthy(id) && id.value in roots {
      UpdateStepRowKeepsConsistent(db, id.value, ChangesOf(item.update, false));
    } else if !Truthy(id) {
      InsertStepKeepsConsistent(db, next, BuildStep(db.actionTypes, item).value.(trainingUuid := Some(u)));
    }
  }

  /** The effect of a patch followed by another is the effect of a patch. */
  lemma PatchEffectThen(db: Db, next: int, u: Uuid, roots: set<int>, mid: (Db, int), result: (Db, int))
    requires PatchEffect(db, next, u, roots, mid) && PatchEffect(mid.0, mid.1, u, roots, result)
    ensures PatchEffect(db, next, u, roots, result)
  {
  }

  /** The row root step `k` ends with when the entries are applied in order:
      each entry naming `k` writes the fields it set. */
  function Rewritten(row: Step, k: int, items: seq<StepItem>): Step
    decreases |items|
  {
    if items == [] then row
    else
      var id := ItemId(items[0]);
      var row' := if Truthy(id) && id.value == k then ApplyStepChanges(row, ChangesOf(items[0].update, false)) else row;
      Rewritten(row', k, items[1..])
  }

  /** A root that no entry names keeps its row. */
  lemma {:induction false} RewrittenUnnamed(row: Step, k: int, items: seq<StepItem>)
    requires forall i :: 0 <= i < |items| ==> ItemId(items[i]) != Some(k)
    ensures Rewritten(row, k, items) == row
    decreases |items|
  {
    if items != [] {
      assert ItemId(items[0]) != Some(k);
      forall i | 0 <= i < |items| - 1 ensures ItemId(items[1..][i]) != Some(k) {
        assert items[1..][i] == items[i + 1];
      }
      RewrittenUnnamed(row, k, items[1..]);
    }
  }

  /** One entry rewrites root `k` exactly when it names it. */
  lemma PatchItemRoot(db: Db, next: int, u: Uuid, roots: set<int>, item: StepItem, k: int)
    requires KeysBelow(db.steps, next) && roots <= db.steps.Keys && k in roots
    requires PatchItem(db, next, u, roots, item).Ok?
    ensures var db' := PatchItem(db, next, u, roots, item).value.0;
      && k in db'.steps
      && db'.steps[k] == if Truthy(ItemId(item)) && ItemId(item).value == k
                         then ApplyStepChanges(db.steps[k], ChangesOf(item.update, false))
                         else db.steps[k]
  {
    var id := ItemId(item);
    if Truthy(id) && id.value == k {
      var c := ChangesOf(item.update, false);
      if NoStepChange(c) {
        assert ApplyStepChanges(db.steps[k], c) == db.steps[k];
      }
    }
  }

  /** `patch_training_steps` leaves each root step of the training with the
      changes of the entries naming it applied in order; the steps it creates
      are never among them. */
  lemma {:induction false} PatchStepsRoot(db: Db, next: int, u: Uuid, roots: set<int>, items: seq<StepItem>, k: int)
    requires Consistent(db) && next >= 1 && KeysBelow(db.steps, next)
    requires roots <= db.steps.Keys && k in roots
    requires PatchSteps(db, next, u, roots, items).Ok?
    ensures k in PatchSteps(db, next, u, roots, items).value.0.steps
    ensures PatchSteps(db, next, u, roots, items).value.0.steps[k] == Rewritten(db.steps[k], k, items)
    decreases |items|
  {
    if items != [] {
      PatchItemEffect(db, next, u, roots, items[0]);
      PatchItemRoot(db, next, u, roots, items[0], k);
      var first := PatchItem(db, next, u, roots, items[0]).value;
      PatchStepsRoot(first.0, first.1, u, roots, items[1..], k);
    }
  }

  /** `PatchStepsRoot` for every root at once. */
  lemma PatchStepsRoots(db: Db, next: int, u: Uuid, roots: set<int>, items: seq<StepItem>)
    requires Consistent(db) && next >= 1 && KeysBelow(db.steps, next)
    requires roots <= db.steps.Keys
    requires PatchSteps(db, next, u, roots, items).Ok?
    ensures forall k :: k in roots ==>
              && k in PatchSteps(db, next, u, roots, items).value.0.steps
              && PatchSteps(db, next, u, roots, items).value.0.steps[k] == Rewritten(db.steps[k], k, items)
  {
    forall k | k in roots
      ensures k in PatchSteps(db, next, u, roots, items).value.0.steps
      ensures PatchSteps(db, next, u, roots, items).value.0.steps[k] == Rewritten(db.steps[k], k, items)
    {
      PatchStepsRoot(db, next, u, roots, items, k);
    }
  }

  /** The entries that take their id from the sequence: those with no id. */
  function Numbered(items: seq<StepItem>): (r: seq<StepItem>)
    ensures |r| <= |items|
    ensures forall i :: 0 <= i < |r| ==> ItemId(r[i]) == None
    decreases |items|
  {
    if items == [] then []
    else (if ItemId(items[0]).None? then [items[0]] else []) + Numbered(items[1..])
  }

  /** Some entry carries the id 0, which counts as no id: its step is inserted
      under that id. */
  predicate NamesZero(items: seq<StepItem>)
    decreases |items|
  {
    items != [] && (ItemId(items[0]) == Some(0) || NamesZero(items[1..]))
  }

  /** `row` is the step an entry without a (truthy) id becomes in training `u`. */
  ghost predicate CreatedFrom(actionTypes: map<int, ActionType>, u: Uuid, item: StepItem, row: Step) {
    && BuildStep(actionTypes, item).Ok?
    && var d := BuildStep(actionTypes, item).value.(trainingUuid := Some(u));
       d.stepNumber.Some? && row == DraftRow(d)
  }

  /** The steps a patch creates: one per entry without an id, numbered from
      the sequence in entry order, and one under id 0 when an entry names it. */
  ghost predicate PatchCreates(db: Db, next: int, u: Uuid, items: seq<StepItem>, result: (Db, int)) {
    var (db', next') := result;
    && next' == next + |Numbered(items)|
    && (forall k :: k in db'.steps && k !in db.steps <==> next <= k < next' || (k == 0 && NamesZero(items)))
    && (forall j :: 0 <= j < |Numbered(items)| ==>
          next + j in db'.steps && CreatedFrom(db.actionTypes, u, Numbered(items)[j], db'.steps[next + j]))
  }

  /** One entry creates what `PatchCreates` says of it. */
  lemma PatchItemCreates(db: Db, next: int, u: Uuid, roots: set<int>, item: StepItem)
    requires Consistent(db) && next >= 1 && KeysBelow(db.steps, next)
    requires roots <= db.steps.Keys
    requires PatchItem(db, next, u, roots, item).Ok?
    ensures PatchCreates(db, next, u, [item], PatchItem(db, next, u, roots, item).value)
  {
    assert [item][1..] == [];
    var id := ItemId(item);
    if !Truthy(id) {
      InsertStepKeepsConsistent(db, next, BuildStep(db.actionTypes, item).value.(trainingUuid := Some(u)));
    }
  }

  /** What one entry creates followed by what the rest create is what the
      whole patch creates. */
  lemma PatchCreatesThen(db: Db, next: int, u: Uuid, roots: set<int>, items: seq<StepItem>, mid: (Db, int), result: (Db, int))
    requires items != [] && next >= 1 && KeysBelow(db.steps, next) && roots <= db.steps.Keys
    requires PatchEffect(db, next, u, roots, mid) && PatchEffect(mid.0, mid.1, u, roots, result)
    requires PatchCreates(db, next, u, [items[0]], mid) && PatchCreates(mid.0, mid.1, u, items[1..], result)
    ensures PatchCreates(db, next, u, items, result)
  {
    var rest := items[1..];
    NumberedFirst(items);
    var n0 := |Numbered([items[0]])|;
    PatchCreatesKeys(db, next, mid, result, NamesZero([items[0]]), NamesZero(rest), NamesZero(items));
    forall j | 0 <= j < |Numbered(items)|
      ensures next + j in result.0.steps && CreatedFrom(db.actionTypes, u, Numbered(items)[j], result.0.steps[next + j])
    {
      if j < n0 {
        assert next + j !in db.steps;
      } else {
        assert Numbered(items)[j] == Numbered(rest)[j - n0];
        assert next + j == mid.1 + (j - n0);
      }
    }
  }

  lemma NumberedFirst(items: seq<StepItem>)
    requires items != []
    ensures Numbered(items) == Numbered([items[0]]) + Numbered(items[1..])
    ensures NamesZero(items) <==> NamesZero([items[0]]) || NamesZero(items[1..])
  {
    assert [items[0]][1..] == [];
  }

  /** The keys added in two stages are those of the first and of the second. */
  lemma PatchCreatesKeys(db: Db, next: int, mid: (Db, int), result: (Db, int), z1: bool, z2: bool, z: bool)
    requires z <==> z1 || z2
    requires next <= mid.1 <= result.1 && db.steps.Keys <= mid.0.steps.Keys <= result.0.steps.Keys
    requires forall k :: k in mid.0.steps && k !in db.steps <==> next <= k < mid.1 || (k == 0 && z1)
    requires forall k :: k in result.0.steps && k !in mid.0.steps <==> mid.1 <= k < result.1 || (k == 0 && z2)
    ensures forall k :: k in result.0.steps && k !in db.steps <==> next <= k < result.1 || (k == 0 && z)
  {
  }

  /** The steps `patch_training_steps` creates are exactly one per entry
      without an id, numbered from the sequence in entry order, plus one under
      id 0 when an entry carries that id. */
  lemma {:induction false} PatchStepsCreates(db: Db, next: int, u: Uuid, roots: set<int>, items: seq<StepItem>)
    requires Consistent(db) && next >= 1 && KeysBelow(db.steps, next)
    requires roots <= db.steps.Keys
    requires PatchSteps(db, next, u, roots, items).Ok?
    ensures PatchCreates(db, next, u, items, PatchSteps(db, next, u, roots, items).value)
    decreases |items|
  {
    if items != [] {
      PatchItemEffect(db, next, u, roots, items[0]);
      PatchItemCreates(db, next, u, roots, items[0]);
      var first := PatchItem(db, next, u, roots, items[0]).value;
      PatchStepsCreates(first.0, first.1, u, roots, items[1..]);
      PatchStepsFrame(first.0, first.1, u, roots, items[1..]);
      PatchCreatesThen(db, next, u, roots, items, first, PatchSteps(db, next, u, roots, items).value);
    }
  }

  /** The loop of `delete_steps_bulk`: (state, deleted count, not-found ids). */
  function DeleteEach(db: Db, u: Uuid, ids: seq<int>, deleted: nat, notFound: seq<int>): (r: (Db, nat, seq<int>))
    ensures r.0 == db.(steps := r.0.steps) && r.0.steps.Keys <= db.steps.Keys
    ensures deleted <= r.1 <= deleted + |ids| && |notFound| <= |r.2| <= |notFound| + |ids|
    decreases |ids|
  {
    if ids == [] then (db, deleted, notFound)
    else if GetStepByIdAndTraining(db, ids[0], u).None? then DeleteEach(db, u, ids[1..], deleted, notFound + [ids[0]])
    else DeleteEach(DeleteSteps(db, {ids[0]}), u, ids[1..], deleted + 1, notFound)
  }

  lemma SubsetCard(a: set<int>, b: set<int>)
    requires a <= b
    ensures |a| <= |b|
  {
    if a != b {
      ProperSubsetIsSmaller(a, b);
    }
  }

  /** `delete_steps_bulk` adds no row, changes no surviving row, touches
      nothing but steps and keeps every constraint. */
  lemma {:induction false} DeleteEachFrame(db: Db, u: Uuid, ids: seq<int>, deleted: nat, notFound: seq<int>)
    requires Consistent(db)
    ensures var db' := DeleteEach(db, u, ids, deleted, notFound).0;
      && Consistent(db')
      && db' == db.(steps := db'.steps)
      && db'.steps.Keys <= db.steps.Keys
      && (forall k :: k in db'.steps ==> db'.steps[k] == db.steps[k])
    decreases |ids|
  {
    if ids != [] {
      if GetStepByIdAndTraining(db, ids[0], u).None? {
        DeleteEachFrame(db, u, ids[1..], deleted, notFound + [ids[0]]);
      } else {
        DeleteStepsKeepsConsistent(db, {ids[0]});
        DeleteEachFrame(DeleteSteps(db, {ids[0]}), u, ids[1..], deleted + 1, notFound);
      }
    }
  }

  /** Every requested id is counted once, as deleted or as not found. */
  lemma {:induction false} DeleteEachCounts(db: Db, u: Uuid, ids: seq<int>, deleted: nat, notFound: seq<int>)
    ensures var (_, deleted', notFound') := DeleteEach(db, u, ids, deleted, notFound);
      && deleted' + |notFound'| == deleted + |notFound| + |ids|
      && deleted <= deleted'
    decreases |ids|
  {
    if ids != [] {
      if GetStepByIdAndTraining(db, ids[0], u).None? {
        DeleteEachCounts(db, u, ids[1..], deleted, notFound + [ids[0]]);
      } else {
        DeleteEachCounts(DeleteSteps(db, {ids[0]}), u, ids[1..], deleted + 1, notFound);
      }
    }
  }

  /** No step is deleted twice: the deletions never exceed the distinct
      listed ids of the training. */
  lemma {:induction false} DeleteEachAtMostDistinct(db: Db, u: Uuid, ids: seq<int>, deleted: nat, notFound: seq<int>)
    ensures DeleteEach(db, u, ids, deleted, notFound).1 - deleted <= |set x | x in ids && x in StepIdsOf(db, u)|
    decreases |ids|
  {
    if ids != [] {
      var x := ids[0];
      var rest := ids[1..];
      var listed := set y | y in ids && y in StepIdsOf(db, u);
      if GetStepByIdAndTraining(db, x, u).None? {
        DeleteEachAtMostDistinct(db, u, rest, deleted, notFound + [x]);
        var listedRest := set y | y in rest && y in StepIdsOf(db, u);
        SubsetCard(listedRest, listed);
      } else {
        var db1 := DeleteSteps(db, {x});
        DeleteEachAtMostDistinct(db1, u, rest, deleted + 1, notFound);
        var listed1 := set y | y in rest && y in StepIdsOf(db1, u);
        assert listed1 <= listed - {x};
        SubsetCard(listed1, listed - {x});
        assert x in listed;
      }
    }
  }

  /** An id outside the training is reported as not found, and a listed step
      of the training is gone afterwards. */
  lemma {:induction false} DeleteEachReports(db: Db, u: Uuid, ids: seq<int>, deleted: nat, notFound: seq<int>)
    requires Consistent(db)
    ensures var (db', _, notFound') := DeleteEach(db, u, ids, deleted, notFound);
      && (forall i :: 0 <= i < |ids| && ids[i] !in StepIdsOf(db, u) ==> ids[i] in notFound')
      && (forall i :: 0 <= i < |ids| && ids[i] in StepIdsOf(db, u) ==> ids[i] !in db'.steps)
    decreases |ids|
  {
    if ids != [] {
      var x := ids[0];
      var rest := ids[1..];
      if GetStepByIdAndTraining(db, x, u).None? {
        DeleteEachReports(db, u, rest, deleted, notFound + [x]);
        DeleteEachKeepsPrefix(db, u, rest, deleted, notFound + [x]);
        var (db', _, notFound') := DeleteEach(db, u, rest, deleted, notFound + [x]);
        assert notFound'[|notFound|] == x;
        forall i | 0 <= i < |ids| && ids[i] !in StepIdsOf(db, u) ensures ids[i] in notFound' {
          if i > 0 {
            assert rest[i - 1] == ids[i];
          }
        }
        forall i | 0 <= i < |ids| && ids[i] in StepIdsOf(db, u) ensures ids[i] !in db'.steps {
          assert i > 0 && rest[i - 1] == ids[i];
        }
      } else {
        DeleteStepsKeepsConsistent(db, {x});
        var db1 := DeleteSteps(db, {x});
        DeleteEachReports(db1, u, rest, deleted + 1, notFound);
        DeleteEachFrame(db1, u, rest, deleted + 1, notFound);
        var (db', _, notFound') := DeleteEach(db1, u, rest, deleted + 1, notFound);
        forall i | 0 <= i < |ids| && ids[i] !in StepIdsOf(db, u) ensures ids[i] in notFound' {
          assert i > 0 && rest[i - 1] == ids[i];
          assert ids[i] !in StepIdsOf(db1, u);
        }
        forall i | 0 <= i < |ids| && ids[i] in StepIdsOf(db, u) ensures ids[i] !in db'.steps {
          if i > 0 && ids[i] != x {
            assert rest[i - 1] == ids[i];
            assert ids[i] in db1.steps ==> ids[i] in StepIdsOf(db1, u);
          }
        }
      }
    }
  }

  /** Only the listed steps of the training, with their sub-steps, are
      deleted: every removed row is in the cascade of the listed ids that were
      steps of the training at the start. */
  lemma {:induction false} DeleteEachWithinCascade(db: Db, u: Uuid, ids: seq<int>, deleted: nat, notFound: seq<int>)
    requires Consistent(db)
    ensures var listed := set x | x in ids && x in StepIdsOf(db, u);
      db.steps.Keys - DeleteEach(db, u, ids, deleted, notFound).0.steps.Keys <= CascadeClosure(db.steps, listed)
    decreases |ids|
  {
    if ids != [] {
      var x, rest := ids[0], ids[1..];
      var listed := set y | y in ids && y in StepIdsOf(db, u);
      var gone := CascadeClosure(db.steps, listed);
      if GetStepByIdAndTraining(db, x, u).None? {
        DeleteEachWithinCascade(db, u, rest, deleted, notFound + [x]);
        var listedRest := set y | y in rest && y in StepIdsOf(db, u);
        CascadeClosureIsLeast(db.steps, listedRest, gone);
      } else {
        var db1 := DeleteSteps(db, {x});
        DeleteStepsKeepsConsistent(db, {x});
        DeleteEachWithinCascade(db1, u, rest, deleted + 1, notFound);
        DeleteEachFrame(db1, u, rest, deleted + 1, notFound);
        CascadeClosureIsLeast(db.steps, {x}, gone);
        assert ChildrenOf(db1.steps, gone) <= ChildrenOf(db.steps, gone);
        var listed1 := set y | y in rest && y in StepIdsOf(db1, u);
        CascadeClosureIsLeast(db1.steps, listed1, gone);
      }
    }
  }

  lemma {:induction false} DeleteEachKeepsPrefix(db: Db, u: Uuid, ids: seq<int>, deleted: nat, notFound: seq<int>)
    ensures var notFound' := DeleteEach(db, u, ids, deleted, notFound).2;
      |notFound| <= |notFound'| && notFound'[..|notFound|] == notFound
    decreases |ids|
  {
    if ids != [] {
      if GetStepByIdAndTraining(db, ids[0], u).None? {
        DeleteEachKeepsPrefix(db, u, ids[1..], deleted, notFound + [ids[0]]);
        var notFound' := DeleteEach(db, u, ids[1..], deleted, notFound + [ids[0]]).2;
        assert notFound'[..|notFound|] == (notFound + [ids[0]])[..|notFound|];
      } else {
        DeleteEachKeepsPrefix(DeleteSteps(db, {ids[0]}), u, ids[1..], deleted + 1, notFound);
      }
    }
  }

  /** With no id listed twice, each listed step takes the number its entry
      gives it. */
  lemma {:induction false} LastNumberForDistinct(data: seq<StepOrderUpdate>, i: int)
    requires 0 <= i < |data|
    requires forall a, b :: 0 <= a < b < |data| ==> data[a].id != data[b].id
    ensures LastNumberFor(data, data[i].id) == Some(data[i].stepNumber)
    decreases |data|
  {
    if i < |data| - 1 {
      var init := data[..|data| - 1];
      assert init[i] == data[i];
      LastNumberForDistinct(init, i);
    }
  }

  /** The training row `create_training` inserts: the schema fields, the
      creator, and `skip_steps` None left to the column default (true). */
  function TrainingRow(data: TrainingCreate, creatorId: int): Training {
    Training(data.title, data.description, creatorId, data.levelId, data.durationMinutes,
             data.publish, data.skipSteps.GetOr(true))
  }

  /** A training created from only its required fields is unpublished and lets
      steps be skipped. */
  lemma DefaultTrainingRow(title: string, description: string, creatorId: int)
    ensures !TrainingRow(TrainingCreateWithDefaults(title, description), creatorId).publish
    ensures TrainingRow(TrainingCreateWithDefaults(title, description), creatorId).skipSteps
    ensures TrainingCreateWithDefaults(title, description).steps == Some([])
    ensures TrainingCreateWithDefaults(title, description).tagIds == Some([])
  {
  }

  /** The existing tags whose value is listed (`Tags.value.in_(tag_ids)`). */
  function TagsFor(db: Db, values: seq<int>): (r: set<int>)
    ensures r <= db.tags.Keys
    ensures forall v :: v in r <==> v in db.tags && v in values
  {
    set v | v in db.tags && v in values
  }

  /** The link rows after `training.tags = list(tags)`. */
  function Relink(links: set<(Uuid, int)>, u: Uuid, values: set<int>): (r: set<(Uuid, int)>)
    ensures forall link :: link in r && link.0 != u ==> link in links
    ensures forall link :: link in links && link.0 != u ==> link in r
    ensures forall v :: (u, v) in r <==> v in values
  {
    (set link | link in links && link.0 != u) + Links(u, values)
  }

  /** The tags a new training is linked to: only a non-empty `tag_ids` is
      looked up, and only the tags that exist are linked. */
  function InitialTags(db: Db, tagIds: Option<seq<int>>): (r: set<int>)
    ensures r <= db.tags.Keys
    ensures forall v :: v in r <==> tagIds.Some? && v in tagIds.value && v in db.tags
  {
    if tagIds.Some? && tagIds.value != [] then TagsFor(db, tagIds.value) else {}
  }

  /** The state once `create_training` has added the training row and its tag
      links, before its steps. */
  function WithTraining(db: Db, data: TrainingCreate, creatorId: int, u: Uuid): Db {
    db.(trainings := db.trainings[u := TrainingRow(data, creatorId)],
        trainingTags := db.trainingTags + Links(u, InitialTags(db, data.tagIds)))
  }

  /** The steps created with a new training (`if training_data.steps:`). */
  function InitialSteps(steps: Option<seq<StepCreate>>): (r: seq<StepCreate>)
    ensures steps.Some? ==> r == steps.value
    ensures steps.None? ==> r == []
  {
    if steps.Some? then steps.value else []
  }

  /** `[step.id for step in steps_order]`. */
  function OrderIds(order: seq<StepOrderUpdate>): (ids: seq<int>)
    ensures |ids| == |order| && forall i :: 0 <= i < |order| ==> ids[i] == order[i].id
  {
    seq(|order|, i requires 0 <= i < |order| => order[i].id)
  }

  /** The two dictionaries `reorder_steps` answers with: `updated_count` and
      `total_requested` (both 0) for an empty list, otherwise the number of
      rows updated and the number of entries under Russian keys. */
  datatype ReorderReply = NothingRequested | Reordered(updated: int, requested: int)

  class TrainingsService {
    const session: Session
    const repo: TrainingRepository

    ghost predicate Valid()
      reads session
    {
      repo.session == session && session.Valid()
    }

    constructor(session: Session)
      requires session.Valid()
      ensures Valid() && this.session == session
    {
      this.session := session;
      this.repo := new TrainingRepository(session);
    }

    /** The `except` clauses: ROLLBACK, then re-raise an HTTPException or turn
        any other error into a 500. */
    method Abort<T>(e: Error) returns (r: Result<T>)
      requires Valid()
      modifies session
      ensures Valid() && session.Clean()
      ensures session.db == old(session.committed) && session.nextTagValue == old(session.nextTagValue)
      ensures session.nextStepId == old(session.nextStepId)
      ensures r == Err(AsHttp(e))
    {
      session.Rollback();
      r := Err(AsHttp(e));
    }

    /** The loop inserting the steps of `create_training` / `add_steps_bulk`;
        a failure is left for the caller to roll back. */
    method CreateSteps(u: Uuid, items: seq<StepCreate>) returns (r: Result<seq<int>>)
      requires Valid()
      modifies session
      ensures Valid()
      ensures session.committed == old(session.committed) && session.nextTagValue == old(session.nextTagValue)
      ensures r.Ok? ==> InsertSteps(old(session.db), old(session.nextStepId), u, items, []) ==
                          Ok((session.db, session.nextStepId, r.value))
      ensures r.Err? ==> InsertSteps(old(session.db), old(session.nextStepId), u, items, []) == Err(r.error)
    {
      var ids: seq<int> := [];
      for i := 0 to |items|
        invariant Valid()
        invariant session.committed == old(session.committed) && session.nextTagValue == old(session.nextTagValue)
        invariant InsertSteps(old(session.db), old(session.nextStepId), u, items, []) ==
                    InsertSteps(session.db, session.nextStepId, u, items[i..], ids)
      {
        assert items[i..][0] == items[i] && items[i..][1..] == items[i + 1..];
        var d := BuildStep(session.db.actionTypes, CreateItem(items[i]));
        if d.Err? {
          return Err(d.error);
        }
        var created := repo.CreateTrainingStep(d.value.(trainingUuid := Some(u)));
        if created.Err? {
          return Err(created.error);
        }
        ids := ids + [created.value];
      }
      r := Ok(ids);
    }

    /** `create_training`: the training row, its tags (only when `tag_ids` is a
        non-empty list: the existing tags it names), then its steps, in one
        transaction. */
    method CreateTraining(data: TrainingCreate, creatorId: int, u: Uuid) returns (r: Result<Uuid>)
      requires Valid() && session.Clean() && u !in session.db.trainings
      modifies session
      ensures Valid() && session.Clean() && session.nextTagValue == old(session.nextTagValue)
      ensures r.Err? ==> session.db == old(session.db) && r.error.HttpError?
      ensures !TrainingRefsExist(old(session.db), TrainingRow(data, creatorId)) ==> r == Err(HttpError(INTERNAL_ERROR))
      ensures r.Ok? <==>
                && TrainingRefsExist(old(session.db), TrainingRow(data, creatorId))
                && InsertSteps(WithTraining(old(session.db), data, creatorId, u), old(session.nextStepId), u,
                               InitialSteps(data.steps), []).Ok?
      ensures TrainingRefsExist(old(session.db), TrainingRow(data, creatorId)) && r.Err? ==>
                var steps := InsertSteps(WithTraining(old(session.db), data, creatorId, u), old(session.nextStepId), u,
                                         InitialSteps(data.steps), []);
                steps.Err? && r.error == AsHttp(steps.error)
      ensures r.Ok? ==> r.value == u && session.db == old(session.db).(
                trainings := old(session.db).trainings[u := TrainingRow(data, creatorId)],
                trainingTags := old(session.db).trainingTags + Links(u, InitialTags(old(session.db), data.tagIds)),
                steps := session.db.steps)
      ensures r.Ok? ==> forall k :: k in session.db.steps <==>
                k in old(session.db).steps || old(session.nextStepId) <= k < old(session.nextStepId) + |InitialSteps(data.steps)|
      ensures r.Ok? ==> forall k :: k in old(session.db).steps ==> session.db.steps[k] == old(session.db).steps[k]
      ensures r.Ok? ==> forall i :: 0 <= i < |InitialSteps(data.steps)| ==>
                session.db.steps[old(session.nextStepId) + i] == CreatedRow(u, InitialSteps(data.steps)[i])
    {
      var created := repo.Create(u, TrainingRow(data, creatorId), InitialTags(session.db, data.tagIds));
      if created.Err? {
        r := Abort(created.error);
        return;
      }
      var items := InitialSteps(data.steps);
      ghost var db1, next1 := session.db, session.nextStepId;
      var steps := CreateSteps(u, items);
      if steps.Err? {
        r := Abort(steps.error);
        return;
      }
      InsertStepsEffect(db1, next1, u, items, []);
      session.Commit();
      r := Ok(u);
    }

    /** `patch_training`: 404 for an unknown training; writes the fields the
        client set; replaces the tags only when `tag_ids` is a list. The request
        model has no `steps` and no `skip_steps`, so the step-patch branch is
        never taken and neither is ever changed here. */
    method PatchTraining(u: Uuid, upd: TrainingUpdate) returns (r: Result<Uuid>)
      requires Valid() && session.Clean()
      modifies session
      ensures Valid() && session.Clean() && session.nextTagValue == old(session.nextTagValue)
      ensures session.nextStepId == old(session.nextStepId)
      ensures r.Err? ==> session.db == old(session.db)
      ensures u !in old(session.db).trainings ==> r == Err(HttpError(NOT_FOUND))
      ensures u in old(session.db).trainings ==>
                (r.Ok? <==> NoTrainingChange(TrainingChangesOf(upd)) || TrainingChangesAllowed(old(session.db), TrainingChangesOf(upd)))
      ensures u in old(session.db).trainings && r.Err? ==> r == Err(HttpError(INTERNAL_ERROR))
      ensures r.Ok? ==> r.value == u && session.db.steps == old(session.db).steps && session.db.tags == old(session.db).tags
      ensures r.Ok? ==> session.db.trainings.Keys == old(session.db).trainings.Keys
      ensures r.Ok? ==> forall v :: v in old(session.db).trainings && v != u ==> session.db.trainings[v] == old(session.db).trainings[v]
      ensures r.Ok? ==> session.db.trainings[u].skipSteps == old(session.db).trainings[u].skipSteps
      ensures r.Ok? && !NoTrainingChange(TrainingChangesOf(upd)) ==>
                session.db.trainings[u] == ApplyTrainingChanges(old(session.db).trainings[u], TrainingChangesOf(upd))
      ensures r.Ok? && NoTrainingChange(TrainingChangesOf(upd)) ==> session.db.trainings == old(session.db).trainings
      ensures r.Ok? && upd.tagIds.Or(None).Some? ==>
                session.db.trainingTags == Relink(old(session.db).trainingTags, u, TagsFor(old(session.db), upd.tagIds.Or(None).value))
      ensures r.Ok? && upd.tagIds.Or(None).None? ==> session.db.trainingTags == old(session.db).trainingTags
    {
      if u !in session.db.trainings {
        r := Abort(HttpError(NOT_FOUND));
        return;
      }
      var c := TrainingChangesOf(upd);
      if !NoTrainingChange(c) {
        var res := repo.PatchTrainingFields(u, c);
        if res.Err? {
          r := Abort(res.error);
          return;
        }
        assert u in old(session.db).trainings && res.value;
      }
      var tagIds := upd.tagIds.Or(None);
      if tagIds.Some? {
        var db := session.db;
        var values := TagsFor(db, tagIds.value);
        var db' := db.(trainingTags := Relink(db.trainingTags, u, values));
        assert Consistent(db');
        session.db := db';
      }
      session.Commit();
      r := Ok(u);
    }

    /** `patch_training_steps` (inside the caller's transaction): the entries
        are matched against the root steps listed at the start. */
    method PatchTrainingSteps(u: Uuid, items: seq<StepItem>) returns (r: Result<()>)
      requires Valid()
      modifies session
      ensures Valid()
      ensures session.committed == old(session.committed) && session.nextTagValue == old(session.nextTagValue)
      ensures r.Ok? ==> PatchSteps(old(session.db), old(session.nextStepId), u, RootIdsOf(old(session.db), u), items) ==
                          Ok((session.db, session.nextStepId))
      ensures r.Err? ==> PatchSteps(old(session.db), old(session.nextStepId), u, RootIdsOf(old(session.db), u), items) == Err(r.error)
      ensures r.Ok? ==> forall k :: k in old(session.db).steps && k !in RootIdsOf(old(session.db), u) ==>
                          k in session.db.steps && session.db.steps[k] == old(session.db).steps[k]
      ensures r.Ok? ==> forall k :: k in session.db.steps && k !in old(session.db).steps ==> session.db.steps[k].trainingUuid == u
      ensures r.Ok? ==> forall k :: k in RootIdsOf(old(session.db), u) ==>
                          k in session.db.steps && session.db.steps[k] == Rewritten(old(session.db).steps[k], k, items)
      ensures r.Ok? ==> PatchCreates(old(session.db), old(session.nextStepId), u, items, (session.db, session.nextStepId))
    {
      var roots := RootIdsOf(session.db, u);
      for i := 0 to |items|
        invariant Valid()
        invariant session.committed == old(session.committed) && session.nextTagValue == old(session.nextTagValue)
        invariant PatchSteps(old(session.db), old(session.nextStepId), u, roots, items) ==
                    PatchSteps(session.db, session.nextStepId, u, roots, items[i..])
      {
        assert items[i..][0] == items[i] && items[i..][1..] == items[i + 1..];
        var item := items[i];
        var id := ItemId(item);
        if Truthy(id) && id.value in roots {
          var c := ChangesOf(item.update, false);
          if !NoStepChange(c) {
            var res := repo.UpdateTrainingStep(id.value, c);
            if res.Err? {
              return Err(res.error);
            }
          }
        } else if !Truthy(id) {
          var d := BuildStep(session.db.actionTypes, item);
          if d.Err? {
            return Err(d.error);
          }
          var created := repo.CreateTrainingStep(d.value.(trainingUuid := Some(u)));
          if created.Err? {
            return Err(created.error);
          }
        }
      }
      PatchStepsFrame(old(session.db), old(session.nextStepId), u, roots, items);
      PatchStepsCreates(old(session.db), old(session.nextStepId), u, roots, items);
      PatchStepsRoots(old(session.db), old(session.nextStepId), u, roots, items);
      r := Ok(());
    }
  
    /** `add_step`: 404 for an unknown training; otherwise one new row under
        the next sequence value, committed. */
    method AddStep(u: Uuid, item: StepCreate) returns (r: Result<int>)
      requires Valid() && session.Clean()
      modifies session
      ensures Valid() && session.Clean() && session.nextTagValue == old(session.nextTagValue)
      ensures r.Err? ==> session.db == old(session.db)
      ensures u !in old(session.db).trainings ==> r == Err(HttpError(NOT_FOUND))
      ensures Truthy(item.actionTypeId) && item.actionTypeId.value !in old(session.db).actionTypes ==>
                r == Err(HttpError(NOT_FOUND))
      ensures r.Ok? <==>
                && u in old(session.db).trainings
                && item.steps == Some([])
                && (Truthy(item.actionTypeId) ==> item.actionTypeId.value in old(session.db).actionTypes)
                && (item.parentStepId.Some? ==> item.parentStepId.value in old(session.db).steps)
      ensures r.Err? && r.error != HttpError(NOT_FOUND) ==> r.error == HttpError(INTERNAL_ERROR)
      ensures r.Ok? ==> r.value == old(session.nextStepId) && r.value !in old(session.db).steps
      ensures r.Ok? ==> session.db == old(session.db).(steps := old(session.db).steps[r.value := CreatedRow(u, item)])
    {
      if !CheckTrainingExists(session.db, u) {
        r := Abort(HttpError(NOT_FOUND));
        return;
      }
      var d := BuildStep(session.db.actionTypes, CreateItem(item));
      if d.Err? {
        r := Abort(d.error);
        return;
      }
      var created := repo.CreateTrainingStep(d.value.(trainingUuid := Some(u)));
      if created.Err? {
        r := Abort(created.error);
        return;
      }
      session.Commit();
      r := created;
    }

    /** `add_steps_bulk`: all the steps or none of them. */
    method AddStepsBulk(u: Uuid, items: seq<StepCreate>) returns (r: Result<seq<int>>)
      requires Valid() && session.Clean()
      modifies session
      ensures Valid() && session.Clean() && session.nextTagValue == old(session.nextTagValue)
      ensures r.Err? ==> session.db == old(session.db) && r.error.HttpError?
      ensures u !in old(session.db).trainings ==> r == Err(HttpError(NOT_FOUND))
      ensures r.Ok? <==> u in old(session.db).trainings && InsertSteps(old(session.db), old(session.nextStepId), u, items, []).Ok?
      ensures r.Ok? ==> |r.value| == |items| && forall i :: 0 <= i < |items| ==> r.value[i] == old(session.nextStepId) + i
      ensures r.Ok? ==> session.db == old(session.db).(steps := session.db.steps)
      ensures r.Ok? ==> forall k :: k in session.db.steps <==>
                k in old(session.db).steps || old(session.nextStepId) <= k < old(session.nextStepId) + |items|
      ensures r.Ok? ==> forall k :: k in old(session.db).steps ==> session.db.steps[k] == old(session.db).steps[k]
      ensures r.Ok? ==> forall i :: 0 <= i < |items| ==> session.db.steps[old(session.nextStepId) + i] == CreatedRow(u, items[i])
    {
      if !CheckTrainingExists(session.db, u) {
        r := Abort(HttpError(NOT_FOUND));
        return;
      }
      ghost var db0, next0 := session.db, session.nextStepId;
      var created := CreateSteps(u, items);
      if created.Err? {
        r := Abort(created.error);
        return;
      }
      InsertStepsEffect(db0, next0, u, items, []);
      session.Commit();
      r := created;
    }

    /** `update_step`: 404 unless the step belongs to the training; the fields
        the client set (never `id` or `steps`) are written; the row is returned
        as it is after the commit. */
    method UpdateStep(u: Uuid, stepId: int, upd: StepUpdate) returns (r: Result<Step>)
      requires Valid() && session.Clean()
      modifies session
      ensures Valid() && session.Clean()
      ensures session.nextStepId == old(session.nextStepId) && session.nextTagValue == old(session.nextTagValue)
      ensures r.Err? ==> session.db == old(session.db)
      ensures stepId !in StepIdsOf(old(session.db), u) ==> r == Err(HttpError(NOT_FOUND))
      ensures stepId in StepIdsOf(old(session.db), u) ==>
                var c := ChangesOf(upd, true);
                (r.Ok? <==>
                   (NoStepChange(c) ||
                    (c.stepNumber != Set(None) && StepRefsExist(old(session.db), ApplyStepChanges(old(session.db).steps[stepId], c)))))
      ensures stepId in StepIdsOf(old(session.db), u) && r.Err? ==> r == Err(HttpError(INTERNAL_ERROR))
      ensures r.Ok? ==> r.value == ApplyStepChanges(old(session.db).steps[stepId], ChangesOf(upd, true))
      ensures r.Ok? ==> session.db == old(session.db).(steps := old(session.db).steps[stepId := r.value])
      ensures r.Ok? ==> r.value.trainingUuid == u
    {
      var existing := GetStepByIdAndTraining(session.db, stepId, u);
      if existing.None? {
        r := Abort(HttpError(NOT_FOUND));
        return;
      }
      var c := ChangesOf(upd, true);
      if !NoStepChange(c) {
        var res := repo.UpdateTrainingStep(stepId, c);
        if res.Err? {
          r := Abort(res.error);
          return;
        }
      }
      session.Commit();
      r := Ok(session.db.steps[stepId]);
    }

    /** `delete_step`: 404 unless the step belongs to the training; otherwise
        it goes with its sub-steps. The second 404 of the source (the DELETE
        finding no row) cannot happen once the lookup succeeded. */
    method DeleteStep(u: Uuid, stepId: int) returns (r: Result<bool>)
      requires Valid() && session.Clean()
      modifies session
      ensures Valid() && session.Clean()
      ensures session.nextStepId == old(session.nextStepId) && session.nextTagValue == old(session.nextTagValue)
      ensures stepId !in StepIdsOf(old(session.db), u) ==> r == Err(HttpError(NOT_FOUND)) && session.db == old(session.db)
      ensures stepId in StepIdsOf(old(session.db), u) ==> r == Ok(true) && session.db == DeleteSteps(old(session.db), {stepId})
    {
      var existing := GetStepByIdAndTraining(session.db, stepId, u);
      if existing.None? {
        r := Abort(HttpError(NOT_FOUND));
        return;
      }
      var found := repo.DeleteTrainingStep(stepId);
      assert found;
      session.Commit();
      r := Ok(true);
    }

    /** `delete_steps_bulk`: each id is looked up in the state left by the
        previous deletions, so an id whose step went with an earlier cascade
        is reported as not found. */
    method DeleteStepsBulk(u: Uuid, ids: seq<int>) returns (deleted: nat, notFound: seq<int>, total: nat)
      requires Valid() && session.Clean()
      modifies session
      ensures Valid() && session.Clean()
      ensures session.nextStepId == old(session.nextStepId) && session.nextTagValue == old(session.nextTagValue)
      ensures (session.db, deleted, notFound) == DeleteEach(old(session.db), u, ids, 0, [])
      ensures total == |ids| && deleted + |notFound| == total
      ensures deleted <= |set x | x in ids && x in StepIdsOf(old(session.db), u)|
      ensures forall i :: 0 <= i < |ids| && ids[i] !in StepIdsOf(old(session.db), u) ==> ids[i] in notFound
      ensures forall i :: 0 <= i < |ids| && ids[i] in StepIdsOf(old(session.db), u) ==> ids[i] !in session.db.steps
      ensures session.db == old(session.db).(steps := session.db.steps) && session.db.steps.Keys <= old(session.db).steps.Keys
      ensures forall k :: k in session.db.steps ==> session.db.steps[k] == old(session.db).steps[k]
      ensures old(session.db).steps.Keys - session.db.steps.Keys <=
                CascadeClosure(old(session.db).steps, set x | x in ids && x in StepIdsOf(old(session.db), u))
    {
      ghost var db0 := session.db;
      deleted, notFound := 0, [];
      for i := 0 to |ids|
        invariant Valid()
        invariant session.committed == old(session.committed)
        invariant session.nextStepId == old(session.nextStepId) && session.nextTagValue == old(session.nextTagValue)
        invariant DeleteEach(db0, u, ids, 0, []) == DeleteEach(session.db, u, ids[i..], deleted, notFound)
      {
        assert ids[i..][0] == ids[i] && ids[i..][1..] == ids[i + 1..];
        if GetStepByIdAndTraining(session.db, ids[i], u).None? {
          notFound := notFound + [ids[i]];
        } else {
          var found := repo.DeleteTrainingStep(ids[i]);
          assert found;
          deleted := deleted + 1;
        }
      }
      DeleteEachFrame(db0, u, ids, 0, []);
      DeleteEachCounts(db0, u, ids, 0, []);
      DeleteEachAtMostDistinct(db0, u, ids, 0, []);
      DeleteEachReports(db0, u, ids, 0, []);
      DeleteEachWithinCascade(db0, u, ids, 0, []);
      session.Commit();
      total := |ids|;
    }

    /** `reorder_steps`: 404 for an unknown training; an empty list changes
        nothing; 400 unless the ids are distinct steps of the training;
        otherwise every listed step takes its new number. */
    method ReorderSteps(u: Uuid, order: seq<StepOrderUpdate>) returns (r: Result<ReorderReply>)
      requires Valid() && session.Clean()
      modifies session
      ensures Valid() && session.Clean()
      ensures session.nextStepId == old(session.nextStepId) && session.nextTagValue == old(session.nextTagValue)
      ensures r.Err? ==> session.db == old(session.db)
      ensures u !in old(session.db).trainings ==> r == Err(HttpError(NOT_FOUND))
      ensures u in old(session.db).trainings && order == [] ==> r == Ok(NothingRequested) && session.db == old(session.db)
      ensures u in old(session.db).trainings && order != [] ==>
                (r.Ok? <==>
                   && (forall a, b :: 0 <= a < b < |order| ==> order[a].id != order[b].id)
                   && (forall i :: 0 <= i < |order| ==> order[i].id in StepIdsOf(old(session.db), u)))
      ensures u in old(session.db).trainings && r.Err? ==> r == Err(HttpError(BAD_REQUEST))
      ensures r.Ok? && order != [] ==> r.value == Reordered(|order|, |order|)
      ensures r.Ok? ==> session.db == old(session.db).(steps := session.db.steps)
      ensures r.Ok? ==> session.db.steps.Keys == old(session.db).steps.Keys
      ensures r.Ok? ==> forall i :: 0 <= i < |order| ==>
                session.db.steps[order[i].id] == old(session.db).steps[order[i].id].(stepNumber := order[i].stepNumber)
      ensures r.Ok? ==> forall k :: k in old(session.db).steps && (forall i :: 0 <= i < |order| ==> order[i].id != k) ==>
                session.db.steps[k] == old(session.db).steps[k]
    {
      if !CheckTrainingExists(session.db, u) {
        r := Abort(HttpError(NOT_FOUND));
        return;
      }
      if order == [] {
        return Ok(NothingRequested);
      }
      var ids := OrderIds(order);
      CountStepsMatchesLength(session.db, u, ids);
      if CountStepsInTraining(session.db, u, ids) != |ids| {
        r := Abort(HttpError(BAD_REQUEST));
        return;
      }
      ghost var steps0 := session.db.steps;
      var n := repo.BulkUpdateStepNumbers(order);
      ApplyStepNumbersEffect(steps0, order);
      forall i | 0 <= i < |order|
        ensures LastNumberFor(order, order[i].id) == Some(order[i].stepNumber)
      {
        LastNumberForDistinct(order, i);
      }
      forall k | k in steps0 && (forall i :: 0 <= i < |order| ==> order[i].id != k)
        ensures LastNumberFor(order, k).None?
      {
        LastNumberForListed(order, k);
      }
      session.Commit();
      r := Ok(Reordered(n, |order|));
    }

    /** `create_steps_from_photos`: 404 for an unknown training, otherwise one
        new root step per URL, committed. */
    method CreateStepsFromPhotos(u: Uuid, urls: seq<string>) returns (r: Result<seq<(int, string)>>)
      requires Valid() && session.Clean()
      modifies session
      ensures Valid() && session.Clean() && session.nextTagValue == old(session.nextTagValue)
      ensures u !in old(session.db).trainings ==> r == Err(HttpError(NOT_FOUND)) && session.db == old(session.db)
      ensures u in old(session.db).trainings ==> r.Ok?
      ensures r.Ok? ==> |r.value| == |urls| && forall i :: 0 <= i < |urls| ==>
                r.value[i] == (|RootIdsOf(old(session.db), u)| + 1 + i, urls[i])
      ensures r.Ok? ==> session.db == old(session.db).(steps := session.db.steps)
      ensures r.Ok? ==> forall k :: k in session.db.steps <==>
                k in old(session.db).steps || old(session.nextStepId) <= k < old(session.nextStepId) + |urls|
      ensures r.Ok? ==> forall k :: k in old(session.db).steps ==> session.db.steps[k] == old(session.db).steps[k]
      ensures r.Ok? ==> forall i :: 0 <= i < |urls| ==>
                session.db.steps[old(session.nextStepId) + i] == PhotoStep(u, |RootIdsOf(old(session.db), u)| + 1 + i, urls[i])
    {
      if !CheckTrainingExists(session.db, u) {
        r := Abort(HttpError(NOT_FOUND));
        return;
      }
      r := repo.CreateStepsFromPhotos(u, urls);
      session.Commit();
    }

    /** `delete_training`: the repository deletes and commits; 404 when there
        was no such training. */
    method DeleteTraining(u: Uuid) returns (r: Result<bool>)
      requires Valid()
      modifies session
      ensures Valid() && session.Clean()
      ensures session.nextStepId == old(session.nextStepId) && session.nextTagValue == old(session.nextTagValue)
      ensures r.Ok? <==> u in old(session.db).trainings
      ensures r.Err? ==> r == Err(HttpError(NOT_FOUND)) && session.db == old(session.db)
      ensures r.Ok? ==> r.value && session.db == TrainingModels.DeleteTraining(old(session.db), u)
      ensures r.Ok? ==> u !in session.db.trainings && StepIdsOf(session.db, u) == {}
    {
      ghost var db0 := session.db;
      var found := repo.Delete(u);
      if !found {
        return Err(HttpError(NOT_FOUND));
      }
      DeleteTrainingKeepsConsistent(db0, u);
      r := Ok(true);
    }
  }
}
