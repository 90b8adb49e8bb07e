/** The request models of the training API (`backend/schemas/trainings.py`).
    A pydantic field with a default is a plain value holding that default when the
    client omits it; a field read with `exclude_unset=True` is a `Field`, which
    also remembers whether the client sent it. */
module TrainingSchemas {
  import opened Common
  import opened TrainingModels

  /** `TrainingStepCreate`: a step to insert, possibly with nested children. */
  datatype StepCreate = StepCreate(
    stepNumber: int,
    actionTypeId: Option<int>,
    trainingUuid: Option<Uuid>,
    parentStepId: Option<int>,
    area: Option<map<string, int>>,
    meta: Option<map<string, Json>>,
    annotation: Option<string>,
    imageUrl: Option<string>,
    steps: Option<seq<StepCreate>>)

  /** `TrainingStepUpdate`: every field optional and defaulting to None (`steps` to []). */
  datatype StepUpdate = StepUpdate(
    id: Field<Option<int>>,
    stepNumber: Field<Option<int>>,
    actionTypeId: Field<Option<int>>,
    parentStepId: Field<Option<int>>,
    area: Field<Option<map<string, int>>>,
    meta: Field<Option<map<string, Json>>>,
    annotation: Field<Option<string>>,
    imageUrl: Field<Option<string>>,
    steps: Field<Option<seq<StepItem>>>)

  /** An element of `Union[TrainingStepCreate, TrainingStepUpdate]`. */
  datatype StepItem = CreateItem(create: StepCreate) | UpdateItem(update: StepUpdate)

  /** `TrainingCreate` (with the fields of `TrainingBase`). */
  datatype TrainingCreate = TrainingCreate(
    title: string,
    description: string,
    levelId: Option<int>,
    durationMinutes: Option<int>,
    publish: bool,
    skipSteps: Option<bool>,
    steps: Option<seq<StepCreate>>,
    tagIds: Option<seq<int>>)

  /** `TrainingUpdate`: it declares no `steps` and no `skip_steps` field, so a
      training PATCH cannot carry them (pydantic drops unknown keys). */
  datatype TrainingUpdate = TrainingUpdate(
    title: Field<Option<string>>,
    description: Field<Option<string>>,
    levelId: Field<Option<int>>,
    durationMinutes: Field<Option<int>>,
    publish: Field<Option<bool>>,
    tagIds: Field<Option<seq<int>>>)

  /** `StepOrderUpdate`: both fields are required. */
  datatype StepOrderUpdate = StepOrderUpdate(id: int, stepNumber: int)

  /** A `TrainingStepCreate` where the client sent only `step_number`. */
  function StepCreateWithDefaults(stepNumber: int): StepCreate {
    StepCreate(stepNumber, None, None, None, None, None, None, None, Some([]))
  }

  /** A `TrainingStepUpdate` where the client sent nothing. */
  const EmptyStepUpdate := StepUpdate(Unset, Unset, Unset, Unset, Unset, Unset, Unset, Unset, Unset)

  /** A `TrainingCreate` where the client sent only the required fields. */
  function TrainingCreateWithDefaults(title: string, description: string): TrainingCreate {
    TrainingCreate(title, description, None, None, false, Some(true), Some([]), Some([]))
  }

  /** A `TrainingUpdate` where the client sent nothing. */
  const EmptyTrainingUpdate := TrainingUpdate(Unset, Unset, Unset, Unset, Unset, Unset)

  /** The `id` a step-patch entry carries: a `TrainingStepCreate` has none, an
      unset `id` of a `TrainingStepUpdate` is its default None. */
  function ItemId(item: StepItem): (id: Option<int>)
    ensures item.CreateItem? ==> id == None
    ensures item.UpdateItem? && item.update.id.Unset? ==> id == None
    ensures item.UpdateItem? && item.update.id.Set? ==> id == item.update.id.value
  {
    match item
    case CreateItem(_) => None
    case UpdateItem(u) => u.id.Or(None)
  }

  /** `TrainingBase.validate_duration`: None and non-negative values pass
      unchanged, a negative value is a validation error (422). */
  function ValidateDuration(v: Option<int>): (r: Result<Option<int>>)
    ensures r.Ok? <==> (v.None? || v.value >= 0)
    ensures r.Ok? ==> r.value == v
    ensures r.Err? ==> r.error == HttpError(UNPROCESSABLE)
  {
    if v.Some? && v.value < 0 then Err(HttpError(UNPROCESSABLE)) else Ok(v)
  }

  /** Parsing a `StepOrderUpdate` from a JSON object whose keys may be missing:
      both `id` and `step_number` are required. */
  function ParseStepOrder(id: Option<int>, stepNumber: Option<int>): (r: Result<StepOrderUpdate>)
    ensures r.Ok? <==> id.Some? && stepNumber.Some?
    ensures r.Ok? ==> r.value.id == id.value && r.value.stepNumber == stepNumber.value
    ensures r.Err? ==> r.error == HttpError(UNPROCESSABLE)
  {
    if id.Some? && stepNumber.Some? then Ok(StepOrderUpdate(id.value, stepNumber.value))
    else Err(HttpError(UNPROCESSABLE))
  }
}
