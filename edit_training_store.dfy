/** The edit-training store of the front end (`frontend/store/editTraining.js`):
    the training being edited, its step list and the selected step. Values
    are JSON; `null` and `undefined` are both `JNull`. A JavaScript TypeError
    is `Err(RuntimeFailure)`, raised after the assignments that precede it. */
module EditTrainingStore {
  import opened Common

  /** The step `setSteps` selects: `steps[0]` when `steps.length > 0`. A
      string has a length and indexes to a one-character string; any other
      non-array value has no length, so nothing is selected. */
  function FirstStep(steps: Json): Option<Json> {
    match steps
    case JArray(items) => if |items| > 0 then Some(items[0]) else None
    case JString(s) => if |s| > 0 then Some(JString([s[0]])) else None
    case _ => None
  }

  /** `newTrainingData.steps`: the `steps` member of an object, undefined
      (`JNull`) for any other value. */
  function StepsOf(data: Json): Json {
    if data.JObject? && "steps" in data.fields then data.fields["steps"] else JNull
  }

  class Store {
    var trainingData: Json
    var steps: Json
    var selectedStep: Json

    /** The selection is one of the listed steps. */
    ghost predicate SelectionListed()
      reads this
    {
      steps.JArray? && selectedStep in steps.items
    }

    /** The three refs start out `null`. */
    constructor()
      ensures trainingData == JNull && steps == JNull && selectedStep == JNull
    {
      trainingData := JNull;
      steps := JNull;
      selectedStep := JNull;
    }

    /** `selectStep`: the selection becomes `step`; nothing else changes. */
    method SelectStep(step: Json)
      modifies this
      ensures selectedStep == step
      ensures steps == old(steps) && trainingData == old(trainingData)
      ensures SelectionListed() <==> steps.JArray? && step in steps.items
    {
      selectedStep := step;
    }

    /** `setSteps`: the list is replaced, then its first step is selected when
        it has one; an empty list leaves the selection as it was. Reading
        the length of `null` fails after the list was replaced. */
    method SetSteps(newSteps: Json) returns (r: Result<()>)
      modifies this
      ensures steps == newSteps && trainingData == old(trainingData)
      ensures r.Err? <==> newSteps.JNull?
      ensures r.Err? ==> r.error == RuntimeFailure
      ensures FirstStep(newSteps).Some? ==> selectedStep == FirstStep(newSteps).value
      ensures FirstStep(newSteps).None? ==> selectedStep == old(selectedStep)
      ensures newSteps.JArray? && newSteps.items != [] ==> SelectionListed() && selectedStep == newSteps.items[0]
      ensures newSteps == JArray([]) ==> selectedStep == old(selectedStep)
    {
      steps := newSteps;
      if steps.JNull? {
        return Err(RuntimeFailure);
      }
      var first := FirstStep(steps);
      if first.Some? {
        SelectStep(first.value);
      }
      r := Ok(());
    }

    /** `addStep`: `push` appends to the list; earlier steps and the
        selection stay. Only an array has `push`. */
    method AddStep(step: Json) returns (r: Result<()>)
      modifies this
      ensures r.Ok? <==> old(steps).JArray?
      ensures r.Ok? ==> steps == JArray(old(steps).items + [step])
      ensures r.Err? ==> r.error == RuntimeFailure && steps == old(steps)
      ensures selectedStep == old(selectedStep) && trainingData == old(trainingData)
      ensures old(SelectionListed()) ==> SelectionListed()
    {
      if !steps.JArray? {
        return Err(RuntimeFailure);
      }
      steps := JArray(steps.items + [step]);
      r := Ok(());
    }

    /** `setTrainingData`: the data is stored, then its `steps` go through
        `setSteps`. Reading `steps` of `null` fails before that. */
    method SetTrainingData(data: Json) returns (r: Result<()>)
      modifies this
      ensures trainingData == data
      ensures data.JNull? ==> r == Err(RuntimeFailure) && steps == old(steps) && selectedStep == old(selectedStep)
      ensures !data.JNull? ==> steps == StepsOf(data) && (r.Err? <==> StepsOf(data).JNull?)
      ensures !data.JNull? && FirstStep(StepsOf(data)).Some? ==> selectedStep == FirstStep(StepsOf(data)).value
      ensures !data.JNull? && FirstStep(StepsOf(data)).None? ==> selectedStep == old(selectedStep)
    {
      trainingData := data;
      if data.JNull? {
        return Err(RuntimeFailure);
      }
      r := SetSteps(StepsOf(data));
    }
  }

  /** Loading a training whose `steps` is a non-empty list selects its first
      step, which is then one of the listed steps. */
  method LoadSelectsFirstStep(store: Store, data: Json)
    requires data.JObject? && "steps" in data.fields
    requires data.fields["steps"].JArray? && data.fields["steps"].items != []
    modifies store
    ensures store.trainingData == data
    ensures store.selectedStep == data.fields["steps"].items[0]
    ensures store.SelectionListed()
  {
    var r := store.SetTrainingData(data);
  }
}
