# Training-authoring backend, gateway and editor front end — a Dafny model

This project models the core of a training-authoring system. Authors build step-by-step trainings: a training has a title, a level, tags and a tree of steps, and each step carries a number, an action type, an image and metadata. The model covers these parts:

- **Tables behind the trainings API.** They appear as one value (`TrainingModels.Db`): trainings keyed by UUID, steps keyed by id with a parent pointer, tags, levels, action types and the `training_tags` link table. The referential actions the foreign keys declare are included: ON DELETE CASCADE and SET NULL.
- **Training repository and training service.** They work inside a database session (`Persistence.Session`). A session keeps the current state, the state of the last commit and the id sequences. A rollback restores the tables but not the sequences, which are not transactional. Every service operation starts from a committed state. It ends with a COMMIT, or with a ROLLBACK that reports the error as an HTTP status.
- **Tag repository and tag endpoints**, with a unique label per tag.
- **Generic CRUD layer.** This is the repository over one keyed table with UNIQUE columns, plus the router with its ordered checks and hooks.
- **User repository.** Its `setattr` update loop is included, as are the registration schema and its phone validator.
- **`get_current_user`.** It resolves a decoded bearer token to a user id.
- **API gateway.** It routes paths by prefix and rewrites headers.
- **Object-name helpers of the S3 photo store.** These are the unique file name, the public URL and the key derived for deletion.
- **`tree.py`.** It prints a directory tree, folders only, up to a depth limit.
- **Front end.** This is the edit-training store (`editTraining.js`) and the HTTP client base class (`BaseAPi.js`).

Each source file is one Dafny module. Code that changes state becomes a class: `Session`, the repositories, the services and routers, the store and the client. Its methods carry `modifies` and state the whole new state. The queries, schemas and string helpers are functions, and lemmas relate them. Service loops are specified by folds over the list they walk, for example `InsertSteps`, `PatchSteps` and `DeleteEach`. Errors are values: `Result` holds an HTTP status, a database integrity error, or another runtime failure.

## Model

| member | source | states |
|---|---|---|
| Common.AsHttp | backend/services/trainings_service.py:72-80 | The service catch-all re-raises an HTTPException unchanged and turns any other error into 500. |
| Common.PageSplit | backend/repositories/base_repository.py:41-56 | Two consecutive OFFSET/LIMIT pages of one ordered result make up the page that spans both: paging neither skips nor repeats a row. |
| Common.CheckPageQuery | backend_archive/routing/base_router.py:72-73 | A list query is accepted iff `skip >= 0` and `1 <= limit <= 500`, and is returned unchanged; anything else is 422. |
| Common.DecimalValue | backend/depends.py:117-119 | `int()` of a digit string; the empty string is 0. |
| Sorting.SortSet | backend/repositories/tags_repository.py:92 | An ORDER BY over a finite table lists every row exactly once, in ascending order of a total order. |
| Sorting.LeastExists | backend/repositories/tags_repository.py:92 | Every non-empty finite set has a least element under a total order, so such an ordering always exists. |
| Sorting.ElementsCard | backend/repositories/trainings_repository.py:279-291 | A list has at most as many distinct values as entries, and exactly as many iff it repeats none. |
| TrainingModels.Links | backend/models/trainings.py:16-22 | The `training_tags` rows of a training are exactly the pairs of its UUID with the given tag values. |
| TrainingModels.CascadeClosure | backend/models/trainings.py:122-125 | The rows deleted by the cascade on `parent_step_id` contain the deleted ids and every child of each of their members. |
| TrainingModels.CascadeClosureIsLeast | backend/models/trainings.py:122-125 | The cascade removes nothing beyond the descendants: it lies within every child-closed set containing the deleted ids. |
| TrainingModels.DeleteSteps | backend/models/trainings.py:105-160 | Deleting steps removes exactly their cascade closure and leaves every other row, and every other table, unchanged. |
| TrainingModels.DeleteStepsKeepsConsistent | backend/models/trainings.py:122-125 | After a step delete every constraint still holds, and no remaining step points to a deleted parent. |
| TrainingModels.DeleteTraining | backend/models/trainings.py:112-116 | Deleting a training removes that training, exactly the cascade closure of its steps and exactly its `training_tags` rows. Every other step row and link stays as it was, and the tag, level and action-type tables are untouched. |
| TrainingModels.DeleteTag | backend/models/trainings.py:16-22 | Deleting a tag removes that tag and exactly its `training_tags` rows. Every other link stays, and no other table changes. |
| TrainingModels.DeleteTrainingKeepsConsistent | backend/models/trainings.py:112-116 | Deleting a training leaves no step of it and no tag link of it, and keeps every constraint. |
| TrainingModels.DeleteTagKeepsConsistent | backend/models/trainings.py:16-22 | Deleting a tag removes its `training_tags` rows and keeps every constraint. |
| TrainingModels.DeleteActionTypeKeepsConsistent | backend/models/trainings.py:118-121 | Deleting an action type sets `action_type_id` to NULL on the steps that used it and keeps every constraint. |
| TrainingModels.DeleteActionType | backend/models/trainings.py:118-121 | The action type is gone and no step refers to it. Steps that used it differ only in `action_type_id`, now NULL; other steps and tables are unchanged. |
| TrainingModels.DeleteLevelKeepsConsistent | backend/models/trainings.py:42-45 | Deleting a level sets `level_id` to NULL on the trainings that used it and keeps every constraint. |
| TrainingModels.DeleteLevel | backend/models/trainings.py:42-45 | The level is gone and no training refers to it. Trainings that used it differ only in `level_id`, now NULL; other trainings and tables are unchanged. |
| TrainingModels.StepsById | backend/models/trainings.py:81-88 | `Training.steps` holds every step of the training, nested ones included, in ascending id order rather than by `step_number`. |
| TrainingSchemas.ItemId | backend/schemas/trainings.py:30-39 | A create entry has no id; an update entry's id defaults to None when the client does not send one. |
| TrainingSchemas.ValidateDuration | backend/schemas/trainings.py:74-79 | None and non-negative durations pass unchanged; a negative one is a validation error. |
| TrainingSchemas.ParseStepOrder | backend/schemas/trainings.py:166-169 | A reorder entry parses iff both `id` and `step_number` are present, and it keeps both values. |
| Persistence.Session.Open | backend/core/database.py:28-30 | A session opens on a consistent state with nothing uncommitted. |
| Persistence.Session.Commit | backend/services/trainings_service.py:60 | COMMIT makes the current state the committed one and changes neither the state nor the sequences. |
| Persistence.Session.Rollback | backend/services/trainings_service.py:73-76 | ROLLBACK restores the last committed state; the id sequences keep their values. |
| TrainingsRepository.GetStepByIdAndTraining | backend/repositories/trainings_repository.py:264-276 | A step is found iff its id exists and it belongs to that training, and then it is that row. |
| TrainingsRepository.CheckTrainingExists | backend/repositories/trainings_repository.py:246-250 | True iff the UUID is a training; in a consistent state a missing training owns no step. |
| TrainingsRepository.MissingTrainingOwnsNoStep | backend/repositories/trainings_repository.py:246-250 | A training that does not exist owns no step in any consistent state. |
| TrainingsRepository.StepOrderIsTotal | backend/repositories/trainings_repository.py:175 | The model's listing key for ORDER BY `step_number` is a total order on step ids. The source orders by `step_number` alone; breaking ties by id is the model's choice. |
| TrainingsRepository.GetTrainingSteps | backend/repositories/trainings_repository.py:168-179 | Exactly the root steps of the training, each once, in ascending `step_number`. |
| TrainingsRepository.CountStepsMatchesLength | backend/repositories/trainings_repository.py:279-291 | The count is at most the number of distinct ids. It equals the list length iff the list is empty, or repeats no id and names only steps of the training. |
| TrainingsRepository.CountStepsInTraining | backend/repositories/trainings_repository.py:279-291 | The count never exceeds the number of steps the training has. |
| TrainingsRepository.InsertStepKeepsConsistent | backend/repositories/trainings_repository.py:135-148 | A successful insert adds exactly the draft's row under a fresh id and keeps every constraint; the sequence advances only when it supplied the id. |
| TrainingsRepository.InsertStep | backend/repositories/trainings_repository.py:135-148 | The INSERT succeeds iff the draft has a training and a number, its foreign keys exist, and an explicit id 0 is free. It then adds one key, holding a row of the draft's training, and changes no other table. |
| TrainingsRepository.UpdateStepRowKeepsConsistent | backend/repositories/trainings_repository.py:181-193 | A successful step update keeps every constraint, every key and every other row, and never moves the step to another training. |
| TrainingsRepository.UpdateStepRow | backend/repositories/trainings_repository.py:181-193 | An empty update dict runs no statement. A `steps` key makes the statement fail. Any other failure is an integrity error on an existing row. The flag is true iff a row was written; only that row can change and no key is added or removed. |
| TrainingsRepository.LastNumberForListed | backend/repositories/trainings_repository.py:293-305 | The bulk update gives a step a number iff the list names that step. |
| TrainingsRepository.ApplyStepNumbersEffect | backend/repositories/trainings_repository.py:293-305 | Each listed step gets the last number given to it; no other step, column or row changes. |
| TrainingsRepository.ApplyStepNumbers | backend/repositories/trainings_repository.py:293-305 | The bulk UPDATE keeps every key and changes only `step_number` columns. |
| TrainingsRepository.ApplyStepNumbersKeepsConsistent | backend/repositories/trainings_repository.py:293-305 | Renumbering steps keeps every constraint. |
| TrainingsRepository.AddPhotoSteps | backend/repositories/trainings_repository.py:226-240 | The loop makes the i-th URL a root step numbered `n + 1 + i` under id `next + i` and reports `(n + 1 + i, url)`. Existing rows are kept. |
| TrainingsRepository.PhotoStepsKeepConsistent | backend/repositories/trainings_repository.py:221-243 | Adding the photo steps to an existing training keeps every constraint. |
| TrainingsRepository.TrainingRepository.Create | backend/repositories/trainings_repository.py:65-70 | Inserts exactly the training and its tag links. It fails with an integrity error, changing nothing, iff a foreign key is missing. |
| TrainingsRepository.TrainingRepository.PatchTrainingFields | backend/repositories/trainings_repository.py:121-133 | Returns false and writes nothing for an empty change. Otherwise it returns true iff the training exists, and then writes only the given columns of that training. |
| TrainingsRepository.TrainingRepository.CreateTrainingStep | backend/repositories/trainings_repository.py:135-148 | Inserts the draft iff every constraint allows it, under the next sequence value; otherwise it is an integrity error and nothing changes. |
| TrainingsRepository.TrainingRepository.UpdateTrainingStep | backend/repositories/trainings_repository.py:181-193 | Returns false and writes nothing for an empty change; `steps` in the change fails. Otherwise it returns true iff the step exists, and then writes only the given columns. |
| TrainingsRepository.TrainingRepository.DeleteTrainingStep | backend/repositories/trainings_repository.py:195-200 | Returns true iff the step existed; the step and its sub-steps are then gone and nothing else changes. |
| TrainingsRepository.TrainingRepository.Delete | backend/repositories/trainings_repository.py:202-207 | Returns true iff the training existed, deletes it with its cascades, and commits. |
| TrainingsRepository.TrainingRepository.CreateStepsFromPhotos | backend/repositories/trainings_repository.py:215-243 | One new root step per URL, in URL order, numbered after the existing root steps; returns one `(number, url)` pair per URL. It fails only when there are URLs and the training is missing. |
| TrainingsRepository.TrainingRepository.BulkUpdateStepNumbers | backend/repositories/trainings_repository.py:293-305 | Returns the length of the list whatever matched, and applies the listed numbers; an empty list touches nothing. |
| TrainingsService.BuildStep | backend/services/trainings_service.py:82-99 | An unknown truthy action type is 404. A falsy one (None or 0) gives a step with no action type and no lookup. Nested child payloads fail. |
| TrainingsService.InsertItemRow | backend/services/trainings_service.py:54-58 | A created step is stored under a fresh id, with the training UUID of the call whatever the payload says. |
| TrainingsService.InsertStepsEffect | backend/services/trainings_service.py:285-290 | Inserting a batch adds one row per entry, in entry order, under consecutive fresh ids, each bound to the call's training. Existing rows are unchanged and every constraint still holds. |
| TrainingsService.InsertSteps | backend/services/trainings_service.py:54-58 | A successful batch draws one sequence value per entry and returns one new id per entry after those already collected. |
| TrainingsService.PatchStepsFrame | backend/services/trainings_service.py:180-193 | The step patch only touches root steps of the training and only creates steps of that training. Other rows and every step's training are unchanged, and constraints hold. |
| TrainingsService.PatchItem | backend/services/trainings_service.py:183-193 | An entry whose truthy id is not a root step of the training changes nothing. Only an entry without an id draws a sequence value. Only step rows change, and none disappears. |
| TrainingsService.PatchSteps | backend/services/trainings_service.py:174-193 | A successful patch draws one sequence value per entry without an id; only step rows change, and none disappears. |
| TrainingsService.PatchStepsRoot | backend/services/trainings_service.py:183-189 | Each root step of the training ends with the fields of every entry naming its id written in entry order. A step created by the patch is never rewritten. |
| TrainingsService.RewrittenUnnamed | backend/services/trainings_service.py:186-189 | A root step that no entry names keeps its row. |
| TrainingsService.PatchItemRoot | backend/services/trainings_service.py:186-189 | One entry rewrites a root step iff its truthy id is that step's id. |
| TrainingsService.Numbered | backend/services/trainings_service.py:190-193 | The entries drawing a sequence value are entries without an id, at most one per entry. |
| TrainingsService.PatchItemCreates | backend/services/trainings_service.py:190-193 | One entry creates what the patch promises for it: a row under the next sequence value when it has no id, under id 0 when it carries 0, nothing otherwise. |
| TrainingsService.PatchCreatesThen | backend/services/trainings_service.py:183-193 | What the first entry creates followed by what the rest create is what the whole patch creates. |
| TrainingsService.PatchStepsCreates | backend/services/trainings_service.py:190-193 | The new step keys are exactly the sequence values from `next` on, one per entry without an id, plus 0 when an entry carries id 0. The j-th such entry's row is built from it and bound to the training. |
| TrainingsService.DeleteEachFrame | backend/services/trainings_service.py:395-407 | The bulk delete loop only removes rows, never alters the rows it keeps, and keeps every constraint. |
| TrainingsService.DeleteEach | backend/services/trainings_service.py:395-407 | The loop only removes step rows. Each count grows by at most one per requested id. |
| TrainingsService.DeleteEachWithinCascade | backend/services/trainings_service.py:395-407 | Every removed row lies in the cascade closure of the requested ids that were steps of the training at the start. |
| TrainingsService.DeleteEachCounts | backend/services/trainings_service.py:395-407 | Every requested id is counted once, as deleted or as not found. |
| TrainingsService.DeleteEachAtMostDistinct | backend/services/trainings_service.py:395-407 | The number deleted is at most the number of distinct requested ids that are steps of the training, so a repeated id is not deleted twice. |
| TrainingsService.DeleteEachReports | backend/services/trainings_service.py:395-407 | An id that is not a step of the training is reported as not found; every step of the training that is requested is gone afterwards. |
| TrainingsService.DeleteEachKeepsPrefix | backend/services/trainings_service.py:395-407 | The not-found list only grows, keeping the entries already reported. |
| TrainingsService.LastNumberForDistinct | backend/services/trainings_service.py:451-452 | With distinct ids, each listed step ends with exactly the number its own entry gives. |
| TrainingsService.DefaultTrainingRow | backend/models/trainings.py:54-68 | A training created with only the required fields is unpublished, has `skip_steps` true, and starts with no steps and no tags. |
| TrainingsService.TagsFor | backend/services/trainings_service.py:148-154 | The tags linked are exactly the existing tags whose value is listed; unknown values are dropped. |
| TrainingsService.Relink | backend/services/trainings_service.py:148-154 | Replacing a training's tags changes only that training's links, which become exactly the given values. |
| TrainingsService.InitialTags | backend/services/trainings_service.py:40-45 | A new training is linked to exactly the existing tags among `tag_ids`. |
| TrainingsService.InitialSteps | backend/services/trainings_service.py:54-58 | The initial steps are the given list, or none when it is absent. |
| TrainingsService.TrainingsService.CreateSteps | backend/services/trainings_service.py:54-58 | The insert loop is the fold `InsertSteps` over the entries: on success its state, sequence and ids; on failure its error, left for the caller to roll back. |
| TrainingsService.TrainingsService.CreateTraining | backend/services/trainings_service.py:27-99 | Succeeds iff the level exists and every step entry can be inserted after the training row and its tag links. On success: the training row, links to exactly the existing listed tags, and one step per entry bound to the new UUID. On failure the committed state is unchanged; a bad level is 500, and a failing step gives its own status as HTTP (an unknown action type is 404), any other error 500. |
| TrainingsService.TrainingsService.PatchTraining | backend/services/trainings_service.py:127-172 | 404 for a missing training. Writes only the fields sent, never steps or `skip_steps`. Relinks tags only when `tag_ids` is given. A refused update rolls back. |
| TrainingsService.TrainingsService.PatchTrainingSteps | backend/services/trainings_service.py:174-193 | Is the fold `PatchSteps` over the entries. Each root step of the training ends with the fields of the entries naming it applied in order; every other row is unchanged. The new steps are one per entry without an id, under consecutive sequence values, plus one under id 0 when an entry carries it, each bound to the training. |
| TrainingsService.TrainingsService.AddStep | backend/services/trainings_service.py:238-269 | Succeeds iff the training exists, the payload has no children, a truthy action type exists and a given parent exists. It then adds exactly that step, bound to the training, under a fresh id. |
| TrainingsService.TrainingsService.AddStepsBulk | backend/services/trainings_service.py:271-307 | 404 for a missing training. On success, one step per input in input order, bound to the training. On failure nothing from the batch remains. |
| TrainingsService.TrainingsService.UpdateStep | backend/services/trainings_service.py:309-347 | 404 and no change when the step is not in the training. Otherwise it writes only the set fields, without `id` and `steps`, and the step stays in its training. |
| TrainingsService.TrainingsService.DeleteStep | backend/services/trainings_service.py:349-383 | 404 and no change when the step is not in the training; otherwise the step and its sub-steps are deleted. |
| TrainingsService.TrainingsService.DeleteStepsBulk | backend/services/trainings_service.py:385-422 | `deleted + len(not_found) == total == len(step_ids)`. Foreign ids are reported and not deleted, no id is deleted twice, and every requested step of the training is gone. Only requested steps, with their sub-steps, disappear: every removed row is in the cascade closure of the requested steps. |
| TrainingsService.TrainingsService.ReorderSteps | backend/services/trainings_service.py:426-469 | Missing training gives 404. An empty list gives the zero-count reply (`updated_count`, `total_requested`) and no change. A foreign or repeated id gives 400 and no change. Otherwise exactly the listed steps take their numbers, and the other reply carries both counts equal to the list length. |
| TrainingsService.TrainingsService.CreateStepsFromPhotos | backend/services/trainings_service.py:209-236 | 404 for a missing training; otherwise one root step per URL, numbered after the existing root steps, and one `(number, url)` pair per URL. |
| TrainingsService.TrainingsService.DeleteTraining | backend/services/trainings_service.py:195-203 | Succeeds iff the training exists, deleting it with its steps and tag links; otherwise 404 and no change. |
| TagsRepository.GetById | backend/repositories/tags_repository.py:24-26 | The tag under that value, if any. |
| TagsRepository.Exists | backend/repositories/tags_repository.py:72-75 | True iff `get_by_id` finds the tag. |
| TagsRepository.GetByName | backend/repositories/tags_repository.py:28-32 | The tag holding that label, or none when no tag holds it. |
| TagsRepository.Count | backend/repositories/tags_repository.py:77-81 | The number of tags. |
| TagsRepository.LabelOrderIsTotal | backend/repositories/tags_repository.py:46 | Ordering tags by label is a total order. |
| TagsRepository.TagsByLabel | backend/repositories/tags_repository.py:92 | Every tag once, in ascending label order. |
| TagsRepository.GetAll | backend/repositories/tags_repository.py:34-49 | The page is the window of the tag listing that starts after its first `skip` entries: entry `i` of the page is entry `skip + i` of the listing, as many as remain up to `limit`, none twice. The listing is by label when ordered by `label`, and by value for `value` and for any name that is not one of the two columns. |
| TagsRepository.LinkedTrainings | backend/repositories/tags_repository.py:109-110 | Exactly the trainings with a link row to the tag. |
| TagsRepository.GetWithTrainingsCount | backend/repositories/tags_repository.py:83-95 | One row per tag, tags without trainings included, in label order, each with the number of its link rows. |
| TagsRepository.WithCounts | backend/repositories/tags_repository.py:83-95 | One row per listed tag value, in the same order, each paired with its number of trainings. |
| TagsRepository.GetTrainingsByTag | backend/repositories/tags_repository.py:97-120 | Only trainings linked to the tag, each once, at most `limit` of them; from the start, as many as exist up to the limit. |
| TagsRepository.CountMatchesTagsWithCount | backend/repositories/tags_repository.py:77-95 | `count` equals the number of rows `get_with_trainings_count` reports. |
| TagsRepository.TagRepository.Create | backend/repositories/tags_repository.py:16-22 | Adds exactly one tag with the label under the next value and commits; a taken label is an integrity error and nothing is added. |
| TagsRepository.TagRepository.Update | backend/repositories/tags_repository.py:51-63 | Returns the renamed tag when the value exists. Returns None, with the table unchanged, when it does not. A label held by another tag is an integrity error. |
| TagsRepository.TagRepository.Delete | backend/repositories/tags_repository.py:65-70 | True iff the tag existed; afterwards no link row names it. |
| TagsRouter.GetAllTags | backend/routing/tags_router.py:49-56 | 422 for bad paging. Otherwise the tags after the first `skip` in label order, as many as remain up to `limit`: response `i` is the tag at position `skip + i` of the label order, with its own label. |
| TagsRouter.LabelPage | backend/routing/tags_router.py:49-56 | The responses for a page of tags by label are the label-ordered tags from position `skip` on, distinct, sorted by label and as many as remain up to `limit`. |
| TagsRouter.Responses | backend/routing/tags_router.py:49-56 | One `TagResponse` per listed tag, in the same order, with its own label; a listing in label order without repeats stays so. |
| TagsRouter.GetTagsWithCount | backend/routing/tags_router.py:64-77 | One response per tag, in label order, each with its label and its number of trainings. |
| TagsRouter.GetTagById | backend/routing/tags_router.py:85-96 | The tag, or 404. |
| TagsRouter.GetTrainingsByTagHandler | backend/routing/tags_router.py:104-118 | 422 for bad paging, then 404 for an unknown tag, then only trainings linked to the tag, each once and at most `limit`. |
| TagsRouter.TagsRouter.CreateTag | backend/routing/tags_router.py:21-41 | 422 for a label of the wrong length. 409 with nothing inserted for a label in use. Otherwise the new tag. Labels stay unique. |
| TagsRouter.TagsRouter.UpdateTag | backend/routing/tags_router.py:126-158 | The checks come in order: 422, then 400 without a label, then 404, then 409 only when a different tag holds the label. Renaming a tag to its own label is allowed, and labels stay unique. |
| TagsRouter.TagsRouter.DeleteTag | backend/routing/tags_router.py:166-183 | 404 and no change for an unknown tag; otherwise the tag and its training links are gone. |
| BaseRepository.StoreKeepsUnique | backend/repositories/base_repository.py:29-35 | Writing a record that clashes with no other keeps every UNIQUE constraint. |
| BaseRepository.RemoveKeepsUnique | backend/repositories/base_repository.py:75-82 | Removing a record keeps every UNIQUE constraint. |
| BaseRepository.Repository.constructor | backend/repositories/base_repository.py:15-23 | The primary-key column is configurable, and the table starts valid. |
| BaseRepository.Repository.GetById | backend/repositories/base_repository.py:37-39 | The record under that key, if any. |
| BaseRepository.Repository.Exists | backend/repositories/base_repository.py:84-87 | True iff `get_by_id` finds a record. |
| BaseRepository.Repository.Count | backend/repositories/base_repository.py:89-93 | The number of records. |
| BaseRepository.Repository.KeyOrder | backend/repositories/base_repository.py:50-53 | Every key once: ascending when ordering by the key column, otherwise the order the database returns. |
| BaseRepository.Repository.GetAll | backend/repositories/base_repository.py:41-56 | The page is the window of the listing that starts after its first `skip` keys: record `i` of the page is the stored record under key `skip + i` of the listing, as many as remain up to `limit`, none twice. The listing is ascending key order when ordering by the key column, otherwise the order the database returns. |
| BaseRepository.RowsAt | backend/repositories/base_repository.py:41-56 | One (key, row) pair per listed key, in the listed order, each with that key's stored row. |
| BaseRepository.Repository.TargetKey | backend/repositories/base_repository.py:19 | A record is stored under the key column's value when the call sets it, and under the sequence value otherwise. |
| BaseRepository.Repository.Create | backend/repositories/base_repository.py:29-35 | Inserts exactly one record and returns it. An unknown column is a type error; a key or UNIQUE clash is an integrity error and leaves the table unchanged. |
| BaseRepository.Repository.Update | backend/repositories/base_repository.py:58-73 | None and no change for a missing key. Otherwise the merged record, when no other record clashes; a clash is an integrity error. |
| BaseRepository.Repository.Delete | backend/repositories/base_repository.py:75-82 | True iff a record with that key existed; afterwards it does not. |
| BaseRouter.SetFields | backend_archive/routing/base_router.py:161-163 | Exactly the fields the client sent, with their values; empty iff nothing was sent. |
| BaseRouter.Router.Create | backend_archive/routing/base_router.py:125-137 | The before-hook runs first and the after-hook only on success. An integrity error is 409, another failure 500, and a failure leaves the table unchanged. |
| BaseRouter.Router.GetAll | backend_archive/routing/base_router.py:139-142 | 422 for bad paging. Otherwise the repository's page: the records after the first `skip` of the subclass's order, as many as remain up to `limit`, for every `skip`. |
| BaseRouter.Router.GetById | backend_archive/routing/base_router.py:144-152 | The record, or 404. |
| BaseRouter.Router.Update | backend_archive/routing/base_router.py:154-177 | 404 before any hook, then the before-hook, then 400 when no field is set. Only set fields are written; a clash is 409. The after-hook runs only on success. |
| BaseRouter.Router.Delete | backend_archive/routing/base_router.py:179-193 | 404 before any hook. Otherwise the before-hook, the delete, then the after-hook. |
| UserSchemas.ValidatePhoneNumber | backend_archive/schemas/users.py:20-25 | Accepted iff a run of 5 to 15 digits starts the value, which is returned unchanged; otherwise 422. |
| UserSchemas.PhoneCheckReadsFivePrefix | backend_archive/schemas/users.py:23 | Only the start is matched: anything may follow an accepted value, so `12345abc` and 20-digit strings pass. |
| UserSchemas.PhoneCheckRefusesPlus | backend_archive/schemas/users.py:10-12 | A number in the documented international notation, starting with `+`, is refused. |
| UserSchemas.ValidateUserRegister | backend_archive/schemas/users.py:13-34 | A registration passes iff both names have 3 to 50 characters, the password 5 to 100, and the phone number passes its validator. |
| UserSchemas.InternationalNumberRefused | backend_archive/schemas/users.py:10-25 | Any registration whose phone number starts with `+` is refused. |
| UsersRepository.NewUserRow | backend/repositories/users_repository.py:23-37 | The inserted user has the registered fields, the hashed password, no photo and the registration time. |
| UsersRepository.ApplyUserData | backend/repositories/users_repository.py:65-67 | The loop keeps every attribute of the row and only writes settable ones: any other attribute keeps its value. |
| UsersRepository.ApplyUserDataEffect | backend/repositories/users_repository.py:65-67 | After the loop, each settable attribute holds the last value sent for it, and every other attribute, password included, is unchanged. |
| UsersRepository.UnsettableItemIgnored | backend/repositories/users_repository.py:65-67 | An item whose key is not a settable attribute changes nothing, wherever it stands. |
| UsersRepository.UpdateKeepsPassword | backend/repositories/users_repository.py:66 | `update_user` never writes the password. |
| UsersRepository.UserRepository.FindOneOrNone | backend/repositories/users_repository.py:16-21 | The user with that e-mail, or none when no user has it. |
| UsersRepository.UserRepository.GetById | backend/repositories/users_repository.py:41-43 | The user with that id, if any. |
| UsersRepository.UserRepository.CountUsers | backend/repositories/users_repository.py:85-89 | The number of users. |
| UsersRepository.UserRepository.AddUser | backend/repositories/users_repository.py:23-37 | False and no insert when the e-mail is registered; otherwise exactly one new user, with the hashed password. |
| UsersRepository.UserRepository.UpdateUser | backend/repositories/users_repository.py:59-71 | None for an unknown id. Otherwise the result of the `setattr` loop, unless the commit is refused, in which case the table is unchanged. |
| UsersRepository.UserRepository.ChangePassword | backend/repositories/users_repository.py:75-82 | False for an unknown id; otherwise only the password changes, to the new hash. |
| UsersRepository.UserRepository.DeleteUser | backend/repositories/users_repository.py:47-55 | False for an unknown id; otherwise exactly that user is removed. |
| AuthDepends.CurrentUser | backend/depends.py:91-126 | An undecodable token or a missing subject gives 401. An all-digit subject is looked up as an id first, then as an e-mail. 401 when neither lookup finds a user; otherwise that user. |
| ApiGateway.GetTargetService | API_GATEWAY/main.py:41-59 | The URL of the first route, in mapping order, whose prefix starts the path; 404 iff no prefix matches. |
| ApiGateway.PrefixMatchIsRaw | API_GATEWAY/main.py:53 | Matching is a raw prefix test: `/api/v1/authx` goes to the `/api/v1/auth` service. |
| ApiGateway.Gateway | API_GATEWAY/main.py:100-111 | A method outside the route's seven is 405. Otherwise the request is routed and sent with the path `"/api/" + path`: it fails with 500 exactly when no route prefix starts that full path or sending fails, and the service chosen is the one for the full path. |
| ApiGateway.DefaultRoutesFullPath | API_GATEWAY/main.py:109-110 | With the default routes, a gateway path is routed exactly when it starts with `v1/auth`, because the prefix is matched against `/api/` plus the path. |
| ApiGateway.LoginRoutedOnlyWithPrefix | API_GATEWAY/main.py:109-110 | `v1/auth/login` on its own finds no service (404), but `/api/v1/auth/login` goes to `http://localhost:8005`. |
| ApiGateway.ProxyRequest | API_GATEWAY/main.py:62-97 | Any failure, the routing 404 included, is 500. Otherwise the headers lose `host`, gain `X-Forwarded-For` (the client or `unknown`) and keep everything else. |
| S3Keys.IndexOf | backend/services/external_services/s3_service.py:94 | The first occurrence of the separator, or none iff it does not occur. |
| S3Keys.JoinSplit | backend/services/external_services/s3_service.py:94 | Splitting on a separator and joining with it is the identity. |
| S3Keys.LastPieceHasNoSeparator | backend/services/external_services/s3_service.py:65 | The last piece of a split holds no separator. |
| S3Keys.EndsWithLastPiece | backend/services/external_services/s3_service.py:65 | A string holding the separator ends with the separator and its last piece. |
| S3Keys.Extension | backend/services/external_services/s3_service.py:65 | The text after the last dot, which holds no dot; empty when the name has no dot. |
| S3Keys.UniqueFilename | backend/services/external_services/s3_service.py:63-67 | Always `photos/<uuid>.<ext>`; a name without a dot gives a result ending in `.`. |
| S3Keys.FilenameIgnoresBaseName | backend/services/external_services/s3_service.py:65-67 | Nothing of the original name before its last dot survives in the generated name. |
| S3Keys.LastDotSuffix | backend/services/external_services/s3_service.py:65 | The extension is the one dot-free suffix after a dot. |
| S3Keys.FileUrl | backend/services/external_services/s3_service.py:85 | `endpoint + "/" + bucket + "/" + object name`. |
| S3Keys.DeleteKey | backend/services/external_services/s3_service.py:94-95 | `photos/` followed by the text after the last `/photos/`, or by the whole input when there is none. |
| S3Keys.DeleteKeyOfUrl | backend/services/external_services/s3_service.py:94-95 | When the first `/photos/` precedes the object name and the name holds no other, the key is `photos/` plus that name. |
| S3Keys.UploadedUrlRoundTrip | backend/services/external_services/s3_service.py:63-95 | The URL of an uploaded photo is deleted under the key it was uploaded with, when the bucket part holds no `/photos/` of its own. |
| S3Keys.PhotosBucketDeletesWrongKey | backend/services/external_services/s3_service.py:85-95 | Under a bucket named `photos` the derived key keeps a second `photos/`, so the round trip fails. |
| S3Keys.DeleteKeyNotIdempotent | backend/services/external_services/s3_service.py:94-95 | A key already under `photos/`, for a plain file name without `/`, gains a second `photos/` when the key is derived again. |
| S3Keys.DeleteOutcome | backend/services/external_services/s3_service.py:97-107 | True when the response reports `Deleted`. Anything else is 500, because the 404 is caught by the handler. |
| Tree.Subdirs | tree.py:18 | Exactly the directories of the listing; files never appear. |
| Tree.InsertSorted | tree.py:20 | Inserting into a listing sorted by lower-cased name keeps it sorted and adds exactly that entry. |
| Tree.SortByNameSorts | tree.py:20 | The sorted listing is ordered by lower-cased name and is a permutation of the listing. |
| Tree.PrintTreeCount | tree.py:5-41 | The printer shows exactly the directories at nesting levels 1 to `max_depth - depth`, plus one refusal line per unreadable directory. The line count matches an independent count over the tree. |
| Tree.PrintEntriesCount | tree.py:32-41 | The loop prints each item's line plus its subtree's lines. |
| Tree.PrintTree | tree.py:5-41 | Every line starts with the prefix of the call. Nothing is printed for a file or at or past the depth limit. |
| Tree.PrintEntries | tree.py:32-41 | Every line starts with the prefix of the call. Within the depth limit each item prints at least its own line. |
| Tree.LinesUnderPrefix | tree.py:36 | Every line starts with its prefix followed by a branch, a pipe or a blank. |
| Tree.NestedUnderExtension | tree.py:39-41 | A subtree's lines carry the parent's prefix and then the first character of the extension, `│` or a blank. |
| Tree.EntriesTopLines | tree.py:30-36 | Directly under the prefix, each item gets one line `prefix + connector + name`, in order: `├── ` for all but the last, `└── ` for the last. |
| Tree.ListsSortedSubdirectories | tree.py:13-36 | A readable directory within the limit lists its subdirectories, sorted by lower-cased name, one line each, with `└── ` on the last. |
| Tree.LastLevelIsFlat | tree.py:39-41 | With one level left no subtree is entered: the lines are just the connector lines. |
| Tree.Main | tree.py:44-58 | The path defaults to `.` and the depth to 3. A missing path prints one error line. Otherwise a header, then exactly the tree's lines. |
| EditTrainingStore.Store.constructor | frontend/store/editTraining.js:5-7 | The three refs start out null. |
| EditTrainingStore.Store.SelectStep | frontend/store/editTraining.js:25-27 | The selection becomes the argument; nothing else changes. |
| EditTrainingStore.Store.SetSteps | frontend/store/editTraining.js:14-19 | The list is replaced. A non-empty one selects its first step; an empty one leaves the selection unchanged. Null fails after the replacement. |
| EditTrainingStore.Store.AddStep | frontend/store/editTraining.js:21-23 | Appends at the end; earlier steps and the selection are unchanged, and a listed selection stays listed. |
| EditTrainingStore.Store.SetTrainingData | frontend/store/editTraining.js:9-12 | Stores the data and sets the steps to its `steps`, as `setSteps` does. |
| EditTrainingStore.LoadSelectsFirstStep | frontend/store/editTraining.js:9-19 | Loading a training with steps selects its first step, which is then one of the listed steps. |
| BaseApi.Client.constructor | frontend/providers/api/BaseAPi.js:4-17 | The client starts with the base URL and empty method, data, parameters, source URL and headers. |
| BaseApi.Client.SetHttpMethod | frontend/providers/api/BaseAPi.js:19-26 | Accepts exactly get, post, put, delete and patch. Any other value throws and leaves the stored method unchanged. |
| BaseApi.Client.SetData | frontend/providers/api/BaseAPi.js:32-38 | The getter returns the last value set; no other field changes. |
| BaseApi.Client.SetParams | frontend/providers/api/BaseAPi.js:40-46 | The getter returns the last value set; no other field changes. |
| BaseApi.Client.SetSourceUrl | frontend/providers/api/BaseAPi.js:52-58 | The getter returns the last value set; no other field changes. |
| BaseApi.Client.SetHeaders | frontend/providers/api/BaseAPi.js:64-70 | The getter returns the last value set; no other field changes. |
| BaseApi.Client.CreateRequest | frontend/providers/api/BaseAPi.js:72-85 | The URL is `baseUrl + sourceUrl`. The caller's headers are kept, except that the stored bearer token always sets `Authorization`. |
| BaseApi.RefusedMethodKeepsRequest | frontend/providers/api/BaseAPi.js:23-25 | A refused method changes nothing in the next request. |

## Left out

**Infrastructure**

- SQLAlchemy session mechanics (flush, refresh, eager loading) are not modelled. Commit and rollback keep or restore a snapshot of the tables.
- Async execution is not modelled: every operation runs sequentially.
- Column types, lengths and NOT NULL constraints beyond those the operations check are not modelled.
- Response-model validation and the authentication dependency on the generic and tag routes are not modelled.
- The server clock (`NOW()`), password hashing and `uuid4()` are parameters.
- JWT decoding and signature checking (RFC 7519) are a parameter: the decoded subject. The library rejects a non-string subject as undecodable.
- The HTTP forwarding of the gateway (httpx) and the bucket calls (boto3) are I/O. The outcome of sending, and the delete response, are parameters.
- The file system of `tree.py` is a tree value. Program arguments are a parameter: the depth is given as an integer, so `int()` parsing of the argument is not modelled. The header line needs a decimal rendering of the depth, which is written as a helper.
- The e-mail syntax check of `EmailStr` is not modelled.
- Characters: digits (`isdigit`, `\d`) and lower-casing are ASCII only, and ordering by label compares code points.

**Tables and repositories**

- TrainingsRepository.StepOrderIsTotal: steps with equal `step_number` come back in an order the database chooses. The model lists them by id.
- Rows returned without an ORDER BY come back in a database-chosen order. For tags and trainings-by-tag the model lists them by key; the generic repository takes the scan order as a parameter.
- The foreign key from trainings to users is not modelled, so neither is `delete_user` on a user who owns trainings.
- `TrainingsService.BuildStep` marks an explicit step id of 0 (`zeroId`) instead of carrying the id. Only a falsy id reaches the insert, so 0 is the one explicit id that can.
- A `skip_steps` of None in a create request takes the column default true.
- `delete_step`'s second 404 and the `not_found` branch after a successful lookup in `delete_steps_bulk` cannot be reached. The model proves that the lookup succeeds there.
- BaseRepository.Repository.GetAll: ordering by a column other than the key is modelled as the order the database returns, a parameter. A record's other columns are untyped JSON values, and SQL's comparison of them is not modelled.
- TagsRepository.GetTrainingsByTag: the number of rows is stated only for `skip == 0`. The trainings' eager-loaded relations are not part of the result.
- UsersRepository.UserRepository.UpdateUser: a commit failure other than a key, e-mail or NOT NULL clash is not modelled. Nor is an item naming `created_trainings` or an inherited attribute, which the model skips (see the next lines).
- UsersRepository.ApplyUserData: `hasattr` is also true for the relationship `created_trainings` and for the attributes every mapped class inherits (`metadata`, `registry`, dunder names). The model treats only the eight columns as attributes and skips every other key. In the source, `setattr` on `created_trainings` fails for a value that is not a list of trainings, and an empty list would unlink the user's trainings.
- UsersRepository.ApplyUserDataEffect: states the effect over the eight columns only, as described for `ApplyUserData`.
- UsersRepository.UnsettableItemIgnored: holds for the eight-column model. For `created_trainings` and the inherited attributes the source does not ignore the item.
- TagsRepository.GetAll: `getattr(Tags, order_by, None)` also finds attributes of `Tags` that are not columns, such as the relationship `trainings`, the inherited `metadata` or a method. Ordering by one of those orders by something other than a column or makes the query fail. The model accepts only `label` and `value` as orderings and lists every other name in the unordered (value) order.
- Header names are compared case-sensitively, as plain map keys.
- AuthDepends.CurrentUser: an all-digit subject beyond the 32-bit range of `users.id` makes the id lookup fail in the database, a 500. The model looks such an id up like any other, finds no user and goes on to the e-mail lookup.

**Front end**

- JavaScript `null` and `undefined` are both `JNull`. An object with a `length` key is treated as having no length.
- EditTrainingStore.Store.AddStep: in the source `steps` may be the same array as `trainingData.steps`, so a push shows in both. The value model does not capture that aliasing.
- BaseApi.Client.CreateRequest yields the request configuration; sending it through axios is I/O. The token read from local storage is a parameter, and a missing token is rendered as `null`.
- BaseApi.Client.CreateRequest: `{...params}` is taken to copy an object. The spread of other values (a string spreads into indexed characters, a number into nothing) is not modelled. `sourceUrl` is taken to be a string, so the `+` coercion of other values is not modelled either.

**tree.py**

- Tree.Main prints the path as given. Python's `Path` would first normalise it, for example by dropping a trailing slash.
- The directory name in the header is the resolved name, taken from the tree value.
- A `PermissionError` raised while testing a child with `is_dir` is not modelled. Only a directory that cannot be listed prints the refusal line.
- Sorting by name is stable by construction (an insertion sort that keeps equal keys in order), but stability itself is not stated as a lemma.
