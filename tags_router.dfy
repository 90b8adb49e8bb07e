/** The tag endpoints (`backend/routing/tags_router.py`): request validation,
    the checks each handler makes in order, and the repository calls. Each
    request works in a fresh session. */
module TagsRouter {
  import opened Common
  import opened Sorting
  import opened TrainingModels
  import opened Persistence
  import opened TagsRepository

  /** `TagBase.label`: `Field(min_length=1, max_length=50)`. */
  const MAX_LABEL_LENGTH := 50

  predicate ValidLabel(text: string) {
    1 <= |text| <= MAX_LABEL_LENGTH
  }

  /** `TagResponse`. */
  datatype TagResponse = TagResponse(value: int, labelText: string)

  /** `TagWithTrainingsCount`. */
  datatype TagWithCount = TagWithCount(value: int, labelText: string, trainingsCount: nat)

  /** `get_all_tags`: the query parameters are checked, then the page of tags
      ordered by label. */
  ghost function GetAllTags(db: Db, skip: int, limit: int): (r: Result<seq<TagResponse>>)
    ensures r.Ok? <==> CheckPageQuery(skip, limit).Ok?
    ensures r.Err? ==> r.error == HttpError(UNPROCESSABLE)
    ensures r.Ok? ==> |r.value| <= limit
    ensures r.Ok? ==> forall i :: 0 <= i < |r.value| ==>
              r.value[i].value in db.tags && r.value[i].labelText == db.tags[r.value[i].value].labelText
    ensures r.Ok? ==> forall i, j :: 0 <= i < j < |r.value| ==>
              LexLe(r.value[i].labelText, r.value[j].labelText) && r.value[i].value != r.value[j].value
    ensures r.Ok? ==> |r.value| == if skip >= |db.tags.Keys| then 0 else Min(limit, |db.tags.Keys| - skip)
    ensures r.Ok? ==> forall i :: 0 <= i < |r.value| ==>
              skip + i < |TagsByLabel(db.tags)| && r.value[i].value == TagsByLabel(db.tags)[skip + i]
  {
    if CheckPageQuery(skip, limit).Ok? then Ok(LabelPage(db, skip, limit))
    else Err(CheckPageQuery(skip, limit).error)
  }

  /** The page `get_all_tags` answers with: the tags after the first `skip`
      in label order, as many as remain up to `limit`. */
  ghost function LabelPage(db: Db, skip: nat, limit: nat): (r: seq<TagResponse>)
    ensures |r| <= limit
    ensures |r| == (if skip >= |db.tags.Keys| then 0 else Min(limit, |db.tags.Keys| - skip))
    ensures forall i :: 0 <= i < |r| ==> r[i].value in db.tags && r[i].labelText == db.tags[r[i].value].labelText
    ensures forall i, j :: 0 <= i < j < |r| ==> LexLe(r[i].labelText, r[j].labelText) && r[i].value != r[j].value
    ensures forall i :: 0 <= i < |r| ==> skip + i < |TagsByLabel(db.tags)| && r[i].value == TagsByLabel(db.tags)[skip + i]
  {
    assert Listing(db.tags, "label") == TagsByLabel(db.tags);
    Responses(db.tags, GetAll(db, skip, limit, "label"))
  }

  /** One response per listed tag value, in the same order. */
  function Responses(tags: map<int, Tag>, rows: seq<int>): (r: seq<TagResponse>)
    requires forall i :: 0 <= i < |rows| ==> rows[i] in tags
    ensures |r| == |rows|
    ensures forall i :: 0 <= i < |r| ==> r[i] == TagResponse(rows[i], tags[rows[i]].labelText)
    ensures LabelsAscending(tags, rows) && Distinct(rows) ==>
              forall i, j :: 0 <= i < j < |r| ==> LexLe(r[i].labelText, r[j].labelText) && r[i].value != r[j].value
  {
    seq(|rows|, i requires 0 <= i < |rows| => TagResponse(rows[i], tags[rows[i]].labelText))
  }

  /** `get_tags_with_count`: one response per (tag, count) row, in the same
      order: every tag once, by label, with its number of trainings. */
  ghost function GetTagsWithCount(db: Db): (r: seq<TagWithCount>)
    ensures |r| == |db.tags.Keys|
    ensures forall i :: 0 <= i < |r| ==>
              && r[i].value in db.tags
              && r[i].labelText == db.tags[r[i].value].labelText
              && r[i].trainingsCount == TrainingsCount(db, r[i].value)
    ensures forall i, j :: 0 <= i < j < |r| ==>
              LexLe(r[i].labelText, r[j].labelText) && r[i].value != r[j].value
  {
    var rows := GetWithTrainingsCount(db);
    seq(|rows|, i requires 0 <= i < |rows| => TagWithCount(rows[i].0, db.tags[rows[i].0].labelText, rows[i].1))
  }

  /** `get_tag_by_id`. */
  function GetTagById(db: Db, value: int): (r: Result<TagResponse>)
    ensures r.Ok? <==> value in db.tags
    ensures r.Err? ==> r.error == HttpError(NOT_FOUND)
    ensures r.Ok? ==> r.value == TagResponse(value, db.tags[value].labelText)
  {
    match GetById(db, value)
    case None => Err(HttpError(NOT_FOUND))
    case Some(t) => Ok(TagResponse(value, t.labelText))
  }

  /** `get_trainings_by_tag`: the query parameters are checked first, then 404
      for an unknown tag, then the page of linked trainings. */
  ghost function GetTrainingsByTagHandler(db: Db, value: int, skip: int, limit: int): (r: Result<seq<Uuid>>)
    ensures CheckPageQuery(skip, limit).Err? ==> r == Err(HttpError(UNPROCESSABLE))
    ensures CheckPageQuery(skip, limit).Ok? && value !in db.tags ==> r == Err(HttpError(NOT_FOUND))
    ensures r.Ok? <==> CheckPageQuery(skip, limit).Ok? && value in db.tags
    ensures r.Ok? ==> |r.value| <= limit && Distinct(r.value)
    ensures r.Ok? ==> forall i :: 0 <= i < |r.value| ==> (r.value[i], value) in db.trainingTags
  {
    match CheckPageQuery(skip, limit)
    case Err(e) => Err(e)
    case Ok((skip', limit')) =>
      if !Exists(db, value) then Err(HttpError(NOT_FOUND))
      else Ok(GetTrainingsByTag(db, value, skip', limit'))
  }

  class TagsRouter {
    const session: Session
    const repo: TagRepository

    ghost predicate Valid()
      reads session
    {
      repo.session == session && session.Valid()
    }

    constructor(session: Session)
      requires session.Valid()
      ensures Valid() && this.session == session
    {
      this.session := session;
      this.repo := new TagRepository(session);
    }

    /** `create_tag`: 422 for a label of the wrong length, 409 for a label
        already in use (nothing is inserted), otherwise the new tag. */
    method CreateTag(text: string) returns (r: Result<TagResponse>)
      requires Valid() && session.Clean()
      modifies session
      ensures Valid() && session.Clean() && TagLabelsUnique(session.db.tags)
      ensures session.nextStepId == old(session.nextStepId)
      ensures r.Err? ==> session.db == old(session.db)
      ensures !ValidLabel(text) ==> r == Err(HttpError(UNPROCESSABLE))
      ensures ValidLabel(text) ==>
                (r.Ok? <==> forall v :: v in old(session.db).tags ==> old(session.db).tags[v].labelText != text)
      ensures ValidLabel(text) && r.Err? ==> r == Err(HttpError(CONFLICT))
      ensures r.Ok? ==> r.value == TagResponse(old(session.nextTagValue), text) && r.value.value !in old(session.db).tags
      ensures r.Ok? ==> session.db == old(session.db).(tags := old(session.db).tags[r.value.value := Tag(text)])
    {
      if !ValidLabel(text) {
        return Err(HttpError(UNPROCESSABLE));
      }
      if GetByName(session.db, text).Some? {
        return Err(HttpError(CONFLICT));
      }
      var created := repo.Create(text);
      r := if created.Ok? then Ok(TagResponse(created.value, text)) else Err(HttpError(CONFLICT));
    }

    /** `update_tag`: 422 for a label of the wrong length, then 400 when no
        label is given, 404 for an unknown tag, 409 when another tag holds
        the label; renaming a tag to its own label is allowed. */
    method UpdateTag(value: int, text: Option<string>) returns (r: Result<TagResponse>)
      requires Valid() && session.Clean()
      modifies session
      ensures Valid() && session.Clean() && TagLabelsUnique(session.db.tags)
      ensures session.nextStepId == old(session.nextStepId) && session.nextTagValue == old(session.nextTagValue)
      ensures r.Err? ==> session.db == old(session.db)
      ensures text.Some? && !ValidLabel(text.value) ==> r == Err(HttpError(UNPROCESSABLE))
      ensures text.None? ==> r == Err(HttpError(BAD_REQUEST))
      ensures text.Some? && ValidLabel(text.value) && value !in old(session.db).tags ==> r == Err(HttpError(NOT_FOUND))
      ensures text.Some? && ValidLabel(text.value) && value in old(session.db).tags ==>
                (r.Ok? <==> forall w :: w in old(session.db).tags && w != value ==> old(session.db).tags[w].labelText != text.value)
      ensures text.Some? && ValidLabel(text.value) && value in old(session.db).tags && r.Err? ==> r == Err(HttpError(CONFLICT))
      ensures r.Ok? ==> r.value == TagResponse(value, text.value)
      ensures r.Ok? ==> session.db == old(session.db).(tags := old(session.db).tags[value := Tag(text.value)])
    {
      if text.Some? && !ValidLabel(text.value) {
        return Err(HttpError(UNPROCESSABLE));
      }
      if text.None? {
        return Err(HttpError(BAD_REQUEST));
      }
      if !Exists(session.db, value) {
        return Err(HttpError(NOT_FOUND));
      }
      var owner := GetByName(session.db, text.value);
      if owner.Some? && owner.value != value {
        return Err(HttpError(CONFLICT));
      }
      var updated := repo.Update(value, text.value);
      r := match updated
        case Err(_) => Err(HttpError(CONFLICT))
        case Ok(None) => Err(HttpError(INTERNAL_ERROR))
        case Ok(Some(t)) => Ok(TagResponse(value, t.labelText));
    }

    /** `delete_tag`: 404 for an unknown tag, 500 when the DELETE reports no
        row; otherwise the tag and its training links are gone. */
    method DeleteTag(value: int) returns (r: Result<()>)
      requires Valid() && session.Clean()
      modifies session
      ensures Valid() && session.Clean()
      ensures session.nextStepId == old(session.nextStepId) && session.nextTagValue == old(session.nextTagValue)
      ensures value !in old(session.db).tags ==> r == Err(HttpError(NOT_FOUND)) && session.db == old(session.db)
      ensures value in old(session.db).tags ==> r == Ok(()) && session.db == TrainingModels.DeleteTag(old(session.db), value)
      ensures value !in session.db.tags && forall link :: link in session.db.trainingTags ==> link.1 != value
    {
      if !Exists(session.db, value) {
        return Err(HttpError(NOT_FOUND));
      }
      var found := repo.Delete(value);
      r := if found then Ok(()) else Err(HttpError(INTERNAL_ERROR));
    }
  }
}
