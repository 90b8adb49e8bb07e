/** The tag table (`backend/repositories/tags_repository.py`): tags keyed by
    their `value`, with a unique `label`, and the trainings linked to them
    through `training_tags`. Every mutation commits at once. */
module TagsRepository {
  import opened Common
  import opened Sorting
  import opened TrainingModels
  import opened Persistence

  /** `get_by_id`. */
  function GetById(db: Db, value: int): (r: Option<Tag>)
    ensures r.Some? <==> value in db.tags
    ensures r.Some? ==> r.value == db.tags[value]
  {
    if value in db.tags then Some(db.tags[value]) else None
  }

  /** `exists`: `get_by_id` finds the tag. */
  function Exists(db: Db, value: int): (b: bool)
    ensures b <==> GetById(db, value).Some?
  {
    value in db.tags
  }

  /** `get_by_name`: the tag with that label; the UNIQUE constraint makes
      `scalar_one_or_none` see at most one row. */
  function GetByName(db: Db, text: string): (r: Option<int>)
    requires TagLabelsUnique(db.tags)
    ensures r.Some? ==> r.value in db.tags && db.tags[r.value].labelText == text
    ensures r.None? ==> forall v :: v in db.tags ==> db.tags[v].labelText != text
  {
    if exists v :: v in db.tags && db.tags[v].labelText == text then
      var v :| v in db.tags && db.tags[v].labelText == text;
      Some(v)
    else None
  }

  /** `count`. */
  function Count(db: Db): (n: nat)
    ensures n == |db.tags.Keys|
  {
    |db.tags.Keys|
  }

  /** The label a tag value sorts by (the empty string for a value that is not
      a tag, which never reaches a query result). */
  function LabelKey(tags: map<int, Tag>, v: int): string {
    if v in tags then tags[v].labelText else ""
  }

  /** ORDER BY label; the UNIQUE constraint leaves no ties among tags, the tie
      rule only makes the relation total on all values. */
  function LabelOrder(tags: map<int, Tag>): (int, int) -> bool {
    (a: int, b: int) =>
      if LabelKey(tags, a) == LabelKey(tags, b) then a <= b else LexLe(LabelKey(tags, a), LabelKey(tags, b))
  }

  lemma LabelOrderIsTotal(tags: map<int, Tag>)
    ensures IsTotalOrder(LabelOrder(tags))
  {
    var le := LabelOrder(tags);
    forall x ensures le(x, x) {
    }
    forall x, y | le(x, y) && le(y, x) ensures x == y {
      if LabelKey(tags, x) != LabelKey(tags, y) {
        LexLeAntisymmetric(LabelKey(tags, x), LabelKey(tags, y));
      }
    }
    forall x, y, z | le(x, y) && le(y, z) ensures le(x, z) {
      var lx, ly, lz := LabelKey(tags, x), LabelKey(tags, y), LabelKey(tags, z);
      if lx != ly && ly != lz {
        LexLeTransitive(lx, ly, lz);
        if lx == lz {
          LexLeAntisymmetric(lx, ly);
        }
      }
    }
    forall x, y ensures le(x, y) || le(y, x) {
      LexLeTotal(LabelKey(tags, x), LabelKey(tags, y));
    }
  }

  /** The columns `get_all` can order by; any other name is ignored. */
  datatype TagColumn = ByValue | ByLabel

  function ColumnNamed(name: string): (c: Option<TagColumn>)
    ensures c == Some(ByValue) <==> name == "value"
    ensures c == Some(ByLabel) <==> name == "label"
  {
    if name == "value" then Some(ByValue) else if name == "label" then Some(ByLabel) else None
  }

  /** Every tag value, ordered by label. */
  ghost function TagsByLabel(tags: map<int, Tag>): (r: seq<int>)
    ensures |r| == |tags.Keys| && Distinct(r)
    ensures forall v :: v in r <==> v in tags
    ensures forall i :: 0 <= i < |r| ==> r[i] in tags
    ensures LabelsAscending(tags, r)
  {
    LabelOrderIsTotal(tags);
    var r := SortSet(tags.Keys, LabelOrder(tags));
    assert forall i :: 0 <= i < |r| ==> r[i] in r;
    SortedByLabel(tags, r);
    r
  }

  /** Tag values listed in ascending order of their labels. */
  ghost predicate LabelsAscending(tags: map<int, Tag>, r: seq<int>) {
    forall i, j :: 0 <= i < j < |r| ==> r[i] in tags && r[j] in tags && LexLe(tags[r[i]].labelText, tags[r[j]].labelText)
  }

  lemma SortedByLabel(tags: map<int, Tag>, r: seq<int>)
    requires SortedBy(r, LabelOrder(tags))
    requires forall i :: 0 <= i < |r| ==> r[i] in tags
    ensures LabelsAscending(tags, r)
  {
    forall i, j | 0 <= i < j < |r|
      ensures LexLe(tags[r[i]].labelText, tags[r[j]].labelText)
    {
      LabelOrderIsLexLe(tags, r[i], r[j]);
    }
  }

  lemma LabelOrderIsLexLe(tags: map<int, Tag>, a: int, b: int)
    requires a in tags && b in tags && LabelOrder(tags)(a, b)
    ensures LexLe(tags[a].labelText, tags[b].labelText)
  {
    if tags[a].labelText == tags[b].labelText {
      LexLeReflexive(tags[a].labelText);
    }
  }

  /** Tag values listed in ascending order of value. */
  ghost predicate ValuesAscending(r: seq<int>) {
    forall i, j :: 0 <= i < j < |r| ==> r[i] < r[j]
  }

  /** Every tag value in the order `get_all` lists them: by label when
      `order_by` names the label column, otherwise by value. */
  ghost function Listing(tags: map<int, Tag>, orderBy: string): (r: seq<int>)
    ensures ColumnNamed(orderBy) == Some(ByLabel) ==> r == TagsByLabel(tags)
    ensures ColumnNamed(orderBy) != Some(ByLabel) ==> r == Ascending(tags.Keys)
  {
    if ColumnNamed(orderBy) == Some(ByLabel) then TagsByLabel(tags) else Ascending(tags.Keys)
  }

  /** `get_all`: at most `limit` tags after skipping `skip`, ordered by the
      named column when `Tags` has one. Without an ORDER BY the database may
      return the rows in any order; the model lists them by value. */
  ghost function GetAll(db: Db, skip: nat, limit: nat, orderBy: string): (r: seq<int>)
    ensures |r| <= limit && Distinct(r)
    ensures forall i :: 0 <= i < |r| ==> r[i] in db.tags
    ensures |r| == if skip >= |db.tags.Keys| then 0 else Min(limit, |db.tags.Keys| - skip)
    ensures ColumnNamed(orderBy) == Some(ByLabel) ==> LabelsAscending(db.tags, r)
    ensures ColumnNamed(orderBy) != Some(ByLabel) ==> ValuesAscending(r)
    ensures forall i :: 0 <= i < |r| ==> skip + i < |Listing(db.tags, orderBy)| && r[i] == Listing(db.tags, orderBy)[skip + i]
  {
    var byLabel := ColumnNamed(orderBy) == Some(ByLabel);
    var rows := Listing(db.tags, orderBy);
    PageOfTags(db.tags, rows, skip, limit, byLabel);
    Page(rows, skip, limit)
  }

  /** A page of a duplicate-free list of every tag value holds tag values,
      none twice, as many as the table has past `skip` up to `limit`, and
      keeps the list's order by label or by value. */
  lemma PageOfTags(tags: map<int, Tag>, rows: seq<int>, skip: nat, limit: nat, byLabel: bool)
    requires |rows| == |tags.Keys| && Distinct(rows) && forall k :: k in rows ==> k in tags
    requires byLabel ==> LabelsAscending(tags, rows)
    requires !byLabel ==> ValuesAscending(rows)
    ensures var r := Page(rows, skip, limit);
      && |r| <= limit && Distinct(r) && (forall i :: 0 <= i < |r| ==> r[i] in tags)
      && |r| == (if skip >= |tags.Keys| then 0 else Min(limit, |tags.Keys| - skip))
      && (byLabel ==> LabelsAscending(tags, r))
      && (!byLabel ==> ValuesAscending(r))
  {
    var r := Page(rows, skip, limit);
    assert forall i :: 0 <= i < |r| ==> skip + i < |rows| && r[i] == rows[skip + i] && rows[skip + i] in rows;
  }

  /** The trainings linked to tag `value`. */
  function LinkedTrainings(db: Db, value: int): (r: set<Uuid>)
    ensures forall u :: u in r <==> (u, value) in db.trainingTags
  {
    set link | link in db.trainingTags && link.1 == value :: link.0
  }

  /** `count(training_tags.training_uuid)` for one tag. */
  function TrainingsCount(db: Db, value: int): nat {
    |LinkedTrainings(db, value)|
  }

  /** `get_with_trainings_count`: every tag once, ordered by label (the rows
      of `TagsByLabel`), with the number of its link rows: 0 for a tag without
      trainings, which the outer join keeps. */
  ghost function GetWithTrainingsCount(db: Db): (r: seq<(int, nat)>)
    ensures |r| == |TagsByLabel(db.tags)| == |db.tags.Keys|
    ensures forall i :: 0 <= i < |r| ==> r[i].0 == TagsByLabel(db.tags)[i] && r[i].0 in db.tags
    ensures forall i :: 0 <= i < |r| ==> r[i].1 == TrainingsCount(db, r[i].0)
  {
    WithCounts(db, TagsByLabel(db.tags))
  }

  /** Each of `values` paired with its number of link rows. */
  function WithCounts(db: Db, values: seq<int>): (r: seq<(int, nat)>)
    ensures |r| == |values|
    ensures forall i :: 0 <= i < |r| ==> r[i].0 == values[i] && r[i].1 == TrainingsCount(db, values[i])
  {
    seq(|values|, i requires 0 <= i < |values| => (values[i], TrainingsCount(db, values[i])))
  }

  /** `get_trainings_by_tag`: the trainings linked to the tag, at most `limit`
      after skipping `skip`; there is no ORDER BY, the model lists them by UUID. */
  ghost function GetTrainingsByTag(db: Db, value: int, skip: nat, limit: nat): (r: seq<Uuid>)
    ensures |r| <= limit && Distinct(r)
    ensures forall i :: 0 <= i < |r| ==> (r[i], value) in db.trainingTags
    ensures skip == 0 ==> |r| == Min(limit, |LinkedTrainings(db, value)|)
  {
    var rows := Ascending(LinkedTrainings(db, value));
    assert forall i :: 0 <= i < |rows| ==> rows[i] in rows;
    Page(rows, skip, limit)
  }

  /** The number of tags equals the number of rows `get_with_trainings_count`
      reports. */
  lemma CountMatchesTagsWithCount(db: Db)
    ensures Count(db) == |GetWithTrainingsCount(db)|
  {
  }

  class TagRepository {
    const session: Session

    constructor(session: Session)
      ensures this.session == session
    {
      this.session := session;
    }

    /** `create`: INSERT of one tag under the next `tags.value`, then COMMIT.
        The sequence value is drawn even when the UNIQUE constraint refuses
        the row, and the failed transaction leaves the table as committed. */
    method Create(text: string) returns (r: Result<int>)
      requires session.Valid() && session.Clean()
      modifies session
      ensures session.Valid() && session.Clean()
      ensures session.nextStepId == old(session.nextStepId)
      ensures session.nextTagValue == old(session.nextTagValue) + 1
      ensures r.Ok? <==> forall v :: v in old(session.db).tags ==> old(session.db).tags[v].labelText != text
      ensures r.Err? ==> r.error == IntegrityError && session.db == old(session.db)
      ensures r.Ok? ==> r.value == old(session.nextTagValue) && r.value !in old(session.db).tags
      ensures r.Ok? ==> session.db == old(session.db).(tags := old(session.db).tags[r.value := Tag(text)])
    {
      var db := session.db;
      var value := session.nextTagValue;
      session.nextTagValue := value + 1;
      if GetByName(db, text).Some? {
        return Err(IntegrityError);
      }
      session.db := db.(tags := db.tags[value := Tag(text)]);
      session.Commit();
      r := Ok(value);
    }

    /** `update`: UPDATE of the label, COMMIT, then the tag when a row matched.
        A label held by another tag breaks the UNIQUE constraint. */
    method Update(value: int, text: string) returns (r: Result<Option<Tag>>)
      requires session.Valid() && session.Clean()
      modifies session
      ensures session.Valid() && session.Clean()
      ensures session.nextStepId == old(session.nextStepId) && session.nextTagValue == old(session.nextTagValue)
      ensures r.Err? <==> (value in old(session.db).tags &&
                exists w :: w in old(session.db).tags && w != value && old(session.db).tags[w].labelText == text)
      ensures r.Err? ==> r.error == IntegrityError
      ensures r == Ok(None) <==> value !in old(session.db).tags
      ensures r.Ok? && r.value.None? ==> session.db == old(session.db)
      ensures r.Err? ==> session.db == old(session.db)
      ensures r.Ok? && r.value.Some? ==> r.value.value == Tag(text)
      ensures r.Ok? && r.value.Some? ==> session.db == old(session.db).(tags := old(session.db).tags[value := Tag(text)])
    {
      var db := session.db;
      if value !in db.tags {
        return Ok(None);
      }
      var owner := GetByName(db, text);
      if owner.Some? && owner.value != value {
        return Err(IntegrityError);
      }
      var db' := db.(tags := db.tags[value := Tag(text)]);
      assert TagLabelsUnique(db'.tags);
      session.db := db';
      session.Commit();
      r := Ok(Some(Tag(text)));
    }

    /** `delete`: DELETE of the tag (its links cascade), COMMIT; true iff a
        row was deleted. */
    method Delete(value: int) returns (found: bool)
      requires session.Valid() && session.Clean()
      modifies session
      ensures session.Valid() && session.Clean()
      ensures session.nextStepId == old(session.nextStepId) && session.nextTagValue == old(session.nextTagValue)
      ensures found <==> value in old(session.db).tags
      ensures found ==> session.db == DeleteTag(old(session.db), value)
      ensures !found ==> session.db == old(session.db)
      ensures forall link :: link in session.db.trainingTags ==> link.1 != value
    {
      var db := session.db;
      found := value in db.tags;
      if found {
        DeleteTagKeepsConsistent(db, value);
        session.db := DeleteTag(db, value);
        session.Commit();
      }
    }
  }
}
