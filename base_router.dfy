/** The generic CRUD router (`backend_archive/routing/base_router.py`): the
    handlers behind POST, GET, GET by key, PATCH and DELETE of one table, the
    checks each makes in order, and when it calls its hooks. The default
    hooks do nothing; the router records each call in `hooks`, so the model
    can say which hooks ran and in which order. */
module BaseRouter {
  import opened Common
  import opened BaseRepository

  /** A call of one of the handler hooks. */
  datatype Hook =
    | BeforeCreate(data: map<string, Json>)
    | AfterCreate(key: int)
    | BeforeUpdate(key: int)
    | AfterUpdate(key: int)
    | BeforeDelete(key: int)
    | AfterDelete(key: int)

  /** `_get_order_by`'s default: no ORDER BY. */
  const DEFAULT_ORDER_BY: Option<string> := None

  /** `data.model_dump(exclude_unset=True)` of an update request: the fields
      the client sent, with their values (null included). */
  function SetFields(payload: map<string, Field<Json>>): (r: map<string, Json>)
    ensures forall f :: f in r <==> f in payload && payload[f].Set?
    ensures forall f :: f in r ==> r[f] == payload[f].value
    ensures r == map[] <==> forall f :: f in payload ==> payload[f].Unset?
  {
    var r := map f | f in payload && payload[f].Set? :: payload[f].value;
    assert r == map[] ==> forall f :: f in payload ==> payload[f].Unset? by {
      if r == map[] {
        forall f | f in payload ensures payload[f].Unset? {
          assert f !in r;
        }
      }
    }
    r
  }

  class Router {
    const repo: Repository
    /** What the subclass's `_get_order_by` returns. */
    const orderBy: Option<string>
    /** The hook calls made so far. */
    var hooks: seq<Hook>

    ghost predicate Valid()
      reads this, repo
    {
      repo.Valid()
    }

    constructor(repo: Repository, orderBy: Option<string>)
      requires repo.Valid()
      ensures Valid() && this.repo == repo && this.orderBy == orderBy && hooks == []
    {
      this.repo := repo;
      this.orderBy := orderBy;
      this.hooks := [];
    }

    /** `_create`: the before-hook, then the INSERT; an IntegrityError is
        reported as 409 and any other failure as 500. The after-hook runs
        only when the record was created. */
    method Create(data: map<string, Json>) returns (r: Result<(int, Row)>)
      requires Valid()
      modifies this, repo
      ensures Valid()
      ensures hooks == old(hooks) + [BeforeCreate(data)] + (if r.Ok? then [AfterCreate(r.value.0)] else [])
      ensures r.Ok? <==> && data.Keys <= repo.columns
                         && repo.TargetKey(data, old(repo.nextKey)).Some?
                         && repo.TargetKey(data, old(repo.nextKey)).value !in old(repo.rows)
                         && !Clashes(old(repo.rows), repo.uniqueColumns, repo.TargetKey(data, old(repo.nextKey)).value, data - {repo.pkField})
      ensures r.Err? ==> repo.rows == old(repo.rows) && (r.error == HttpError(CONFLICT) || r.error == HttpError(INTERNAL_ERROR))
      ensures r.Err? && data.Keys <= repo.columns && repo.TargetKey(data, old(repo.nextKey)).Some? ==> r.error == HttpError(CONFLICT)
      ensures r.Ok? ==> r.value == (repo.TargetKey(data, old(repo.nextKey)).value, data - {repo.pkField})
      ensures r.Ok? ==> repo.rows == old(repo.rows)[r.value.0 := r.value.1]
    {
      hooks := hooks + [BeforeCreate(data)];
      var created := repo.Create(data);
      if created.Ok? {
        hooks := hooks + [AfterCreate(created.value.0)];
        r := Ok(created.value);
      } else {
        r := if created.error == IntegrityError then Err(HttpError(CONFLICT)) else Err(AsHttp(created.error));
      }
    }

    /** `_get_all`: the query parameters are checked (422), then the page of
        records in the subclass's order. */
    ghost function GetAll(skip: int, limit: int, scan: seq<int>): (r: Result<seq<(int, Row)>>)
      reads this, repo
      requires IsScanOrder(scan, repo.rows)
      ensures r.Ok? <==> CheckPageQuery(skip, limit).Ok?
      ensures r.Err? ==> r.error == HttpError(UNPROCESSABLE)
      ensures r.Ok? ==> |r.value| <= limit
      ensures r.Ok? ==> forall i :: 0 <= i < |r.value| ==> r.value[i].0 in repo.rows && r.value[i].1 == repo.rows[r.value[i].0]
      ensures r.Ok? && repo.SortsByKey(orderBy) ==>
                forall i, j :: 0 <= i < j < |r.value| ==> r.value[i].0 < r.value[j].0
      ensures r.Ok? && skip == 0 ==> |r.value| == Min(limit, |repo.rows.Keys|)
      ensures r.Ok? ==> |r.value| == if skip >= |repo.rows.Keys| then 0 else Min(limit, |repo.rows.Keys| - skip)
      ensures r.Ok? ==> forall i :: 0 <= i < |r.value| ==>
                skip + i < |repo.KeyOrder(orderBy, scan)| && r.value[i].0 == repo.KeyOrder(orderBy, scan)[skip + i]
    {
      if CheckPageQuery(skip, limit).Ok? then
        Ok(repo.GetAll(skip, limit, orderBy, scan))
      else Err(CheckPageQuery(skip, limit).error)
    }

    /** `_get_by_id`: the record, or 404. */
    function GetById(key: int): (r: Result<(int, Row)>)
      reads this, repo
      ensures r.Ok? <==> key in repo.rows
      ensures r.Err? ==> r.error == HttpError(NOT_FOUND)
      ensures r.Ok? ==> r.value == (key, repo.rows[key])
    {
      match repo.GetById(key)
      case None => Err(HttpError(NOT_FOUND))
      case Some(row) => Ok((key, row))
    }

    /** `_update`: 404 for a missing record before any hook runs; then the
        before-hook; then 400 when the request sets no field; then the UPDATE
        with exactly the fields sent. An IntegrityError is 409; a failure or
        an update that leaves nothing under the key (the key itself was
        changed) is 500. The after-hook runs only on success. */
    method Update(key: int, payload: map<string, Field<Json>>) returns (r: Result<(int, Row)>)
      requires Valid()
      modifies this, repo
      ensures Valid()
      ensures r.Err? ==> repo.rows == old(repo.rows) || r.error == HttpError(INTERNAL_ERROR)
      ensures key !in old(repo.rows) ==> r == Err(HttpError(NOT_FOUND)) && hooks == old(hooks) && repo.rows == old(repo.rows)
      ensures key in old(repo.rows) && SetFields(payload) == map[] ==>
                r == Err(HttpError(BAD_REQUEST)) && repo.rows == old(repo.rows)
      ensures hooks == old(hooks) + (if key in old(repo.rows) then [BeforeUpdate(key)] else []) + (if r.Ok? then [AfterUpdate(key)] else [])
      ensures key in old(repo.rows) && SetFields(payload) != map[] && SetFields(payload).Keys <= repo.columns && repo.pkField !in SetFields(payload) ==>
                var merged := old(repo.rows)[key] + SetFields(payload);
                && (r.Ok? <==> !Clashes(old(repo.rows) - {key}, repo.uniqueColumns, key, merged))
                && (r.Err? ==> r.error == HttpError(CONFLICT))
      ensures r.Ok? ==> && key in old(repo.rows)
                        && r.value == (key, old(repo.rows)[key] + (SetFields(payload) - {repo.pkField}))
                        && repo.rows == old(repo.rows)[key := r.value.1]
    {
      if !repo.Exists(key) {
        return Err(HttpError(NOT_FOUND));
      }
      hooks := hooks + [BeforeUpdate(key)];
      var fields := SetFields(payload);
      if fields == map[] {
        return Err(HttpError(BAD_REQUEST));
      }
      var updated := repo.Update(key, fields);
      match updated {
        case Ok(Some(row)) =>
          hooks := hooks + [AfterUpdate(key)];
          r := Ok((key, row));
        case Ok(None) =>
          r := Err(HttpError(INTERNAL_ERROR));
        case Err(e) =>
          r := if e == IntegrityError then Err(HttpError(CONFLICT)) else Err(AsHttp(e));
      }
    }

    /** `_delete`: 404 for a missing record before any hook runs; then the
        before-hook and the DELETE; 500 when no row was deleted; the
        after-hook only on success. */
    method Delete(key: int) returns (r: Result<()>)
      requires Valid()
      modifies this, repo
      ensures Valid()
      ensures key !in old(repo.rows) ==> r == Err(HttpError(NOT_FOUND)) && hooks == old(hooks) && repo.rows == old(repo.rows)
      ensures key in old(repo.rows) ==> r == Ok(()) && hooks == old(hooks) + [BeforeDelete(key), AfterDelete(key)]
      ensures repo.rows == old(repo.rows) - {key}
    {
      if !repo.Exists(key) {
        return Err(HttpError(NOT_FOUND));
      }
      hooks := hooks + [BeforeDelete(key)];
      var found := repo.Delete(key);
      if found {
        hooks := hooks + [AfterDelete(key)];
      }
      r := if found then Ok(()) else Err(HttpError(INTERNAL_ERROR));
    }
  }
}
