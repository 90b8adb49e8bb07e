/** Shared vocabulary of the model: optional values, the outcome of an operation
    (a value or the exception it raises), pydantic's "unset" fields, JSON payloads,
    and the string helpers several components rely on. */
module Common {

  datatype Option<+T> = None | Some(value: T) {
    function GetOr(default: T): T {
      match this
      case Some(v) => v
      case None => default
    }
  }

  /** HTTP status codes raised by the services and routers. */
  const BAD_REQUEST := 400
  const UNAUTHORIZED := 401
  const NOT_FOUND := 404
  const CONFLICT := 409
  const UNPROCESSABLE := 422
  const INTERNAL_ERROR := 500

  /** What a Python call can raise: an HTTPException with its status, a
      database IntegrityError (foreign key, NOT NULL, UNIQUE or primary key
      violation), or any other exception (TypeError, AttributeError, ...). */
  datatype Error = HttpError(status: int) | IntegrityError | RuntimeFailure

  datatype Result<+T> = Ok(value: T) | Err(error: Error)

  /** The catch-all of every service method: an HTTPException is re-raised as it
      is, anything else becomes a 500. */
  function AsHttp(e: Error): (h: Error)
    ensures h.HttpError?
    ensures e.HttpError? ==> h == e
    ensures !e.HttpError? ==> h.status == INTERNAL_ERROR
  {
    if e.HttpError? then e else HttpError(INTERNAL_ERROR)
  }

  /** A field of a pydantic request model as seen by `model_dump(exclude_unset=True)`:
      either the client never sent it, or it sent a value (possibly null). */
  datatype Field<+T> = Unset | Set(value: T) {
    function Or(default: T): T {
      match this
      case Set(v) => v
      case Unset => default
    }
  }

  /** A JSON value, for the free-form payloads (step `meta`, request data). */
  datatype Json =
    | JNull
    | JBool(b: bool)
    | JNumber(n: int)
    | JString(s: string)
    | JArray(items: seq<Json>)
    | JObject(fields: map<string, Json>)

  /** The smaller of two numbers, as SQL's LIMIT caps a page. */
  function Min(a: int, b: int): int {
    if a <= b then a else b
  }

  predicate StartsWith(s: string, prefix: string) {
    |prefix| <= |s| && s[..|prefix|] == prefix
  }

  predicate IsAsciiDigit(c: char) {
    '0' <= c <= '9'
  }

  /** Python's `str.isdigit()` restricted to ASCII: non-empty and all digits. */
  predicate IsDigits(s: string) {
    |s| > 0 && forall i :: 0 <= i < |s| ==> IsAsciiDigit(s[i])
  }

  /** Python's `int(s)` on a string of ASCII digits. */
  function DecimalValue(s: string): (n: nat)
    requires forall i :: 0 <= i < |s| ==> IsAsciiDigit(s[i])
    ensures s == [] ==> n == 0
    decreases |s|
  {
    if s == [] then 0
    else
      assert IsAsciiDigit(s[|s| - 1]);
      DecimalValue(s[..|s| - 1]) * 10 + (s[|s| - 1] as int - '0' as int)
  }

  /** Lexicographic order on strings by code point (the "C" collation). */
  predicate LexLe(a: string, b: string)
    decreases |a|
  {
    a == [] || (b != [] && (a[0] < b[0] || (a[0] == b[0] && LexLe(a[1..], b[1..]))))
  }

  lemma {:induction false} LexLeReflexive(a: string)
    ensures LexLe(a, a)
    decreases |a|
  {
    if a != [] {
      LexLeReflexive(a[1..]);
    }
  }

  lemma {:induction false} LexLeAntisymmetric(a: string, b: string)
    requires LexLe(a, b) && LexLe(b, a)
    ensures a == b
    decreases |a|
  {
    if a != [] && b != [] {
      LexLeAntisymmetric(a[1..], b[1..]);
      assert a == [a[0]] + a[1..] && b == [b[0]] + b[1..];
    }
  }

  lemma {:induction false} LexLeTransitive(a: string, b: string, c: string)
    requires LexLe(a, b) && LexLe(b, c)
    ensures LexLe(a, c)
    decreases |a|
  {
    if a != [] && b != [] && c != [] && a[0] == b[0] && b[0] == c[0] {
      LexLeTransitive(a[1..], b[1..], c[1..]);
    }
  }

  lemma {:induction false} LexLeTotal(a: string, b: string)
    ensures LexLe(a, b) || LexLe(b, a)
    decreases |a|
  {
    if a != [] && b != [] && a[0] == b[0] {
      LexLeTotal(a[1..], b[1..]);
    }
  }

  /** SQL `OFFSET skip LIMIT limit` applied to an ordered result. */
  function Page<T>(rows: seq<T>, skip: nat, limit: nat): (r: seq<T>)
    ensures |r| <= limit
    ensures |r| == if skip >= |rows| then 0 else if skip + limit <= |rows| then limit else |rows| - skip
    ensures forall i :: 0 <= i < |r| ==> r[i] == rows[skip + i]
  {
    if skip >= |rows| then []
    else if skip + limit <= |rows| then rows[skip..skip + limit]
    else rows[skip..]
  }

  /** Two consecutive pages of one ordered result are the page that spans
      both: paging neither skips nor repeats a row. */
  lemma PageSplit<T>(rows: seq<T>, skip: nat, a: nat, b: nat)
    ensures Page(rows, skip, a) + Page(rows, skip + a, b) == Page(rows, skip, a + b)
  {
    var left, right, whole := Page(rows, skip, a), Page(rows, skip + a, b), Page(rows, skip, a + b);
    if skip + a < |rows| {
      assert |left| == a;
      forall i | 0 <= i < |whole| ensures (left + right)[i] == whole[i] {
        if i >= a {
          assert (left + right)[i] == right[i - a];
        }
      }
    }
  }

  /** The largest `limit` a list endpoint accepts. */
  const MAX_PAGE_LIMIT := 500

  /** The query parameters of a list endpoint, `skip: Query(ge=0)` and
      `limit: Query(ge=1, le=500)`: anything else is a validation error. */
  function CheckPageQuery(skip: int, limit: int): (r: Result<(nat, nat)>)
    ensures r.Ok? <==> 0 <= skip && 1 <= limit <= MAX_PAGE_LIMIT
    ensures r.Ok? ==> r.value == (skip, limit)
    ensures r.Err? ==> r.error == HttpError(UNPROCESSABLE)
  {
    if 0 <= skip && 1 <= limit <= MAX_PAGE_LIMIT then Ok((skip, limit)) else Err(HttpError(UNPROCESSABLE))
  }
}
