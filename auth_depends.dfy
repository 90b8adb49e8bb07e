/** Who a bearer token names (`get_current_user` in `backend/depends.py`).
    Decoding and signature checking (JWT, RFC 7519) are outside the model:
    their outcome is the `Decoded` parameter. */
module AuthDepends {
  import opened Common
  import opened UsersRepository

  /** What `jwt.decode` yields: a JWTError, or the payload's `"sub"` claim
      (None when the payload has no such key). The decoder itself refuses a
      subject that is not a string, so a payload it returns carries a string
      subject or none. */
  datatype Decoded = Undecodable | Claims(sub: Option<string>)

  /** `get_current_user`: 401 for an undecodable token or a missing subject.
      An all-digit subject is looked up as an id first; when that finds
      nobody, or the subject is not all digits, it is looked up as an
      e-mail; 401 when neither finds a user. */
  function CurrentUser(repo: UserRepository, token: Decoded): (r: Result<int>)
    reads repo
    requires repo.Valid()
    ensures r.Err? ==> r.error == HttpError(UNAUTHORIZED)
    ensures token.Undecodable? || token.sub.None? ==> r.Err?
    ensures r.Ok? ==> r.value in repo.users
    ensures r.Ok? ==> && token.Claims? && token.sub.Some?
                      && var s := token.sub.value;
                         (IsDigits(s) && r.value == DecimalValue(s)) || Attr(repo.users[r.value], "email") == JString(s)
    ensures token.Claims? && token.sub.Some? ==>
              var s := token.sub.value;
              && (IsDigits(s) && DecimalValue(s) in repo.users ==> r == Ok(DecimalValue(s)))
              && (!(IsDigits(s) && DecimalValue(s) in repo.users) ==>
                    (r.Ok? <==> exists k :: k in repo.users && Attr(repo.users[k], "email") == JString(s)))
  {
    match token
    case Undecodable => Err(HttpError(UNAUTHORIZED))
    case Claims(None) => Err(HttpError(UNAUTHORIZED))
    case Claims(Some(s)) =>
      var byId := if IsDigits(s) then repo.GetById(DecimalValue(s)) else None;
      if byId.Some? then Ok(DecimalValue(s))
      else
        (match repo.FindOneOrNone(s)
         case Some(k) => Ok(k)
         case None => Err(HttpError(UNAUTHORIZED)))
  }
}
