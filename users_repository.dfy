/** The user table (`backend/repositories/users_repository.py` over the `User`
    model of `backend/models/users.py`): users keyed by id, each a map of its
    column attributes to their values, with a unique, non-null e-mail. Every
    mutation commits at once; a refused commit leaves the table as it was.
    Password hashing and the server clock are parameters. */
module UsersRepository {
  import opened Common
  import opened UserSchemas

  /** The column attributes of `User`. */
  const USER_COLUMNS: set<string> :=
    {"id", "email", "phone_number", "password", "first_name", "last_name", "registration_at", "photo"}

  /** The name of the one attribute `update_user` never writes. */
  const PASSWORD := "password"

  type UserRow = map<string, Json>

  /** The value of attribute `c`, NULL when the row lacks it. */
  function Attr(row: UserRow, c: string): Json {
    if c in row then row[c] else JNull
  }

  /** A stored user: every column present, the id column equal to its key and
      an e-mail (NOT NULL). */
  predicate WellFormed(key: int, row: UserRow) {
    row.Keys == USER_COLUMNS && row["id"] == JNumber(key) && row["email"] != JNull
  }

  /** Some user other than `except` holds e-mail `email`. */
  predicate EmailTaken(users: map<int, UserRow>, except: int, email: Json) {
    exists k :: k in users && k != except && Attr(users[k], "email") == email
  }

  ghost predicate TableValid(users: map<int, UserRow>) {
    && (forall k :: k in users ==> WellFormed(k, users[k]))
    && (forall k :: k in users ==> !EmailTaken(users, k, Attr(users[k], "email")))
  }

  /** A well-formed row under a new key, with an e-mail no user holds,
      keeps the table valid. */
  lemma InsertKeepsTableValid(users: map<int, UserRow>, id: int, row: UserRow)
    requires TableValid(users) && id !in users && WellFormed(id, row)
    requires forall k :: k in users ==> Attr(users[k], "email") != Attr(row, "email")
    ensures TableValid(users[id := row])
  {
    var users' := users[id := row];
    forall k | k in users' ensures !EmailTaken(users', k, Attr(users'[k], "email")) {
      if k != id {
        assert !EmailTaken(users, k, Attr(users[k], "email"));
      }
    }
  }

  /** A row under a new key adds one user. */
  lemma InsertAddsOne(users: map<int, UserRow>, id: int, row: UserRow)
    requires id !in users
    ensures |users[id := row].Keys| == |users.Keys| + 1
  {
    assert users[id := row].Keys == users.Keys + {id};
  }

  /** The row `add_user` inserts. */
  function NewUserRow(id: int, user: UserRegister, passwordHash: string, registeredAt: Json): (row: UserRow)
    ensures WellFormed(id, row)
    ensures row["email"] == JString(user.email) && row["password"] == JString(passwordHash)
    ensures row["phone_number"] == JString(user.phoneNumber)
    ensures row["first_name"] == JString(user.firstName) && row["last_name"] == JString(user.lastName)
    ensures row["photo"] == JNull && row["registration_at"] == registeredAt
  {
    map[
      "id" := JNumber(id), "email" := JString(user.email), "phone_number" := JString(user.phoneNumber),
      "password" := JString(passwordHash), "first_name" := JString(user.firstName),
      "last_name" := JString(user.lastName), "registration_at" := registeredAt, "photo" := JNull]
  }

  /** `hasattr(user, key) and key != "password"`, over the eight column
      attributes. The relationship `created_trainings` and the attributes
      every mapped class inherits are not part of this model. */
  predicate Settable(key: string) {
    key in USER_COLUMNS && key != PASSWORD
  }

  /** The `setattr` loop of `update_user`: each item whose key is a settable
      attribute overwrites it, in item order; any other item is skipped. */
  function ApplyUserData(row: UserRow, items: seq<(string, Json)>): (r: UserRow)
    ensures row.Keys <= r.Keys
    ensures forall key :: key in r && !Settable(key) ==> key in row && r[key] == row[key]
    decreases |items|
  {
    if items == [] then row
    else
      var (key, value) := items[0];
      ApplyUserData(if Settable(key) then row[key := value] else row, items[1..])
  }

  /** The value the last item for `key` carries, if any item names it. */
  function LastValueFor(items: seq<(string, Json)>, key: string): Option<Json>
    decreases |items|
  {
    if items == [] then None
    else
      match LastValueFor(items[1..], key)
      case Some(v) => Some(v)
      case None => if items[0].0 == key then Some(items[0].1) else None
  }

  /** The attributes some item of the request sets. */
  function SettableKeys(items: seq<(string, Json)>): set<string> {
    set i | 0 <= i < |items| && Settable(items[i].0) :: items[i].0
  }

  lemma SettableKeysFirst(items: seq<(string, Json)>)
    requires items != []
    ensures SettableKeys(items) == (if Settable(items[0].0) then {items[0].0} else {}) + SettableKeys(items[1..])
  {
    var rest := items[1..];
    forall x | x in SettableKeys(items) ensures x in (if Settable(items[0].0) then {items[0].0} else {}) + SettableKeys(rest) {
      var i :| 0 <= i < |items| && Settable(items[i].0) && items[i].0 == x;
      if i > 0 {
        assert rest[i - 1] == items[i];
      }
    }
    forall x | x in SettableKeys(rest) ensures x in SettableKeys(items) {
      var i :| 0 <= i < |rest| && Settable(rest[i].0) && rest[i].0 == x;
      assert items[i + 1] == rest[i];
    }
  }

  /** After the loop, each settable attribute holds the last value sent for it
      and every other attribute, the password above all, is unchanged. */
  lemma {:induction false} ApplyUserDataEffect(row: UserRow, items: seq<(string, Json)>)
    ensures ApplyUserData(row, items).Keys == row.Keys + SettableKeys(items)
    ensures forall key :: key in row && !Settable(key) ==> ApplyUserData(row, items)[key] == row[key]
    ensures forall key :: key in row && Settable(key) && LastValueFor(items, key).Some? ==>
              ApplyUserData(row, items)[key] == LastValueFor(items, key).value
    ensures forall key :: key in row && LastValueFor(items, key).None? ==> ApplyUserData(row, items)[key] == row[key]
    decreases |items|
  {
    if items != [] {
      var (key, value) := items[0];
      var row' := if Settable(key) then row[key := value] else row;
      ApplyUserDataEffect(row', items[1..]);
      SettableKeysFirst(items);
    }
  }

  /** An item whose key is not a settable attribute changes nothing, wherever
      it stands in the request. */
  lemma {:induction false} UnsettableItemIgnored(row: UserRow, items: seq<(string, Json)>, i: nat, key: string, value: Json)
    requires i <= |items| && !Settable(key)
    ensures ApplyUserData(row, items[..i] + [(key, value)] + items[i..]) == ApplyUserData(row, items)
    decreases i
  {
    var withItem := items[..i] + [(key, value)] + items[i..];
    if i == 0 {
      assert withItem[0] == (key, value) && withItem[1..] == items;
    } else {
      var (k0, v0) := items[0];
      var row' := if Settable(k0) then row[k0 := v0] else row;
      UnsettableItemIgnored(row', items[1..], i - 1, key, value);
      assert withItem[0] == items[0];
      assert withItem[1..] == items[1..][..i - 1] + [(key, value)] + items[1..][i - 1..];
    }
  }

  /** `update_user` never writes the password, whatever the request holds. */
  lemma UpdateKeepsPassword(row: UserRow, items: seq<(string, Json)>)
    ensures Attr(ApplyUserData(row, items), PASSWORD) == Attr(row, PASSWORD)
  {
    ApplyUserDataEffect(row, items);
    assert PASSWORD !in SettableKeys(items);
  }

  class UserRepository {
    var users: map<int, UserRow>
    /** Next value of the `users.id` sequence. */
    var nextId: int

    ghost predicate Valid()
      reads this
    {
      TableValid(users)
    }

    constructor(users: map<int, UserRow>, nextId: int)
      requires TableValid(users)
      ensures Valid() && this.users == users && this.nextId == nextId
    {
      this.users := users;
      this.nextId := nextId;
    }

    /** `find_one_or_none`: the user with that e-mail; the UNIQUE constraint
        makes `scalar_one_or_none` see at most one row. */
    function FindOneOrNone(email: string): (r: Option<int>)
      reads this
      requires Valid()
      ensures r.Some? ==> r.value in users && Attr(users[r.value], "email") == JString(email)
      ensures r.None? ==> forall k :: k in users ==> Attr(users[k], "email") != JString(email)
    {
      if exists k :: k in users && Attr(users[k], "email") == JString(email) then
        var k :| k in users && Attr(users[k], "email") == JString(email);
        Some(k)
      else None
    }

    /** `get_by_id`. */
    function GetById(id: int): (r: Option<UserRow>)
      reads this
      ensures r.Some? <==> id in users
      ensures r.Some? ==> r.value == users[id]
    {
      if id in users then Some(users[id]) else None
    }

    /** `count_users`. */
    function CountUsers(): (n: nat)
      reads this
      ensures n == |users.Keys|
    {
      |users.Keys|
    }

    /** `add_user`: false and no change when the e-mail is registered;
        otherwise one new user under the next sequence value, with the hashed
        password. The INSERT is refused (IntegrityError) only when that value
        is already someone's id. */
    method AddUser(user: UserRegister, passwordHash: string, registeredAt: Json) returns (r: Result<bool>)
      requires Valid()
      modifies this
      ensures Valid()
      ensures r == Ok(false) <==> old(FindOneOrNone(user.email)).Some?
      ensures r.Ok? && !r.value ==> nextId == old(nextId)
      ensures r != Ok(true) ==> users == old(users)
      ensures r.Err? ==> r.error == IntegrityError && old(nextId) in old(users)
      ensures r == Ok(true) ==>
                && old(nextId) !in old(users) && nextId == old(nextId) + 1
                && users == old(users)[old(nextId) := NewUserRow(old(nextId), user, passwordHash, registeredAt)]
                && CountUsers() == old(CountUsers()) + 1
    {
      if FindOneOrNone(user.email).Some? {
        return Ok(false);
      }
      var id := nextId;
      nextId := nextId + 1;
      if id in users {
        return Err(IntegrityError);
      }
      var row := NewUserRow(id, user, passwordHash, registeredAt);
      InsertKeepsTableValid(users, id, row);
      InsertAddsOne(users, id, row);
      users := users[id := row];
      r := Ok(true);
    }

    /** `update_user`: None for an unknown id; otherwise the `setattr` loop
        over the items, then COMMIT. The commit is refused (IntegrityError,
        table unchanged) when the new row takes another user's id or e-mail
        or clears the e-mail; an id that is not an integer is a database
        error. Writing `id` moves the user to that key. */
    method UpdateUser(id: int, items: seq<(string, Json)>) returns (r: Result<Option<UserRow>>)
      requires Valid()
      modifies this
      ensures Valid() && nextId == old(nextId)
      ensures id !in old(users) <==> r == Ok(None)
      ensures !r.Ok? || r.value.None? ==> users == old(users)
      ensures id in old(users) ==>
                var row := ApplyUserData(old(users)[id], items);
                && (r.Ok? <==> && Attr(row, "id").JNumber?
                               && (Attr(row, "id").n == id || Attr(row, "id").n !in old(users))
                               && Attr(row, "email") != JNull
                               && !EmailTaken(old(users) - {id}, Attr(row, "id").n, Attr(row, "email")))
                && (r.Err? && Attr(row, "id").JNumber? ==> r.error == IntegrityError)
                && (r.Ok? ==> r == Ok(Some(row)) && users == (old(users) - {id})[Attr(row, "id").n := row])
    {
      if id !in users {
        return Ok(None);
      }
      var row := users[id];
      var i := 0;
      while i < |items|
        invariant 0 <= i <= |items|
        invariant ApplyUserData(row, items[i..]) == ApplyUserData(users[id], items)
        invariant row.Keys == USER_COLUMNS
      {
        assert items[i..][0] == items[i] && items[i..][1..] == items[i + 1..];
        var (key, value) := items[i];
        if Settable(key) {
          row := row[key := value];
        }
        i := i + 1;
      }
      assert items[i..] == [];
      var rest := users - {id};
      if !Attr(row, "id").JNumber? {
        return Err(RuntimeFailure);
      }
      var newId := Attr(row, "id").n;
      if newId in rest || Attr(row, "email") == JNull || EmailTaken(rest, newId, Attr(row, "email")) {
        return Err(IntegrityError);
      }
      users := rest[newId := row];
      r := Ok(Some(row));
    }

    /** `change_password`: false for an unknown id; otherwise only the
        password changes, to the hash of the new one. */
    method ChangePassword(id: int, passwordHash: string) returns (found: bool)
      requires Valid()
      modifies this
      ensures Valid() && nextId == old(nextId)
      ensures found <==> id in old(users)
      ensures !found ==> users == old(users)
      ensures found ==> users == old(users)[id := old(users)[id][PASSWORD := JString(passwordHash)]]
    {
      if id !in users {
        return false;
      }
      var row := users[id][PASSWORD := JString(passwordHash)];
      users := users[id := row];
      found := true;
    }

    /** `delete_user`: false for an unknown id; otherwise exactly that user is
        removed. */
    method DeleteUser(id: int) returns (found: bool)
      requires Valid()
      modifies this
      ensures Valid() && nextId == old(nextId)
      ensures found <==> id in old(users)
      ensures users == old(users) - {id}
      ensures found ==> CountUsers() == old(CountUsers()) - 1
    {
      found := id in users;
      users := users - {id};
    }
  }
}
