/** The user request and response records (`backend_archive/schemas/users.py`):
    field length bounds and the phone-number validator. */
module UserSchemas {
  import opened Common

  const MIN_NAME_LENGTH := 3
  const MAX_NAME_LENGTH := 50
  const MIN_PASSWORD_LENGTH := 5
  const MAX_PASSWORD_LENGTH := 100
  /** The repetition bounds of the phone pattern `\d{5,15}`. */
  const MIN_PHONE_DIGITS := 5
  const MAX_PHONE_DIGITS := 15

  /** `UserRegister`: `User`'s fields plus the password. */
  datatype UserRegister = UserRegister(
    email: string,
    phoneNumber: string,
    firstName: string,
    lastName: string,
    password: string)

  /** `UserResponse`: `User`'s fields plus the integer id. */
  datatype UserResponse = UserResponse(
    id: int,
    email: string,
    phoneNumber: string,
    firstName: string,
    lastName: string)

  predicate ValidName(s: string) {
    MIN_NAME_LENGTH <= |s| <= MAX_NAME_LENGTH
  }

  predicate ValidPassword(s: string) {
    MIN_PASSWORD_LENGTH <= |s| <= MAX_PASSWORD_LENGTH
  }

  /** `re.match(r"\d{5,15}", value)` succeeds: some run of 5 to 15 digits
      starts the string. `re.match` anchors only at the start, so whatever
      follows the run is not looked at. */
  ghost predicate PatternMatchesAtStart(value: string) {
    exists n :: MIN_PHONE_DIGITS <= n <= MAX_PHONE_DIGITS && n <= |value| && IsDigits(value[..n])
  }

  /** `validate_phone_number`: the value unchanged when it starts with five
      digits, a validation error (422) otherwise. */
  function ValidatePhoneNumber(value: string): (r: Result<string>)
    ensures r.Ok? <==> PatternMatchesAtStart(value)
    ensures r.Ok? ==> r.value == value
    ensures r.Err? ==> r.error == HttpError(UNPROCESSABLE)
  {
    if |value| >= MIN_PHONE_DIGITS && IsDigits(value[..MIN_PHONE_DIGITS]) then
      Ok(value)
    else
      assert !PatternMatchesAtStart(value) by {
        if n :| MIN_PHONE_DIGITS <= n <= MAX_PHONE_DIGITS && n <= |value| && IsDigits(value[..n]) {
          assert value[..MIN_PHONE_DIGITS] == value[..n][..MIN_PHONE_DIGITS];
        }
      }
      Err(HttpError(UNPROCESSABLE))
  }

  /** The validator looks only at the first five characters: anything may
      follow them, and a run longer than fifteen digits passes too. */
  lemma PhoneCheckReadsFivePrefix(value: string, rest: string)
    requires ValidatePhoneNumber(value).Ok?
    ensures ValidatePhoneNumber(value + rest).Ok?
  {
    assert (value + rest)[..MIN_PHONE_DIGITS] == value[..MIN_PHONE_DIGITS];
  }

  /** A number in international notation, with its leading '+', is refused. */
  lemma PhoneCheckRefusesPlus(value: string)
    requires |value| > 0 && value[0] == '+'
    ensures ValidatePhoneNumber(value).Err?
  {
    assert !IsAsciiDigit(value[0]);
    if |value| >= MIN_PHONE_DIGITS {
      assert value[..MIN_PHONE_DIGITS][0] == '+';
    }
  }

  /** Validation of a `UserRegister` payload: both names of 3 to 50
      characters, a password of 5 to 100 characters and a phone number the
      validator accepts; anything else is a validation error (422). The
      e-mail check of `EmailStr` is outside the model. */
  function ValidateUserRegister(u: UserRegister): (r: Result<UserRegister>)
    ensures r.Ok? <==> && ValidName(u.firstName) && ValidName(u.lastName)
                       && ValidPassword(u.password) && PatternMatchesAtStart(u.phoneNumber)
    ensures r.Ok? ==> r.value == u
    ensures r.Err? ==> r.error == HttpError(UNPROCESSABLE)
  {
    if ValidName(u.firstName) && ValidName(u.lastName) && ValidPassword(u.password)
       && ValidatePhoneNumber(u.phoneNumber).Ok?
    then Ok(u)
    else Err(HttpError(UNPROCESSABLE))
  }

  /** A registration giving the phone number in international notation is
      refused, whatever its other fields. */
  lemma InternationalNumberRefused(u: UserRegister)
    requires |u.phoneNumber| > 0 && u.phoneNumber[0] == '+'
    ensures ValidateUserRegister(u).Err?
  {
    PhoneCheckRefusesPlus(u.phoneNumber);
  }
}
