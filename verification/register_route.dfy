/** `POST /api/auth/register`: the validation chain, the duplicate check on the
    normalised email, the insert, and the response shapes.

    The request body and the database connection are inputs: `body` is `None`
    when `request.json()` throws, and `connected` is false when
    `connectToDatabase()` throws. Either lands in the route's `catch`. */
module RegisterRoute {
  import opened Outcomes
  import opened Text
  import opened EmailFormat
  import opened UserModel
  import opened Http
  import opened Auth

  /** The fields the route reads from the JSON body. */
  datatype RegisterBody = RegisterBody(email: Option<string>, password: Option<string>)

  /** The `user` object in the 201 body: only the id string and the stored
      email. */
  datatype Registered = Registered(message: string, id: string, email: string)

  /** The checks before any store access, in the route's order:
      missing fields, then the email pattern on the normalised email, then the
      password's `length` in UTF-16 code units. On success, the normalised
      email and the password. */
  function CheckRegistration(body: RegisterBody): (r: Result<(string, string), Reply<Registered>>)
    ensures r.Err? ==> r.error.status == 400 && r.error.payload.ErrorMessage?
    ensures IsFalsy(body.email) || IsFalsy(body.password) ==>
              r == Err(Reply(400, ErrorMessage("Email and password are required")))
    ensures !IsFalsy(body.email) && !IsFalsy(body.password) && !IsValidEmail(Normalize(body.email.value)) ==>
              r == Err(Reply(400, ErrorMessage("Invalid email format")))
    ensures && !IsFalsy(body.email) && !IsFalsy(body.password) && IsValidEmail(Normalize(body.email.value))
            && Utf16Length(body.password.value) < MinPasswordLength ==>
              r == Err(Reply(400, ErrorMessage("Password must be at least 6 characters long")))
    ensures r.Ok? <==> && !IsFalsy(body.email) && !IsFalsy(body.password)
                       && MatchesEmailPattern(Normalize(body.email.value))
                       && Utf16Length(body.password.value) >= MinPasswordLength
    ensures r.Ok? ==> r.value == (Normalize(body.email.value), body.password.value)
  {
    IsValidEmailCorrect(Normalize(body.email.GetOr("")));
    if IsFalsy(body.email) || IsFalsy(body.password) then
      Err(Reply(400, ErrorMessage("Email and password are required")))
    else
      var normalizedEmail := Normalize(body.email.value);
      if !IsValidEmail(normalizedEmail) then
        Err(Reply(400, ErrorMessage("Invalid email format")))
      else if Utf16Length(body.password.value) < MinPasswordLength then
        Err(Reply(400, ErrorMessage("Password must be at least 6 characters long")))
      else
        Ok((normalizedEmail, body.password.value))
  }

  /** The 500 reply of the route's `catch`. */
  const Failed: Reply<Registered> := Reply(500, ErrorMessage("Failed to register user"))

  /** The route handler. */
  method Register(users: UserCollection, body: Option<RegisterBody>, connected: bool, now: int)
    returns (reply: Reply<Registered>)
    requires users.Valid()
    modifies users
    ensures users.Valid()
    ensures body.None? ==> reply == Failed && users.accounts == old(users.accounts)
    ensures body.Some? && CheckRegistration(body.value).Err? ==>
              reply == CheckRegistration(body.value).error && users.accounts == old(users.accounts)
    ensures body.Some? && CheckRegistration(body.value).Ok? && !connected ==>
              reply == Failed && users.accounts == old(users.accounts)
    ensures body.Some? && CheckRegistration(body.value).Ok? && connected ==>
              var (email, password) := CheckRegistration(body.value).value;
              if email in old(users.accounts) then
                reply == Reply(409, ErrorMessage("User already registered")) && users.accounts == old(users.accounts)
              else
                var account := Account(old(users.nextId), email, Hashing.Hash(password, Hashing.BcryptCost), now, now);
                && reply == Reply(201, Json(Registered("User registered successfully", IdString(account.id), email)))
                && users.accounts == old(users.accounts)[email := account]
  {
    if body.None? {
      return Failed;
    }
    var checked := CheckRegistration(body.value);
    if checked.Err? {
      return checked.error;
    }
    var (normalizedEmail, password) := checked.value;
    if !connected {
      return Failed;
    }
    var existing := users.FindOne(normalizedEmail);
    if existing.Some? {
      return Reply(409, ErrorMessage("User already registered"));
    }
    var created := users.Create(normalizedEmail, password, now);
    NormalizeIdempotent(body.value.email.value);
    if created.Err? {
      return Failed;
    }
    reply := Reply(201, Json(Registered("User registered successfully", IdString(created.value.id), created.value.email)));
  }

  /** Case and surrounding whitespace do not make a new account: two emails
      with the same normal form pass or fail the checks together and reach the
      store under the same key, so the second registration gets the 409. */
  lemma VariantsCollide(e1: string, e2: string, password: string)
    requires Normalize(e1) == Normalize(e2) && e1 != "" && e2 != ""
    ensures var r1 := CheckRegistration(RegisterBody(Some(e1), Some(password)));
            var r2 := CheckRegistration(RegisterBody(Some(e2), Some(password)));
            r1.Ok? == r2.Ok? && (r1.Ok? ==> r1.value == r2.value)
  {
  }
}
