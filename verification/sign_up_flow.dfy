/** Registration followed by sign-in: what `POST /api/auth/register` stores is
    exactly what the credentials `authorize` of lib/auth.ts accepts. */
module SignUpFlow {
  import opened Outcomes
  import opened Text
  import opened Hashing
  import opened UserModel
  import opened Http
  import opened RegisterRoute
  import opened Auth
  import opened LoginPage

  /** Register `email` / `password`, then sign in as the login page would,
      with `email2` / `password2`. After a 201, a sign-in under an email with
      the same normal form succeeds exactly when `password2` agrees with the
      registered password on the 72 bytes bcrypt reads (see `BcryptInput`)
      and is not empty, and it yields the new account's id and email. */
  method RegisterThenSignIn(users: UserCollection, email: string, password: string,
                            email2: string, password2: string, now: int)
    returns (reply: Reply<Registered>, signedIn: Option<AuthUser>)
    requires users.Valid()
    modifies users
    ensures users.Valid()
    ensures reply.status == 201 <==>
              CheckRegistration(RegisterBody(Some(email), Some(password))).Ok?
              && Normalize(email) !in old(users.accounts)
    ensures reply.status == 201 && Normalize(email2) == Normalize(email)
            && password2 != "" && BcryptInput(password2) == BcryptInput(password) ==>
              signedIn == Some(AuthUser(IdString(old(users.nextId)), Normalize(email)))
    ensures reply.status == 201 && Normalize(email2) == Normalize(email) && BcryptInput(password2) != BcryptInput(password) ==>
              signedIn.None?
    ensures password2 == "" ==> signedIn.None?
    ensures reply.status == 201 && Normalize(email2) != Normalize(email) && Normalize(email2) !in old(users.accounts) ==>
              signedIn.None?
  {
    reply := Register(users, Some(RegisterBody(Some(email), Some(password))), true, now);
    var sent := Credentials(Some(Normalize(email2)), Some(password2));
    signedIn := Authorize(users.accounts, Some(sent), true);
    if reply.status == 201 {
      var key := Normalize(email);
      LoginNormalisationAgrees(users.accounts, users.nextId, email2, password2, true);
      if Normalize(email2) == key {
        if password2 != "" && BcryptInput(password2) == BcryptInput(password) {
          AuthorizeAcceptsStoredPassword(users.accounts, users.nextId, email2, password, password2);
        } else if BcryptInput(password2) != BcryptInput(password) {
          AuthorizeRejectsOtherPassword(users.accounts, email2, password, password2);
        }
      }
    }
  }
}
