/** `POST /reset-password`: overwrite the password of the account with the
    given email. The route authenticates nobody: the email and a new password
    of at least six UTF-16 code units are all it asks for.

    As in the registration route, `body` is `None` when `request.json()` throws
    and `connected` is false when `connectToDatabase()` throws. */
module ResetPasswordRoute {
  import opened Outcomes
  import opened Text
  import opened Hashing
  import opened UserModel
  import opened Http

  datatype ResetBody = ResetBody(email: Option<string>, newPassword: Option<string>)

  /** The 200 body: a message and the stored email of the updated account. */
  datatype PasswordUpdated = PasswordUpdated(message: string, userEmail: string)

  const Failed: Reply<PasswordUpdated> := Reply(500, ErrorMessage("Failed to reset password"))

  /** The record a successful reset leaves for account `a`: assigning `p`
      marks the password modified only when it differs from the stored value,
      and only a modified document is hashed and stamped. */
  function ResetRecord(a: Account, p: string, now: int): (r: Account)
    ensures r.id == a.id && r.email == a.email && r.createdAt == a.createdAt
    ensures p != a.password ==> r.password == Hash(p, BcryptCost) && r.updatedAt == now
    ensures p == a.password ==> r == a
  {
    a.(password := StoredPassword(p, p != a.password), updatedAt := if p != a.password then now else a.updatedAt)
  }

  /** The route handler. */
  method ResetPassword(users: UserCollection, body: Option<ResetBody>, connected: bool, now: int)
    returns (reply: Reply<PasswordUpdated>)
    requires users.Valid()
    modifies users
    ensures users.Valid()
    ensures body.None? ==> reply == Failed && users.accounts == old(users.accounts)
    ensures body.Some? && (IsFalsy(body.value.email) || IsFalsy(body.value.newPassword)) ==>
              reply == Reply(400, ErrorMessage("Email and new password required"))
              && users.accounts == old(users.accounts)
    ensures body.Some? && !IsFalsy(body.value.email) && !IsFalsy(body.value.newPassword)
            && Utf16Length(body.value.newPassword.value) < MinPasswordLength ==>
              reply == Reply(400, ErrorMessage("Password must be at least 6 characters"))
              && users.accounts == old(users.accounts)
    ensures body.Some? && !IsFalsy(body.value.email) && !IsFalsy(body.value.newPassword)
            && Utf16Length(body.value.newPassword.value) >= MinPasswordLength ==>
              var email := Normalize(body.value.email.value);
              var p := body.value.newPassword.value;
              if !connected then
                reply == Failed && users.accounts == old(users.accounts)
              else if email !in old(users.accounts) then
                reply == Reply(404, ErrorMessage("User not found")) && users.accounts == old(users.accounts)
              else
                var a := old(users.accounts)[email];
                && reply == Reply(200, Json(PasswordUpdated("Password updated successfully", email)))
                && users.accounts == old(users.accounts)[email := ResetRecord(a, p, now)]
  {
    if body.None? {
      return Failed;
    }
    var email, newPassword := body.value.email, body.value.newPassword;
    if IsFalsy(email) || IsFalsy(newPassword) {
      return Reply(400, ErrorMessage("Email and new password required"));
    }
    if Utf16Length(newPassword.value) < MinPasswordLength {
      return Reply(400, ErrorMessage("Password must be at least 6 characters"));
    }
    if !connected {
      return Failed;
    }
    var normalizedEmail := Normalize(email.value);
    var found := users.FindOne(normalizedEmail);
    if found.None? {
      return Reply(404, ErrorMessage("User not found"));
    }
    var user := new UserDocument.Hydrate(found.value);
    user.SetPassword(newPassword.value);
    var saved := users.Save(user, now);
    if saved.Err? {
      return Failed;
    }
    reply := Reply(200, Json(PasswordUpdated("Password updated successfully", user.email)));
  }

  /** What a 200 from the reset leaves in the store (`ResetRecord`). When the
      new password differs from the stored value, the stored value is a digest
      that verifies exactly the passwords agreeing with the new one on the
      bytes bcrypt reads. When it equals the stored value (the account's own
      digest, sent back), nothing is modified, the hook does not run, and the
      password sent does not verify against what stays stored, although the
      route reports success. */
  lemma {:induction false} ResetPasswordVerifies(a: Account, p: string, now: int, other: string)
    ensures p != a.password ==>
              && IsDigest(ResetRecord(a, p, now).password)
              && Verify(p, ResetRecord(a, p, now).password)
              && (Verify(other, ResetRecord(a, p, now).password) <==> BcryptInput(other) == BcryptInput(p))
    ensures p == a.password && |Utf8(p)| <= MaxInputBytes ==>
              ResetRecord(a, p, now).password == p && !Verify(p, ResetRecord(a, p, now).password)
  {
    VerifyHash(p, BcryptCost);
    VerifyOnlyOwnSecret(p, other, BcryptCost);
    if p == a.password && |Utf8(p)| <= MaxInputBytes && IsDigest(p) {
      DigestDoesNotVerifyItself(p);
    }
  }
}
