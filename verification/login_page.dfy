/** The login page (app/login/page.tsx): the submit handler that sends the
    normalised credentials to `signIn("credentials", …)`, decides whether the
    sign-in succeeded, and turns a failure into the message the page shows.

    What `signIn` resolved to (or that it threw) is an input of the submit.
    The router is modelled by the list of paths pushed onto it. */
module LoginPage {
  import opened Outcomes
  import opened Text
  import opened UserModel
  import opened Auth

  /** The object `signIn(…, { redirect: false })` resolves to, as far as the
      page reads it. */
  datatype SignInResult = SignInResult(ok: bool, error: Option<string>)

  /** How the awaited `signIn` call ended: it threw, or it resolved to a result
      that may be `undefined`. */
  datatype SignInOutcome = Threw | Resolved(result: Option<SignInResult>)

  const ConnectionIssueMessage := "Database connection issue. Please try again."
  const InvalidCredentialsMessage := "Invalid email or password"
  const NoAccountMessage := "No account found with this email"
  const IncorrectPasswordMessage := "Incorrect password"
  const CheckCredentialsMessage := "Login failed. Please check your credentials."
  const TryAgainMessage := "Login failed. Please try again."
  const SomethingWentWrongMessage := "Something went wrong. Please try again."

  /** `result?.ok && !result?.error`. */
  predicate Succeeded(result: Option<SignInResult>) {
    result.Some? && result.value.ok && IsFalsy(result.value.error)
  }

  /** The message for a truthy `result.error`, checked in the page's order:
      a TLS or reset connection first, then the exact next-auth code, then the
      two substrings, then the catch-all. */
  function ErrorMessageFor(error: string): (m: string)
    ensures m == ConnectionIssueMessage <==> Contains(error, "SSL") || Contains(error, "ECONNRESET")
    ensures m == InvalidCredentialsMessage <==>
              !(Contains(error, "SSL") || Contains(error, "ECONNRESET")) && error == "CredentialsSignin"
    ensures m == NoAccountMessage <==>
              && !(Contains(error, "SSL") || Contains(error, "ECONNRESET")) && error != "CredentialsSignin"
              && Contains(error, "No user found")
    ensures m == IncorrectPasswordMessage <==>
              && !(Contains(error, "SSL") || Contains(error, "ECONNRESET")) && error != "CredentialsSignin"
              && !Contains(error, "No user found") && Contains(error, "Invalid password")
    ensures && !(Contains(error, "SSL") || Contains(error, "ECONNRESET")) && error != "CredentialsSignin"
            && !Contains(error, "No user found") && !Contains(error, "Invalid password") ==>
              m == CheckCredentialsMessage
  {
    if Contains(error, "SSL") || Contains(error, "ECONNRESET") then ConnectionIssueMessage
    else if error == "CredentialsSignin" then InvalidCredentialsMessage
    else if Contains(error, "No user found") then NoAccountMessage
    else if Contains(error, "Invalid password") then IncorrectPasswordMessage
    else CheckCredentialsMessage
  }

  /** The error the page shows after a submit: none exactly on success; the
      generic message when `signIn` threw; the mapped message for a truthy
      `result.error`; "try again" for a failure without one. */
  function SubmitError(outcome: SignInOutcome): (m: string)
    ensures m == "" <==> outcome.Resolved? && Succeeded(outcome.result)
    ensures outcome.Threw? ==> m == SomethingWentWrongMessage
    ensures outcome.Resolved? && !Succeeded(outcome.result) ==>
              if outcome.result.Some? && !IsFalsy(outcome.result.value.error)
              then m == ErrorMessageFor(outcome.result.value.error.value)
              else m == TryAgainMessage
  {
    match outcome
    case Threw => SomethingWentWrongMessage
    case Resolved(result) =>
      if Succeeded(result) then ""
      else if result.Some? && !IsFalsy(result.value.error) then ErrorMessageFor(result.value.error.value)
      else TryAgainMessage
  }

  /** A connection problem is reported as such even when the error also
      names a missing user or a wrong password. */
  lemma {:induction false} ConnectionIssueTakesPrecedence(before: string, after: string)
    ensures ErrorMessageFor(before + "SSL" + after) == ConnectionIssueMessage
  {
    ContainsInfix(before, "SSL", after);
  }

  /** An `authorize` that returned `null` reaches the page as the error code
      "CredentialsSignin", which is shown as the generic credentials message
      whatever `ok` says: the page does not tell an unknown email from a
      wrong password. */
  lemma {:induction false} RejectedSignInShowsInvalidCredentials(ok: bool, code: string)
    requires code == "CredentialsSignin"
    ensures SubmitError(Resolved(Some(SignInResult(ok, Some(code))))) == InvalidCredentialsMessage
  {
    // the code has no upper-case 'L' and no 'E'
    MissingCharNotContained(code, "SSL", 'L');
    MissingCharNotContained(code, "ECONNRESET", 'E');
  }

  /** Normalising on the page changes nothing for `authorize`, which
      normalises again: the page's credentials and the raw ones are accepted
      or refused alike. */
  lemma {:induction false} LoginNormalisationAgrees(
    accounts: map<string, Account>, nextId: nat, email: string, password: string, connected: bool)
    requires ValidAccounts(accounts, nextId)
    ensures Authorize(accounts, Some(Credentials(Some(Normalize(email)), Some(password))), connected)
            == Authorize(accounts, Some(Credentials(Some(email), Some(password))), connected)
  {
    NormalizeIdempotent(email);
    // every stored key is a non-empty email
    assert "" !in accounts;
  }

  /** The page's state. */
  class Login {
    var email: string
    var password: string
    var isLoading: bool
    var error: string
    /** The paths pushed onto the router, in order. */
    var pushed: seq<string>

    constructor ()
      ensures email == "" && password == "" && !isLoading && error == "" && pushed == []
    {
      email, password := "", "";
      isLoading, error := false, "";
      pushed := [];
    }

    /** The redirect effect: once the session is known and present, go home. */
    method SessionEffect(loading: bool, signedIn: bool)
      modifies this`pushed
      ensures pushed == old(pushed) + if !loading && signedIn then ["/"] else []
    {
      if loading {
        return;
      }
      if signedIn {
        pushed := pushed + ["/"];
      }
    }

    /** `handleSubmit`. Returns the credentials handed to `signIn`: the
        trimmed, lower-cased email and the password as typed. Afterwards the
        page is not loading, shows `SubmitError(outcome)`, and has gone home
        exactly on success. */
    method HandleSubmit(outcome: SignInOutcome) returns (sent: Credentials)
      modifies this`isLoading, this`error, this`pushed
      ensures sent == Credentials(Some(Normalize(email)), Some(password))
      ensures !isLoading
      ensures error == SubmitError(outcome)
      ensures pushed == old(pushed) + if outcome.Resolved? && Succeeded(outcome.result) then ["/"] else []
    {
      isLoading := true;
      error := "";
      sent := Credentials(Some(ToLower(Trim(email))), Some(password));
      match outcome {
        case Threw =>
          error := SomethingWentWrongMessage;
        case Resolved(result) =>
          if result.Some? && result.value.ok && IsFalsy(result.value.error) {
            pushed := pushed + ["/"];
          } else if result.Some? && !IsFalsy(result.value.error) {
            error := ErrorMessageFor(result.value.error.value);
          } else {
            error := TryAgainMessage;
          }
      }
      isLoading := false;
    }
  }
}
