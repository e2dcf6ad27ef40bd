/** The next-auth configuration (lib/auth.ts): the credentials `authorize`
    decision, the `jwt` and `session` callbacks that carry the identity into
    the token and the session, the `redirect` rule, and the session lifetime.

    `authorize` is a pure decision over the stored accounts: it writes
    nothing. Its database connection is an input (`connected`), and every
    thrown error, like every rejection, ends in `null` (here `None`). */
module Auth {
  import opened Outcomes
  import opened Text
  import opened Hashing
  import opened UserModel

  /** `session.maxAge`: thirty days, in seconds. */
  const SessionMaxAge: nat := 30 * 24 * 60 * 60

  /** The `credentials` argument; either field may be missing. */
  datatype Credentials = Credentials(email: Option<string>, password: Option<string>)

  /** What `authorize` returns on success: the id string and the stored email,
      and nothing else. */
  datatype AuthUser = AuthUser(id: string, email: string)

  predicate IsHexDigit(c: char) {
    '0' <= c <= '9' || 'a' <= c <= 'f'
  }

  /** The lower-case hexadecimal digit for `d`. */
  function HexDigit(d: nat): (c: char)
    requires d < 16
    ensures IsHexDigit(c)
  {
    if d < 10 then ('0' as int + d) as char else ('a' as int + d - 10) as char
  }

  /** The value of one hexadecimal digit. */
  function HexDigitValue(c: char): (d: nat)
    requires IsHexDigit(c)
    ensures d < 16
  {
    if c <= '9' then c as int - '0' as int else c as int - 'a' as int + 10
  }

  /** The number a string of hexadecimal digits denotes. */
  function HexValue(s: string): nat
    requires forall i :: 0 <= i < |s| ==> IsHexDigit(s[i])
  {
    if s == [] then 0 else HexValue(s[..|s| - 1]) * 16 + HexDigitValue(s[|s| - 1])
  }

  /** `_id.toString()`: the id in lower-case hexadecimal. */
  function IdString(id: nat): (s: string)
    ensures |s| > 0
    ensures forall i :: 0 <= i < |s| ==> IsHexDigit(s[i])
  {
    if id < 16 then [HexDigit(id)] else IdString(id / 16) + [HexDigit(id % 16)]
  }

  /** The id string reads back as the id it was made from. */
  lemma {:induction false} IdStringReadsBack(id: nat)
    ensures HexValue(IdString(id)) == id
  {
    var s := IdString(id);
    if id >= 16 {
      IdStringReadsBack(id / 16);
      assert s[..|s| - 1] == IdString(id / 16);
    }
  }

  /** Different accounts get different id strings, so the `id` claim names
      one account. */
  lemma IdStringInjective(a: nat, b: nat)
    requires IdString(a) == IdString(b)
    ensures a == b
  {
    IdStringReadsBack(a);
    IdStringReadsBack(b);
  }

  /** `authorize(credentials)`: missing fields, then connect, then look up the
      normalised email, then require a stored password, then `bcrypt.compare`.
      Every failure is the same `None`. */
  function Authorize(accounts: map<string, Account>, credentials: Option<Credentials>, connected: bool)
    : (r: Option<AuthUser>)
    ensures r.Some? ==>
      && credentials.Some? && !IsFalsy(credentials.value.email) && !IsFalsy(credentials.value.password)
      && connected
      && var key := Normalize(credentials.value.email.value);
      && key in accounts
      && Verify(credentials.value.password.value, accounts[key].password)
      && r.value == AuthUser(IdString(accounts[key].id), accounts[key].email)
  {
    if credentials.None? || IsFalsy(credentials.value.email) || IsFalsy(credentials.value.password) then None
    else if !connected then None
    else
      var normalizedEmail := Normalize(credentials.value.email.value);
      if normalizedEmail !in accounts then None
      else
        var user := accounts[normalizedEmail];
        if user.password == "" then None
        else if !Verify(credentials.value.password.value, user.password) then None
        else Some(AuthUser(IdString(user.id), user.email))
  }

  /** The password an account was registered or reset with signs it in, under
      any spelling of its email that normalises to the stored one; so does any
      non-empty password that agrees with it on the bytes bcrypt reads. */
  lemma {:induction false} AuthorizeAcceptsStoredPassword(
    accounts: map<string, Account>, nextId: nat, email: string, password: string, given: string)
    requires ValidAccounts(accounts, nextId)
    requires email != "" && given != ""
    requires Normalize(email) in accounts
    requires accounts[Normalize(email)].password == Hash(password, BcryptCost)
    requires BcryptInput(given) == BcryptInput(password)
    ensures Authorize(accounts, Some(Credentials(Some(email), Some(given))), true)
            == Some(AuthUser(IdString(accounts[Normalize(email)].id), Normalize(email)))
  {
    VerifyOnlyOwnSecret(password, given, BcryptCost);
    assert WellStored(Normalize(email), accounts[Normalize(email)], nextId);
  }

  /** A wrong password is rejected: an account stored with the digest of one
      password does not sign in with a password that differs from it in the
      bytes bcrypt reads. */
  lemma {:induction false} AuthorizeRejectsOtherPassword(
    accounts: map<string, Account>, email: string, password: string, guess: string)
    requires Normalize(email) in accounts
    requires accounts[Normalize(email)].password == Hash(password, BcryptCost)
    requires BcryptInput(guess) != BcryptInput(password)
    ensures Authorize(accounts, Some(Credentials(Some(email), Some(guess))), true) == None
  {
    VerifyOnlyOwnSecret(password, guess, BcryptCost);
  }

  /** For passwords of at most 72 bytes without U+0000, any password other
      than the registered one is rejected. */
  lemma AuthorizeRejectsOtherShortPassword(
    accounts: map<string, Account>, email: string, password: string, guess: string)
    requires Normalize(email) in accounts
    requires accounts[Normalize(email)].password == Hash(password, BcryptCost)
    requires '\0' !in password && '\0' !in guess
    requires |Utf8(password)| <= MaxInputBytes && |Utf8(guess)| <= MaxInputBytes
    requires guess != password
    ensures Authorize(accounts, Some(Credentials(Some(email), Some(guess))), true) == None
  {
    ShortKeysDiffer(guess, password);
    AuthorizeRejectsOtherPassword(accounts, email, password, guess);
  }

  /** Enumeration resistance: an unknown email and a known email with a wrong
      password (one bcrypt tells apart from the right one) produce the same
      result. */
  lemma EnumerationResistance(
    accounts: map<string, Account>, unknown: string, known: string, password: string, guess: string, any: string)
    requires Normalize(unknown) !in accounts
    requires Normalize(known) in accounts
    requires accounts[Normalize(known)].password == Hash(password, BcryptCost)
    requires BcryptInput(guess) != BcryptInput(password)
    ensures Authorize(accounts, Some(Credentials(Some(unknown), Some(any))), true)
         == Authorize(accounts, Some(Credentials(Some(known), Some(guess))), true)
  {
    AuthorizeRejectsOtherPassword(accounts, known, password, guess);
  }

  /** The identity handed to next-auth carries the stored, normalised email. */
  lemma AuthorizeReturnsNormalizedEmail(
    accounts: map<string, Account>, nextId: nat, credentials: Option<Credentials>, connected: bool)
    requires ValidAccounts(accounts, nextId)
    ensures var r := Authorize(accounts, credentials, connected);
            r.Some? ==> IsNormalized(r.value.email) && r.value.email == Normalize(credentials.value.email.value)
  {
    var r := Authorize(accounts, credentials, connected);
    if r.Some? {
      var key := Normalize(credentials.value.email.value);
      assert WellStored(key, accounts[key], nextId);
    }
  }

  /** The next-auth JWT: the `id` and `email` claims the callbacks manage, and
      the claims next-auth itself puts there, which the callbacks never touch. */
  class Token {
    var id: Option<string>
    var email: Option<string>
    var otherClaims: map<string, string>

    constructor (email: Option<string>, otherClaims: map<string, string>)
      ensures id.None? && this.email == email && this.otherClaims == otherClaims
    {
      id := None;
      this.email := email;
      this.otherClaims := otherClaims;
    }

    /** `callbacks.jwt({ token, user })`: on sign-in (`user` present) copy the
        identity into the token; on later calls return the token unchanged. */
    method Jwt(user: Option<AuthUser>)
      modifies this
      ensures user.Some? ==> id == Some(user.value.id) && email == Some(user.value.email)
      ensures user.None? ==> id == old(id) && email == old(email)
      ensures otherClaims == old(otherClaims)
    {
      if user.Some? {
        id := Some(user.value.id);
        email := Some(user.value.email);
      }
    }
  }

  /** The user object of a next-auth session. */
  datatype SessionUser = SessionUser(id: Option<string>, email: Option<string>, name: Option<string>, image: Option<string>)

  /** The session object handed to the `session` callback. */
  class Session {
    var user: Option<SessionUser>
    var expires: string

    constructor (user: Option<SessionUser>, expires: string)
      ensures this.user == user && this.expires == expires
    {
      this.user := user;
      this.expires := expires;
    }

    /** `callbacks.session({ session, token })`: when there is a token and a
        session user, overwrite the user's id and email with the token's. */
    method Populate(token: Token?)
      modifies this
      ensures token != null && old(user).Some? ==>
                user == Some(old(user).value.(id := token.id, email := token.email))
      ensures token == null || old(user).None? ==> user == old(user)
      ensures expires == old(expires)
    {
      if token != null && user.Some? {
        user := Some(user.value.(id := token.id, email := token.email));
      }
    }
  }

  /** The identity `authorize` returned is what a later session shows: the
      sign-in call of `jwt` stores it, a refresh (`jwt` without a user) keeps
      it, and `session` copies it out. */
  method SessionAfterSignIn(user: AuthUser, claims: map<string, string>)
    returns (sessionUser: Option<SessionUser>)
    ensures sessionUser == Some(SessionUser(Some(user.id), Some(user.email), None, None))
  {
    var token := new Token(Some(user.email), claims);
    token.Jwt(Some(user));
    token.Jwt(None);
    var session := new Session(Some(SessionUser(None, None, None, None)), "");
    session.Populate(token);
    sessionUser := session.user;
  }

  /** `callbacks.redirect({ url, baseUrl })`. `origin` stands for
      `new URL(url).origin`, `None` where the URL constructor throws (the
      callback then throws too). */
  function Redirect(url: string, baseUrl: string, origin: string -> Option<string>): (r: Option<string>)
    ensures StartsWith(url, "/") ==> r == Some(baseUrl + url)
    ensures !StartsWith(url, "/") ==>
              r == (match origin(url)
                    case None => None
                    case Some(o) => if o == baseUrl then Some(url) else Some(baseUrl))
    ensures r.Some? ==> StartsWith(r.value, baseUrl) || origin(r.value) == Some(baseUrl)
  {
    if StartsWith(url, "/") then Some(baseUrl + url)
    else match origin(url)
      case None => None
      case Some(o) => if o == baseUrl then Some(url) else Some(baseUrl)
  }
}
