/** The `User` mongoose model (models/User.ts): the schema's casting and
    validation rules, the `pre("save")` hook that hashes a modified password,
    the automatic timestamps, and the unique index on `email`.

    The collection is a map from the stored email to the account, so the
    unique index is the map's key. A document loaded from or about to be
    written to the collection is a `UserDocument` object, whose fields the
    hook and the routes update in place. */
module UserModel {
  import opened Outcomes
  import opened Text
  import opened Hashing

  /** The `minlength` the schema puts on `password`. */
  const MinPasswordLength: nat := 6

  /** A stored user record. `id` stands for the `_id` ObjectId. */
  datatype Account = Account(id: nat, email: string, password: string, createdAt: int, updatedAt: int)

  /** Why `save()` rejects a document. */
  datatype SaveError =
    | EmailRequired       // `required: true` on email
    | PasswordRequired    // `required: true` on password
    | PasswordTooShort    // `minlength: 6` on password
    | DuplicateEmail      // `unique: true` on email (the E11000 duplicate key error)

  /** The schema validators, which run on the document before the save hooks.
      `minlength` compares the string's `length`, in UTF-16 code units. */
  function ValidationError(email: string, password: string): (r: Option<SaveError>)
    ensures r.None? <==> email != "" && Utf16Length(password) >= MinPasswordLength
    ensures r == Some(EmailRequired) <==> email == ""
    ensures r == Some(PasswordRequired) <==> email != "" && password == ""
    ensures r == Some(PasswordTooShort) <==> email != "" && password != "" && Utf16Length(password) < MinPasswordLength
  {
    if email == "" then Some(EmailRequired)
    else if password == "" then Some(PasswordRequired)
    else if Utf16Length(password) < MinPasswordLength then Some(PasswordTooShort)
    else None
  }

  /** `minlength` counts code units, not characters: three emoji pass the
      six-character minimum. */
  lemma {:induction false} AstralPasswordMeetsMinimum(email: string, password: string)
    requires email != "" && |password| >= MinPasswordLength / 2
    requires forall i :: 0 <= i < |password| ==> password[i] as int >= 0x10000
    ensures ValidationError(email, password).None?
  {
    Utf16LengthOfAstral(password);
  }

  /** What the `pre("save")` hook leaves in the password field. */
  function StoredPassword(password: string, modified: bool): (p: string)
    ensures modified ==> p == Hash(password, BcryptCost) && p != password
    ensures !modified ==> p == password
  {
    HashIsNotPlaintext(password, BcryptCost);
    if modified then Hash(password, BcryptCost) else password
  }

  /** A mongoose document of the `User` model. */
  class UserDocument {
    var id: nat
    var email: string
    var password: string
    var createdAt: int
    var updatedAt: int
    /** The document has not been written yet. */
    var isNew: bool
    /** `isModified("password")`. */
    var passwordModified: bool

    /** `new User({ email, password })`: the `trim` and `lowercase` options cast
        the email on assignment, and on a new document every set path counts as
        modified. */
    constructor New(id: nat, email: string, password: string, now: int)
      ensures this.id == id && this.email == Normalize(email) && this.password == password
      ensures isNew && passwordModified
      ensures createdAt == now && updatedAt == now
    {
      this.id := id;
      this.email := Normalize(email);
      this.password := password;
      this.createdAt := now;
      this.updatedAt := now;
      isNew := true;
      passwordModified := true;
    }

    /** A document hydrated from a stored record: nothing is modified. */
    constructor Hydrate(a: Account)
      ensures Record() == a
      ensures !isNew && !passwordModified
    {
      id := a.id;
      email := a.email;
      password := a.password;
      createdAt := a.createdAt;
      updatedAt := a.updatedAt;
      isNew := false;
      passwordModified := false;
    }

    /** The record this document's fields describe. */
    function Record(): Account
      reads this
    {
      Account(id, email, password, createdAt, updatedAt)
    }

    /** `doc.password = p`. Mongoose marks the path modified only when the new
        value differs from the current one. */
    method SetPassword(p: string)
      modifies this`password, this`passwordModified
      ensures password == p
      ensures passwordModified == (old(passwordModified) || p != old(password))
    {
      if p != password {
        passwordModified := true;
      }
      password := p;
    }

    /** The `pre("save")` hook: hash the password with cost 12, but only when it
        was modified (or the document is new). */
    method HashPasswordIfModified()
      modifies this`password
      ensures password == StoredPassword(old(password), passwordModified)
    {
      if !passwordModified {
        return;
      }
      password := Hash(password, BcryptCost);
    }
  }

  /** Account `a`, stored under key `e`, carries that key as its email, the key
      is a non-empty normalised email, the password is a digest and the id is
      below `bound`. */
  ghost predicate WellStored(e: string, a: Account, bound: nat) {
    a.email == e && e != "" && IsNormalized(e) && IsDigest(a.password) && a.id < bound
  }

  /** The collection's invariant: every record sits under its own email, which
      is a non-empty normalised email; every password is a digest; ids are
      distinct and below `nextId`. */
  ghost predicate ValidAccounts(accounts: map<string, Account>, nextId: nat) {
    && (forall e | e in accounts :: WellStored(e, accounts[e], nextId))
    && (forall e1, e2 | e1 in accounts && e2 in accounts && e1 != e2 :: accounts[e1].id != accounts[e2].id)
  }

  /** Writing a well-formed record keeps the invariant, whether it replaces the
      record with the same email and id or adds one with an id not used yet. */
  lemma PutKeepsValid(accounts: map<string, Account>, nextId: nat, a: Account, nextId': nat)
    requires ValidAccounts(accounts, nextId) && nextId <= nextId'
    requires WellStored(a.email, a, nextId')
    requires a.email in accounts ==> accounts[a.email].id == a.id
    requires a.email !in accounts ==> a.id >= nextId
    ensures ValidAccounts(accounts[a.email := a], nextId')
  {
    var m := accounts[a.email := a];
    forall e | e in m
      ensures WellStored(e, m[e], nextId')
    {
      if e != a.email {
        assert m[e] == accounts[e];
      }
    }
  }

  /** The `users` collection. */
  class UserCollection {
    var accounts: map<string, Account>
    /** The next unused `_id`. */
    var nextId: nat

    ghost predicate Valid()
      reads this
    {
      ValidAccounts(accounts, nextId)
    }

    constructor ()
      ensures Valid() && accounts == map[] && nextId == 0
    {
      accounts := map[];
      nextId := 0;
    }

    /** `User.findOne({ email })`: an exact match on the stored email. */
    function FindOne(email: string): (r: Option<Account>)
      reads this
      requires Valid()
      ensures r.Some? <==> email in accounts
      ensures r.Some? ==> r.value.email == email && r.value == accounts[email]
      ensures r.Some? ==> IsDigest(r.value.password) && IsNormalized(email)
    {
      if email in accounts then Some(accounts[email]) else None
    }

    /** `doc.save()`: validate, run the hash hook, stamp the timestamps, then
        insert or update. A new document gets `createdAt` and `updatedAt`; an
        existing one gets a new `updatedAt` only when it was modified. A new
        document whose email is already stored fails on the unique index
        after the hook has run. */
    method Save(doc: UserDocument, now: int) returns (r: Result<Account, SaveError>)
      requires Valid()
      requires doc.isNew ==> doc.passwordModified && doc.id >= nextId && IsNormalized(doc.email)
      requires !doc.isNew ==> doc.email in accounts && accounts[doc.email].id == doc.id
      requires !doc.isNew && !doc.passwordModified ==> doc.password == accounts[doc.email].password
      modifies this, doc
      ensures Valid()
      ensures var invalid := ValidationError(old(doc.email), old(doc.password));
        && (invalid.Some? ==> r == Err(invalid.value) && unchanged(this) && unchanged(doc))
        && (invalid.None? && old(doc.isNew) && old(doc.email) in old(accounts) ==>
              r == Err(DuplicateEmail) && unchanged(this))
      ensures r.Ok? <==> ValidationError(old(doc.email), old(doc.password)).None?
                         && !(old(doc.isNew) && old(doc.email) in old(accounts))
      ensures r.Ok? ==>
        && r.value == Account(old(doc.id), old(doc.email),
                              StoredPassword(old(doc.password), old(doc.passwordModified)),
                              if old(doc.isNew) then now else old(doc.createdAt),
                              if old(doc.isNew) || old(doc.passwordModified) then now else old(doc.updatedAt))
        && accounts == old(accounts)[old(doc.email) := r.value]
        && doc.Record() == r.value && !doc.isNew && !doc.passwordModified
    {
      var invalid := ValidationError(doc.email, doc.password);
      if invalid.Some? {
        return Err(invalid.value);
      }
      doc.HashPasswordIfModified();
      if doc.isNew && doc.email in accounts {
        return Err(DuplicateEmail);
      }
      if doc.isNew {
        doc.createdAt := now;
        nextId := doc.id + 1;
      }
      if doc.isNew || doc.passwordModified {
        doc.updatedAt := now;
      }
      doc.isNew, doc.passwordModified := false, false;
      var a := doc.Record();
      PutKeepsValid(accounts, old(nextId), a, nextId);
      accounts := accounts[doc.email := a];
      r := Ok(a);
    }

    /** `User.create({ email, password })`: a new document with a fresh `_id`,
        saved. */
    method Create(email: string, password: string, now: int) returns (r: Result<Account, SaveError>)
      requires Valid()
      modifies this
      ensures Valid()
      ensures var key := Normalize(email);
        && (r.Ok? <==> ValidationError(key, password).None? && key !in old(accounts))
        && (r.Ok? ==> r.value == Account(old(nextId), key, Hash(password, BcryptCost), now, now)
                      && accounts == old(accounts)[key := r.value])
        && (r.Err? ==> accounts == old(accounts))
    {
      var doc := new UserDocument.New(nextId, email, password, now);
      r := Save(doc, now);
    }
  }
}
