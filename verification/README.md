# ai_video accounts, sessions and video upload, in Dafny

This project models the core of a Next.js video-sharing application. That
core has two halves.

**Accounts and sessions**

- The `User` mongoose model: a unique, trimmed and lower-cased email. A
  required password whose `length` is at least six (JavaScript counts UTF-16
  code units, so an emoji counts twice), hashed with bcrypt (cost 12) by a
  `pre("save")` hook. The hook only runs when the password was modified, and
  `updatedAt` is only stamped on a new or modified document.
- The registration route and the password-reset route.
- The next-auth credentials `authorize` function, its `jwt`, `session` and
  `redirect` callbacks, and the thirty-day session lifetime (the constant
  `Auth.SessionMaxAge`, lib/auth.ts:139).
- The cached database connection in `lib/db.ts`.
- The login page's submit handler.

**Videos**

- The `POST /api/video` route.
- The upload form: file checks, submit validation, progress steps and the
  record it posts.
- The video grid's deletion filter.

The model has one module per source file, plus a few shared modules:

- `Outcomes`: Option and Result.
- `Text`: the string operations and the email normalisation
  `email.trim().toLowerCase()`.
- `EmailFormat`: the registration regular expression. It is stated as a
  pattern and as a decision procedure, with a lemma that the two agree.
- `Hashing`: bcrypt.
- `Http`: replies.

State the source updates in place is written as classes with `modifies`
frames:

- a mongoose document (`UserDocument`);
- the `users` and `videos` collections (`UserCollection`, `VideoCollection`);
- the connection cache and the global object it is parked on;
- the next-auth token and session;
- the upload form, the login page and the video grid.

Pure decisions are functions, and lemmas relate them:

- `authorize`;
- the validation chains;
- the message mappings;
- the deletion filter.

Everything outside the program is an input of the operation that meets it:

- whether the database connection succeeds;
- whether `request.json()` throws (`None`);
- whether a session exists;
- what `signIn`, the ImageKit upload and the `/api/video` call return.

The collection of users is a map from the stored email to the account. The
email's unique index is the map key. `ValidAccounts` is the collection's
invariant:

- every key is a non-empty, normalised email, and it is the email stored
  under it;
- every password is a bcrypt digest;
- ids are distinct.

Every operation that writes the store preserves this invariant.

bcrypt is modelled as a tagged encoding `"$2b$12$" + secret`. For the
`$2b$` version, bcryptjs turns a secret into a key made of its UTF-8 bytes
followed by one zero byte. The key schedule reads that key cyclically for
72 bytes. `BcryptInput` is those 72 bytes, and `bcrypt.compare` is modelled
as a comparison of the two secrets' `BcryptInput`s. The model proves:

- a digest verifies its own secret;
- a digest verifies exactly the secrets whose 72 bytes agree with its own;
- two secrets of at most 72 bytes and without a U+0000 character verify
  each other only when they are equal;
- a secret of 72 bytes or more verifies with anything appended;
- the zero byte makes U+0000 ambiguous: `s` and `s + "\u0000" + s` verify
  each other for every `s`, and so do a 71-byte `s` and `s + "\u0000"`;
- a digest never equals the secret it came from, and one of at most 72
  bytes does not verify against itself.

Three behaviours of the program carry through the model:

- `authorize` (lib/auth.ts:91-97) returns `null` for a failed connection as
  well as for bad credentials, and `Authorize` returns `None` for both.
- The login page still maps "No user found" and "Invalid password" to their
  own messages (app/login/page.tsx:52-55). This `authorize` never produces
  those strings, since it only ever returns `null`.
- The reset route (app/reset-password/route.ts:37-38) assigns the new
  password and saves. If the new password is exactly the stored digest, the
  assignment changes nothing: mongoose marks nothing modified, the hook does
  not hash it, and the route still answers 200. The password sent then does
  not sign in. `ResetRecord` and `ResetPasswordVerifies` state both cases.

## Model

| member | source | states |
|---|---|---|
| Text.Trim | app/api/auth/register/route.ts:17 | the result is no longer than the input, and neither of its ends is whitespace |
| Text.TrimRemovesOnlySpace | app/api/video/route.ts:88-89 | `trim()` leaves a string without whitespace unchanged, and returns "" exactly when the string is all whitespace |
| Text.TrimStripsSpace | app/api/auth/register/route.ts:17 | `trim()` returns the part of the string between a whitespace prefix and a whitespace suffix; with `Trim`'s non-whitespace ends this fixes the result |
| Text.TrimIdempotent | app/components/VideoUploadForm.tsx:246-247 | trimming a trimmed string changes nothing, so the route's second `trim()` keeps what the form sent |
| Text.ToLowerChar | lib/auth.ts:32 | 'A'..'Z' map to 'a'..'z' (the same offset), every other character is kept, and whitespace stays whitespace |
| Text.ToLower | lib/auth.ts:32 | `toLowerCase()` keeps the length and lower-cases each character |
| Text.ToLowerIdempotent | lib/auth.ts:32 | lower-casing twice is lower-casing once |
| Text.Normalize | app/api/auth/register/route.ts:17 | the normalised email is in normal form (no surrounding whitespace, no upper-case letter) and no longer than the input |
| Text.NormalizeLowerCasesCore | lib/auth.ts:32 | the normalised email is the lower-cased part of the input between a whitespace prefix and a whitespace suffix, and that part neither starts nor ends with whitespace |
| Text.NormalizedIsFixed | models/User.ts:18-19 | the schema's `lowercase` and `trim` casts leave an email already in normal form unchanged |
| Text.NormalizeIdempotent | app/login/page.tsx:29 | normalising the page's already normalised email again, as `authorize` does, gives the same key |
| Text.StartsWith | app/components/VideoUploadForm.tsx:108 | `startsWith`: the prefix of the string's own length equals the argument (used by `FileProblem` and `Redirect`, whose contracts state its effect) |
| Text.Contains | app/login/page.tsx:48 | `includes`; its meaning is given by `ContainsIffOccurs` (an occurrence at some index) |
| Text.ContainsInfix | app/login/page.tsx:48 | `includes` finds a substring wherever it sits in the string |
| Text.ContainsIffOccurs | lib/db.ts:42-44 | `includes` holds exactly when the substring occurs at some position of the string |
| Text.MissingCharNotContained | app/login/page.tsx:48 | a string lacking one of the substring's characters does not include it |
| Text.Utf16Length | app/reset-password/route.ts:16 | `length` counts UTF-16 code units: at least one and at most two per character |
| Text.Utf16LengthOfBmp | app/api/auth/register/route.ts:29 | for characters of the Basic Multilingual Plane, `length` is the number of characters |
| Text.Utf16LengthOfAstral | app/api/auth/register/route.ts:29 | for characters outside the Basic Multilingual Plane, such as emoji, `length` is twice the number of characters |
| EmailFormat.IndexOf | app/api/auth/register/route.ts:20 | the result is the position of the first occurrence of the character, or the length when there is none |
| EmailFormat.IsValidEmail | app/api/auth/register/route.ts:20-21 | `emailRegex.test`, decided by splitting at the first `@`; `IsValidEmailCorrect` proves it accepts exactly what the pattern matches |
| EmailFormat.IsValidEmailCorrect | app/api/auth/register/route.ts:20-21 | the decision procedure accepts exactly the strings `^[^\s@]+@[^\s@]+\.[^\s@]+$` matches |
| EmailFormat.SpaceIsRejected | app/api/auth/register/route.ts:16-21 | a string with whitespace anywhere fails the pattern, which is why the route normalises before testing |
| Hashing.CostDigits | models/User.ts:38 | the two decimal digits of the cost factor, which read back as the cost |
| Hashing.Hash | models/User.ts:38 | a digest carries the `$2b$` header with a cost and is seven characters longer than the secret |
| Hashing.VerifyHash | lib/auth.ts:70-73 | `bcrypt.compare` accepts a secret against its own digest |
| Hashing.CharUtf8 | lib/auth.ts:70-73 | a character's UTF-8 encoding is one to four bytes; U+0000 is the single byte 0 and no other character contains a zero byte |
| Hashing.Utf8 | lib/auth.ts:70-73 | a string's UTF-8 encoding has between one and four bytes per character, and no zero byte unless the string holds U+0000 |
| Hashing.BcryptInput | lib/auth.ts:70-73 | bcrypt reads exactly 72 bytes: the first 72 UTF-8 bytes of a secret of 72 bytes or more; for a shorter secret, its bytes and then a zero byte, read cyclically |
| Hashing.Verify | lib/auth.ts:70-73 | `bcrypt.compare`: false for a non-digest, otherwise a comparison of the 72 bytes bcrypt reads; its partners are `VerifyHash`, `VerifyOnlyOwnSecret`, `ShortSecretVerifiesOnlyItself`, `LongSecretAcceptsAnySuffix`, `NulRepeatCollides` and `DigestDoesNotVerifyItself` |
| Hashing.VerifyOnlyOwnSecret | lib/auth.ts:70-81 | a digest verifies exactly the secrets whose 72 bytes read by bcrypt agree with those of its own secret |
| Hashing.Utf8Append | lib/auth.ts:70-73 | the encoding of a concatenation is the concatenation of the encodings |
| Hashing.CharUtf8Decodes | lib/auth.ts:70-73 | a character is read back from its encoding, whose lead byte gives its length |
| Hashing.CharUtf8PrefixFree | lib/auth.ts:70-73 | no character's encoding is a prefix of another's |
| Hashing.Utf8Injective | lib/auth.ts:70-73 | different strings have different UTF-8 encodings |
| Hashing.ShortSecretVerifiesOnlyItself | lib/auth.ts:70-81 | for secrets of at most 72 bytes without U+0000, a digest verifies a secret exactly when it is its own |
| Hashing.LongSecretAcceptsAnySuffix | lib/auth.ts:70-81 | a secret of 72 bytes or more still verifies with anything appended |
| Hashing.Key | lib/auth.ts:70-73 | the key bcryptjs derives is the secret's UTF-8 bytes followed by one zero byte |
| Hashing.Cycle | lib/auth.ts:70-73 | reading a key cyclically for `n` bytes gives `n` bytes that start with the key, or its first `n` bytes when it is longer |
| Hashing.CycleAt | lib/auth.ts:70-73 | byte `i` of a cyclic reading is the key's byte at the position `i` wraps to |
| Hashing.CycleTwice | lib/auth.ts:70-73 | a key written twice is read cyclically as the key itself |
| Hashing.ShortInputMarksItsEnd | lib/auth.ts:70-73 | for a secret of at most 72 bytes without U+0000, bcrypt reads its own non-zero bytes and then, when there is room, a zero byte |
| Hashing.ShortKeysDiffer | lib/auth.ts:70-81 | for secrets of at most 72 bytes without U+0000, bcrypt reads the same bytes exactly when the secrets are equal |
| Hashing.NulRepeatCollides | lib/auth.ts:70-81 | `s + "\u0000" + s` gives bcrypt the same bytes as `s`, so it verifies against the digest of `s` |
| Hashing.NulAfter71BytesCollides | lib/auth.ts:70-81 | a 71-byte secret followed by U+0000 verifies against the digest of the secret alone |
| Hashing.DigestDoesNotVerifyItself | app/reset-password/route.ts:36-38 | a digest of at most 72 bytes, sent back as a password, does not verify against itself |
| Hashing.HashIsNotPlaintext | models/User.ts:37-38 | the stored digest never equals the plaintext password |
| UserModel.ValidationError | models/User.ts:14-25 | a document passes validation exactly when its email is non-empty and its password's `length` (UTF-16 code units) is at least 6; a missing email is reported first, then a missing password, then a present but short password as too short |
| UserModel.AstralPasswordMeetsMinimum | models/User.ts:24 | three emoji meet the six-unit `minlength` |
| UserModel.StoredPassword | models/User.ts:33-40 | the hook replaces a modified password by its cost-12 digest, which differs from it, and keeps an unmodified one |
| UserModel.UserDocument.New | models/User.ts:14-20 | a new document holds the trimmed, lower-cased email and counts its password as modified |
| UserModel.UserDocument.Hydrate | app/reset-password/route.ts:25 | a document loaded from the store holds the stored record, and nothing in it is modified |
| UserModel.UserDocument.SetPassword | app/reset-password/route.ts:37 | assigning the password stores it, and marks the path modified only when the value changed |
| UserModel.UserDocument.HashPasswordIfModified | models/User.ts:33-40 | the pre-save hook leaves the password it was given, hashed exactly when the path is modified |
| UserModel.PutKeepsValid | models/User.ts:14-25 | writing a well-formed record under its own email keeps the store invariant (normal-form keys, digests, distinct ids) |
| UserModel.UserCollection.FindOne | app/api/auth/register/route.ts:39 | `findOne({ email })` finds a record exactly when the email is stored, and that record's email is the key and its password a digest |
| UserModel.UserCollection.Save | models/User.ts:12-40 | validation, then the hook, then the unique index; the save succeeds exactly when validation passes and a new document's email is not yet taken, and it writes the hashed-if-modified record, with `createdAt` set on a new document and `updatedAt` set only on a new or modified one, and keeps the invariant |
| UserModel.UserCollection.Create | app/api/auth/register/route.ts:48-51 | `User.create` stores the normalised email with the cost-12 digest of the password under a fresh id, exactly when the email is free and the fields are valid |
| RegisterRoute.CheckRegistration | app/api/auth/register/route.ts:9-34 | missing fields, then a bad pattern on the normalised email, then a password whose `length` in UTF-16 code units is under 6, each answered 400 with its own message; it passes exactly when none applies, with the normalised email |
| RegisterRoute.Register | app/api/auth/register/route.ts:5-67 | 500 on an unreadable body or a failed connection, 400 on a failed check, 409 on a taken email, otherwise 201 with the new id string and email; only the 201 path changes the store, by one account holding the digest |
| RegisterRoute.VariantsCollide | app/api/auth/register/route.ts:16-39 | two spellings of an email with the same normal form pass or fail the checks alike and reach the same store key |
| ResetPasswordRoute.ResetPassword | app/reset-password/route.ts:8-51 | 400 for missing fields or a short password, 500 on a failed connection, 404 for an unknown email, otherwise 200 and the account's record replaced by `ResetRecord` of it; the length check counts UTF-16 code units |
| ResetPasswordRoute.ResetRecord | app/reset-password/route.ts:37-38 | a new password that differs from the stored value is stored as its cost-12 digest with `updatedAt` stamped; one equal to the stored value leaves the record exactly as it was; id, email and `createdAt` never change |
| ResetPasswordRoute.ResetPasswordVerifies | app/reset-password/route.ts:36-45 | in the record a 200 leaves, a changed password is a digest verifying exactly the passwords whose 72 bytes read by bcrypt agree with the new one's; a new password equal to the stored digest (of at most 72 bytes) stays stored as is and does not verify against it, although the route reports success |
| Auth.IdString | lib/auth.ts:87 | `_id.toString()` is a non-empty lower-case hexadecimal string |
| Auth.IdStringReadsBack | lib/auth.ts:87 | the id string read as hexadecimal is the id |
| Auth.IdStringInjective | lib/auth.ts:87 | different ids give different id strings |
| Auth.Authorize | lib/auth.ts:17-98 | a user is returned only for present credentials, a working connection, a stored normalised email and a password that verifies, and it is that account's id string and stored email |
| Auth.AuthorizeAcceptsStoredPassword | lib/auth.ts:31-89 | the password an account was stored with, or any non-empty password whose 72 bytes read by bcrypt agree with it, signs it in under any spelling of its email |
| Auth.AuthorizeRejectsOtherPassword | lib/auth.ts:70-81 | every password whose 72 bytes read by bcrypt differ from the stored one's is rejected |
| Auth.AuthorizeRejectsOtherShortPassword | lib/auth.ts:70-81 | when the stored and the given password are at most 72 bytes and hold no U+0000, every password other than the stored one is rejected |
| Auth.EnumerationResistance | lib/auth.ts:41-81 | an unknown email and a known email with a password bcrypt tells apart from the right one give the same result |
| Auth.AuthorizeReturnsNormalizedEmail | lib/auth.ts:31-89 | the identity handed to next-auth carries the normalised form of the submitted email |
| Auth.Token.Jwt | lib/auth.ts:102-108 | on sign-in the token takes the user's id and email; on later calls it is unchanged; other claims are never touched |
| Auth.Session.Populate | lib/auth.ts:109-115 | with a token and a session user, the user's id and email become the token's; otherwise the session is unchanged |
| Auth.SessionAfterSignIn | lib/auth.ts:102-115 | the identity returned by `authorize` is what the session shows after the sign-in call and a refresh |
| Auth.Redirect | lib/auth.ts:119-125 | relative URLs are prefixed with the base URL, same-origin URLs are kept, anything else goes to the base URL; the result is always on the site |
| Db.Classify | lib/db.ts:41-48 | "authentication" in the driver message gives the authentication error, otherwise "network" or "timeout" gives the network error, otherwise the generic one |
| Db.DbError.Message | lib/db.ts:43-47 | the fixed text of each rethrown error; `Connect` states that a failed attempt throws the classified error's text |
| Db.AuthenticationTakesPrecedence | lib/db.ts:42-45 | a message naming both authentication and a timeout is reported as an authentication failure |
| Db.ConnectionCache.Connect | lib/db.ts:21-60 | a cached connection is returned as is; otherwise the pending or a new attempt is awaited, a success is cached, and a failure clears the promise and throws the fixed text of the classified error, never the driver's own message; the cached handle is always what the cached attempt resolved to |
| Db.ConnectionCache.constructor | lib/db.ts:17-19 | the cache starts with no connection and no pending attempt |
| Db.ReuseAfterSuccess | lib/db.ts:22-24 | after a success later calls return the same handle and start no new attempt |
| Db.RetryAfterFailure | lib/db.ts:36-57 | after a failure the next call starts a new attempt, which can succeed |
| Db.GlobalScope.LoadDbModule | lib/db.ts:15-19 | the cache on the global object is reused, or created empty and parked there |
| VideoRoute.NumberOr | app/api/video/route.ts:94-96 | `value || fallback` keeps a present non-zero number and replaces an absent or zero one |
| VideoRoute.PrepareVideo | app/api/video/route.ts:72-98 | the body is accepted exactly when title, description, video URL and thumbnail URL are all non-empty; the stored text is trimmed, the URLs are kept, and `controls` defaults to true |
| VideoRoute.TransformationDefaults | app/api/video/route.ts:93-97 | each transformation value that is absent or 0 becomes its default (1920, 1080, 80), and any other value is kept |
| VideoRoute.NoTransformationGetsDefaults | app/api/video/route.ts:93-97 | a body with no transformation is stored at 1920 x 1080, quality 80 |
| VideoRoute.BlankTitleStoredEmpty | app/api/video/route.ts:73-89 | the check runs before trimming, so a non-empty title made only of whitespace passes and is stored empty |
| VideoRoute.VideoCollection.Create | app/api/video/route.ts:103 | one document with a fresh id is appended |
| VideoRoute.Post | app/api/video/route.ts:46-127 | 401 without a session, 500 on a failed connection or body, 400 on a missing field, otherwise 201 with the one document inserted |
| VideoUploadForm.FileProblem | app/components/VideoUploadForm.tsx:106-121 | a file is accepted exactly when its type starts with "video/" and its size is at most 100 MiB; a wrong type gives "Please select a valid video file" and a video over the limit "Video file size must be less than 100MB" |
| VideoUploadForm.SizeLimitIsInclusive | app/components/VideoUploadForm.tsx:113-116 | exactly 100 MiB is accepted and one byte more is refused |
| VideoUploadForm.ThumbnailFor | app/components/VideoUploadForm.tsx:309 | a non-empty thumbnail URL from ImageKit is sent; a missing or empty one is replaced by the video URL |
| VideoUploadForm.RecordPayload | app/components/VideoUploadForm.tsx:244-255 | the `createVideoRecord` body; `RouteAcceptsFormPayload` proves the route accepts it and what it stores |
| VideoUploadForm.RouteAcceptsFormPayload | app/components/VideoUploadForm.tsx:244-255 | `/api/video` accepts the record the form posts and stores its trimmed text, its URLs, `controls` true and the 1920 / 1080 / 80 transformation |
| VideoUploadForm.UploadForm.constructor | app/components/VideoUploadForm.tsx:32-41 | the form starts empty, with no file, nothing uploading, progress 0 and no messages |
| VideoUploadForm.UploadForm.IsFormValid | app/components/VideoUploadForm.tsx:341 | `isFormValid`; `FormValidMeansSubmitPasses` relates it to the submit validation |
| VideoUploadForm.UploadForm.SubmitProblem | app/components/VideoUploadForm.tsx:280-294 | a blank title gives "Please enter a video title", then a blank description "Please enter a video description", then a missing file "Please select a video file"; there is no problem exactly when all three are present |
| VideoUploadForm.UploadForm.FormValidMeansSubmitPasses | app/components/VideoUploadForm.tsx:341 | the submit button is enabled exactly when the submit validation passes and nothing is uploading |
| VideoUploadForm.UploadForm.HandleInputChange | app/components/VideoUploadForm.tsx:95-104 | the named field takes the value, the other keeps its own, and both messages are cleared |
| VideoUploadForm.UploadForm.ValidateFile | app/components/VideoUploadForm.tsx:106-121 | returns whether the file is accepted and reports its problem in `error` |
| VideoUploadForm.UploadForm.HandleFileSelect | app/components/VideoUploadForm.tsx:123-132 | an accepted file replaces the choice and clears the messages; a refused one leaves the choice and sets the error |
| VideoUploadForm.UploadForm.RemoveFile | app/components/VideoUploadForm.tsx:169-179 | the file is dropped and both messages are cleared |
| VideoUploadForm.UploadForm.HandleSubmit | app/components/VideoUploadForm.tsx:276-331 | a failed validation sets its message and starts nothing; otherwise the upload runs: progress 0, 25, 75, 100 as far as it got, then 0, `uploading` false again, and the success message or the failing step's error |
| VideoUploadForm.UploadForm.Upload | app/components/VideoUploadForm.tsx:296-331 | the `try`/`finally` of a submit: the progress steps, the record sent once the file is uploaded, and the final messages |
| VideoUploadForm.UploadForm.CreateRecord | app/components/VideoUploadForm.tsx:304-315 | after the upload: progress 75, the record posted, then 100 and the success message, or the server's error or "Failed to save video" |
| VideoUploadForm.UploadForm.SetProgress | app/components/VideoUploadForm.tsx:296-301 | the progress takes the value and the value is recorded in order |
| VideoFeed.RemoveById | app/components/VideoFeed.tsx:20-23 | the filtered list is no longer than the input and holds no video with the deleted id |
| VideoFeed.RemoveByIdDistributes | app/components/VideoFeed.tsx:21-23 | the filter works left to right, element by element, so the videos kept stay in their order |
| VideoFeed.RemoveByIdKeepsOthers | app/components/VideoFeed.tsx:21-23 | every video without the deleted id, including one with no id, is kept as often as it occurs; none with the id is |
| VideoFeed.RemoveAbsentId | app/components/VideoFeed.tsx:21-23 | deleting an id no video carries leaves the list unchanged |
| VideoFeed.RemoveByIdIdempotent | app/components/VideoFeed.tsx:20-24 | deleting the same id twice changes nothing the second time |
| VideoFeed.Feed.constructor | app/components/VideoFeed.tsx:13 | the local list starts as the incoming one, and no callback has run |
| VideoFeed.Feed.SyncFromProps | app/components/VideoFeed.tsx:16-18 | a new incoming list replaces the local one |
| VideoFeed.Feed.HandleVideoDeleted | app/components/VideoFeed.tsx:20-30 | the local list becomes the filtered list, and the callback, when given, receives that same list |
| LoginPage.ErrorMessageFor | app/login/page.tsx:47-58 | "SSL" or "ECONNRESET" first, then exactly "CredentialsSignin", then "No user found", then "Invalid password", each with its message, else the catch-all "Login failed. Please check your credentials." |
| LoginPage.Succeeded | app/login/page.tsx:37 | `result?.ok && !result?.error`; `SubmitError` and `HandleSubmit` state that no error and the redirect happen exactly when it holds |
| LoginPage.SubmitError | app/login/page.tsx:36-68 | no error exactly when `ok` holds and `error` is empty; the generic message when `signIn` threw; the mapped message for an error string; "try again" for a failure without one |
| LoginPage.ConnectionIssueTakesPrecedence | app/login/page.tsx:48-49 | an error mentioning SSL is shown as a connection issue whatever else it says |
| LoginPage.RejectedSignInShowsInvalidCredentials | app/login/page.tsx:50-51 | the "CredentialsSignin" code of a rejected `authorize` is shown as "Invalid email or password", whatever `ok` says |
| LoginPage.LoginNormalisationAgrees | app/login/page.tsx:28-32 | `authorize` gives the same answer for the page's normalised email as for the raw one |
| LoginPage.Login.constructor | app/login/page.tsx:8-11 | the page starts with empty inputs, not loading and with no error |
| LoginPage.Login.SessionEffect | app/login/page.tsx:15-20 | the page goes home once the session is known and present, and not otherwise |
| LoginPage.Login.HandleSubmit | app/login/page.tsx:22-69 | `signIn` receives the trimmed, lower-cased email and the password as typed; afterwards nothing is loading, the error is `SubmitError` of the outcome, and the page goes home exactly on success |
| SignUpFlow.RegisterThenSignIn | app/api/auth/register/route.ts:36-59 | after a 201 from the register route, sign-in under an email of the same normal form succeeds exactly when the password is non-empty and its 72 bytes read by bcrypt agree with the registered one's, and yields the new account's id and email; an empty password always fails; an email with another normal form that was not stored before still fails |

## Left out

- bcrypt's salt and its one-way transform are not modelled. `Hash` is a tagged encoding of the whole secret; only the key bcryptjs derives (UTF-8 bytes, a zero byte, read cyclically for 72 bytes) is carried into `Verify`.
- Hashing.ShortSecretVerifiesOnlyItself: promised only for secrets without U+0000, because with it bcryptjs really accepts other secrets (`NulRepeatCollides`, `NulAfter71BytesCollides`).
- SignUpFlow.RegisterThenSignIn: sign-in succeeds only for a non-empty `password2`; an empty one is rejected before bcrypt even when its 72 bytes agree with the registered password's (as they do for a password of U+0000 characters only).
- Hashing.Utf8: JavaScript strings can hold lone surrogates, which a Dafny `char` cannot. How bcryptjs encodes them is not modelled.
- Auth.IdString: a real `ObjectId` prints as exactly 24 hexadecimal digits, zero-padded. The model's id is a number whose string has no padding. Reading back and injectivity hold in both forms.
- Text.ToLowerChar: only the ASCII letters 'A'..'Z' are mapped (to 'a'..'z'), because the Unicode case mapping of `toLowerCase` is out of scope. Non-ASCII upper-case letters are kept as they are.
- Concurrency in lib/db.ts is not modelled: operations run one after another, so two requests cannot share one pending promise. The settled outcome of an attempt is an input.
- lib/db.ts:3-7 is not modelled: the module-load check of `MONGODB_URI` and the driver's connection options are environment handling.
- Console logging and the error `details` string of the video route are not modelled; neither changes a status or a stored record.
- The diagnostic reads in `authorize` (lib/auth.ts:45-46) are not modelled. They sit inside its `try`, so a failure there still gives `null`, the result already returned for an unknown email.
- Store operations that throw after a successful connection are not modelled: `findOne`, `User.create`, `save`, `Video.create`, and the diagnostic `User.find({})` of the reset route (app/reset-password/route.ts:29). In the source each such failure gives the route's 500 (a throwing `User.find({})` turns the reset route's 404 into a 500), or `null` in `authorize`. In the model these operations always complete once connected.
- JWT signing, encoding and expiry enforcement are done by next-auth and are not modelled. Only the `jwt`, `session` and `redirect` callbacks and the 30-day `SessionMaxAge` are.
- next-auth's own mapping of a `null` from `authorize` to the error code "CredentialsSignin" is outside the repository. `RejectedSignInShowsInvalidCredentials` starts from that code.
- Auth.Redirect: `new URL(url).origin` is a function parameter, not a URL parser.
- The `signIn` callback (it always returns true) and the `pages` and `events` settings of lib/auth.ts are not modelled.
- `GET /api/video` is not modelled; it is not part of the core.
- The Video schema is not part of this model. `Video.create` always succeeds here, so its own validation errors, which would give the route's 500, are not represented.
- The ImageKit upload, the authentication fetch and the `/api/video` fetch in the upload form are not modelled: their outcomes are inputs.
- The upload form's drag-and-drop handlers, `formatFileSize`, the two-second redirect timer after a successful upload, and all JSX rendering are not modelled.
- The session and `useSession` checks that guard the upload form's rendering are not modelled.
- JSON bodies are modelled with string fields that are either present or absent. A non-string value (a number, an object) where a string is expected is not represented, so the type errors it would raise (e.g. `.trim` of a number, giving a 500) are not modelled.
- Numbers are integers, so NaN and fractional transformation values are not represented.
- The timestamps are an input `now`, not a clock.
- The reset route authenticates nobody. The model reproduces this and does not add a check.
