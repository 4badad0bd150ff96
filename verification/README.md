# google-keep-clone: session, notes and validation core in Dafny

This project models the decision logic of a note-taking web application. The
application has an Express/Mongoose back end and a React/Redux front end.
It covers four parts, each written as pure functions over immutable
datatypes and checked against stated properties:

- **Session and identity.** This part covers:
  - `authMiddleware`, the per-request authorization gate. It checks the
    Bearer access token and, on expiry only, refreshes silently from the
    `refreshToken` cookie.
  - `generateAndSetTokens`, which issues the two JWTs and sets the refresh
    cookie.
  - `register`, `login` and `logout`.
  - The Google verify callback (create, link or pass through) and the
    `/google/callback` route.
  - The `User` document's setters, validators, pre-save hook and
    `comparePassword`.
- **Ownership-scoped notes.** The note handlers: `createNote`,
  `getAllNotes`, `getNoteById`, `updateNote`, `moveNoteToTrash`,
  `updateNoteStatus` and `addTagsToNote`. Each one has an auth guard, an
  id check and an `{_id, owner}` query scope.
- **Request validation.** An interpreter for the part of Joi the request
  schemas use, run with `abortEarly: false`. On top of it sit the schemas of
  `auth.joi.ts` and `note.joi.ts`, the `validate` middleware and the client's
  zod form schemas.
- **Client state.** The two notes slices and the two auth slices as pure
  reducers. The auth store also writes to browser storage, modelled as a
  map.

Modules (one file each):

| module | role |
|---|---|
| `Wrappers` | Option and Result |
| `Seqs` | first match, filter |
| `Text` | split, trim, lower case, `parseInt` |
| `Codec` | an escaping text codec |
| `Jwt` | sign and verify |
| `Http` | environment, cookies, effects, JSON |
| `UserModel` | the `User` document and collection |
| `AuthHelper` | token issue |
| `AuthGate` | the authorization gate |
| `AuthController` | register, login, logout |
| `GoogleAuth` | Google sign-in |
| `NoteController` | the note handlers |
| `Joi` | schema interpreter and `validate` |
| `RequestSchemas` | the Joi request schemas |
| `ZodForms` | the client form schemas |
| `NotesSlice` | `features/notes` |
| `NotesStore` | `store/notes` |
| `AuthStore` | `store/auth` |
| `AuthSlice` | `features/auth` |

How the outside world is modelled:

- **Clocks.** Time is an explicit `now` in seconds.
- **Tokens.** A token is `(secret, subject, exp)` in an injective,
  space-free text form. A token verifies only under its own secret. Expiry
  is reported only for a correctly signed token, which is why a token signed
  with the other secret takes the "invalid" branch, never the refresh one.
- **bcrypt.** An abstract digest that determines its preimage.
- **Collections.** Sequences in insertion order, so `findOne` is the first
  match.
- **ObjectIds.** Strings of 24 hex digits. They are cast to lower case when
  queried.
- **Email syntax.** Joi's and zod's email checks are function parameters.

What the code does at four places a reader might not expect:

- An error the Google strategy passes to `done` goes to `next(err)`. The
  callback handler then never runs, and Express's default error handler
  answers with its 500 page. Only a strategy `fail` is sent to the
  `failureRedirect`.
- `register` does not return after its 409 (Finding 1).
- The Google strategy writes `googleId` and `provider`, which the user schema
  does not declare, and creates users without the password the schema
  requires (Finding 2).
- The features notes slice runs its status case as written (Finding 3). The
  correction is stated separately, and the slice's reducer does not use it.

## Model

| member | source | states |
|---|---|---|
| Seqs.FirstIndex | backend/src/api/auth/google.strategy.ts:34 | `findOne` in natural order: the index found satisfies the filter and, when none is found, no element does |
| Seqs.FirstIndexAt | backend/src/api/note/note.controller.ts:94-98 | a matching element with no match before it is exactly the one `findOne` returns |
| Seqs.Filter | backend/src/api/note/note.controller.ts:51 | `find(filter)` keeps exactly the matching elements: everything kept matches and came from the input, and every match is kept |
| Seqs.FilterAppend | frontend/src/features/notes/notesSlice.ts:200-207 | filtering keeps order: filtering a concatenation concatenates the filtered parts |
| Text.IndexOf | backend/src/middleware/auth.middleware.ts:37 | the first position of a character: absent exactly when the character does not occur, and no occurrence before it |
| Text.Split | backend/src/middleware/auth.middleware.ts:37 | `split(" ")` yields at least one field; no field contains the separator; joining the fields back gives the input |
| Text.SplitAtSeparator | backend/src/middleware/auth.middleware.ts:37 | a header holding a space splits into at least two fields, so `split(" ")[1]` exists after the `Bearer ` test |
| Text.SplitJoin | backend/src/middleware/auth.middleware.ts:37 | splitting a join of separator-free fields returns those fields (the inverse of Split) |
| Text.SplitField | backend/src/middleware/auth.middleware.ts:37 | a separator-free field followed by the separator splits off as the first field |
| Text.SplitFirst | backend/src/middleware/auth.middleware.ts:37 | the first field of a split is the text up to the first separator, or the whole text when there is none |
| Text.TrimStart | backend/src/models/user.model.ts:24 | the suffix left after the leading white space; everything removed is white space |
| Text.TrimEnd | backend/src/models/user.model.ts:24 | the prefix left before the trailing white space; everything removed is white space |
| Text.TrimIdempotent | backend/src/models/note.model.ts:33-42 | a trimmed string neither starts nor ends with white space, and trimming it again changes nothing |
| Text.Lower | backend/src/models/user.model.ts:23 | ASCII `toLowerCase`: same length; no upper-case letter is left, so the result is its own lower case; each letter `A`-`Z` becomes its lower-case partner in place and every other character is kept |
| Text.DecimalRoundTrip | backend/src/api/note/note.controller.ts:47-48 | reading back the decimal rendering of a number gives that number |
| Text.DecimalInjective | backend/src/api/note/note.controller.ts:47-48 | different numbers render differently |
| Text.DigitPrefix | backend/src/api/note/note.controller.ts:47-48 | the digits `parseInt` reads: the longest all-digit prefix, followed by a non-digit or the end |
| Text.ParseIntDecimal | backend/src/api/note/note.controller.ts:47-48 | `parseInt(String(n), 10)` reads back `n` for every natural number, in unbounded integers (the limits of JavaScript numbers are under Left out) |
| Text.DigitPrefixOfDigits | backend/src/api/note/note.controller.ts:47-48 | `parseInt` stops at the first non-digit: digits followed by a non-digit give exactly those digits |
| Text.DecimalDigits | backend/src/api/note/note.controller.ts:47-48 | a decimal rendering is all digits, non-empty, and its value is the number |
| Text.ParseIntNegativeDecimal | backend/src/api/note/note.controller.ts:47-48 | a minus sign before a rendered number reads back as its negation |
| Text.ParseIntNonNumeric | backend/src/api/note/note.controller.ts:47-48 | text that starts with no white space, sign or digit is `NaN` |
| Text.ParseInt | backend/src/api/note/note.controller.ts:47-48 | `parseInt(s, 10)` is `NaN` exactly when, after leading white space and at most one sign, no digit follows; a negative result needs a leading minus |
| Codec.DecodeEncode | backend/src/Helper/auth.helper.ts:20-35 | the token text form decodes to the fields it encodes and contains no space, so it survives the `Bearer ` header |
| Codec.EncodeDecode | backend/src/middleware/auth.middleware.ts:40-45 | any text that decodes is the encoding of what it decodes to: no two texts read as the same token |
| Codec.EncodeInjective | backend/src/Helper/auth.helper.ts:20-35 | different field sequences have different text forms |
| Jwt.Sign | backend/src/Helper/auth.helper.ts:20-35 | a signed token carries the signer's secret and subject, expires exactly `lifetime` seconds after issue, and its serialization reads back as the same token |
| Jwt.Verify | backend/src/middleware/auth.middleware.ts:40-47 | `Valid(sub)` or `Expired` only for well-formed text signed with the configured secret; expired exactly from `exp` on; a valid verdict carries the token's subject |
| Jwt.ParseSerialize | backend/src/Helper/auth.helper.ts:20-35 | serialization round-trips, and the text is non-empty and free of spaces |
| Jwt.Parse | backend/src/middleware/auth.middleware.ts:40-45 | only the serialization of a token reads back as a token, and it reads back as exactly that token: no other text is accepted |
| Jwt.SerializeInjective | backend/src/Helper/auth.helper.ts:20-35 | distinct tokens have distinct texts |
| Jwt.VerifySigned | backend/src/middleware/auth.middleware.ts:40-47 | a freshly signed token verifies to its subject until `iat + lifetime` and is expired from then on |
| Jwt.NoCrossValidation | backend/src/middleware/auth.middleware.ts:94-97 | a token signed with one secret is `Invalid`, never `Expired`, under any other secret at any time |
| Jwt.ValidOnlyIfSigned | backend/src/middleware/auth.middleware.ts:40-45 | only the serialization of a token signed with the verifying secret for that subject can be accepted |
| UserModel.CastObjectId | backend/src/models/user.model.ts:18-49 | casting a valid ObjectId string gives a valid ObjectId in its lower-case stored form |
| UserModel.CompareHash | backend/src/models/user.model.ts:62-66 | `comparePassword` on a stored digest holds exactly when the candidate is the hashed password, whatever the salt |
| UserModel.NormalizeEmailIdempotent | backend/src/models/user.model.ts:19-24 | normalising a stored email again changes nothing, and a normalised email has no upper-case ASCII letter |
| UserModel.NormalizedIsLower | backend/src/models/user.model.ts:23-24 | every character of a normalised email is its own lower case |
| UserModel.NormalizeEmail | backend/src/models/user.model.ts:23-24 | a normalised email has no upper-case ASCII letter and neither starts nor ends with white space |
| UserModel.Hash | backend/src/models/user.model.ts:52-59 | a digest carries bcrypt's `$2a$10$` version-and-cost prefix followed by the salted digest |
| UserModel.Compare | backend/src/models/user.model.ts:62-66 | `bcrypt.compare` throws exactly when there is no stored hash; a stored string that is not a digest never matches |
| UserModel.ComparePassword | backend/src/models/user.model.ts:62-66 | `comparePassword` throws exactly when the document was loaded without a password; the password that was hashed, under any salt, matches |
| UserModel.LowerHasNoUpper | backend/src/models/user.model.ts:23 | a lower-cased string has no upper-case ASCII letter |
| UserModel.TrimKeepsChars | backend/src/models/user.model.ts:24 | trimming introduces no character that was not in the input |
| UserModel.EmailPatternShape | backend/src/models/user.model.ts:25 | whatever `/.+@.+\..+/` accepts has at least five characters, an `@` and a `.`; `u@x.com` passes and `a@b` does not |
| UserModel.EmailErrors | backend/src/models/user.model.ts:19-26 | no error exactly when the email is non-empty and matches the pattern; at most one error is reported |
| UserModel.PasswordErrors | backend/src/models/user.model.ts:27-30 | no error exactly when a password of at least six characters is present |
| UserModel.ValidationErrors | backend/src/models/user.model.ts:18-32 | a document validates exactly when both paths do; a missing password is always reported as required |
| UserModel.PreSave | backend/src/models/user.model.ts:52-59 | an unmodified password is left exactly as stored; a modified one is replaced by its digest; a modified missing one throws |
| UserModel.ResaveKeepsDigest | backend/src/models/user.model.ts:52-66 | saving again without touching the password keeps the first digest, which still compares equal to the original password |
| UserModel.Project | backend/src/models/user.model.ts:31 | `select: false`: the password appears in a result only when selected, and nothing else differs from the stored record |
| UserModel.FindByEmail | backend/src/models/user.model.ts:19-24 | a lookup by email, after normalising the filter, finds a record exactly when one holds the normalised email |
| UserModel.FindById | backend/src/middleware/auth.middleware.ts:69-75 | a non-ObjectId is a CastError; otherwise the result is found exactly when a record has the cast id, and it carries no password |
| UserModel.Insert | backend/src/models/user.model.ts:19-26 | the unique indexes refuse exactly a record whose id or email is taken; otherwise the record is appended and uniqueness is preserved |
| UserModel.AppendFresh | backend/src/models/user.model.ts:19-26 | appending a record whose id and email are new keeps ids and emails unique, and the record is last |
| UserModel.Replace | backend/src/api/auth/google.strategy.ts:45-50 | saving a loaded document changes only its own record and keeps the collection well formed |
| AuthHelper.GenerateAndSetTokens | backend/src/Helper/auth.helper.ts:11-46 | fails with "Token secrets are not configured." exactly when a secret is unset; otherwise the access token is for the user under `JWT_SECRET` for 15 minutes, and exactly one `refreshToken` cookie carries the 7-day refresh token, with a `maxAge` equal to the token's lifetime in milliseconds |
| AuthHelper.AccessTokenIsNotRefreshToken | backend/src/Helper/auth.helper.ts:45 | the returned access token is never the refresh token, even under equal secrets |
| AuthHelper.IssuedTokensVerify | backend/src/Helper/auth.helper.ts:20-35 | both tokens verify to the user under their own secret for exactly their lifetimes; with different secrets neither verifies under the other's |
| AuthGate.BearerTokenOf | backend/src/middleware/auth.middleware.ts:33-37 | the header a client builds from a space-free token passes the `Bearer ` test and yields that token back |
| AuthGate.BearerToken | backend/src/middleware/auth.middleware.ts:37 | `split(" ")[1]` of a `Bearer ` header is the text after the prefix up to the next space or the end, and holds no space |
| AuthGate.BearerFields | backend/src/middleware/auth.middleware.ts:37 | a header starting with `Bearer ` splits into `Bearer` followed by the fields of the rest |
| AuthGate.Reject | backend/src/middleware/auth.middleware.ts:33-35 | a rejection is one 401 with a gate message and no `next` |
| AuthGate.Forward | backend/src/middleware/auth.middleware.ts:78-85 | a forward after refresh ends with exactly one `next`, sends nothing and attaches the user |
| AuthGate.Refresh | backend/src/middleware/auth.middleware.ts:51-93 | the refresh branch always settles: one `next` with a user, or one 401 with a gate message |
| AuthGate.Authenticate | backend/src/middleware/auth.middleware.ts:26-99 | on every path exactly one of two things happens: `next` is called once with `req.user` set and nothing sent, or a single 401 is sent |
| AuthGate.MissingBearerRejected | backend/src/middleware/auth.middleware.ts:32-35 | a missing header, or one not starting with exactly `Bearer `, gets "Authorization token missing or invalid." |
| AuthGate.ValidAccessPasses | backend/src/middleware/auth.middleware.ts:40-45 | an unexpired access token passes as its subject with `next` alone: no cookie, no header |
| AuthGate.InvalidAccessIgnoresRefresh | backend/src/middleware/auth.middleware.ts:94-97 | any non-expiry failure is "Invalid token. Please log in again." whatever the cookie and the store hold |
| AuthGate.RefreshTokenAsBearerRejected | backend/src/middleware/auth.middleware.ts:47 | with distinct secrets, a refresh token presented as the Bearer token takes the invalid branch, never the refresh one |
| AuthGate.ExpiredWithoutCookie | backend/src/middleware/auth.middleware.ts:51-59 | an expired access token with no refresh cookie gets "Access token expired and no refresh token provided." |
| AuthGate.ExpiredWithBadRefresh | backend/src/middleware/auth.middleware.ts:61-66 | an expired access token with a refresh cookie that does not verify gets "Invalid or expired refresh token. Please log in again." |
| AuthGate.RefreshForUnknownUser | backend/src/middleware/auth.middleware.ts:69-75 | a verified refresh token for no stored user gets "Invalid refresh token." and no tokens |
| AuthGate.SilentRefresh | backend/src/middleware/auth.middleware.ts:69-85 | on a silent refresh the request proceeds as the refresh token's subject; the new cookie and `X-New-Access-Token` carry the helper's new pair; the new access token is valid now and differs from the expired one |
| AuthGate.RefreshFindsUser | backend/src/middleware/auth.middleware.ts:69-85 | a verified refresh cookie for a stored user forwards as that user with the helper's tokens |
| AuthController.CreateLocalUser | backend/src/api/auth/auth.controller.ts:21-22 | a new local user is created exactly when validation passes and the id and normalised email are new; it stores the digest, never the password |
| AuthController.RegisterAsWritten | backend/src/api/auth/auth.controller.ts:7-37 | the handler as written sends exactly one response, sets no cookie and never returns a token; an exception escapes it exactly when the email is taken, since its next send finds the headers already sent |
| AuthController.RegisterExistingAsWritten | backend/src/api/auth/auth.controller.ts:12-35 | with a taken email the written handler sends the 409 and leaves the collection unchanged; creation then fails on the unique index, and the `catch` block's 500 throws out of the handler instead of being sent |
| AuthController.Register | backend/src/api/auth/auth.controller.ts:7-37 | registration sends exactly one response, sets no cookie and never returns an access token |
| AuthController.RegisterExisting | backend/src/api/auth/auth.controller.ts:12-18 | the corrected handler sends the 409 and returns; both versions deliver the same response and collection, only the written one lets an exception escape, and they coincide for a new email |
| AuthController.RegisterCreates | backend/src/api/auth/auth.controller.ts:20-30 | a valid new account appends exactly one record, holding the digest; the 201 carries only `userId` and `email` |
| AuthController.Login | backend/src/api/auth/auth.controller.ts:40-74 | login never changes the collection; it sets a cookie exactly when it answers 200, and a 200 carries the helper's access token for the user's id |
| AuthController.LoginFailuresIndistinguishable | backend/src/api/auth/auth.controller.ts:45-56 | an unknown email and a wrong password give the identical 401 "Invalid credentials." with no tokens |
| AuthController.FoundByEmail | backend/src/api/auth/auth.controller.ts:43 | with unique emails, the login lookup returns the one record holding the email, password selected |
| AuthController.LoginSucceeds | backend/src/api/auth/auth.controller.ts:59-67 | the right password gives 200 with the stored id, email and the helper's access token, which verifies to the user; the refresh token goes only into the cookie |
| AuthController.LoginWithoutStoredPassword | backend/src/api/auth/auth.controller.ts:52-73 | a passwordless account makes the comparison throw: the answer is 500 "Failed to login user." |
| AuthController.RegisterThenLogin | backend/src/api/auth/auth.controller.ts:7-74 | logging in right after a successful registration, with the same credentials, succeeds for the new id |
| AuthController.RegisteredRecord | backend/src/api/auth/auth.controller.ts:20-22 | a registration keeps emails and ids unique, and the new last record holds the normalised email and the password's digest |
| AuthController.Logout | backend/src/api/auth/auth.controller.ts:76-84 | logout always answers 200, needs no user and writes nothing; its one cookie operation clears `refreshToken` with the refresh cookie's attributes |
| AuthController.LogoutClearsLoginCookie | backend/src/api/auth/auth.controller.ts:76-84 | the cookie logout clears has the name and `httpOnly`/`secure`/`sameSite` that login set it with |
| GoogleAuth.Strategy | backend/src/api/auth/google.strategy.ts:19-58 | a profile without an email fails with "Google account has no email"; success names a stored record's id and email; failure leaves the collection alone |
| GoogleAuth.Create | backend/src/api/auth/google.strategy.ts:36-44 | a first sign-in appends exactly the passwordless Google record and authenticates as it; a failed creation writes nothing |
| GoogleAuth.CreateAsWritten | backend/src/api/auth/google.strategy.ts:36-44 | creation against the declared user schema appends the Google record if it ever succeeds |
| GoogleAuth.CreateAsWrittenAlwaysFails | backend/src/models/user.model.ts:27-30 | against the declared schema the required password fails every Google creation |
| GoogleAuth.NoEmailNoStoreAccess | backend/src/api/auth/google.strategy.ts:26-31 | without an email the outcome does not depend on the store and nothing is written |
| GoogleAuth.FirstSignInCreates | backend/src/api/auth/google.strategy.ts:36-44 | with no matching record exactly one passwordless, linked user is appended, and the session user is its id and stored email |
| GoogleAuth.CreateBranch | backend/src/api/auth/google.strategy.ts:34-44 | once the lookup finds nothing and validation and the indexes pass, the callback appends the Google record |
| GoogleAuth.StrategyCreates | backend/src/api/auth/google.strategy.ts:34-36 | with an email and no match, the callback's outcome is the creation's |
| GoogleAuth.CreateSucceeds | backend/src/api/auth/google.strategy.ts:36-44 | a record with a new id and email passes the unique indexes and is appended |
| GoogleAuth.SignInLinks | backend/src/api/auth/google.strategy.ts:45-50 | a matching record with no Google id gets the Google id and provider in place; nothing else changes and nothing is added |
| GoogleAuth.SignInPassesThrough | backend/src/api/auth/google.strategy.ts:45 | a matching record that already has a Google id, even another one, is left unchanged |
| GoogleAuth.SignInIdempotent | backend/src/api/auth/google.strategy.ts:34-53 | a second sign-in with the same profile gives the same user and changes nothing |
| GoogleAuth.AgainAfterCreate | backend/src/api/auth/google.strategy.ts:34-44 | after a creating sign-in the next one finds the new record and writes nothing |
| GoogleAuth.AppendedFoundAgain | backend/src/api/auth/google.strategy.ts:34 | a record appended for the profile behind non-matching ones is the one the next lookup finds |
| GoogleAuth.AgainAfterMatch | backend/src/api/auth/google.strategy.ts:45-53 | after a linking or passing sign-in the next one returns the same user and writes nothing |
| GoogleAuth.SecondSignIn | backend/src/api/auth/google.strategy.ts:34-53 | a first matching record that is already linked is returned as it is |
| GoogleAuth.Callback | backend/src/api/auth/google.routes.ts:25-48 | no user gives 401; a cookie is set exactly when the route redirects; a redirect goes to `FRONTEND_URL` (else `http://localhost:3000`) plus `/login-success?token=` with the helper's access token; every other answer is the handler's own 401 or 500 |
| GoogleAuth.CallbackUnknownUser | backend/src/api/auth/google.routes.ts:34-37 | an authenticated id with no stored record gives 500 "User record not found" and no tokens |
| GoogleAuth.CallbackRedirects | backend/src/api/auth/google.routes.ts:39-43 | the URL carries the helper's access token, which verifies to the user; the refresh token is only in the cookie and differs from it |
| GoogleAuth.CallbackRoute | backend/src/api/auth/google.routes.ts:19-48 | a refused consent redirects to `/login`; an error from the strategy goes to `next(err)`, so the handler never runs and Express's default error page answers 500 with nothing written; an authenticated user is handed to the handler |
| GoogleAuth.FirstSignInEndToEnd | backend/src/api/auth/google.routes.ts:19-48 | a first Google sign-in with a new valid address creates the account and ends at the front end with a valid access token for it |
| NoteController.CreateNote | backend/src/api/note/note.controller.ts:9-36 | 401 without a user; 201 exactly for an ObjectId owner and a new id; the new note is appended, owned by the caller, unpinned, unarchived, undeleted and untagged; anything else writes nothing |
| NoteController.QueryNumber | backend/src/api/note/note.controller.ts:47-48 | `parseInt(q) \|\| fallback` is never zero when the fallback is not |
| NoteController.QueryNumberOfDecimal | backend/src/api/note/note.controller.ts:47-48 | a positive decimal page or limit is read as itself, with a minus sign as its negation, in unbounded integers (the limits of JavaScript numbers are under Left out) |
| NoteController.QueryNumberFallback | backend/src/api/note/note.controller.ts:47-48 | a missing, zero or non-numeric value gives the default |
| NoteController.Window | backend/src/api/note/note.controller.ts:51-54 | `.skip(k).limit(n)` is the run of at most `n` elements starting at `k`, in order |
| NoteController.WindowAdjacent | backend/src/api/note/note.controller.ts:51-54 | two adjacent windows make the window spanning both |
| NoteController.Owned | backend/src/api/note/note.controller.ts:51 | the caller's notes are all owned by the caller, whatever their flags |
| NoteController.ListNotes | backend/src/api/note/note.controller.ts:39-75 | 401 without a user; a listing holds at most `limit` of the caller's notes; `totalNotes` counts all of them; a negative skip or a bad owner id is a 500 |
| NoteController.PageStartNext | backend/src/api/note/note.controller.ts:49 | each page starts one limit further on |
| NoteController.ListPage | backend/src/api/note/note.controller.ts:47-68 | page `p` of limit `l` is the `l` of the caller's notes after the first `(p-1)*l`, with the total of all of them |
| NoteController.ConsecutivePages | backend/src/api/note/note.controller.ts:47-54 | consecutive pages are adjacent stretches of the caller's notes: paging never skips or repeats a note |
| NoteController.TagStrings | backend/src/api/note/note.controller.ts:276-280 | the tags read from a string array are those strings, in order |
| NoteController.AddToSet | backend/src/api/note/note.controller.ts:276-280 | existing tags stay as a prefix; the result holds exactly the old and the added tags; only absent tags are appended; no duplicate is introduced |
| NoteController.AddToSetPresent | backend/src/api/note/note.controller.ts:276-280 | adding tags that are all present already changes nothing |
| NoteController.AddToSetIdempotent | backend/src/api/note/note.controller.ts:276-280 | adding the same tags twice is adding them once |
| NoteController.Apply | backend/src/api/note/note.controller.ts:131-280 | no handler changes a note's id, owner or background |
| NoteController.Handle | backend/src/api/note/note.controller.ts:78-298 | errors write nothing; a 200 answers a note with the requested id owned by the caller; only such a note is ever modified |
| NoteController.GuardFirst | backend/src/api/note/note.controller.ts:115-123 | without a user id every handler answers 401 before touching the collection |
| NoteController.MalformedIdRejected | backend/src/api/note/note.controller.ts:89-92 | a malformed `:id` is 400 "Invalid note ID." before any lookup |
| NoteController.ForeignNoteLooksMissing | backend/src/api/note/note.controller.ts:94-98 | another user's note gives the same 404 "Note not found." as an empty collection and is never modified |
| NoteController.HandleFinds | backend/src/api/note/note.controller.ts:131-143 | the caller's note with the id is the one answered and updated; every other note stays |
| NoteController.TrashIdempotent | backend/src/api/note/note.controller.ts:174-178 | moving a note to the trash twice leaves the collection as once, with the same answer |
| NoteController.StatusCopiesOnlyBooleans | backend/src/api/note/note.controller.ts:217-226 | only JSON booleans are copied into `isPinned`/`isArchived`; any other value, `"true"` included, leaves the flag; no other field changes |
| NoteController.EditTrims | backend/src/models/note.model.ts:33-42 | an edit stores title and content trimmed and touches nothing else |
| NoteController.CreatedNoteReadable | backend/src/api/note/note.controller.ts:78-110 | a note just created is found by its owner under its id and by no other user |
| Joi.Field | backend/src/common/middleware/validation.middleware.ts:11 | a body member is read exactly when one with that name is present, and its value is that member's |
| Joi.FieldAt | backend/src/common/middleware/validation.middleware.ts:11 | the first member with a name is the one read |
| Joi.RuleErrors | backend/src/api/auth/auth.joi.ts:6-17 | a non-empty string gets no message exactly when every chained rule passes, and at most one per rule |
| Joi.NumberErrors | backend/src/api/note/note.joi.ts:14-17 | a number gets no message exactly when it is integral if required and within the bounds |
| Joi.ValueErrors | backend/src/common/middleware/validation.middleware.ts:11-16 | a value gets no message exactly when the schema accepts it, by the direct definition of acceptance |
| Joi.ItemErrors | backend/src/api/note/note.joi.ts:33-35 | array items get no message exactly when every item is accepted |
| Joi.KeyErrors | backend/src/common/middleware/validation.middleware.ts:11-16 | a key gets no message exactly when it is absent and optional, or present and accepted |
| Joi.DeclaredErrors | backend/src/common/middleware/validation.middleware.ts:11-16 | the declared keys get no message exactly when every key accepts |
| Joi.UnknownErrors | backend/src/common/middleware/validation.middleware.ts:11-16 | no message exactly when every member is declared; at most one per member |
| Joi.Errors | backend/src/common/middleware/validation.middleware.ts:11-16 | Joi reports nothing exactly when the object schema accepts the body |
| Joi.TwoKeys | backend/src/common/middleware/validation.middleware.ts:11-16 | with `abortEarly: false`, the messages are the first key's, then the second's, then the unknown members' |
| Joi.TwoMessages | backend/src/common/middleware/validation.middleware.ts:13-16 | one message per key and no unknown member give those two messages, in key order |
| Joi.LastUnknown | backend/src/common/middleware/validation.middleware.ts:13-16 | a third, undeclared member gets exactly the "is not allowed" message quoting its name |
| Joi.TwoKeysAccept | backend/src/common/middleware/validation.middleware.ts:11 | an object holding exactly the two declared keys is accepted exactly when both members are |
| Joi.EmptyArrayTooShort | backend/src/api/note/note.joi.ts:33-35 | an empty array against a positive minimum gets exactly the default "must contain at least" message |
| Joi.FirstOfTwoAccepts | backend/src/api/note/note.joi.ts:28-31 | with the second key optional, an object holding only the first is accepted exactly when that member is valid |
| Joi.NoneRequired | backend/src/api/note/note.joi.ts:28-31 | the empty object is accepted when no key is required |
| Joi.OneKey | backend/src/common/middleware/validation.middleware.ts:11-16 | a one-key schema reports that key's messages, then the unknown members' |
| Joi.StringMember | backend/src/api/auth/auth.joi.ts:6-17 | a present, non-empty string member is checked against its rules only |
| Joi.OneRule | backend/src/api/auth/auth.joi.ts:6-17 | a single rule reports its message exactly when it fails |
| Joi.Validate | backend/src/common/middleware/validation.middleware.ts:8-28 | exactly one of `next` or a response; `next` exactly when the schema accepts the body; otherwise a 400 "Validation failed." carrying every violation |
| Joi.ValidateRefuses | backend/src/common/middleware/validation.middleware.ts:13-25 | a body with violations is answered with all of them |
| Joi.Converted | backend/src/common/middleware/validation.middleware.ts:11 | Joi's converted value is an object that starts with every member sent, by name and in order |
| Joi.ConvertFields | backend/src/common/middleware/validation.middleware.ts:11 | conversion keeps each member's name and position |
| Joi.Defaults | backend/src/api/note/note.joi.ts:14-17 | defaults are added only for absent keys |
| RequestSchemas.PairFields | backend/src/api/auth/auth.joi.ts:6-31 | a two-member body exposes its two values under their names |
| RequestSchemas.EmailMember | backend/src/api/auth/auth.joi.ts:7-11 | an empty email gets "Email is required."; a malformed one gets "Email must be a valid email address."; a valid one gets nothing |
| RequestSchemas.RegisterPasswordMember | backend/src/api/auth/auth.joi.ts:12-16 | the registration password is required and needs at least six characters, with the schema's messages |
| RequestSchemas.LoginPasswordMember | backend/src/api/auth/auth.joi.ts:26-30 | the login password only needs to be non-empty |
| RequestSchemas.Credentials | backend/src/api/auth/auth.joi.ts:6-31 | a credentials body's messages are the email's, then the password's |
| RequestSchemas.RegisterAccepts | backend/src/api/auth/auth.joi.ts:6-17 | registration accepts exactly a non-empty valid email and a password of at least six characters |
| RequestSchemas.LoginAccepts | backend/src/api/auth/auth.joi.ts:20-31 | login accepts exactly a non-empty valid email and any non-empty password |
| RequestSchemas.ShortPasswordLoginOnly | backend/src/api/auth/auth.joi.ts:12-30 | a 1-5 character password passes login but fails registration with exactly the length message |
| RequestSchemas.RegisterReportsEveryViolation | backend/src/common/middleware/validation.middleware.ts:11-25 | a malformed email with a short password gets one 400 listing both messages, in key order |
| RequestSchemas.RegisterViolations | backend/src/api/auth/auth.joi.ts:6-17 | a malformed email with a short password gets both messages, in key order |
| RequestSchemas.CredentialsDeclared | backend/src/api/auth/auth.joi.ts:6-31 | both credential members are declared by both sign-in schemas |
| RequestSchemas.RegisterMembers | backend/src/api/auth/auth.joi.ts:6-17 | a malformed email and a short password each get their own message |
| RequestSchemas.MissingCredentials | backend/src/api/auth/auth.joi.ts:7-16 | an empty body is refused by both sign-in schemas with "Email is required." and "Password is required." |
| RequestSchemas.MissingBoth | backend/src/api/auth/auth.joi.ts:6-31 | either sign-in schema refuses an empty body with both required messages |
| RequestSchemas.UnknownMemberRejected | backend/src/api/auth/auth.joi.ts:6-17 | an undeclared member is refused by name even when the credentials are acceptable |
| RequestSchemas.OnlyLastUnknown | backend/src/api/auth/auth.joi.ts:6-31 | after the two credentials, any other member is reported as not allowed, by name |
| RequestSchemas.NoteBody | backend/src/api/note/note.joi.ts:4-26 | a title-and-content body's messages are the title's, then the content's |
| RequestSchemas.CreateTitleMember | backend/src/api/note/note.joi.ts:5-8 | the create title gets "Title is required." exactly when empty |
| RequestSchemas.CreateContentMember | backend/src/api/note/note.joi.ts:9-11 | any string content, the empty one included, passes create |
| RequestSchemas.UpdateTitleMember | backend/src/api/note/note.joi.ts:20-22 | an update title gets Joi's default empty message exactly when empty |
| RequestSchemas.UpdateContentMember | backend/src/api/note/note.joi.ts:23-25 | update content needs at least six characters, with the schema's message; empty content gets Joi's default |
| RequestSchemas.CreateNoteAccepts | backend/src/api/note/note.joi.ts:4-12 | a new note is accepted exactly when its title is non-empty; content may be "" |
| RequestSchemas.UpdateNoteAccepts | backend/src/api/note/note.joi.ts:19-26 | an update with both members is accepted exactly for a non-empty title and content of at least six characters |
| RequestSchemas.ShortContentCreateOnly | backend/src/api/note/note.joi.ts:9-25 | content of 1-5 characters passes create but fails update with exactly the length message |
| RequestSchemas.EmptyContentUpdate | backend/src/api/note/note.joi.ts:23-25 | empty update content gets Joi's default message, not the schema's |
| RequestSchemas.TitleMinimumNeverReported | backend/src/api/note/note.joi.ts:20-22 | the update title's own minimum-length message can never be produced, for any body |
| RequestSchemas.UpdateTitleQuoted | backend/src/api/note/note.joi.ts:20-22 | every update-title message is a Joi default starting with the quoted label |
| RequestSchemas.UpdateContentQuoted | backend/src/api/note/note.joi.ts:23-25 | every update-content message is a quoted default or the schema's own length message |
| RequestSchemas.UnknownQuoted | backend/src/common/middleware/validation.middleware.ts:11-16 | every unknown-member message starts with the quoted member name |
| RequestSchemas.StatusAccepts | backend/src/api/note/note.joi.ts:28-31 | the status schema accepts the empty body, and a flag exactly when it converts to a boolean |
| RequestSchemas.StringFlagPassesButIsIgnored | backend/src/api/note/note.controller.ts:217-226 | `{"isPinned": "true"}` passes validation, but the handler, seeing the body as sent, leaves the note unchanged |
| RequestSchemas.StringFlagPasses | backend/src/api/note/note.joi.ts:28-31 | the string `"true"` is accepted as a boolean flag |
| RequestSchemas.TagsAccepts | backend/src/api/note/note.joi.ts:33-35 | the tags schema accepts exactly a non-empty array of non-empty strings |
| RequestSchemas.ValidatedTagsAreStrings | backend/src/api/note/note.controller.ts:271-274 | whatever passes the tags schema also passes the handler's own array-of-strings check |
| RequestSchemas.TagsMissingOrEmpty | backend/src/api/note/note.joi.ts:33-35 | a missing tag list is "required" and an empty one "must contain at least 1 items" |
| RequestSchemas.TagsEmpty | backend/src/api/note/note.joi.ts:33-35 | an empty tag list gets exactly the minimum-items message |
| RequestSchemas.PaginationAccepts | backend/src/api/note/note.joi.ts:14-17 | pagination accepts the empty query, and exactly integral pages from 1 and integral limits in 1..100 |
| RequestSchemas.PaginationDefaultsNotForwarded | backend/src/common/middleware/validation.middleware.ts:11 | Joi fills in `page: 1` and `limit: 10` for an empty query, but the body forwarded is the empty one |
| ZodForms.FieldIssues | frontend/src/types/validationSchemas.ts:4-10 | a field has no issue exactly when every check passes, and each failed check's message is among its issues |
| ZodForms.Shown | frontend/src/types/validationSchemas.ts:4-10 | a field shows a message exactly when it has an issue, and the message shown is one of its issues |
| ZodForms.LoginSameAsRegister | frontend/src/types/validationSchemas.ts:12-18 | the login form imposes exactly the registration form's rules |
| ZodForms.FormAccepts | frontend/src/types/validationSchemas.ts:4-10 | a form is accepted exactly when the email is non-empty and valid and the password has at least six characters |
| ZodForms.RequiredPasswordNeverShown | frontend/src/types/validationSchemas.ts:6-9 | the one-character password check is subsumed: whenever it fails the six-character one fails first, so "Password is required." is never shown |
| ZodForms.ShownAfter | frontend/src/types/validationSchemas.ts:4-10 | issues of other fields in front do not change what a field shows |
| ZodForms.AcceptedFormRegisters | frontend/src/types/validationSchemas.ts:4-10 | a form the client accepts passes the server's registration schema, given compatible email checks |
| ZodForms.LoginFormStricterThanServer | frontend/src/types/validationSchemas.ts:12-18 | a 1-5 character password passes the server's login schema but never leaves the login form |
| ZodForms.ShortPasswordIssue | frontend/src/types/validationSchemas.ts:15-17 | a valid email with a 1-5 character password has exactly one issue, the length message |
| NotesSlice.WithoutId | frontend/src/features/notes/notesSlice.ts:200-207 | filtering by id keeps exactly the entries with another id |
| NotesSlice.StatusUpdatedAsWritten | frontend/src/features/notes/notesSlice.ts:87-98 | the status case as the slice runs it: the note goes in front of the list its pin flag names, the old contents stay behind it, and the other list loses every copy; archive, trash, paging and flags are untouched |
| NotesSlice.Reduce | frontend/src/features/notes/notesSlice.ts:64-224 | the slice's reducer, status case as written: pending and rejected cases touch no list; only tracked requests move loading or error; only an archive fetch changes the archive; only trash fetches, restores, deletes and soft deletes change the trash |
| NotesSlice.WithoutIdUnchanged | frontend/src/features/notes/notesSlice.ts:91-96 | filtering by id leaves a list as it is exactly when no entry has the id |
| NotesSlice.AsWrittenAgreesExactlyWhenAbsent | frontend/src/features/notes/notesSlice.ts:87-98 | the status case as written equals the corrected one exactly when the list the note enters holds no copy of it |
| NotesSlice.MoveUpdated | frontend/src/features/notes/notesSlice.ts:87-98 | the correction of the status case (Finding 3), not what the slice runs: the note goes in front of the list its pin flag names and out of both; archive, trash, paging and flags are untouched |
| NotesSlice.LoadingCycle | frontend/src/features/notes/notesSlice.ts:68-81 | a tracked pending case sets loading and clears the error; its rejection records the payload; nothing else moves |
| NotesSlice.CreatedPrepends | frontend/src/features/notes/notesSlice.ts:72-76 | a created note is prepended to the active list; the other lists stay |
| NotesSlice.ArchivingPinnedNoteDuplicates | frontend/src/features/notes/notesSlice.ts:91-97 | the status case as written, and so the slice's reducer, leaves two copies of a pinned note whose status changes while it stays pinned |
| NotesSlice.WithoutIdUnique | frontend/src/features/notes/notesSlice.ts:200-207 | filtering by id keeps ids unique |
| NotesSlice.UniqueConcat | frontend/src/features/notes/notesSlice.ts:87-98 | two lists have unique ids together exactly when each does and they share none |
| NotesSlice.RemoveFromBoth | frontend/src/features/notes/notesSlice.ts:212-223 | taking an id out of both shown lists keeps their ids unique together |
| NotesSlice.InsertUnique | frontend/src/features/notes/notesSlice.ts:87-98 | a note whose id is in neither shown list can go in front of either |
| NotesSlice.StatusKeepsShownUnique | frontend/src/features/notes/notesSlice.ts:87-98 | the corrected status update keeps each shown note once, the updated one included |
| NotesSlice.StatusLeavesLoading | frontend/src/features/notes/notesSlice.ts:83-98 | a status update does not reset the loading flag and leaves archive and trash alone |
| NotesSlice.FirstPageForgets | frontend/src/features/notes/notesSlice.ts:112-174 | a first page of any list replaces it, whatever was shown before |
| NotesSlice.MainFetchLeavesLoading | frontend/src/features/notes/notesSlice.ts:105-174 | the archive and trash fetches clear loading; the main fetch keeps it set |
| NotesSlice.Fetches | frontend/src/features/notes/notesSlice.ts:112-123 | one fetch action per page, in order |
| NotesSlice.ScrollShowsPrefix | frontend/src/features/notes/notesSlice.ts:112-123 | fetching the server's pages 1..n in order shows exactly the first n pages of the caller's notes, in server order |
| NotesSlice.ScrollStep | frontend/src/features/notes/notesSlice.ts:112-123 | page `n` extends what is shown by the next window of the server's notes |
| NotesSlice.RestoredMoves | frontend/src/features/notes/notesSlice.ts:181-195 | a restored note leaves the trash, every copy, and is prepended to the list its pin flag names |
| NotesSlice.DeletedForeverTrashOnly | frontend/src/features/notes/notesSlice.ts:200-207 | deleting forever removes exactly that id's entries from the trash and changes nothing else |
| NotesSlice.SoftDeletedMoves | frontend/src/features/notes/notesSlice.ts:212-223 | a soft delete takes the note out of both shown lists and prepends it to the trash; the archive is untouched |
| NotesSlice.TrashThenRestore | frontend/src/features/notes/notesSlice.ts:181-223 | trashing then restoring shows the note again exactly once, and it is out of the trash |
| NotesStore.ReplaceFirst | frontend/src/store/notes/notesSlice.ts:182-187 | the update replaces in place: same length; only entries with the note's id may change; nothing changes when the id is absent; otherwise the note is present |
| NotesStore.ReplaceFirstAgrees | frontend/src/store/notes/notesSlice.ts:182-187 | the replacement equals `findIndex` followed by assignment at the index found |
| NotesStore.Reduce | frontend/src/store/notes/notesSlice.ts:143-193 | pending sets loading and clears the error; rejected records the payload; every settled case clears loading; fulfilled cases keep the error |
| NotesStore.Authorize | frontend/src/store/notes/notesSlice.ts:52-58 | no request without a non-empty token; otherwise the header is exactly `Bearer ` followed by the token |
| NotesStore.SentTokenReachesGate | frontend/src/store/notes/notesSlice.ts:58 | the header a thunk sends passes the server gate's `Bearer ` test and yields the same token |
| NotesStore.RejectionMessage | frontend/src/store/notes/notesSlice.ts:64-66 | a rejection message is the server's when it sent a non-empty one, else the thunk's fallback, and so never empty |
| NotesStore.Settle | frontend/src/store/notes/notesSlice.ts:44-132 | a thunk rejects with its own non-empty message, or fulfils with its own kind of answer |
| NotesStore.NoTokenNoRequest | frontend/src/store/notes/notesSlice.ts:52-54 | without a token the outcome does not depend on the server and the error is "No access token found." |
| NotesStore.StatusUpdateInPlace | frontend/src/store/notes/notesSlice.ts:173-193 | a status update keeps length and order and clears loading and error |
| NotesStore.CreateAndFetch | frontend/src/store/notes/notesSlice.ts:143-170 | a created note is prepended; a fetch replaces the list |
| AuthStore.GetInitialUser | frontend/src/store/auth/authSlice.ts:46-57 | no user when nothing is stored, or the text is empty or `undefined`; a user only when the stored text parses to it |
| AuthStore.InitialState | frontend/src/store/auth/authSlice.ts:46-65 | the state at page load is not loading and has no error; it holds a token exactly when one is stored, that token, and a user only when the stored text parses to it |
| AuthStore.Reduce | frontend/src/store/auth/authSlice.ts:130-210 | the reducer writes only the `user` and `accessToken` storage keys and keeps every other; apart from clearing the error, it is loading exactly after a pending case |
| AuthStore.OrElse | frontend/src/store/auth/authSlice.ts:85 | the message is the payload when it is non-empty, else the fallback; never empty when the fallback is not |
| AuthStore.Forget | frontend/src/store/auth/authSlice.ts:141-148 | both session keys are removed and every other stored key is kept |
| AuthStore.SetAuthTokensSurvivesReload | frontend/src/store/auth/authSlice.ts:130-140 | storing a session and reloading the page gives back the same session, not loading, no error |
| AuthStore.ClearAuthForgets | frontend/src/store/auth/authSlice.ts:141-148 | clearing forgets the session in memory and storage, and a reload starts signed out |
| AuthStore.ClearAuthErrorOnlyError | frontend/src/store/auth/authSlice.ts:149-151 | clearing the error changes nothing else |
| AuthStore.PendingOnlyLoading | frontend/src/store/auth/authSlice.ts:156-199 | each pending case only sets loading and clears the error |
| AuthStore.RegisterKeepsToken | frontend/src/store/auth/authSlice.ts:160-167 | a registration sets the user but keeps the token, in memory and in storage |
| AuthStore.LoginStoresTokenOnlyWhenPresent | frontend/src/store/auth/authSlice.ts:177-187 | a login takes the answered token or none; storage gets it only when present, else keeps the old one |
| AuthStore.LoginRejectedKeepsMemory | frontend/src/store/auth/authSlice.ts:188-193 | a failed login empties storage but keeps user and token in memory |
| AuthStore.LogoutRejectedKeepsSession | frontend/src/store/auth/authSlice.ts:207-210 | a failed logout keeps session and storage and records only the error |
| AuthStore.ThunkMessagesReachTheStore | frontend/src/store/auth/authSlice.ts:85-193 | the thunks' own fallbacks, not the reducers' shorter ones, are what the store records |
| AuthStore.MirroredStep | frontend/src/store/auth/authSlice.ts:130-210 | every action keeps storage mirroring memory, given login answers that carry a token |
| AuthStore.InitiallyMirrored | frontend/src/store/auth/authSlice.ts:60-65 | the state read at page load mirrors storage |
| AuthStore.ReloadRestoresSession | frontend/src/store/auth/authSlice.ts:46-210 | after any run of actions, a reload restores the session held in memory, except what was never stored |
| AuthStore.TokenlessLoginRevivesOldToken | frontend/src/store/auth/authSlice.ts:177-187 | a login answer without a token leaves the old stored token, which the next reload brings back |
| AuthStore.NothingParsesFromEmpty | frontend/src/store/auth/authSlice.ts:46-57 | the empty string is no token |
| AuthStore.ServerLoginSignsIn | frontend/src/store/auth/authSlice.ts:177-187 | the server's successful login answer signs the client in with a token that verifies to that user |
| AuthStore.IssuedTokenSignsIn | frontend/src/store/auth/authSlice.ts:177-187 | a login answer carrying the helper's token stores it in memory and storage |
| AuthSlice.Frames | frontend/src/features/auth/authSlice.ts:16-41 | start and failure keep the identity; success replaces it and keeps the error; logout clears it and keeps the flags |
| AuthSlice.Reduce | frontend/src/features/auth/authSlice.ts:16-41 | every reducer keeps the identity fields all set or all unset; only start and failure change the error, and only success and logout change the identity |
| AuthSlice.StaleErrorSurvivesSuccess | frontend/src/features/auth/authSlice.ts:20-32 | a failure followed by a success leaves the old error beside the new identity |
| AuthSlice.LogoutWhileLoading | frontend/src/features/auth/authSlice.ts:37-41 | logging out during an attempt keeps the loading flag |
| AuthSlice.RunInvariant | frontend/src/features/auth/authSlice.ts:4-41 | from the initial state the identity fields are all set or all unset, and loading holds exactly when the last non-logout action was `loginStart` |
| AuthSlice.AgreesWithSessionStore | frontend/src/store/auth/authSlice.ts:130-148 | the same sign-in given to both auth slices gives the same identity, and clearing either forgets it |

## Left out

- Cryptography. The JWT library and bcrypt are modelled by an injective text form in which the secret stands for the signature. No strength is claimed. bcrypt's 72-byte truncation and random salts are not modelled: the salt is a parameter.
- Wall-clock time. It is the parameter `now`, in seconds.
- Unicode. `toLowerCase` is modelled on ASCII letters only. Lengths count characters, not UTF-16 code units.
- Email syntax. Joi's address grammar and top-level-domain list, and zod's email pattern, are function parameters.
- Joi conversion. Number conversion reads digit strings only: no sign, exponent or decimal point.
- The pagination schema. It is declared but no route mounts it, so only its own behaviour is modelled.
- The user schema. The model gives records optional `googleId` and `provider` fields, which the strategy uses but the schema does not declare. Under Mongoose's strict mode those two writes would be dropped.
- Toasts, logging and request logging inside the handlers and slices. They are side effects with no bearing on state.
- HTTP I/O of the client thunks. Server answers are inputs to the reducers.
- `JSON.stringify` and `JSON.parse` of the stored user. They are the `UserCodec` parameter.
- The Redux store setup. `frontend/src/app/store.ts` (persistence subscription, root state) is not part of this model.
- Pending and rejected cases the features notes slice does not handle. They leave the state as it is.
- Express, Passport and Mongoose plumbing. This covers server start, CORS, the database connection, route tables, the `/google` start route and the response helpers. A response is modelled as a status, a message and data.
- Note timestamps (`createdAt`, `updatedAt`), collaborators and the purge cron job. They are scheduling and fields no modelled operation reads.
- Note handlers whose bodies are not in `note.controller.ts`: tag removal, collaborators, restore and permanent delete.
- Concurrency. Two refreshes racing to overwrite the cookie cannot happen in a sequential model.
- Exceptions from the database other than a CastError, a duplicate key or a validation failure. Each would be one more 500 branch.
- NoteController.ListNotes: the listing is proved to hold at most `limit` of the caller's notes, taken from the collection. That they are exactly the window at the skip is proved only for positive page and limit (NoteController.ListPage).
- Text.ParseIntDecimal: numbers are unbounded integers. JavaScript's `parseInt` yields a double, exact only below 2^53, and `String(n)` switches to exponent form from 10^21. So `?page=9007199254740993` reads as 9007199254740992 in the application.
- Text.ParseInt: the same limit. The model returns the exact digit value where the application returns the nearest double.
- NoteController.QueryNumberOfDecimal: the same limit applies to page and limit values. In addition, a skip beyond the database driver's 64-bit range makes the query fail, giving a 500 where the model answers with an empty window.
- The Passport error path. The callback route answers a strategy error with Express's default 500 page; its content is not modelled.
- AuthController.RegisterAsWritten: what happens to the exception that escapes after the second send is not modelled. Depending on the Express and Node versions, which are not part of this model, it is an unhandled promise rejection or goes to the default error handler. Either way the client has already received the 409.
- JSON objects with a repeated member name. A body is read by the first member with a name, whereas `JSON.parse` keeps the last, so bodies are taken to have distinct member names.

## Findings

| source | as written | input that shows it | evidently intended | confidence | as-written member | corrected member |
|---|---|---|---|---|---|---|
| backend/src/api/auth/auth.controller.ts:12-22 | after sending the 409 for an existing email, `register` does not return and goes on to create the user; the insert fails on the unique email index, and the `catch` block's 500 then throws because the headers are already sent, so an exception escapes the handler | register with an email already stored | return right after the 409 | not executed | AuthController.RegisterExistingAsWritten | AuthController.RegisterExisting |
| backend/src/models/user.model.ts:27-30 | the Google strategy (google.strategy.ts:36-44) creates users without a password, but the user schema requires one, so every first sign-in with Google fails validation | a first Google sign-in with a new address | a password required only for local accounts | not executed | GoogleAuth.CreateAsWrittenAlwaysFails | GoogleAuth.FirstSignInCreates |
| frontend/src/features/notes/notesSlice.ts:91-97 | on a status update the note is removed only from the list it leaves, never from the list it enters, so a note that stays pinned is prepended a second time | `pinned == [n]`, `items == []`, then an update `n` with `isArchived := true`, still pinned | replace the note's previous copy | not executed | NotesSlice.ArchivingPinnedNoteDuplicates | NotesSlice.StatusKeepsShownUnique |
