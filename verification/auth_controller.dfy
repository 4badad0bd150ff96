/** The local-account handlers: `register`, `login` and `logout`. Each one
    answers through the response helpers (`sendSuccess`, `sendError`); a
    handler's outcome records every response it attempts, the cookies it sets
    or clears, and the user collection afterwards. */
module AuthController {
  import opened Wrappers
  import opened Http
  import opened Jwt
  import opened AuthHelper
  import opened UserModel
  import opened Seqs

  const UserExists := "User already exists"
  const Registered := "User registered successfully."
  const RegisterFailed := "Failed to register user."
  const InvalidCredentials := "Invalid credentials."
  const LoggedIn := "User logged in successfully."
  const LoginFailed := "Failed to login user."
  const LoggedOut := "Logout successful."

  /** The `data` object of a reply: `{userId, email}`, plus `accessToken` for
      a login. */
  datatype AuthData = AuthData(userId: string, email: string, accessToken: Option<string>)

  /** Everything a handler does: the responses it sends, the cookies it sets
      or clears, the user collection afterwards, and whether an exception
      escapes it. An exception escapes when the handler tries to send a
      second response: `res.json` then throws because the headers are already
      sent. */
  datatype Outcome = Outcome(replies: seq<Reply<AuthData>>, cookies: seq<CookieOp>, store: Store, escapes: bool := false)

  /** The response the client receives. */
  function Delivered(o: Outcome): Reply<AuthData>
    requires |o.replies| > 0
  {
    o.replies[0]
  }

  /** `new User({email, password}).save()`: the setters normalise the email,
      the defaults make the account active and not deleted, validation runs,
      the pre-save hook hashes the (modified) password, and the unique indexes
      are checked on insertion. `newId` is the ObjectId the driver assigns and
      `salt` what `bcrypt.genSalt(10)` returns. */
  function CreateLocalUser(store: Store, email: string, password: string, newId: string, salt: nat): (r: Result<(Store, User)>)
    ensures r.Success? ==>
      && r.value.1 == User(newId, NormalizeEmail(email), Some(Hash(password, salt)), None, None, true, false)
      && r.value.0 == store + [r.value.1]
    ensures r.Success? <==>
      && ValidationErrors(NormalizeEmail(email), Some(password)) == []
      && forall i :: 0 <= i < |store| ==> store[i].id != newId && store[i].email != NormalizeEmail(email)
  {
    var email' := NormalizeEmail(email);
    var errs := ValidationErrors(email', Some(password));
    if errs != [] then Failure(errs[0])
    else
      var digest := PreSave(Some(password), true, salt).value;
      var u := User(newId, email', digest, None, None, true, false);
      var store' :- Insert(store, u);
      Success((store', u))
  }

  /** `register` as written: the 409 for an existing email is sent but the
      handler does not return, so it goes on to create the user. Whatever
      happens next, the following send throws (the headers are already
      sent); if that was the 201 the `catch` block's 500 throws too, so an
      exception escapes the handler and no second response goes out. */
  function RegisterAsWritten(store: Store, email: string, password: string, newId: string, salt: nat): (o: Outcome)
    ensures o.cookies == [] && |o.replies| == 1
    ensures o.escapes <==> FindByEmail(store, email, false).Some?
    ensures o.escapes ==> o.replies[0] == Reply(409, UserExists, None)
    ensures o.replies[0].data.None? || o.replies[0].data.value.accessToken.None?
  {
    var created := CreateLocalUser(store, email, password, newId, salt);
    var store' := if created.Failure? then store else created.value.0;
    if FindByEmail(store, email, false).Some? then Outcome([Reply(409, UserExists, None)], [], store', true)
    else if created.Failure? then Outcome([Reply(500, RegisterFailed, None)], [], store)
    else Outcome([Reply(201, Registered, Some(AuthData(created.value.1.id, created.value.1.email, None)))], [], store')
  }

  /** `register` with the evident intent: return after the 409. */
  function Register(store: Store, email: string, password: string, newId: string, salt: nat): (o: Outcome)
    ensures o.cookies == [] && |o.replies| == 1 && !o.escapes
    ensures o.replies[0].data.None? || o.replies[0].data.value.accessToken.None?
  {
    if FindByEmail(store, email, false).Some? then Outcome([Reply(409, UserExists, None)], [], store)
    else match CreateLocalUser(store, email, password, newId, salt)
      case Failure(_) => Outcome([Reply(500, RegisterFailed, None)], [], store)
      case Success((store', u)) =>
        Outcome([Reply(201, Registered, Some(AuthData(u.id, u.email, None)))], [], store')
  }

  /** With an email that is already taken the written handler sends the 409,
      then fails to create the user on the unique email index, and the
      `catch` block's 500 throws out of the handler; the collection is left
      unchanged. */
  lemma RegisterExistingAsWritten(store: Store, email: string, password: string, newId: string, salt: nat)
    requires exists i :: 0 <= i < |store| && store[i].email == NormalizeEmail(email)
    ensures var o := RegisterAsWritten(store, email, password, newId, salt);
      && o.replies == [Reply(409, UserExists, None)]
      && o.escapes
      && o.store == store
      && Delivered(o) == Reply(409, UserExists, None)
  {
  }

  /** The corrected handler sends the 409 and returns; both versions deliver
      the same response to the client and leave the same collection, only the
      written one lets an exception escape, and whenever the email is new they
      behave identically. */
  lemma RegisterExisting(store: Store, email: string, password: string, newId: string, salt: nat)
    ensures var o := Register(store, email, password, newId, salt);
      var w := RegisterAsWritten(store, email, password, newId, salt);
      && Delivered(o) == Delivered(w) && o.store == w.store
      && ((exists i :: 0 <= i < |store| && store[i].email == NormalizeEmail(email)) ==>
            o.replies == [Reply(409, UserExists, None)] && o.store == store && w.escapes && !o.escapes)
      && ((forall i :: 0 <= i < |store| ==> store[i].email != NormalizeEmail(email)) ==> o == w)
  {
  }

  /** A new, valid account: exactly one record is appended, holding the
      normalised email and the digest of the password (never the password
      itself), and the 201 reply carries only `userId` and `email`. */
  lemma RegisterCreates(store: Store, email: string, password: string, newId: string, salt: nat)
    requires ValidationErrors(NormalizeEmail(email), Some(password)) == []
    requires forall i :: 0 <= i < |store| ==> store[i].id != newId && store[i].email != NormalizeEmail(email)
    ensures var o := Register(store, email, password, newId, salt);
      var u := User(newId, NormalizeEmail(email), Some(Hash(password, salt)), None, None, true, false);
      && o.store == store + [u]
      && o.replies == [Reply(201, Registered, Some(AuthData(newId, NormalizeEmail(email), None)))]
      && o.cookies == []
  {
  }

  /** `login`. The lookup selects the hidden password; a user without one
      makes the comparison throw, which the `catch` block turns into a 500, as
      it does a failure of the token helper (which throws before setting any
      cookie). */
  function Login(env: Env, store: Store, email: string, password: string, now: nat): (o: Outcome)
    ensures o.store == store && |o.replies| == 1
    ensures o.replies[0].status == 200 <==> o.cookies != []
    ensures o.replies[0].status == 200 ==>
      && o.replies[0].data.Some?
      && var d := o.replies[0].data.value;
      && d.accessToken.Some?
      && GenerateAndSetTokens(env, d.userId, now) == Success(Issued(d.accessToken.value, o.cookies))
  {
    match FindByEmail(store, email, true)
    case None => Outcome([Reply(401, InvalidCredentials, None)], [], store)
    case Some(u) =>
      match ComparePassword(u, password)
      case Failure(_) => Outcome([Reply(500, LoginFailed, None)], [], store)
      case Success(false) => Outcome([Reply(401, InvalidCredentials, None)], [], store)
      case Success(true) =>
        match GenerateAndSetTokens(env, u.id, now)
        case Failure(_) => Outcome([Reply(500, LoginFailed, None)], [], store)
        case Success(issued) =>
          Outcome([Reply(200, LoggedIn, Some(AuthData(u.id, u.email, Some(issued.accessToken))))], issued.cookies, store)
  }

  /** An unknown email and a wrong password for a known one get the same 401
      and no tokens: the two are indistinguishable to the client. */
  lemma LoginFailuresIndistinguishable(env: Env, store: Store, unknown: string, known: string, wrong: string, plain: string, salt: nat, now: nat)
    requires forall i :: 0 <= i < |store| ==> store[i].email != NormalizeEmail(unknown)
    requires exists i :: 0 <= i < |store| && store[i].email == NormalizeEmail(known) && store[i].password == Some(Hash(plain, salt))
    requires wrong != plain
    requires WellFormed(store)
    ensures Login(env, store, unknown, "anything", now) == Login(env, store, known, wrong, now)
    ensures Login(env, store, unknown, "anything", now) == Outcome([Reply(401, InvalidCredentials, None)], [], store)
  {
    var i :| 0 <= i < |store| && store[i].email == NormalizeEmail(known) && store[i].password == Some(Hash(plain, salt));
    var u := FindByEmail(store, known, true).value;
    FoundByEmail(store, known, i);
    CompareHash(wrong, plain, salt);
  }

  /** In a collection with unique emails, the lookup by email returns the one
      record holding it, password selected. */
  lemma FoundByEmail(store: Store, email: string, i: nat)
    requires WellFormed(store) && i < |store| && store[i].email == NormalizeEmail(email)
    ensures FindByEmail(store, email, true) == Some(store[i])
  {
    var j := FirstIndex(store, (u: User) => u.email == NormalizeEmail(email)).value;
    assert store[j].email == NormalizeEmail(email);
    assert j == i;
  }

  /** The right password for a stored user, with the secrets configured: a 200
      carrying the user's id and stored email and the helper's access token,
      which verifies to that user; the refresh token goes only into the
      cookie. */
  lemma LoginSucceeds(env: Env, store: Store, email: string, plain: string, salt: nat, i: nat, now: nat)
    requires WellFormed(store) && i < |store| && store[i].email == NormalizeEmail(email)
    requires store[i].password == Some(Hash(plain, salt))
    requires Configured(env.jwtSecret) && Configured(env.refreshSecret)
    ensures var issued := GenerateAndSetTokens(env, store[i].id, now).value;
      && Login(env, store, email, plain, now)
           == Outcome([Reply(200, LoggedIn, Some(AuthData(store[i].id, store[i].email, Some(issued.accessToken))))], issued.cookies, store)
      && Verify(env.jwtSecret, issued.accessToken, now) == Valid(store[i].id)
      && issued.accessToken != RefreshTokenOf(issued)
  {
    FoundByEmail(store, email, i);
    CompareHash(plain, plain, salt);
    IssuedTokensVerify(env, store[i].id, now, now);
  }

  /** A passwordless account (one created through Google) cannot log in
      locally: the comparison throws and the client gets a 500. */
  lemma LoginWithoutStoredPassword(env: Env, store: Store, email: string, candidate: string, i: nat, now: nat)
    requires WellFormed(store) && i < |store| && store[i].email == NormalizeEmail(email)
    requires store[i].password.None?
    ensures Login(env, store, email, candidate, now) == Outcome([Reply(500, LoginFailed, None)], [], store)
  {
    FoundByEmail(store, email, i);
  }

  /** Registering and then logging in with the same email and password
      succeeds for the new account. */
  lemma RegisterThenLogin(env: Env, store: Store, email: string, password: string, newId: string, salt: nat, now: nat)
    requires WellFormed(store)
    requires ValidationErrors(NormalizeEmail(email), Some(password)) == []
    requires forall i :: 0 <= i < |store| ==> store[i].id != newId && store[i].email != NormalizeEmail(email)
    requires Configured(env.jwtSecret) && Configured(env.refreshSecret)
    ensures var o := Login(env, Register(store, email, password, newId, salt).store, email, password, now);
      && o.replies[0].status == 200
      && o.replies[0].data.value.userId == newId
  {
    var store' := Register(store, email, password, newId, salt).store;
    RegisteredRecord(store, email, password, newId, salt);
    LoginSucceeds(env, store', email, password, salt, |store|, now);
  }

  /** After a successful registration the collection is still well formed and
      its new last record holds the normalised email and the password's
      digest. */
  lemma RegisteredRecord(store: Store, email: string, password: string, newId: string, salt: nat)
    requires WellFormed(store)
    requires ValidationErrors(NormalizeEmail(email), Some(password)) == []
    requires forall i :: 0 <= i < |store| ==> store[i].id != newId && store[i].email != NormalizeEmail(email)
    ensures var store' := Register(store, email, password, newId, salt).store;
      && WellFormed(store') && |store'| == |store| + 1
      && store'[|store|].id == newId && store'[|store|].email == NormalizeEmail(email)
      && store'[|store|].password == Some(Hash(password, salt))
  {
    var u := User(newId, NormalizeEmail(email), Some(Hash(password, salt)), None, None, true, false);
    RegisterCreates(store, email, password, newId, salt);
    AppendFresh(store, u);
  }

  /** `logout`: no authentication needed, always a 200, and the refresh cookie
      is cleared with the attributes it is set with. */
  function Logout(env: Env, store: Store): (o: Outcome)
    ensures o.replies == [Reply(200, LoggedOut, None)] && o.store == store
    ensures o.cookies == [ClearCookie(RefreshCookieName, RefreshCookieOptions(env))]
  {
    Outcome([Reply(200, LoggedOut, None)], [ClearCookie(RefreshCookieName, RefreshCookieOptions(env))], store)
  }

  /** The cookie `logout` clears is the one `login` set: same name, same
      `httpOnly`, `secure` and `sameSite`. */
  lemma LogoutClearsLoginCookie(env: Env, store: Store, email: string, password: string, now: nat)
    requires Login(env, store, email, password, now).replies[0].status == 200
    ensures var issued := Login(env, store, email, password, now).cookies[0];
      var cleared := Logout(env, store).cookies[0];
      issued.SetCookie? && cleared.name == issued.name && cleared.options == issued.options
  {
  }
}
