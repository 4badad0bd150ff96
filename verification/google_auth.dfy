/** Sign-in with Google: the strategy's verify callback, which finds the user
    by Google id or email and creates, links or passes it through, and the
    `/google/callback` route, which issues the token pair and redirects to the
    front end with the access token in the query string.

    The user schema declares neither `googleId` nor `provider` and requires a
    password; the strategy writes the first two and creates users without the
    third. The record here carries the fields the strategy relies on, and the
    consequence of the required password is stated as a finding
    (`CreateAsWritten`). */
module GoogleAuth {
  import opened Wrappers
  import opened Text
  import opened Http
  import opened Jwt
  import opened AuthHelper
  import opened UserModel
  import opened Seqs

  const NoEmail := "Google account has no email"
  const GoogleProvider := "google"
  const AuthenticationFailed := "Authentication failed"
  const RecordNotFound := "User record not found"
  const InternalError := "Internal server error"
  const FailureRedirect := "/login"
  const DefaultFrontend := "http://localhost:3000"
  const LoginSuccessPath := "/login-success?token="

  /** The parts of a Google profile the strategy reads: `profile.id` and the
      list `profile.emails`. */
  datatype Profile = Profile(id: string, emails: seq<string>)

  /** The object handed to `done` on success and found in `req.user`. */
  datatype SessionUser = SessionUser(id: string, email: string)

  /** What the verify callback hands to `done`: `done(null, user)` or
      `done(err, false)`. */
  datatype Verified = Authenticated(user: SessionUser) | VerifyError(message: string)

  /** `profile.emails?.[0]?.value`. */
  function ProfileEmail(p: Profile): Option<string> {
    if |p.emails| == 0 then None else Some(p.emails[0])
  }

  /** `findOne({$or: [{googleId}, {email}]})`: the email is cast through the
      schema's setters. */
  function LinkedTo(p: Profile, email: string): User -> bool {
    (u: User) => u.googleId == Some(p.id) || u.email == NormalizeEmail(email)
  }

  /** `user.googleId` is falsy: missing or empty. */
  predicate Unlinked(u: User) {
    u.googleId.None? || u.googleId.value == ""
  }

  /** The record `User.create` makes for a first sign-in: no password, the
      Google id, `provider: "google"`, active and not deleted. */
  function GoogleUser(p: Profile, email: string, newId: string): User {
    User(newId, NormalizeEmail(email), None, Some(p.id), Some(GoogleProvider), true, false)
  }

  /** The verify callback, with a user schema that accepts passwordless
      accounts: only the email's validators apply when creating. `newId` is the
      ObjectId a creation would get. Errors from the store reach `done` as
      `done(err, false)`. */
  function Strategy(store: Store, p: Profile, newId: string): (r: (Verified, Store))
    ensures ProfileEmail(p).None? || ProfileEmail(p).value == "" ==> r == (VerifyError(NoEmail), store)
    ensures r.0.Authenticated? ==>
      exists i :: 0 <= i < |r.1| && r.1[i].id == r.0.user.id && r.1[i].email == r.0.user.email
    ensures r.0.VerifyError? ==> r.1 == store
  {
    match ProfileEmail(p)
    case None => (VerifyError(NoEmail), store)
    case Some(email) =>
      if email == "" then (VerifyError(NoEmail), store)
      else match FirstIndex(store, LinkedTo(p, email))
        case None => Create(store, p, email, newId)
        case Some(i) =>
          var u := store[i];
          if Unlinked(u) then
            (Authenticated(SessionUser(u.id, u.email)),
             Replace(store, i, u.(googleId := Some(p.id), provider := Some(GoogleProvider))))
          else (Authenticated(SessionUser(u.id, u.email)), store)
  }

  /** `User.create` for a first sign-in, with a user schema that accepts
      passwordless accounts: the email's validators, then the unique indexes. */
  function Create(store: Store, p: Profile, email: string, newId: string): (r: (Verified, Store))
    ensures r.0.Authenticated? ==>
      r.1 == store + [GoogleUser(p, email, newId)] && r.0.user == SessionUser(newId, NormalizeEmail(email))
    ensures r.0.Authenticated? ==>
      |r.1| == |store| + 1 && r.1[|store|].id == r.0.user.id && r.1[|store|].email == r.0.user.email
    ensures r.0.VerifyError? ==> r.1 == store
  {
    var u := GoogleUser(p, email, newId);
    var errs := EmailErrors(u.email);
    if errs != [] then (VerifyError(errs[0]), store)
    else match Insert(store, u)
      case Failure(e) => (VerifyError(e), store)
      case Success(store') => (Authenticated(SessionUser(u.id, u.email)), store')
  }

  /** The create step as written against the declared schema: the required
      `password` validator runs on every new document, and the Google user has
      none, so the creation throws and `done` receives the validation error. */
  function CreateAsWritten(store: Store, p: Profile, email: string, newId: string): (r: Result<Store>)
    ensures r.Success? ==> r.value == store + [GoogleUser(p, email, newId)]
  {
    var u := GoogleUser(p, email, newId);
    var errs := ValidationErrors(u.email, u.password);
    if errs != [] then Failure(errs[0]) else Insert(store, u)
  }

  /** Whatever the store and the profile, the written creation fails: a first
      sign-in with Google never produces an account. */
  lemma CreateAsWrittenAlwaysFails(store: Store, p: Profile, email: string, newId: string)
    ensures CreateAsWritten(store, p, email, newId).Failure?
  {
  }

  /** A profile without an email fails before the store is read: the outcome
      is the same whatever the store holds, and nothing is written. */
  lemma NoEmailNoStoreAccess(store: Store, store': Store, p: Profile, newId: string, newId': string)
    requires ProfileEmail(p).None? || ProfileEmail(p).value == ""
    ensures Strategy(store, p, newId).0 == Strategy(store', p, newId').0 == VerifyError(NoEmail)
    ensures Strategy(store, p, newId).1 == store
  {
  }

  /** No record with this Google id or email: exactly one user is appended,
      passwordless and linked to the profile, and the session user is that
      record's id and stored (normalised) email. */
  lemma FirstSignInCreates(store: Store, p: Profile, email: string, newId: string)
    requires ProfileEmail(p) == Some(email) && email != ""
    requires forall i :: 0 <= i < |store| ==> !LinkedTo(p, email)(store[i])
    requires forall i :: 0 <= i < |store| ==> store[i].id != newId
    requires MatchesEmailPattern(NormalizeEmail(email))
    ensures Strategy(store, p, newId)
      == (Authenticated(SessionUser(newId, NormalizeEmail(email))), store + [GoogleUser(p, email, newId)])
  {
    var u := GoogleUser(p, email, newId);
    assert FirstIndex(store, LinkedTo(p, email)).None?;
    assert EmailErrors(u.email) == [];
    assert forall i :: 0 <= i < |store| ==> store[i].id != u.id && store[i].email != u.email;
    CreateBranch(store, p, email, newId);
  }

  /** The creating branch of the callback, once its three tests have passed. */
  lemma CreateBranch(store: Store, p: Profile, email: string, newId: string)
    requires ProfileEmail(p) == Some(email) && email != ""
    requires FirstIndex(store, LinkedTo(p, email)).None?
    requires EmailErrors(GoogleUser(p, email, newId).email) == []
    requires forall i :: 0 <= i < |store| ==>
      store[i].id != newId && store[i].email != GoogleUser(p, email, newId).email
    ensures Strategy(store, p, newId)
      == (Authenticated(SessionUser(newId, NormalizeEmail(email))), store + [GoogleUser(p, email, newId)])
  {
    StrategyCreates(store, p, email, newId);
    CreateSucceeds(store, GoogleUser(p, email, newId));
  }

  /** With a profile email and no matching record, the callback creates. */
  lemma StrategyCreates(store: Store, p: Profile, email: string, newId: string)
    requires ProfileEmail(p) == Some(email) && email != ""
    requires FirstIndex(store, LinkedTo(p, email)).None?
    ensures Strategy(store, p, newId) == Create(store, p, email, newId)
  {
  }

  /** Creation passes validation and the unique indexes exactly when the
      email is valid and neither the id nor the email is taken. */
  lemma CreateSucceeds(store: Store, u: User)
    requires EmailErrors(u.email) == []
    requires forall i :: 0 <= i < |store| ==> store[i].id != u.id && store[i].email != u.email
    ensures Insert(store, u) == Success(store + [u])
  {
  }

  /** The first record matching is a local account with no Google id: that
      same record gets the Google id and `provider`, nothing else changes and
      no record is added. */
  lemma SignInLinks(store: Store, p: Profile, email: string, newId: string, i: nat)
    requires ProfileEmail(p) == Some(email) && email != ""
    requires i < |store| && LinkedTo(p, email)(store[i]) && Unlinked(store[i])
    requires forall j :: 0 <= j < i ==> !LinkedTo(p, email)(store[j])
    ensures var r := Strategy(store, p, newId);
      && r.0 == Authenticated(SessionUser(store[i].id, store[i].email))
      && |r.1| == |store|
      && r.1[i] == store[i].(googleId := Some(p.id), provider := Some(GoogleProvider))
      && forall j :: 0 <= j < |store| && j != i ==> r.1[j] == store[j]
  {
    FirstIndexAt(store, LinkedTo(p, email), i);
  }

  /** The first record matching already has a Google id (possibly another
      one, when it was found by email): it is left as it is. */
  lemma SignInPassesThrough(store: Store, p: Profile, email: string, newId: string, i: nat)
    requires ProfileEmail(p) == Some(email) && email != ""
    requires i < |store| && LinkedTo(p, email)(store[i]) && !Unlinked(store[i])
    requires forall j :: 0 <= j < i ==> !LinkedTo(p, email)(store[j])
    ensures Strategy(store, p, newId) == (Authenticated(SessionUser(store[i].id, store[i].email)), store)
  {
    FirstIndexAt(store, LinkedTo(p, email), i);
  }

  /** Signing in twice with the same profile gives the same user, and the
      second sign-in changes nothing. */
  lemma SignInIdempotent(store: Store, p: Profile, newId: string, newId': string)
    requires forall i :: 0 <= i < |store| ==> store[i].id != newId
    ensures var (v1, s1) := Strategy(store, p, newId);
      var (v2, s2) := Strategy(s1, p, newId');
      v1.Authenticated? ==> v2 == v1 && s2 == s1
  {
    var (v1, s1) := Strategy(store, p, newId);
    if v1.Authenticated? {
      var email := ProfileEmail(p).value;
      match FirstIndex(store, LinkedTo(p, email))
      case None =>
        AgainAfterCreate(store, p, email, newId, newId');
      case Some(i) =>
        AgainAfterMatch(store, p, email, newId, newId', i);
    }
  }

  /** The second sign-in after a first one that created the record. */
  lemma AgainAfterCreate(store: Store, p: Profile, email: string, newId: string, newId': string)
    requires ProfileEmail(p) == Some(email) && email != ""
    requires FirstIndex(store, LinkedTo(p, email)).None?
    requires Strategy(store, p, newId).0.Authenticated?
    ensures Strategy(Strategy(store, p, newId).1, p, newId') == Strategy(store, p, newId)
  {
    StrategyCreates(store, p, email, newId);
    AppendedFoundAgain(store, p, email, newId, newId');
  }

  /** A record appended for the profile behind records that do not match is
      the one the next sign-in finds, linked already. */
  lemma AppendedFoundAgain(store: Store, p: Profile, email: string, newId: string, newId': string)
    requires ProfileEmail(p) == Some(email) && email != ""
    requires forall j :: 0 <= j < |store| ==> !LinkedTo(p, email)(store[j])
    ensures var s1 := store + [GoogleUser(p, email, newId)];
      Strategy(s1, p, newId') == (Authenticated(SessionUser(newId, NormalizeEmail(email))), s1)
  {
    var s1 := store + [GoogleUser(p, email, newId)];
    assert forall j :: 0 <= j < |store| ==> s1[j] == store[j];
    SecondSignIn(s1, p, email, newId', |store|);
  }

  /** The second sign-in after a first one that found record `i`. */
  lemma AgainAfterMatch(store: Store, p: Profile, email: string, newId: string, newId': string, i: nat)
    requires ProfileEmail(p) == Some(email) && email != ""
    requires FirstIndex(store, LinkedTo(p, email)) == Some(i)
    ensures Strategy(Strategy(store, p, newId).1, p, newId') == Strategy(store, p, newId)
  {
    if Unlinked(store[i]) {
      SignInLinks(store, p, email, newId, i);
    } else {
      SignInPassesThrough(store, p, email, newId, i);
    }
    SecondSignIn(Strategy(store, p, newId).1, p, email, newId', i);
  }

  /** After a sign-in the matching record is linked (or was already linked
      to some Google id), so the next sign-in finds it first and leaves the
      collection as it is. */
  lemma SecondSignIn(s1: Store, p: Profile, email: string, newId': string, i: nat)
    requires ProfileEmail(p) == Some(email) && email != ""
    requires i < |s1| && LinkedTo(p, email)(s1[i])
    requires !Unlinked(s1[i]) || s1[i] == s1[i].(googleId := Some(p.id), provider := Some(GoogleProvider))
    requires forall j :: 0 <= j < i ==> !LinkedTo(p, email)(s1[j])
    ensures Strategy(s1, p, newId') == (Authenticated(SessionUser(s1[i].id, s1[i].email)), s1)
  {
    FirstIndexAt(s1, LinkedTo(p, email), i);
    if Unlinked(s1[i]) {
      assert s1[i := s1[i]] == s1;
    }
  }

  /** `process.env.FRONTEND_URL || "http://localhost:3000"`. */
  function FrontendBase(env: Env): (base: string)
    ensures Configured(env.frontendUrl) ==> base == env.frontendUrl.value
    ensures !Configured(env.frontendUrl) ==> base == DefaultFrontend
  {
    if Configured(env.frontendUrl) then env.frontendUrl.value else DefaultFrontend
  }

  /** How the callback route answers: a redirect, the handler's own JSON
      reply, or the page Express's default error handler renders for an error
      passed to `next` (the application installs no error middleware). */
  datatype Response = Redirect(location: string) | JsonReply(status: nat, message: string) | ErrorPage(status: nat)

  datatype CallbackOutcome = CallbackOutcome(response: Response, cookies: seq<CookieOp>)

  /** The `/google/callback` handler that runs once Passport has authenticated
      the request. */
  function Callback(env: Env, store: Store, user: Option<SessionUser>, now: nat): (o: CallbackOutcome)
    ensures user.None? ==> o == CallbackOutcome(JsonReply(401, AuthenticationFailed), [])
    ensures o.response.Redirect? <==> o.cookies != []
    ensures !o.response.ErrorPage?
    ensures o.response.JsonReply? ==> o.response.status in {401, 500}
    ensures o.response.Redirect? ==>
      && user.Some? && IsObjectId(user.value.id)
      && var issued := GenerateAndSetTokens(env, CastObjectId(user.value.id), now);
      && issued.Success?
      && o.response.location == FrontendBase(env) + LoginSuccessPath + issued.value.accessToken
  {
    match user
    case None => CallbackOutcome(JsonReply(401, AuthenticationFailed), [])
    case Some(su) =>
      match FindById(store, su.id)
      case Failure(_) => CallbackOutcome(JsonReply(500, InternalError), [])
      case Success(None) => CallbackOutcome(JsonReply(500, RecordNotFound), [])
      case Success(Some(doc)) =>
        match GenerateAndSetTokens(env, doc.id, now)
        case Failure(_) => CallbackOutcome(JsonReply(500, InternalError), [])
        case Success(issued) =>
          CallbackOutcome(Redirect(FrontendBase(env) + LoginSuccessPath + issued.accessToken), issued.cookies)
  }

  /** An authenticated id with no stored record: a 500 and no tokens issued. */
  lemma CallbackUnknownUser(env: Env, store: Store, su: SessionUser, now: nat)
    requires IsObjectId(su.id) && forall i :: 0 <= i < |store| ==> store[i].id != CastObjectId(su.id)
    ensures Callback(env, store, Some(su), now) == CallbackOutcome(JsonReply(500, RecordNotFound), [])
  {
  }

  /** A stored user with the secrets configured: the query string carries the
      helper's access token, which verifies to the user, while the refresh
      token travels only in the cookie and differs from it. */
  lemma CallbackRedirects(env: Env, store: Store, su: SessionUser, now: nat)
    requires IsObjectId(su.id) && exists i :: 0 <= i < |store| && store[i].id == CastObjectId(su.id)
    requires Configured(env.jwtSecret) && Configured(env.refreshSecret)
    ensures var issued := GenerateAndSetTokens(env, CastObjectId(su.id), now).value;
      var o := Callback(env, store, Some(su), now);
      && o == CallbackOutcome(Redirect(FrontendBase(env) + LoginSuccessPath + issued.accessToken), issued.cookies)
      && Verify(env.jwtSecret, issued.accessToken, now) == Valid(CastObjectId(su.id))
      && RefreshTokenOf(issued) != issued.accessToken
  {
    IssuedTokensVerify(env, CastObjectId(su.id), now, now);
  }

  /** The outcome of Google's side of the exchange, which Passport receives
      before the verify callback runs. */
  datatype Consent = Denied | Granted(profile: Profile)

  /** The whole `/google/callback` route: `passport.authenticate` with
      `failureRedirect: "/login"`, then the handler. A refused consent is the
      strategy's `fail`, redirected to `/login`; an error passed to `done`
      goes to `next(err)`, so the handler never runs and Express's default
      error handler answers with its 500 page. */
  function CallbackRoute(env: Env, store: Store, consent: Consent, newId: string, now: nat): (r: (CallbackOutcome, Store))
    ensures consent.Denied? ==> r == (CallbackOutcome(Redirect(FailureRedirect), []), store)
    ensures consent.Granted? && Strategy(store, consent.profile, newId).0.VerifyError? ==>
      r.0 == CallbackOutcome(ErrorPage(500), []) && r.1 == store
    ensures consent.Granted? && Strategy(store, consent.profile, newId).0.Authenticated? ==>
      r.0 == Callback(env, r.1, Some(Strategy(store, consent.profile, newId).0.user), now)
  {
    match consent
    case Denied => (CallbackOutcome(Redirect(FailureRedirect), []), store)
    case Granted(p) =>
      var (v, store') := Strategy(store, p, newId);
      match v
      case VerifyError(_) => (CallbackOutcome(ErrorPage(500), []), store')
      case Authenticated(su) => (Callback(env, store', Some(su), now), store')
  }

  /** A first sign-in with a new, valid Google address ends at the front end
      with an access token for the new account. */
  lemma FirstSignInEndToEnd(env: Env, store: Store, p: Profile, email: string, newId: string, now: nat)
    requires ProfileEmail(p) == Some(email) && email != ""
    requires forall i :: 0 <= i < |store| ==> !LinkedTo(p, email)(store[i]) && store[i].id != newId
    requires MatchesEmailPattern(NormalizeEmail(email)) && IsObjectId(newId) && Lower(newId) == newId
    requires Configured(env.jwtSecret) && Configured(env.refreshSecret)
    ensures var (o, store') := CallbackRoute(env, store, Granted(p), newId, now);
      var issued := GenerateAndSetTokens(env, newId, now).value;
      && store' == store + [GoogleUser(p, email, newId)]
      && o.response == Redirect(FrontendBase(env) + LoginSuccessPath + issued.accessToken)
      && Verify(env.jwtSecret, issued.accessToken, now) == Valid(newId)
  {
    var su := SessionUser(newId, NormalizeEmail(email));
    var store' := store + [GoogleUser(p, email, newId)];
    FirstSignInCreates(store, p, email, newId);
    assert CallbackRoute(env, store, Granted(p), newId, now) == (Callback(env, store', Some(su), now), store');
    assert CastObjectId(newId) == newId;
    assert store'[|store|].id == newId;
    CallbackRedirects(env, store', su, now);
  }
}
