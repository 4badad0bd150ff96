/** The client's session store (`store/auth/authSlice.ts`): the signed-in
    user and access token, mirrored into browser storage under the keys
    `user` and `accessToken`. Storage is a map from key to string; turning a
    user into text and back is a parameter. */
module AuthStore {
  import opened Wrappers
  import AuthController
  import Jwt
  import AuthHelper
  import UserModel
  import Http

  datatype User = User(userId: string, email: string)

  type Storage = map<string, string>

  /** `JSON.stringify` and `JSON.parse` on users; `parse` is `None` where
      parsing throws. */
  datatype UserCodec = UserCodec(stringify: User -> string, parse: string -> Option<User>)

  /** `JSON.stringify` of a user object reads back as that user, and its text
      (which starts with a brace) is never empty nor `undefined`. */
  ghost predicate Faithful(codec: UserCodec) {
    forall u :: codec.parse(codec.stringify(u)) == Some(u) && codec.stringify(u) != "" && codec.stringify(u) != "undefined"
  }

  const UserKey := "user"
  const TokenKey := "accessToken"

  datatype State = State(user: Option<User>, accessToken: Option<string>, isLoading: bool, error: Option<string>)

  /** `getInitialUser`: nothing stored, an empty string, the text
      `undefined`, or text that does not parse all give no user. */
  function GetInitialUser(storage: Storage, codec: UserCodec): (r: Option<User>)
    ensures UserKey !in storage ==> r.None?
    ensures UserKey in storage && storage[UserKey] in {"", "undefined"} ==> r.None?
    ensures r.Some? ==> UserKey in storage && codec.parse(storage[UserKey]) == r
  {
    if UserKey !in storage then None
    else
      var stored := storage[UserKey];
      if stored == "" || stored == "undefined" then None
      else codec.parse(stored)
  }

  /** `initialState`, read from storage when the page loads. */
  function InitialState(storage: Storage, codec: UserCodec): (r: State)
    ensures !r.isLoading && r.error.None?
    ensures r.accessToken.Some? <==> TokenKey in storage
    ensures r.accessToken.Some? ==> r.accessToken.value == storage[TokenKey]
    ensures r.user.Some? ==> UserKey in storage && codec.parse(storage[UserKey]) == r.user
  {
    State(GetInitialUser(storage, codec), if TokenKey in storage then Some(storage[TokenKey]) else None, false, None)
  }

  datatype Action =
    | SetAuthTokens(setUser: User, token: string)
    | ClearAuth
    | ClearAuthError
    | RegisterPending
    | RegisterFulfilled(data: AuthController.AuthData)
    | RegisterRejected(payload: Option<string>)
    | LoginPending
    | LoginFulfilled(data: AuthController.AuthData)
    | LoginRejected(payload: Option<string>)
    | LogoutPending
    | LogoutFulfilled
    | LogoutRejected(payload: Option<string>)

  /** The messages the three thunks reject with when the server's error
      response carries none. */
  const RegisterThunkFallback := "Registration failed. Please try again."
  const LoginThunkFallback := "Login failed. Please try again."
  const LogoutThunkFallback := "Logout failed."

  /** `payload || fallback`, and equally `error.response?.data?.message ||
      fallback` in a thunk. */
  function OrElse(payload: Option<string>, fallback: string): (m: string)
    ensures m != "" || fallback == ""
    ensures payload.Some? && payload.value != "" ==> m == payload.value
    ensures payload.None? || payload.value == "" ==> m == fallback
  {
    if payload.Some? && payload.value != "" then payload.value else fallback
  }

  function Forget(storage: Storage): (r: Storage)
    ensures UserKey !in r && TokenKey !in r
    ensures forall k :: k in storage && k != UserKey && k != TokenKey ==> k in r && r[k] == storage[k]
  {
    storage - {UserKey, TokenKey}
  }

  /** The reducer, with its writes to storage. */
  function Reduce(s: State, storage: Storage, codec: UserCodec, a: Action): (r: (State, Storage))
    ensures forall k :: k in storage && k != UserKey && k != TokenKey ==> k in r.1 && r.1[k] == storage[k]
    ensures forall k :: k in r.1 ==> k in storage || k == UserKey || k == TokenKey
    ensures !a.ClearAuthError? ==> (r.0.isLoading <==> a.RegisterPending? || a.LoginPending? || a.LogoutPending?)
  {
    match a
    case SetAuthTokens(u, t) =>
      (State(Some(u), Some(t), false, None), storage[UserKey := codec.stringify(u)][TokenKey := t])
    case ClearAuth => (State(None, None, false, None), Forget(storage))
    case ClearAuthError => (s.(error := None), storage)
    case RegisterPending => (s.(isLoading := true, error := None), storage)
    case RegisterFulfilled(d) =>
      var u := User(d.userId, d.email);
      (s.(isLoading := false, error := None, user := Some(u)), storage[UserKey := codec.stringify(u)])
    case RegisterRejected(p) => (s.(isLoading := false, error := Some(OrElse(p, "Registration failed"))), storage)
    case LoginPending => (s.(isLoading := true, error := None), storage)
    case LoginFulfilled(d) =>
      var u := User(d.userId, d.email);
      var written := storage[UserKey := codec.stringify(u)];
      (State(Some(u), d.accessToken, false, None),
       if d.accessToken.Some? && d.accessToken.value != "" then written[TokenKey := d.accessToken.value] else written)
    case LoginRejected(p) => (s.(isLoading := false, error := Some(OrElse(p, "Login failed"))), Forget(storage))
    case LogoutPending => (s.(isLoading := true, error := None), storage)
    case LogoutFulfilled => (State(None, None, false, None), Forget(storage))
    case LogoutRejected(p) => (s.(isLoading := false, error := Some(OrElse(p, "Logout failed"))), storage)
  }

  // ------------------------------------------------------------ lemmas

  /** Storing a user and token and reading them back on the next page load
      gives the same session. */
  lemma SetAuthTokensSurvivesReload(s: State, storage: Storage, codec: UserCodec, u: User, t: string)
    requires Faithful(codec)
    ensures var (r, st) := Reduce(s, storage, codec, SetAuthTokens(u, t));
      && r == State(Some(u), Some(t), false, None)
      && InitialState(st, codec) == r
  {
    var st := storage[UserKey := codec.stringify(u)][TokenKey := t];
    assert UserKey in st && st[UserKey] == codec.stringify(u);
  }

  /** Clearing forgets the session in memory and in storage, and a reload
      then starts signed out; other stored keys are kept. */
  lemma ClearAuthForgets(s: State, storage: Storage, codec: UserCodec)
    ensures var (r, st) := Reduce(s, storage, codec, ClearAuth);
      && r == State(None, None, false, None)
      && InitialState(st, codec) == r
      && forall k :: k in storage && k != UserKey && k != TokenKey ==> k in st && st[k] == storage[k]
  {
  }

  /** Clearing the error changes nothing else. */
  lemma ClearAuthErrorOnlyError(s: State, storage: Storage, codec: UserCodec)
    ensures Reduce(s, storage, codec, ClearAuthError) == (s.(error := None), storage)
  {
  }

  /** Each pending case marks the store loading and clears the error, and
      touches nothing else. */
  lemma PendingOnlyLoading(s: State, storage: Storage, codec: UserCodec, a: Action)
    requires a.RegisterPending? || a.LoginPending? || a.LogoutPending?
    ensures Reduce(s, storage, codec, a) == (s.(isLoading := true, error := None), storage)
  {
  }

  /** A registration answer sets the user but keeps whatever token the store
      held: registering does not sign in. */
  lemma RegisterKeepsToken(s: State, storage: Storage, codec: UserCodec, d: AuthController.AuthData)
    ensures var (r, st) := Reduce(s, storage, codec, RegisterFulfilled(d));
      && r.user == Some(User(d.userId, d.email)) && r.accessToken == s.accessToken
      && (TokenKey in storage <==> TokenKey in st)
      && (TokenKey in st ==> st[TokenKey] == storage[TokenKey])
  {
  }

  /** A login answer takes the token as sent, or none; storage receives the
      token only when it is non-empty, so a login answer without one leaves
      an older stored token in place. */
  lemma LoginStoresTokenOnlyWhenPresent(s: State, storage: Storage, codec: UserCodec, d: AuthController.AuthData)
    ensures var (r, st) := Reduce(s, storage, codec, LoginFulfilled(d));
      && r.accessToken == d.accessToken && r.user == Some(User(d.userId, d.email))
      && (d.accessToken.Some? && d.accessToken.value != "" ==> TokenKey in st && st[TokenKey] == d.accessToken.value)
      && (d.accessToken.None? || d.accessToken == Some("") ==>
            (TokenKey in st <==> TokenKey in storage) && (TokenKey in st ==> st[TokenKey] == storage[TokenKey]))
  {
  }

  /** A failed login empties storage but keeps the session in memory. */
  lemma LoginRejectedKeepsMemory(s: State, storage: Storage, codec: UserCodec, p: Option<string>)
    ensures var (r, st) := Reduce(s, storage, codec, LoginRejected(p));
      && r.user == s.user && r.accessToken == s.accessToken
      && UserKey !in st && TokenKey !in st && r.error.Some?
  {
  }

  /** A failed logout keeps the session and storage and records the error. */
  lemma LogoutRejectedKeepsSession(s: State, storage: Storage, codec: UserCodec, p: Option<string>)
    ensures var (r, st) := Reduce(s, storage, codec, LogoutRejected(p));
      && r.user == s.user && r.accessToken == s.accessToken && st == storage
      && r.error == Some(OrElse(p, "Logout failed"))
  {
  }

  /** The thunks always reject with a non-empty message, their own fallback
      when the server sent none, so the reducers' shorter fallbacks are never
      what the store records. */
  lemma ThunkMessagesReachTheStore(s: State, storage: Storage, codec: UserCodec, m: Option<string>)
    ensures Reduce(s, storage, codec, RegisterRejected(Some(OrElse(m, RegisterThunkFallback)))).0.error
              == Some(OrElse(m, RegisterThunkFallback))
    ensures Reduce(s, storage, codec, LoginRejected(Some(OrElse(m, LoginThunkFallback)))).0.error
              == Some(OrElse(m, LoginThunkFallback))
    ensures Reduce(s, storage, codec, LogoutRejected(Some(OrElse(m, LogoutThunkFallback)))).0.error
              == Some(OrElse(m, LogoutThunkFallback))
    ensures m.None? ==>
              Reduce(s, storage, codec, LoginRejected(Some(OrElse(m, LoginThunkFallback)))).0.error != Some("Login failed")
  {
  }

  /** Storage agrees with memory: a stored token is the token in memory, and
      a stored user reads back as the user in memory. */
  predicate Mirrored(s: State, storage: Storage, codec: UserCodec) {
    && (TokenKey in storage ==> s.accessToken == Some(storage[TokenKey]))
    && (UserKey in storage ==> GetInitialUser(storage, codec) == s.user)
  }

  /** Login answers that carry a non-empty token, as the server's do. */
  predicate TokenBearing(a: Action) {
    a.LoginFulfilled? ==> a.data.accessToken.Some? && a.data.accessToken.value != ""
  }

  function Run(s: State, storage: Storage, codec: UserCodec, actions: seq<Action>): (State, Storage)
    decreases |actions|
  {
    if |actions| == 0 then (s, storage)
    else
      var (s', st') := Run(s, storage, codec, actions[..|actions| - 1]);
      Reduce(s', st', codec, actions[|actions| - 1])
  }

  /** Every action keeps storage mirroring memory, given login answers with a
      token. */
  lemma MirroredStep(s: State, storage: Storage, codec: UserCodec, a: Action)
    requires Faithful(codec) && Mirrored(s, storage, codec) && TokenBearing(a)
    ensures var (r, st) := Reduce(s, storage, codec, a); Mirrored(r, st, codec)
  {
    match a
    case SetAuthTokens(u, t) =>
      var st := storage[UserKey := codec.stringify(u)][TokenKey := t];
      assert st[UserKey] == codec.stringify(u);
    case RegisterFulfilled(d) =>
      var u := User(d.userId, d.email);
      assert storage[UserKey := codec.stringify(u)][UserKey] == codec.stringify(u);
    case LoginFulfilled(d) =>
      var u := User(d.userId, d.email);
      var written := storage[UserKey := codec.stringify(u)];
      var st := written[TokenKey := d.accessToken.value];
      assert st[UserKey] == codec.stringify(u);
    case _ =>
  }

  /** A page load starts mirrored: memory is read from storage. */
  lemma InitiallyMirrored(storage: Storage, codec: UserCodec)
    ensures Mirrored(InitialState(storage, codec), storage, codec)
  {
  }

  /** From a page load on, whatever the actions, storage mirrors memory; so
      the next page load restores the session as it was, except that a token
      or user held only in memory is dropped. */
  lemma {:induction false} ReloadRestoresSession(storage: Storage, codec: UserCodec, actions: seq<Action>)
    requires Faithful(codec)
    requires forall k :: 0 <= k < |actions| ==> TokenBearing(actions[k])
    ensures var (r, st) := Run(InitialState(storage, codec), storage, codec, actions);
      && Mirrored(r, st, codec)
      && (InitialState(st, codec).accessToken.None? || InitialState(st, codec).accessToken == r.accessToken)
      && (InitialState(st, codec).user.None? || InitialState(st, codec).user == r.user)
    decreases |actions|
  {
    if |actions| == 0 {
      InitiallyMirrored(storage, codec);
    } else {
      var before := actions[..|actions| - 1];
      assert forall k :: 0 <= k < |before| ==> before[k] == actions[k];
      ReloadRestoresSession(storage, codec, before);
      var (s', st') := Run(InitialState(storage, codec), storage, codec, before);
      MirroredStep(s', st', codec, actions[|actions| - 1]);
    }
  }

  /** A login answer without a token breaks the mirror: memory has no token
      while storage still holds the previous one, which the next page load
      brings back. */
  lemma TokenlessLoginRevivesOldToken(s: State, storage: Storage, codec: UserCodec, d: AuthController.AuthData, previous: string)
    requires TokenKey in storage && storage[TokenKey] == previous && d.accessToken.None?
    ensures var (r, st) := Reduce(s, storage, codec, LoginFulfilled(d));
      && r.accessToken.None? && InitialState(st, codec).accessToken == Some(previous)
      && !Mirrored(r, st, codec)
  {
  }

  /** The server's successful login answer, dispatched, signs the client in:
      memory and storage hold the access token the server issued, which
      verifies to the signed-in user until it expires. */
  lemma ServerLoginSignsIn(env: Http.Env, users: UserModel.Store, email: string, password: string, now: nat,
                           s: State, storage: Storage, codec: UserCodec)
    requires AuthController.Login(env, users, email, password, now).replies[0].status == 200
    ensures var d := AuthController.Login(env, users, email, password, now).replies[0].data.value;
      var (r, st) := Reduce(s, storage, codec, LoginFulfilled(d));
      && r.user == Some(User(d.userId, d.email))
      && r.accessToken.Some? && TokenKey in st && st[TokenKey] == r.accessToken.value
      && Jwt.Verify(env.jwtSecret, r.accessToken.value, now) == Jwt.Valid(d.userId)
  {
    var o := AuthController.Login(env, users, email, password, now);
    IssuedTokenSignsIn(env, now, o.replies[0].data.value, o.cookies, s, storage, codec);
  }

  /** The step behind the previous lemma: a login answer whose token is the
      one the token helper issues for its user. */
  lemma IssuedTokenSignsIn(env: Http.Env, now: nat, d: AuthController.AuthData, cookies: seq<Http.CookieOp>,
                           s: State, storage: Storage, codec: UserCodec)
    requires d.accessToken.Some?
    requires AuthHelper.GenerateAndSetTokens(env, d.userId, now) == Success(AuthHelper.Issued(d.accessToken.value, cookies))
    ensures var (r, st) := Reduce(s, storage, codec, LoginFulfilled(d));
      && r.user == Some(User(d.userId, d.email))
      && r.accessToken.Some? && TokenKey in st && st[TokenKey] == r.accessToken.value
      && Jwt.Verify(env.jwtSecret, r.accessToken.value, now) == Jwt.Valid(d.userId)
  {
    AuthHelper.IssuedTokensVerify(env, d.userId, now, now);
    assert d.accessToken.value != "" by {
      if d.accessToken.value == "" {
        NothingParsesFromEmpty();
      }
    }
  }

  /** Empty text is not a token. */
  lemma NothingParsesFromEmpty()
    ensures Jwt.Parse("").None?
  {
  }
}
