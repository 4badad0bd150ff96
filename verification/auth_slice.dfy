/** The older client auth slice (`features/auth/authSlice.ts`): the identity
    as three optional fields and four plain reducers, with no storage and no
    requests of its own. */
module AuthSlice {
  import opened Wrappers
  import AuthStore

  datatype State = State(userId: Option<string>, email: Option<string>, accessToken: Option<string>,
                         isLoading: bool, error: Option<string>)

  /** `initialState`: nobody signed in, not loading, no error. */
  const Initial := State(None, None, None, false, None)

  datatype Action =
    | LoginStart
    | LoginSuccess(userId: string, email: string, accessToken: string)
    | LoginFailure(message: string)
    | Logout

  /** The slice's reducer. */
  function Reduce(s: State, a: Action): (r: State)
    ensures Whole(s) ==> Whole(r)
    ensures r.error != s.error ==> a.LoginStart? || a.LoginFailure?
    ensures (r.userId != s.userId || r.email != s.email || r.accessToken != s.accessToken) ==>
      a.LoginSuccess? || a.Logout?
  {
    match a
    case LoginStart => s.(isLoading := true, error := None)
    case LoginSuccess(u, e, t) => s.(isLoading := false, userId := Some(u), email := Some(e), accessToken := Some(t))
    case LoginFailure(m) => s.(isLoading := false, error := Some(m))
    case Logout => s.(userId := None, email := None, accessToken := None)
  }

  function Run(s: State, actions: seq<Action>): State
    decreases |actions|
  {
    if |actions| == 0 then s else Reduce(Run(s, actions[..|actions| - 1]), actions[|actions| - 1])
  }

  /** The identity fields: all set or all unset. */
  predicate Whole(s: State) {
    s.userId.Some? == s.email.Some? && s.email.Some? == s.accessToken.Some?
  }

  /** Starting and failing leave the identity alone; success replaces it
      entirely; logging out clears it and leaves the flags alone. */
  lemma Frames(s: State, a: Action)
    ensures a.LoginStart? || a.LoginFailure? ==>
      var r := Reduce(s, a);
      r.userId == s.userId && r.email == s.email && r.accessToken == s.accessToken
    ensures a.LoginSuccess? ==>
      Reduce(s, a) == State(Some(a.userId), Some(a.email), Some(a.accessToken), false, s.error)
    ensures a.Logout? ==>
      Reduce(s, a) == State(None, None, None, s.isLoading, s.error)
    ensures a.LoginFailure? ==> Reduce(s, a).error == Some(a.message) && !Reduce(s, a).isLoading
  {
  }

  /** A failed attempt followed by a successful one still shows the old
      error next to the signed-in identity: success does not clear it. */
  lemma StaleErrorSurvivesSuccess(s: State, m: string, u: string, e: string, t: string)
    ensures var r := Run(s, [LoginStart, LoginFailure(m), LoginSuccess(u, e, t)]);
      && r.error == Some(m) && r.userId == Some(u) && r.accessToken == Some(t) && !r.isLoading
  {
    var a := [LoginStart, LoginFailure(m), LoginSuccess(u, e, t)];
    assert a[..2][..1] == [LoginStart];
    assert a[..2][..1][..0] == [];
  }

  /** Logging out during an attempt keeps the attempt's loading flag. */
  lemma LogoutWhileLoading(s: State)
    ensures Run(s, [LoginStart, Logout]).isLoading
    ensures Run(s, [LoginStart, Logout]).userId.None?
  {
    assert [LoginStart, Logout][..1] == [LoginStart];
  }

  /** The last action other than `logout` was `loginStart`. */
  predicate LastAttemptStarted(actions: seq<Action>)
    decreases |actions|
  {
    if |actions| == 0 then false
    else if actions[|actions| - 1].Logout? then LastAttemptStarted(actions[..|actions| - 1])
    else actions[|actions| - 1].LoginStart?
  }

  /** From the initial state the identity is always whole, and the store is
      loading exactly when the last action other than `logout` was
      `loginStart`. */
  lemma {:induction false} RunInvariant(actions: seq<Action>)
    ensures Whole(Run(Initial, actions))
    ensures Run(Initial, actions).isLoading <==> LastAttemptStarted(actions)
    decreases |actions|
  {
    if |actions| > 0 {
      RunInvariant(actions[..|actions| - 1]);
    }
  }

  /** The same sign-in given to both client stores leaves them holding the
      same identity, and clearing either forgets it. */
  lemma AgreesWithSessionStore(s: State, t: AuthStore.State, storage: AuthStore.Storage, codec: AuthStore.UserCodec,
                               u: string, e: string, tok: string)
    ensures var r := Reduce(s, LoginSuccess(u, e, tok));
      var (r', _) := AuthStore.Reduce(t, storage, codec, AuthStore.SetAuthTokens(AuthStore.User(u, e), tok));
      && r'.user == Some(AuthStore.User(r.userId.value, r.email.value))
      && r'.accessToken == r.accessToken
    ensures var r := Reduce(s, Logout);
      var (r', _) := AuthStore.Reduce(t, storage, codec, AuthStore.ClearAuth);
      && r.userId.None? && r'.user.None? && r.accessToken == r'.accessToken
  {
  }
}
