/** `generateAndSetTokens`: mints the access/refresh token pair for a user and
    sets the refresh token as an HttpOnly cookie, returning only the access
    token. */
module AuthHelper {
  import opened Wrappers
  import opened Http
  import opened Jwt

  /** `expiresIn: "15m"`, in seconds. */
  const AccessLifetime: nat := 15 * 60
  /** `expiresIn: "7d"`, in seconds. */
  const RefreshLifetime: nat := 7 * 24 * 60 * 60
  /** The refresh cookie's `maxAge`, in milliseconds. */
  const RefreshCookieMaxAgeMs: nat := 7 * 24 * 60 * 60 * 1000

  const RefreshCookieName := "refreshToken"
  const SecretsNotConfigured := "Token secrets are not configured."

  /** The attributes the refresh cookie is set and cleared with. */
  function RefreshCookieOptions(env: Env): (o: CookieOptions)
    ensures o.httpOnly && o.sameSite == Strict
    ensures o.secure <==> env.nodeEnv == Some("production")
  {
    CookieOptions(true, IsProduction(env), Strict)
  }

  /** What the helper hands back (`{accessToken}`) and the cookies it set on
      the response on the way. */
  datatype Issued = Issued(accessToken: string, cookies: seq<CookieOp>)

  /** The refresh token the helper writes into the cookie, for a successful call. */
  function RefreshTokenOf(i: Issued): string
    requires |i.cookies| == 1 && i.cookies[0].SetCookie?
  {
    i.cookies[0].value
  }

  /** `generateAndSetTokens(res, user)` at clock `now` (seconds): throws
      before signing anything unless both secrets are set; otherwise signs the
      access token (15 minutes) with `JWT_SECRET` and the refresh token (7 days)
      with `REFRESH_TOKEN_SECRET`, both for `{id: userId}`, sets exactly one
      cookie carrying the refresh token and returns the access token. */
  function GenerateAndSetTokens(env: Env, userId: string, now: nat): (r: Result<Issued>)
    ensures r.Failure? <==> !Configured(env.jwtSecret) || !Configured(env.refreshSecret)
    ensures r.Failure? ==> r.error == SecretsNotConfigured
    ensures r.Success? ==>
      && Parse(r.value.accessToken) == Some(Token(env.jwtSecret.value, userId, now + AccessLifetime))
      && |r.value.cookies| == 1
      && r.value.cookies[0].SetCookie?
      && r.value.cookies[0].name == RefreshCookieName
      && r.value.cookies[0].options == RefreshCookieOptions(env)
      && Parse(r.value.cookies[0].value) == Some(Token(env.refreshSecret.value, userId, now + RefreshLifetime))
      && r.value.cookies[0].maxAgeMs == 1000 * (Parse(r.value.cookies[0].value).value.exp - now)
  {
    if !Configured(env.jwtSecret) || !Configured(env.refreshSecret) then
      Failure(SecretsNotConfigured)
    else
      var access := Sign(env.jwtSecret.value, userId, now, AccessLifetime);
      var refresh := Sign(env.refreshSecret.value, userId, now, RefreshLifetime);
      ParseSerialize(access);
      ParseSerialize(refresh);
      var cookie := SetCookie(RefreshCookieName, Serialize(refresh), RefreshCookieOptions(env), RefreshCookieMaxAgeMs);
      Success(Issued(Serialize(access), [cookie]))
  }

  /** The returned access token is never the refresh token, even when both
      secrets are the same string: the two lifetimes differ. */
  lemma AccessTokenIsNotRefreshToken(env: Env, userId: string, now: nat)
    requires GenerateAndSetTokens(env, userId, now).Success?
    ensures var i := GenerateAndSetTokens(env, userId, now).value;
            i.accessToken != RefreshTokenOf(i)
  {
  }

  /** The issued tokens verify under their own secrets, to `userId`, for exactly
      their lifetimes: the access token until `now + 15 min`, the refresh token
      until `now + 7 days`; and when the secrets differ neither token verifies
      under the other's secret. */
  lemma IssuedTokensVerify(env: Env, userId: string, now: nat, later: nat)
    requires GenerateAndSetTokens(env, userId, now).Success?
    ensures var i := GenerateAndSetTokens(env, userId, now).value;
      && Verify(env.jwtSecret, i.accessToken, later)
           == (if later < now + AccessLifetime then Valid(userId) else Expired)
      && Verify(env.refreshSecret, RefreshTokenOf(i), later)
           == (if later < now + RefreshLifetime then Valid(userId) else Expired)
      && (env.jwtSecret != env.refreshSecret ==>
            Verify(env.refreshSecret, i.accessToken, later) == Invalid
            && Verify(env.jwtSecret, RefreshTokenOf(i), later) == Invalid)
  {
  }
}
