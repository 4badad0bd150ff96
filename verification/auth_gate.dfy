/** `authMiddleware`: the per-request authorization gate. It reads the Bearer
    access token (RFC 6750 section 2.1), lets a valid one through, and on expiry
    alone falls back to the `refreshToken` cookie, re-issuing a token pair for
    the refresh token's user and forwarding the request. Every other path is a
    single 401. */
module AuthGate {
  import opened Wrappers
  import opened Text
  import opened Http
  import opened Jwt
  import opened AuthHelper
  import opened UserModel

  const BearerPrefix := "Bearer "
  const NewAccessTokenHeader := "X-New-Access-Token"

  const MissingHeader := "Authorization token missing or invalid."
  const InvalidAccessToken := "Invalid token. Please log in again."
  const NoRefreshToken := "Access token expired and no refresh token provided."
  const BadRefreshToken := "Invalid or expired refresh token. Please log in again."
  const UnknownRefreshUser := "Invalid refresh token."

  /** What the gate reads from a request: the `Authorization` header and the
      `refreshToken` cookie. */
  datatype Request = Request(authorization: Option<string>, refreshCookie: Option<string>)

  /** What the gate does: its effects on the response in order, and the
      `req.user.id` it leaves for the next handler. */
  datatype Outcome = Outcome(effects: seq<Effect>, user: Option<string>)


  /** The gate's two kinds of ending: the request is forwarded exactly once with
      a user attached and nothing sent, or exactly one 401 with one of the
      gate's messages is sent and the request goes no further. */
  predicate Settled(o: Outcome) {
    || (&& CountNext(o.effects) == 1 && CountSend(o.effects) == 0
        && o.user.Some? && o.effects[|o.effects| - 1] == Next)
    || (&& o.user.None? && |o.effects| == 1
        && o.effects[0].Send? && o.effects[0].status == 401 && o.effects[0].errors == []
        && IsGateMessage(o.effects[0].message))
  }

  /** `authHeader.split(" ")[1]`: the second space-separated field of a header
      that starts with `Bearer `; it exists because the header has a space. */
  function BearerToken(header: string): (r: string)
    requires StartsWith(header, BearerPrefix)
    ensures ' ' !in r
    ensures StartsWith(header[|BearerPrefix|..], r)
    ensures |BearerPrefix| + |r| == |header| || header[|BearerPrefix| + |r|] == ' '
  {
    BearerFields(header);
    SplitFirst(header[|BearerPrefix|..], ' ');
    Split(header, ' ')[1]
  }

  /** A header starting with `Bearer ` splits into `Bearer` and the fields of
      the rest. */
  lemma BearerFields(header: string)
    requires StartsWith(header, BearerPrefix)
    ensures Split(header, ' ') == ["Bearer"] + Split(header[|BearerPrefix|..], ' ')
  {
    var rest := header[|BearerPrefix|..];
    assert header == "Bearer" + [' '] + rest;
    SplitField("Bearer", ' ', rest);
  }

  /** The header a client builds from a token without spaces yields that token. */
  lemma BearerTokenOf(tok: string)
    requires ' ' !in tok
    ensures StartsWith(BearerPrefix + tok, BearerPrefix)
    ensures BearerToken(BearerPrefix + tok) == tok
  {
    var h := BearerPrefix + tok;
    assert h[..|BearerPrefix|] == BearerPrefix;
    assert Join(["Bearer", tok], ' ') == h;
    SplitJoin(["Bearer", tok], ' ');
  }

  predicate IsGateMessage(m: string) {
    m == MissingHeader || m == InvalidAccessToken || m == NoRefreshToken
    || m == BadRefreshToken || m == UnknownRefreshUser
  }

  /** A 401 with one of the gate's messages; the request goes no further. */
  function Reject(message: string): (o: Outcome)
    requires IsGateMessage(message)
    ensures Settled(o) && CountNext(o.effects) == 0
  {
    Outcome([Send(401, message, [])], None)
  }

  /** Forwarding after a silent refresh: the new refresh cookie, the new access
      token in a response header, then `next()` as the refresh token's user. */
  function Forward(issued: Issued, uid: string): (o: Outcome)
    requires |issued.cookies| == 1
    ensures Settled(o) && o.user == Some(uid)
  {
    var o := Outcome([Cookie(issued.cookies[0]), Header(NewAccessTokenHeader, issued.accessToken), Next], Some(uid));
    var e := o.effects;
    assert e[1..][1..][1..] == [];
    assert CountNext(e[2..]) == 1 && CountSend(e[2..]) == 0 by { assert e[2..][1..] == []; }
    assert e[1..][1..] == e[2..];
    o
  }

  /** The refresh branch, entered only when the access token has expired. */
  function Refresh(env: Env, store: Store, cookie: Option<string>, now: nat): (o: Outcome)
    ensures Settled(o)
  {
    if cookie.None? || cookie.value == "" then Reject(NoRefreshToken)
    else match Verify(env.refreshSecret, cookie.value, now)
      case Valid(sub) =>
        (match FindById(store, sub)
         case Failure(_) => Reject(BadRefreshToken)
         case Success(None) => Reject(UnknownRefreshUser)
         case Success(Some(u)) =>
           match GenerateAndSetTokens(env, u.id, now)
           case Failure(_) => Reject(BadRefreshToken)
           case Success(issued) =>
             Forward(issued, u.id))
      case _ => Reject(BadRefreshToken)
  }

  /** `authMiddleware(req, res, next)` at clock `now` (seconds). */
  function Authenticate(env: Env, store: Store, req: Request, now: nat): (o: Outcome)
    ensures Settled(o)
  {
    match req.authorization
    case None => Reject(MissingHeader)
    case Some(h) =>
      if !StartsWith(h, BearerPrefix) then Reject(MissingHeader)
      else match Verify(env.jwtSecret, BearerToken(h), now)
        case Valid(sub) => Outcome([Next], Some(sub))
        case Invalid => Reject(InvalidAccessToken)
        case Expired => Refresh(env, store, req.refreshCookie, now)
  }

  /** A missing header, or one that does not begin with exactly `Bearer `, is
      refused before any token is looked at; `next` is not called. */
  lemma MissingBearerRejected(env: Env, store: Store, req: Request, now: nat)
    requires req.authorization.None? || !StartsWith(req.authorization.value, BearerPrefix)
    ensures Authenticate(env, store, req, now) == Reject(MissingHeader)
  {
  }

  /** A token signed with `JWT_SECRET` and not yet expired is let through as
      its subject, with nothing else written to the response. */
  lemma ValidAccessPasses(env: Env, store: Store, cookie: Option<string>, sub: string, iat: nat, now: nat)
    requires Configured(env.jwtSecret)
    requires now < iat + AccessLifetime
    ensures var tok := Serialize(Sign(env.jwtSecret.value, sub, iat, AccessLifetime));
      Authenticate(env, store, Request(Some(BearerPrefix + tok), cookie), now)
        == Outcome([Next], Some(sub))
  {
    var tok := Serialize(Sign(env.jwtSecret.value, sub, iat, AccessLifetime));
    ParseSerialize(Sign(env.jwtSecret.value, sub, iat, AccessLifetime));
    BearerTokenOf(tok);
    VerifySigned(env.jwtSecret.value, sub, iat, AccessLifetime, now);
  }

  /** Any failure of the access token other than expiry is a 401 that depends
      neither on the refresh cookie nor on the user store. */
  lemma InvalidAccessIgnoresRefresh(env: Env, store: Store, store': Store, h: string, c: Option<string>, c': Option<string>, now: nat)
    requires StartsWith(h, BearerPrefix)
    requires Verify(env.jwtSecret, BearerToken(h), now) == Invalid
    ensures Authenticate(env, store, Request(Some(h), c), now) == Reject(InvalidAccessToken)
    ensures Authenticate(env, store, Request(Some(h), c), now)
         == Authenticate(env, store', Request(Some(h), c'), now)
  {
  }

  /** A refresh token presented as the Bearer token takes the non-refresh
      branch: signed with the other secret, it is `Invalid`, never `Expired`. */
  lemma RefreshTokenAsBearerRejected(env: Env, store: Store, cookie: Option<string>, sub: string, iat: nat, now: nat)
    requires Configured(env.jwtSecret) && Configured(env.refreshSecret)
    requires env.jwtSecret != env.refreshSecret
    ensures var tok := Serialize(Sign(env.refreshSecret.value, sub, iat, RefreshLifetime));
      Authenticate(env, store, Request(Some(BearerPrefix + tok), cookie), now) == Reject(InvalidAccessToken)
  {
    var t := Sign(env.refreshSecret.value, sub, iat, RefreshLifetime);
    ParseSerialize(t);
    BearerTokenOf(Serialize(t));
    NoCrossValidation(env.refreshSecret.value, env.jwtSecret.value, sub, iat, RefreshLifetime, now);
  }

  /** An expired access token with no (or an empty) refresh cookie. */
  lemma ExpiredWithoutCookie(env: Env, store: Store, h: string, c: Option<string>, now: nat)
    requires StartsWith(h, BearerPrefix)
    requires Verify(env.jwtSecret, BearerToken(h), now) == Expired
    requires c.None? || c.value == ""
    ensures Authenticate(env, store, Request(Some(h), c), now) == Reject(NoRefreshToken)
  {
  }

  /** An expired access token with a refresh cookie that does not verify under
      `REFRESH_TOKEN_SECRET` (expired, malformed, or signed with another secret). */
  lemma ExpiredWithBadRefresh(env: Env, store: Store, h: string, c: string, now: nat)
    requires StartsWith(h, BearerPrefix)
    requires Verify(env.jwtSecret, BearerToken(h), now) == Expired
    requires c != "" && !Verify(env.refreshSecret, c, now).Valid?
    ensures Authenticate(env, store, Request(Some(h), Some(c)), now) == Reject(BadRefreshToken)
  {
  }

  /** A verified refresh token whose subject is an ObjectId of no stored user:
      a 401 and no tokens issued. */
  lemma RefreshForUnknownUser(env: Env, store: Store, h: string, c: string, sub: string, now: nat)
    requires StartsWith(h, BearerPrefix)
    requires Verify(env.jwtSecret, BearerToken(h), now) == Expired
    requires c != "" && Verify(env.refreshSecret, c, now) == Valid(sub)
    requires IsObjectId(sub) && forall i :: 0 <= i < |store| ==> store[i].id != CastObjectId(sub)
    ensures Authenticate(env, store, Request(Some(h), Some(c)), now) == Reject(UnknownRefreshUser)
  {
  }

  /** The silent refresh: an expired access token plus a refresh token for a
      stored user forwards the request as that user (the refresh token's
      subject, cast to an ObjectId; not the access token's subject), after
      setting the new refresh cookie and the `X-New-Access-Token` header to the
      helper's new access token, which is valid now and so differs from the
      expired one. */
  lemma SilentRefresh(env: Env, store: Store, h: string, c: string, sub: string, now: nat)
    requires StartsWith(h, BearerPrefix)
    requires Verify(env.jwtSecret, BearerToken(h), now) == Expired
    requires c != "" && Verify(env.refreshSecret, c, now) == Valid(sub)
    requires IsObjectId(sub) && exists i :: 0 <= i < |store| && store[i].id == CastObjectId(sub)
    ensures GenerateAndSetTokens(env, CastObjectId(sub), now).Success?
    ensures var issued := GenerateAndSetTokens(env, CastObjectId(sub), now).value;
      && Authenticate(env, store, Request(Some(h), Some(c)), now)
           == Forward(issued, CastObjectId(sub))
      && Verify(env.jwtSecret, issued.accessToken, now) == Valid(CastObjectId(sub))
      && issued.accessToken != BearerToken(h)
  {
    assert Configured(env.jwtSecret) && Configured(env.refreshSecret);
    assert Authenticate(env, store, Request(Some(h), Some(c)), now) == Refresh(env, store, Some(c), now);
    RefreshFindsUser(env, store, c, sub, now);
    IssuedTokensVerify(env, CastObjectId(sub), now, now);
  }

  /** The refresh branch with a verified cookie whose subject is a stored
      user's id forwards the request as that user. */
  lemma RefreshFindsUser(env: Env, store: Store, c: string, sub: string, now: nat)
    requires c != "" && Verify(env.refreshSecret, c, now) == Valid(sub)
    requires IsObjectId(sub) && exists i :: 0 <= i < |store| && store[i].id == CastObjectId(sub)
    requires GenerateAndSetTokens(env, CastObjectId(sub), now).Success?
    ensures Refresh(env, store, Some(c), now)
         == Forward(GenerateAndSetTokens(env, CastObjectId(sub), now).value, CastObjectId(sub))
  {
    var f := FindById(store, sub);
    assert f.Success? && f.value.Some?;
    assert f.value.value.id == CastObjectId(sub);
  }
}
