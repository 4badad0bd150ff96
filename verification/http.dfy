/** The parts of an Express request/response that the application touches:
    environment configuration, cookies, and the ordered effects a middleware
    has on the response. */
module Http {
  import opened Wrappers

  /** The environment variables read by the session core. */
  datatype Env = Env(
    jwtSecret: Option<string>,      // JWT_SECRET
    refreshSecret: Option<string>,  // REFRESH_TOKEN_SECRET
    nodeEnv: Option<string>,        // NODE_ENV
    frontendUrl: Option<string>)    // FRONTEND_URL

  predicate IsProduction(env: Env) {
    env.nodeEnv == Some("production")
  }

  /** RFC 6265 cookie attributes the application sets: HttpOnly (section
      4.1.2.6), Secure (section 4.1.2.5) and SameSite. */
  datatype SameSite = Strict
  datatype CookieOptions = CookieOptions(httpOnly: bool, secure: bool, sameSite: SameSite)

  /** `res.cookie(name, value, {..., maxAge})` and `res.clearCookie(name, {...})`;
      `maxAge` is in milliseconds, as Express takes it. */
  datatype CookieOp =
    | SetCookie(name: string, value: string, options: CookieOptions, maxAgeMs: nat)
    | ClearCookie(name: string, options: CookieOptions)

  /** One observable action of a middleware, in the order it happens. */
  datatype Effect =
    | Send(status: nat, message: string, errors: seq<string>)  // res.status(..).json(..)
    | Cookie(op: CookieOp)
    | Header(name: string, value: string)                       // res.setHeader(..)
    | Next                                                      // next()

  /** A JSON value as parsed from a request body. Numbers are JavaScript
      numbers, taken here as exact reals; an object keeps its members in
      order, one per name (the parser keeps the last of duplicate names). */
  datatype Json =
    | JNull
    | JBool(b: bool)
    | JNum(num: real)
    | JStr(str: string)
    | JArr(items: seq<Json>)
    | JObj(fields: seq<(string, Json)>)

  /** A reply of a route handler: status, message and optional payload. */
  datatype Reply<D> = Reply(status: nat, message: string, data: Option<D>)

  function CountNext(effects: seq<Effect>): nat {
    if |effects| == 0 then 0
    else (if effects[0].Next? then 1 else 0) + CountNext(effects[1..])
  }

  function CountSend(effects: seq<Effect>): nat {
    if |effects| == 0 then 0
    else (if effects[0].Send? then 1 else 0) + CountSend(effects[1..])
  }
}
