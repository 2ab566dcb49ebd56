/**
 Reading the caller's id from a bearer token (`getUserIdFromRequest` in
 src/lib/auth.ts), and the first guard every route built on it applies.
 */
module Auth {
  import opened Wrappers
  import opened Text
  import opened Http

  const BearerPrefix: string := "Bearer "

  /** The outcome of `getUserIdFromRequest`: null, an id, or a thrown error. */
  datatype Identity = Anonymous | Identified(id: Id) | Thrown(message: string)

  /** `decoded.id ?? decoded.userId ?? decoded._id ?? null`. */
  function FirstId(p: Payload): (r: Option<Id>)
    ensures p.id.Some? ==> r == p.id
    ensures p.id.None? && p.userId.Some? ==> r == p.userId
    ensures p.id.None? && p.userId.None? ==> r == p.docId
  {
    if p.id.Some? then p.id
    else if p.userId.Some? then p.userId
    else p.docId
  }

  /** The token of an authorization header: what follows the seven-character
      prefix, trimmed. */
  function BearerToken(header: string): (token: string)
    requires StartsWith(header, BearerPrefix)
    ensures IsTrimmed(token)
    ensures token == Trim(header[|BearerPrefix|..])
  {
    Trim(header[7..])
  }

  function UserIdFromRequest(authorization: Option<string>, env: Env): (r: Identity)
    ensures (authorization.None? || !StartsWith(authorization.value, BearerPrefix)) ==> r == Anonymous
    ensures authorization.Some? && StartsWith(authorization.value, BearerPrefix)
            && (env.secret.None? || env.secret == Some(""))
            ==> r == Thrown("JWT_SECRET is not set")
  {
    match authorization
    case None => Anonymous
    case Some(header) =>
      if !StartsWith(header, BearerPrefix) then Anonymous
      else
        var token := BearerToken(header);
        if env.secret.None? || env.secret.value == "" then Thrown("JWT_SECRET is not set")
        else match JwtVerify(token, env)
          case Invalid(message) => Thrown(message)
          case Valid(payload) =>
            match FirstId(payload)
            case None => Anonymous
            case Some(id) => Identified(id)
  }

  /** When the secret is set and the header is a bearer header, `jwt.verify`
      alone decides: a rejected token is an error, never "no user", and an
      accepted one yields the first id claim present. */
  lemma VerifiedIdentity(header: string, env: Env)
    requires StartsWith(header, BearerPrefix)
    requires env.secret.Some? && env.secret.value != ""
    ensures var token := Trim(header[7..]);
            match JwtVerify(token, env)
            case Invalid(m) => UserIdFromRequest(Some(header), env) == Thrown(m)
            case Valid(p) =>
              (FirstId(p).Some? ==> UserIdFromRequest(Some(header), env) == Identified(FirstId(p).value))
              && (FirstId(p).None? ==> UserIdFromRequest(Some(header), env) == Anonymous)
  {
  }

  /** The caller a route proceeds with, or the reply it stops with. */
  datatype Caller = Caller(id: Id) | Refused(status: int, error: string)

  /** `const userId = getUserIdFromRequest(req); if (!userId) return 401`,
      inside the route's `try`, whose `catch` answers 500 with the message. */
  function RequireCaller(authorization: Option<string>, env: Env): (c: Caller)
    ensures c.Caller? <==> UserIdFromRequest(authorization, env).Identified?
                           && UserIdFromRequest(authorization, env).id != ""
    ensures c.Caller? ==> c.id == UserIdFromRequest(authorization, env).id && c.id != ""
    ensures c.Refused? && c.status == 500 <==> UserIdFromRequest(authorization, env).Thrown?
    ensures c.Refused? ==> c.status == 401 || c.status == 500
    ensures c.Refused? && c.status == 401 ==> c.error == "Unauthorized"
  {
    match UserIdFromRequest(authorization, env)
    case Thrown(m) => Refused(500, m)
    case Anonymous => Refused(401, "Unauthorized")
    case Identified(id) => if id == "" then Refused(401, "Unauthorized") else Caller(id)
  }

  /** A request without a bearer header never reaches a route's logic. */
  lemma NoBearerUnauthorized(authorization: Option<string>, env: Env)
    requires authorization.None? || !StartsWith(authorization.value, BearerPrefix)
    ensures RequireCaller(authorization, env) == Refused(401, "Unauthorized")
  {
  }
}
