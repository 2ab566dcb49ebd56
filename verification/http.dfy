/**
 What a route handler sees of an HTTP request, and the services it calls that
 are outside this model: the token verifier, ObjectId syntax, date parsing
 and the clock. Each service is a function-typed field, so every property
 proved holds for any behaviour of it.
 */
module Http {
  import opened Wrappers
  import opened Text

  type Id = string

  /** A JSON value as far as the routes inspect it. Numbers are integral;
      arrays and objects inside a body are never looked into and are `JOther`. */
  datatype Json = JNull | JBool(b: bool) | JNum(n: int) | JStr(s: string) | JOther

  /** JavaScript truthiness of a JSON value; a missing field is `undefined`,
      which reads as `JNull`. */
  predicate Truthy(j: Json) {
    match j
    case JNull => false
    case JBool(b) => b
    case JNum(n) => n != 0
    case JStr(s) => s != ""
    case JOther => true
  }

  /** `req.json()`: the text is not JSON (the promise rejects), it is the JSON
      value `null`, or it is an object with named fields. Any other JSON
      value has none of the fields the routes read, so it is written as an
      object without them. */
  datatype Body = Malformed | Null | Object(fields: map<string, Json>)

  /** `body?.k` after `req.json().catch(() => ({}))`: a malformed body reads as
      the empty object, `null?.k` is `undefined`, and so is a missing field. */
  function Field(body: Body, k: string): (j: Json)
    ensures !body.Object? ==> j == JNull
    ensures body.Object? && k !in body.fields ==> j == JNull
    ensures body.Object? && k in body.fields ==> j == body.fields[k]
  {
    match body
    case Malformed => JNull
    case Null => JNull
    case Object(fields) => if k in fields then fields[k] else JNull
  }

  /** `typeof v === "string" ? v : default`. */
  function StringOr(j: Json, default: string): (s: string)
    ensures j.JStr? ==> s == j.s
    ensures !j.JStr? ==> s == default
  {
    if j.JStr? then j.s else default
  }

  /** `typeof v === "string" ? v.trim() : ""`. */
  function TrimmedOrEmpty(j: Json): (s: string)
    ensures IsTrimmed(s)
    ensures j.JStr? ==> s == Trim(j.s)
    ensures !j.JStr? ==> s == ""
  {
    if j.JStr? then Trim(j.s) else ""
  }

  /** The parts of a request the routes read: the `authorization` header, the
      URL search parameters and the body. */
  datatype Request = Request(authorization: Option<string>, query: map<string, string>, body: Body)

  /** `url.searchParams.get(k)`. */
  function Param(r: Request, k: string): (v: Option<string>)
    ensures v.Some? <==> k in r.query
    ensures v.Some? ==> v.value == r.query[k]
  {
    if k in r.query then Some(r.query[k]) else None
  }

  /** The claims of a verified token the routes look at: `id`, `userId` and
      `_id`, each possibly absent. */
  datatype Payload = Payload(id: Option<string>, userId: Option<string>, docId: Option<string>)

  /** `jwt.verify` either returns the payload or throws with a message. */
  datatype Verdict = Valid(payload: Payload) | Invalid(message: string)

  /** The world outside the handlers:
      - `secret` is `process.env.JWT_SECRET`;
      - `verify(token, secret)` is `jwt.verify` with a set secret;
      - `keyless(token)` is the message `jwt.verify` throws when the secret
        is unset or empty;
      - `isObjectId` is `mongoose.Types.ObjectId.isValid` on a string;
      - `parseDate` is `new Date(s)` read back with `getTime()`, None for an
        invalid date;
      - `now` is `Date.now()` in milliseconds. */
  datatype Env = Env(
    secret: Option<string>,
    verify: (string, string) -> Verdict,
    keyless: string -> string,
    isObjectId: string -> bool,
    parseDate: string -> Option<int>,
    now: int)

  /** `process.env.JWT_SECRET` is unset or empty. */
  predicate NoSecret(env: Env) {
    env.secret.None? || env.secret.value == ""
  }

  /** `jwt.verify(token, secret)` as the jsonwebtoken library runs it: with
      an unset or empty secret every token is rejected, with a message the
      library picks from the token (`keyless`); otherwise the verifier
      decides. */
  function JwtVerify(token: string, env: Env): (v: Verdict)
    ensures NoSecret(env) ==> v.Invalid? && v.message == env.keyless(token)
    ensures !NoSecret(env) ==> v == env.verify(token, env.secret.value)
  {
    if NoSecret(env) then Invalid(env.keyless(token))
    else env.verify(token, env.secret.value)
  }

  /** The message of the error the database layer raises when a value
      cannot be cast to the schema type (an id that is not an ObjectId, an
      Invalid Date). */
  const CastError: string := "Cast failed"
}
