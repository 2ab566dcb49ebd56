/**
 What the note routes share: the schema's rules for a stored note, the way
 an id in a body reaches `findById`, and how the create and update routes
 read the caller from the `authorization` header with `jwt.verify`
 directly instead of through the shared helper.
 */
module NoteRules {
  import opened Wrappers
  import opened Text
  import opened Http
  import opened Records

  /** `maxlength: 200` on the title. */
  const TitleMaxLength: int := 200

  /** The routes that call `req.json()` without a `catch` answer 500 with
      the parser's message when the body is not JSON. */
  const BadJson: string := "Unexpected token in JSON"

  /** Those routes destructure the parsed body at once; a `null` body throws
      this `TypeError`, naming the first field of the pattern, and the route
      answers 500 with it. */
  function NullBodyError(first: string): string {
    "Cannot destructure property '" + first + "' of '(intermediate value)' as it is null."
  }

  /** The message of a failed schema validation on `create` or `save`. */
  const NoteInvalid: string := "Note validation failed"

  /** The schema's rules for a stored title: trimmed, present, and at most
      200 in JavaScript's `length`, which counts UTF-16 code units. */
  predicate ValidTitle(t: string) {
    t != "" && IsTrimmed(t) && Utf16Length(t) <= TitleMaxLength
  }

  /** Every note the schema lets into the store has a valid title. */
  predicate ValidNote(n: Note) {
    ValidTitle(n.title)
  }

  /** The title a string becomes when the schema stores it: trimmed, and
      rejected when empty or too long. */
  function StoredTitle(t: string): (r: Option<string>)
    ensures r.Some? <==> Trim(t) != "" && Utf16Length(Trim(t)) <= TitleMaxLength
    ensures r.Some? ==> r.value == Trim(t) && ValidTitle(r.value)
  {
    var s := Trim(t);
    if s == "" || Utf16Length(s) > TitleMaxLength then None else Some(s)
  }

  /** A title of 101 characters outside the Basic Multilingual Plane is 202
      code units long and is refused, although it has only 101 characters. */
  lemma AstralTitleTooLong()
    ensures var t := seq(101, i => '\U{1F600}');
            |t| == 101 && StoredTitle(t).None?
  {
    var t := seq(101, i => '\U{1F600}');
    assert IsTrimmed(t);
    TrimOfTrimmed(t);
  }

  /** A title that is already valid is stored as it is. */
  lemma StoredTitleOfValid(t: string)
    requires ValidTitle(t)
    ensures StoredTitle(t) == Some(t)
  {
    TrimOfTrimmed(t);
  }

  /** The argument of `findById(v)`: undefined finds nothing, a string that
      is not an ObjectId cannot be cast. Other JSON values are not cast
      here either. */
  datatype IdArg = Absent | Uncastable | ObjectId(id: Id)

  function IdArgOf(j: Json, env: Env): (a: IdArg)
    ensures a.Absent? <==> j.JNull?
    ensures a.ObjectId? <==> j.JStr? && env.isObjectId(j.s)
    ensures a.ObjectId? ==> a.id == j.s
  {
    match j
    case JNull => Absent
    case JStr(s) => if env.isObjectId(s) then ObjectId(s) else Uncastable
    case _ => Uncastable
  }

  /** What `auth.replace("Bearer ", "")` and `jwt.verify` leave the create
      and update routes with: no header, a thrown verification error, or the
      decoded claims' `id`. */
  datatype Decoded = NoHeader | Rejected(message: string) | Claims(id: Option<Id>)

  function DecodeAuthorization(authorization: Option<string>, env: Env): (d: Decoded)
    ensures d.NoHeader? <==> authorization.None? || authorization == Some("")
    ensures authorization.Some? && authorization.value != "" && NoSecret(env) ==>
              d == Rejected(env.keyless(ReplaceFirst(authorization.value, "Bearer ", "")))
  {
    match authorization
    case None => NoHeader
    case Some(h) =>
      if h == "" then NoHeader
      else match JwtVerify(ReplaceFirst(h, "Bearer ", ""), env)
        case Invalid(m) => Rejected(m)
        case Valid(p) => Claims(p.id)
  }

  /** `project.members.includes(decoded.id)`: membership only; owning the
      project is not enough. */
  predicate IsMember(p: Project, id: Option<Id>) {
    id.Some? && id.value in p.members
  }
}
