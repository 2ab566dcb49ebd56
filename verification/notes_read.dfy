/**
 The note reading routes: `POST /api/notes/list` lists one project's notes
 and `POST /api/notes/get` reads one note, each behind the caller and
 project-access guards in a fixed order.
 */
module NotesRead {
  import opened Wrappers
  import opened Sorting
  import opened Http
  import opened Records
  import opened Auth
  import opened NoteRules

  /** The fields `.select(...)` keeps of a listed note; the single
      `linkedTask` is not among them. */
  datatype NoteSummary = NoteSummary(id: Id, projectId: Id, title: string, content: string, createdBy: Id, updatedAt: int)

  function Summary(n: Note): (s: NoteSummary)
    ensures s.id == n.id && s.projectId == n.projectId && s.title == n.title
    ensures s.content == n.content && s.createdBy == n.createdBy && s.updatedAt == n.updatedAt
  {
    NoteSummary(n.id, n.projectId, n.title, n.content, n.createdBy, n.updatedAt)
  }

  function NoteRecency(n: Note): int {
    -n.updatedAt
  }

  /** `Note.find({ projectId }).sort({ updatedAt: -1 })`: the notes of that
      project and no other, each as often as stored, most recent first. */
  function ProjectNotes(ns: seq<Note>, pid: Id): (r: seq<Note>)
    ensures forall n :: n in r <==> n in ns && n.projectId == pid
    ensures forall n :: multiset(r)[n] == if n.projectId == pid then multiset(ns)[n] else 0
    ensures forall i, j :: 0 <= i < j < |r| ==> r[i].updatedAt >= r[j].updatedAt
  {
    var f := Filter(ns, (n: Note) => n.projectId == pid);
    SortByMembers(f, NoteRecency);
    var r := SortBy(f, NoteRecency);
    assert forall i, j :: 0 <= i < j < |r| ==> NoteRecency(r[i]) <= NoteRecency(r[j]);
    r
  }

  /** `!projectId || !ObjectId.isValid(projectId)` fails. */
  predicate ValidProjectId(j: Json, env: Env) {
    j.JStr? && j.s != "" && env.isObjectId(j.s)
  }

  /** `POST /api/notes/list`. The body is read leniently. */
  function NotesList(req: Request, store: Store, env: Env): (r: Reply<seq<NoteSummary>>)
    ensures RequireCaller(req.authorization, env).Refused? ==>
              r == Fail(RequireCaller(req.authorization, env).status, RequireCaller(req.authorization, env).error)
    ensures RequireCaller(req.authorization, env).Caller? && !ValidProjectId(Field(req.body, "projectId"), env)
            ==> r == Fail(400, "Valid projectId required")
    ensures RequireCaller(req.authorization, env).Caller? && ValidProjectId(Field(req.body, "projectId"), env)
            && !AccessibleProject(store.projects, Field(req.body, "projectId").s, RequireCaller(req.authorization, env).id)
            ==> r == Fail(403, "Forbidden")
    ensures r.Ok? <==> RequireCaller(req.authorization, env).Caller? && ValidProjectId(Field(req.body, "projectId"), env)
                       && AccessibleProject(store.projects, Field(req.body, "projectId").s, RequireCaller(req.authorization, env).id)
    ensures r.Ok? ==> r.status == 200 && |r.value| <= |store.notes|
  {
    match RequireCaller(req.authorization, env)
    case Refused(status, error) => Fail(status, error)
    case Caller(user) =>
      var pj := Field(req.body, "projectId");
      if !ValidProjectId(pj, env) then Fail(400, "Valid projectId required")
      else if !AccessibleProject(store.projects, pj.s, user) then Fail(403, "Forbidden")
      else Ok(200, ListedSummaries(store.notes, pj.s))
  }

  /** The summaries a listing returns for project `pid`. */
  function ListedSummaries(ns: seq<Note>, pid: Id): seq<NoteSummary> {
    MapSeq(ProjectNotes(ns, pid), Summary)
  }

  /** The summaries are of that project's notes only, cover every one of
      them, and come most recently updated first. */
  lemma {:induction false} SummariesOfProject(ns: seq<Note>, pid: Id)
    ensures var r := ListedSummaries(ns, pid);
            (forall s :: s in r ==> s.projectId == pid)
            && (forall n :: n in ns && n.projectId == pid ==> Summary(n) in r)
            && (forall i, j :: 0 <= i < j < |r| ==> r[i].updatedAt >= r[j].updatedAt)
  {
    var r := ListedSummaries(ns, pid);
    forall s | s in r
      ensures s.projectId == pid
    {
      ListedIsOfProject(ns, pid, s);
    }
    forall n | n in ns && n.projectId == pid
      ensures Summary(n) in r
    {
      NoteIsListed(ns, pid, n);
    }
  }

  /** A listed summary is of the requested project. */
  lemma ListedIsOfProject(ns: seq<Note>, pid: Id, s: NoteSummary)
    requires s in ListedSummaries(ns, pid)
    ensures s.projectId == pid
  {
    var ps := ProjectNotes(ns, pid);
    var r := ListedSummaries(ns, pid);
    var i :| 0 <= i < |r| && r[i] == s;
    assert ps[i] in ps;
  }

  /** Every note of the project is listed. */
  lemma NoteIsListed(ns: seq<Note>, pid: Id, n: Note)
    requires n in ns && n.projectId == pid
    ensures Summary(n) in ListedSummaries(ns, pid)
  {
    var ps := ProjectNotes(ns, pid);
    assert n in ps;
    var i :| 0 <= i < |ps| && ps[i] == n;
    assert ListedSummaries(ns, pid)[i] == Summary(n);
  }

  /** A successful listing is the summaries of the requested project. */
  lemma ListedNotes(req: Request, store: Store, env: Env)
    requires NotesList(req, store, env).Ok?
    ensures var r := NotesList(req, store, env).value;
            var pid := Field(req.body, "projectId").s;
            (forall s :: s in r ==> s.projectId == pid)
            && (forall n :: n in store.notes && n.projectId == pid ==> Summary(n) in r)
            && (forall i, j :: 0 <= i < j < |r| ==> r[i].updatedAt >= r[j].updatedAt)
  {
    var pid := Field(req.body, "projectId").s;
    assert NotesList(req, store, env).value == ListedSummaries(store.notes, pid);
    SummariesOfProject(store.notes, pid);
  }

  /** `POST /api/notes/get`. The body is read strictly: it is parsed after
      the caller check, and a malformed one is a 500. */
  function NotesGet(req: Request, store: Store, env: Env): (r: Reply<Note>)
    ensures RequireCaller(req.authorization, env).Refused? ==>
              r == Fail(RequireCaller(req.authorization, env).status, RequireCaller(req.authorization, env).error)
    ensures RequireCaller(req.authorization, env).Caller? && req.body.Malformed? ==> r == Fail(500, BadJson)
    ensures RequireCaller(req.authorization, env).Caller? && req.body.Null? ==> r == Fail(500, NullBodyError("noteId"))
    ensures RequireCaller(req.authorization, env).Caller? && req.body.Object? && !Truthy(Field(req.body, "noteId"))
            ==> r == Fail(400, "noteId required")
    ensures r.Ok? ==> r.status == 200 && r.value in store.notes
                      && Field(req.body, "noteId") == JStr(r.value.id)
                      && AccessibleProject(store.projects, r.value.projectId, RequireCaller(req.authorization, env).id)
  {
    match RequireCaller(req.authorization, env)
    case Refused(status, error) => Fail(status, error)
    case Caller(user) =>
      if req.body.Malformed? then Fail(500, BadJson)
      else if req.body.Null? then Fail(500, NullBodyError("noteId"))
      else
        var nid := Field(req.body, "noteId");
        if !Truthy(nid) then Fail(400, "noteId required")
        else match IdArgOf(nid, env)
          case ObjectId(id) =>
            (match FindNote(store.notes, id)
             case None => Fail(404, "Note not found")
             case Some(i) =>
               if !AccessibleProject(store.projects, store.notes[i].projectId, user) then Fail(403, "Forbidden")
               else Ok(200, store.notes[i]))
          case _ => Fail(500, CastError)
  }

  /** The guards after the body: an id that is not an ObjectId is a cast
      error, an unknown one is 404, and a note of a project the caller
      cannot open is 403; otherwise the stored note itself comes back. */
  lemma GetGuards(req: Request, store: Store, env: Env)
    requires RequireCaller(req.authorization, env).Caller? && req.body.Object?
    requires Truthy(Field(req.body, "noteId"))
    ensures var nid := Field(req.body, "noteId");
            var r := NotesGet(req, store, env);
            var user := RequireCaller(req.authorization, env).id;
            (!(nid.JStr? && env.isObjectId(nid.s)) ==> r == Fail(500, CastError))
            && (nid.JStr? && env.isObjectId(nid.s) ==>
                  match FindNote(store.notes, nid.s)
                  case None => r == Fail(404, "Note not found")
                  case Some(i) =>
                    if AccessibleProject(store.projects, store.notes[i].projectId, user) then r == Ok(200, store.notes[i])
                    else r == Fail(403, "Forbidden"))
  {
  }
}
