/**
 The note writing routes: `POST /api/notes/create` adds a note to a project
 and `PUT /api/notes/update` changes one. Both parse the body first, decode
 the `authorization` header themselves, and admit only project members.
 */
module NotesWrite {
  import opened Wrappers
  import opened Text
  import opened Http
  import opened Records
  import opened Auth
  import opened NoteRules
  import opened NotesRead

  /** How far the shared opening of both routes gets: the decoded `id`
      claim, or the reply it stops with. */
  datatype Gate = Proceed(who: Option<Id>) | Stop(status: int, error: string)

  /** `await req.json()` (outside any `catch`), then the header check and
      `jwt.verify`, whose throw the route's `catch` turns into a 500. */
  function WriterGate(req: Request, env: Env, first: string): (g: Gate)
    ensures req.body.Malformed? ==> g == Stop(500, BadJson)
    ensures req.body.Null? ==> g == Stop(500, NullBodyError(first))
    ensures req.body.Object? ==>
              match DecodeAuthorization(req.authorization, env)
              case NoHeader => g == Stop(401, "Unauthorized")
              case Rejected(m) => g == Stop(500, m)
              case Claims(id) => g == Proceed(id)
  {
    if req.body.Malformed? then Stop(500, BadJson)
    else if req.body.Null? then Stop(500, NullBodyError(first))
    else match DecodeAuthorization(req.authorization, env)
      case NoHeader => Stop(401, "Unauthorized")
      case Rejected(m) => Stop(500, m)
      case Claims(id) => Proceed(id)
  }

  /** Without a header the routes answer 401 (after the body parses); with
      no secret configured every other request is a 500 carrying the
      message `jwt.verify` throws. */
  lemma GateWithoutSecret(req: Request, env: Env, first: string)
    requires req.body.Object?
    requires NoSecret(env)
    ensures req.authorization.None? || req.authorization == Some("") ==> WriterGate(req, env, first) == Stop(401, "Unauthorized")
    ensures req.authorization.Some? && req.authorization.value != "" ==>
              WriterGate(req, env, first) == Stop(500, env.keyless(ReplaceFirst(req.authorization.value, "Bearer ", "")))
  {
  }

  // ---------------------------------------------------------------------
  // Creating

  /** The stored `content`: the schema default for an absent value, the
      string itself, or nothing storable. */
  function ContentOf(j: Json): (r: Option<string>)
    ensures j.JNull? ==> r == Some("")
    ensures j.JStr? ==> r == Some(j.s)
    ensures r.Some? <==> j.JNull? || j.JStr?
  {
    match j
    case JNull => Some("")
    case JStr(s) => Some(s)
    case _ => None
  }

  /** `linkedTask || null` cast to an ObjectId: a falsy value is no link, an
      ObjectId string is that link, anything else fails the cast. */
  function LinkOf(j: Json, env: Env): (r: Option<Option<Id>>)
    ensures !Truthy(j) ==> r == Some(None)
    ensures Truthy(j) ==> (r.Some? <==> j.JStr? && env.isObjectId(j.s))
    ensures Truthy(j) && r.Some? ==> r.value == Some(j.s)
  {
    if !Truthy(j) then Some(None)
    else if j.JStr? && env.isObjectId(j.s) then Some(Some(j.s))
    else None
  }

  /** What `Note.create` stores, or None when the schema rejects it. */
  function NewNote(id: Id, pid: Id, author: Id, body: Body, env: Env): (r: Option<Note>)
    ensures r.Some? <==> Field(body, "title").JStr? && StoredTitle(Field(body, "title").s).Some?
                         && ContentOf(Field(body, "content")).Some? && LinkOf(Field(body, "linkedTask"), env).Some?
    ensures r.Some? ==>
              var n := r.value;
              n.id == id && n.projectId == pid && n.createdBy == author && n.updatedAt == env.now
              && ValidNote(n) && n.title == Trim(Field(body, "title").s)
              && n.content == ContentOf(Field(body, "content")).value
              && n.linkedTask == LinkOf(Field(body, "linkedTask"), env).value
  {
    var t := Field(body, "title");
    var title := if t.JStr? then StoredTitle(t.s) else None;
    match (title, ContentOf(Field(body, "content")), LinkOf(Field(body, "linkedTask"), env))
    case (Some(s), Some(c), Some(l)) => Some(Note(id, pid, s, c, l, author, env.now))
    case _ => None
  }

  /** `POST /api/notes/create`; `newId` is the id the database assigns. */
  function NotesCreate(req: Request, store: Store, env: Env, newId: Id): (h: Handled<Note, Store>)
    ensures h.reply.Fail? ==> h.store == store
    ensures WriterGate(req, env, "projectId").Stop? ==>
              h.reply == Fail(WriterGate(req, env, "projectId").status, WriterGate(req, env, "projectId").error)
    ensures WriterGate(req, env, "projectId").Proceed? && Field(req.body, "projectId").JNull? ==> h.reply == Fail(404, "Project not found")
    ensures WriterGate(req, env, "projectId").Proceed? && IdArgOf(Field(req.body, "projectId"), env).Uncastable?
            ==> h.reply == Fail(500, CastError)
    ensures h.reply.Ok? ==>
              var n := h.reply.value;
              var pid := Field(req.body, "projectId").s;
              h.reply.status == 200
              && WriterGate(req, env, "projectId").Proceed?
              && Field(req.body, "projectId").JStr? && env.isObjectId(pid)
              && FindProject(store.projects, pid).Some?
              && IsMember(FindProject(store.projects, pid).value, WriterGate(req, env, "projectId").who)
              && n.id == newId && n.projectId == pid && n.createdBy == WriterGate(req, env, "projectId").who.value
              && n.updatedAt == env.now && ValidNote(n)
              && h.store == store.(notes := store.notes + [n])
  {
    match WriterGate(req, env, "projectId")
    case Stop(status, error) => Handled(Fail(status, error), store)
    case Proceed(who) =>
      match IdArgOf(Field(req.body, "projectId"), env)
      case Absent => Handled(Fail(404, "Project not found"), store)
      case Uncastable => Handled(Fail(500, CastError), store)
      case ObjectId(pid) =>
        match FindProject(store.projects, pid)
        case None => Handled(Fail(404, "Project not found"), store)
        case Some(p) =>
          if !IsMember(p, who) then Handled(Fail(403, "Not part of project"), store)
          else match NewNote(newId, pid, who.value, req.body, env)
            case None => Handled(Fail(500, NoteInvalid), store)
            case Some(n) => Handled(Ok(200, n), store.(notes := store.notes + [n]))
  }

  /** The last guards of a create: an unknown project is 404, a caller who is
      not in its member list is 403 (owning it is not enough), and a body the
      schema rejects is 500. */
  lemma CreateGuards(req: Request, store: Store, env: Env, newId: Id, pid: Id)
    requires WriterGate(req, env, "projectId").Proceed?
    requires Field(req.body, "projectId") == JStr(pid) && env.isObjectId(pid)
    ensures var h := NotesCreate(req, store, env, newId);
            var who := WriterGate(req, env, "projectId").who;
            match FindProject(store.projects, pid)
            case None => h.reply == Fail(404, "Project not found")
            case Some(p) =>
              (!IsMember(p, who) ==> h.reply == Fail(403, "Not part of project"))
              && (IsMember(p, who) && NewNote(newId, pid, who.value, req.body, env).None?
                  ==> h.reply == Fail(500, NoteInvalid))
              && (IsMember(p, who) && NewNote(newId, pid, who.value, req.body, env).Some?
                  ==> h.reply == Ok(200, NewNote(newId, pid, who.value, req.body, env).value))
  {
  }

  /** A project owner left out of the member list cannot add notes. */
  lemma OwnerNotMemberCannotCreate(req: Request, store: Store, env: Env, newId: Id, pid: Id)
    requires WriterGate(req, env, "projectId").Proceed? && WriterGate(req, env, "projectId").who.Some?
    requires Field(req.body, "projectId") == JStr(pid) && env.isObjectId(pid)
    requires FindProject(store.projects, pid).Some?
    requires var p := FindProject(store.projects, pid).value;
             p.owner == WriterGate(req, env, "projectId").who.value && p.owner !in p.members
    ensures NotesCreate(req, store, env, newId).reply == Fail(403, "Not part of project")
  {
    CreateGuards(req, store, env, newId, pid);
  }

  /** `Note.findById` depends only on the ids. */
  lemma {:induction false} FindNoteSameIds(ns: seq<Note>, ms: seq<Note>, id: Id)
    requires |ns| == |ms|
    requires forall k :: 0 <= k < |ns| ==> ns[k].id == ms[k].id
    ensures FindNote(ns, id) == FindNote(ms, id)
  {
    if ns != [] && ns[0].id != id {
      FindNoteSameIds(ns[1..], ms[1..], id);
    }
  }

  /** A request asking `get` for the note with id `id`. */
  predicate AsksFor(req: Request, id: Id) {
    req.body == Object(map["noteId" := JStr(id)])
  }

  /** A member of a note's project who asks `get` for it receives it. */
  lemma GetFinds(get: Request, store: Store, env: Env, id: Id, i: nat, p: Project)
    requires RequireCaller(get.authorization, env).Caller?
    requires AsksFor(get, id) && id != "" && env.isObjectId(id)
    requires FindNote(store.notes, id) == Some(i)
    requires p in store.projects && p.id == store.notes[i].projectId
    requires IsMember(p, Some(RequireCaller(get.authorization, env).id))
    ensures NotesGet(get, store, env) == Ok(200, store.notes[i])
  {
    var k :| 0 <= k < |store.projects| && store.projects[k] == p;
    assert CanAccess(store.projects[k], RequireCaller(get.authorization, env).id);
    var user := RequireCaller(get.authorization, env).id;
    assert AccessibleProject(store.projects, store.notes[i].projectId, user);
    assert Field(get.body, "noteId") == JStr(id);
    assert Truthy(JStr(id));
    assert IdArgOf(JStr(id), env) == ObjectId(id);
  }

  /** The note just created can be read back by its author through `get`,
      exactly as stored, when its id is new to the collection. */
  lemma CreateThenGet(req: Request, store: Store, env: Env, newId: Id, get: Request, env2: Env)
    requires NotesCreate(req, store, env, newId).reply.Ok?
    requires forall k :: 0 <= k < |store.notes| ==> store.notes[k].id != newId
    requires RequireCaller(get.authorization, env2) == Caller(WriterGate(req, env, "projectId").who.value)
    requires AsksFor(get, newId) && newId != "" && env2.isObjectId(newId)
    ensures var h := NotesCreate(req, store, env, newId);
            NotesGet(get, h.store, env2) == Ok(200, h.reply.value)
  {
    var h := NotesCreate(req, store, env, newId);
    var n := h.reply.value;
    var p := FindProject(store.projects, n.projectId).value;
    FindNoteAppended(store.notes, n);
    assert h.store.notes[|store.notes|] == n;
    GetFinds(get, h.store, env2, newId, |store.notes|, p);
  }

  /** Appending a note with a new id makes it findable at the end. */
  lemma {:induction false} FindNoteAppended(ns: seq<Note>, n: Note)
    requires forall k :: 0 <= k < |ns| ==> ns[k].id != n.id
    ensures FindNote(ns + [n], n.id) == Some(|ns|)
  {
    if ns != [] {
      assert (ns + [n])[1..] == ns[1..] + [n];
      FindNoteAppended(ns[1..], n);
    }
  }

  // ---------------------------------------------------------------------
  // Updating

  /** `title ?? note.title`, then the schema: null or absent keeps the prior
      title, a string is trimmed and must be non-empty and short enough. */
  function MergeTitle(prior: string, j: Json): (r: Option<string>)
    ensures j.JNull? ==> r == Some(prior)
    ensures j.JStr? ==> r == StoredTitle(j.s)
    ensures !j.JNull? && !j.JStr? ==> r.None?
  {
    match j
    case JNull => Some(prior)
    case JStr(s) => StoredTitle(s)
    case _ => None
  }

  /** `content ?? note.content`. */
  function MergeContent(prior: string, j: Json): (r: Option<string>)
    ensures j.JNull? ==> r == Some(prior)
    ensures j.JStr? ==> r == Some(j.s)
    ensures !j.JNull? && !j.JStr? ==> r.None?
  {
    match j
    case JNull => Some(prior)
    case JStr(s) => Some(s)
    case _ => None
  }

  /** `linkedTask ?? note.linkedTask`, cast to an ObjectId. */
  function MergeLink(prior: Option<Id>, j: Json, env: Env): (r: Option<Option<Id>>)
    ensures j.JNull? ==> r == Some(prior)
    ensures !j.JNull? ==> (r.Some? <==> j.JStr? && env.isObjectId(j.s))
    ensures !j.JNull? && r.Some? ==> r.value == Some(j.s)
  {
    if j.JNull? then Some(prior)
    else if j.JStr? && env.isObjectId(j.s) then Some(Some(j.s))
    else None
  }

  /** The note after the three assignments, or None when `save()` would
      reject it. The stamp is left to `save()`. */
  function MergeNote(n: Note, body: Body, env: Env): (r: Option<Note>)
    ensures r.Some? <==> MergeTitle(n.title, Field(body, "title")).Some?
                         && MergeContent(n.content, Field(body, "content")).Some?
                         && MergeLink(n.linkedTask, Field(body, "linkedTask"), env).Some?
    ensures r.Some? ==>
              r.value.id == n.id && r.value.projectId == n.projectId && r.value.createdBy == n.createdBy
              && r.value.updatedAt == n.updatedAt
              && r.value.title == MergeTitle(n.title, Field(body, "title")).value
              && r.value.content == MergeContent(n.content, Field(body, "content")).value
              && r.value.linkedTask == MergeLink(n.linkedTask, Field(body, "linkedTask"), env).value
  {
    match (MergeTitle(n.title, Field(body, "title")), MergeContent(n.content, Field(body, "content")),
           MergeLink(n.linkedTask, Field(body, "linkedTask"), env))
    case (Some(t), Some(c), Some(l)) => Some(n.(title := t, content := c, linkedTask := l))
    case _ => None
  }

  /** `save()` stamps `updatedAt` only when something changed. */
  function Saved(before: Note, after: Note, now: int): (r: Note)
    ensures after == before ==> r == before
    ensures after != before ==> r == after.(updatedAt := now)
  {
    if after == before then before else after.(updatedAt := now)
  }

  /** The message of the `TypeError` that `project.members` raises when the
      note's project no longer exists. */
  const NullMembers: string := "Cannot read properties of null (reading 'members')"

  /** `PUT /api/notes/update`. */
  function NotesUpdate(req: Request, store: Store, env: Env): (h: Handled<Note, Store>)
    ensures h.reply.Fail? ==> h.store == store
    ensures WriterGate(req, env, "noteId").Stop? ==>
              h.reply == Fail(WriterGate(req, env, "noteId").status, WriterGate(req, env, "noteId").error)
    ensures WriterGate(req, env, "noteId").Proceed? && Field(req.body, "noteId").JNull? ==> h.reply == Fail(404, "Note not found")
    ensures WriterGate(req, env, "noteId").Proceed? && IdArgOf(Field(req.body, "noteId"), env).Uncastable?
            ==> h.reply == Fail(500, CastError)
    ensures h.reply.Ok? ==>
              var nid := Field(req.body, "noteId").s;
              h.reply.status == 200
              && WriterGate(req, env, "noteId").Proceed?
              && Field(req.body, "noteId").JStr? && env.isObjectId(nid)
              && FindNote(store.notes, nid).Some?
              && var i := FindNote(store.notes, nid).value;
                 var prior := store.notes[i];
                 FindProject(store.projects, prior.projectId).Some?
                 && IsMember(FindProject(store.projects, prior.projectId).value, WriterGate(req, env, "noteId").who)
                 && MergeNote(prior, req.body, env).Some?
                 && h.reply.value == Saved(prior, MergeNote(prior, req.body, env).value, env.now)
                 && h.store == store.(notes := store.notes[i := h.reply.value])
  {
    match WriterGate(req, env, "noteId")
    case Stop(status, error) => Handled(Fail(status, error), store)
    case Proceed(who) =>
      match IdArgOf(Field(req.body, "noteId"), env)
      case Absent => Handled(Fail(404, "Note not found"), store)
      case Uncastable => Handled(Fail(500, CastError), store)
      case ObjectId(nid) =>
        match FindNote(store.notes, nid)
        case None => Handled(Fail(404, "Note not found"), store)
        case Some(i) =>
          var prior := store.notes[i];
          match FindProject(store.projects, prior.projectId)
          case None => Handled(Fail(500, NullMembers), store)
          case Some(p) =>
            if !IsMember(p, who) then Handled(Fail(403, "Forbidden"), store)
            else match MergeNote(prior, req.body, env)
              case None => Handled(Fail(500, NoteInvalid), store)
              case Some(m) =>
                var saved := Saved(prior, m, env.now);
                Handled(Ok(200, saved), store.(notes := store.notes[i := saved]))
  }

  /** An ObjectId `noteId` that names no stored note is 404. */
  lemma UpdateUnknownNote(req: Request, store: Store, env: Env, nid: Id)
    requires WriterGate(req, env, "noteId").Proceed?
    requires Field(req.body, "noteId") == JStr(nid) && env.isObjectId(nid)
    requires FindNote(store.notes, nid).None?
    ensures NotesUpdate(req, store, env) == Handled(Fail(404, "Note not found"), store)
  {
  }

  /** The guards after the note is found: a vanished project is a crash, a
      caller outside the member list is 403, a rejected merge is 500, and a
      member's storable merge is saved and answered with 200. */
  lemma UpdateGuards(req: Request, store: Store, env: Env, nid: Id, i: nat)
    requires WriterGate(req, env, "noteId").Proceed?
    requires Field(req.body, "noteId") == JStr(nid) && env.isObjectId(nid)
    requires FindNote(store.notes, nid) == Some(i)
    ensures var h := NotesUpdate(req, store, env);
            var prior := store.notes[i];
            var who := WriterGate(req, env, "noteId").who;
            match FindProject(store.projects, prior.projectId)
            case None => h.reply == Fail(500, NullMembers)
            case Some(p) =>
              (!IsMember(p, who) ==> h.reply == Fail(403, "Forbidden"))
              && (IsMember(p, who) && MergeNote(prior, req.body, env).None? ==> h.reply == Fail(500, NoteInvalid))
              && (IsMember(p, who) && MergeNote(prior, req.body, env).Some? ==>
                    var saved := Saved(prior, MergeNote(prior, req.body, env).value, env.now);
                    h.reply == Ok(200, saved) && h.store == store.(notes := store.notes[i := saved]))
  {
  }

  /** An update never moves a note to another project or author, changes
      no other note, and keeps a stored note valid. */
  lemma UpdateKeepsIdentity(req: Request, store: Store, env: Env)
    requires NotesUpdate(req, store, env).reply.Ok?
    ensures var h := NotesUpdate(req, store, env);
            var i := FindNote(store.notes, Field(req.body, "noteId").s).value;
            var prior := store.notes[i];
            var n := h.reply.value;
            n.id == prior.id && n.projectId == prior.projectId && n.createdBy == prior.createdBy
            && |h.store.notes| == |store.notes|
            && (forall k :: 0 <= k < |store.notes| && k != i ==> h.store.notes[k] == store.notes[k])
            && (ValidNote(prior) ==> ValidNote(n))
            && (prior.linkedTask.Some? ==> n.linkedTask.Some?)
  {
  }

  /** A body naming only the note changes nothing: the reply is the stored
      note and its stamp is not touched. */
  lemma EmptyUpdateChangesNothing(req: Request, store: Store, env: Env)
    requires NotesUpdate(req, store, env).reply.Ok?
    requires Field(req.body, "title").JNull? && Field(req.body, "content").JNull? && Field(req.body, "linkedTask").JNull?
    ensures var h := NotesUpdate(req, store, env);
            h.store == store
            && h.reply.value == store.notes[FindNote(store.notes, Field(req.body, "noteId").s).value]
  {
    var i := FindNote(store.notes, Field(req.body, "noteId").s).value;
    assert store.notes[i := store.notes[i]] == store.notes;
  }

  /** Merging the same body into its own result changes nothing more. */
  lemma MergeTwice(n: Note, body: Body, env: Env, now: int)
    requires MergeNote(n, body, env).Some?
    ensures var s := Saved(n, MergeNote(n, body, env).value, now);
            MergeNote(s, body, env) == Some(s)
  {
    var t := Field(body, "title");
    if t.JStr? {
      TrimIdempotent(t.s);
    }
  }

  /** Sending the same update twice, at any later time, leaves the store as
      one update did and answers with the same note. */
  lemma UpdateTwiceSameAsOnce(req: Request, store: Store, env: Env, later: int)
    requires NotesUpdate(req, store, env).reply.Ok?
    ensures var h1 := NotesUpdate(req, store, env);
            var h2 := NotesUpdate(req, h1.store, env.(now := later));
            h2.store == h1.store && h2.reply == h1.reply
  {
    var env2 := env.(now := later);
    var h1 := NotesUpdate(req, store, env);
    var nid := Field(req.body, "noteId").s;
    var i := FindNote(store.notes, nid).value;
    var prior := store.notes[i];
    var s := h1.reply.value;
    assert WriterGate(req, env2, "noteId") == WriterGate(req, env, "noteId");
    FindNoteSameIds(store.notes, h1.store.notes, nid);
    assert h1.store.notes[i] == s;
    assert s.projectId == prior.projectId;
    MergeTwice(prior, req.body, env, env.now);
    assert MergeNote(s, req.body, env2) == MergeNote(s, req.body, env);
    assert h1.store.notes[i := s] == h1.store.notes;
  }

  /** After an update the caller reads the updated note back through `get`. */
  lemma UpdateThenGet(req: Request, store: Store, env: Env, get: Request, env2: Env)
    requires NotesUpdate(req, store, env).reply.Ok?
    requires RequireCaller(get.authorization, env2) == Caller(WriterGate(req, env, "noteId").who.value)
    requires var nid := Field(req.body, "noteId").s;
             AsksFor(get, nid) && nid != "" && env2.isObjectId(nid)
    ensures var h := NotesUpdate(req, store, env);
            NotesGet(get, h.store, env2) == Ok(200, h.reply.value)
  {
    var h := NotesUpdate(req, store, env);
    var nid := Field(req.body, "noteId").s;
    var i := FindNote(store.notes, nid).value;
    var n := h.reply.value;
    var p := FindProject(store.projects, store.notes[i].projectId).value;
    FindNoteSameIds(store.notes, h.store.notes, nid);
    assert h.store.notes[i] == n;
    GetFinds(get, h.store, env2, nid, i, p);
  }
}
