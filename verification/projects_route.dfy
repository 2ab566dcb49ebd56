/**
 The project routes: `GET /api/projects` lists the caller's projects,
 `POST /api/projects` creates one, and `POST /api/projects/join` adds the
 caller to the project with a given join code.
 */
module ProjectsRoute {
  import opened Wrappers
  import opened Text
  import opened Sorting
  import opened Http
  import opened Records
  import opened Auth

  /** The key of `sort({ updatedAt: -1 })`: most recently updated first. */
  function Recency(p: Project): int {
    -p.updatedAt
  }

  /** The projects `user` owns or belongs to, newest first. */
  function OpenProjects(ps: seq<Project>, user: Id): (r: seq<Project>)
    ensures forall p :: p in r <==> p in ps && CanAccess(p, user)
    ensures forall p :: multiset(r)[p] == if CanAccess(p, user) then multiset(ps)[p] else 0
    ensures forall i, j :: 0 <= i < j < |r| ==> r[i].updatedAt >= r[j].updatedAt
  {
    var f := Filter(ps, (p: Project) => CanAccess(p, user));
    SortByMembers(f, Recency);
    var r := SortBy(f, Recency);
    assert forall i, j :: 0 <= i < j < |r| ==> Recency(r[i]) <= Recency(r[j]);
    r
  }

  /** `GET /api/projects`. */
  function ProjectsGet(req: Request, store: Store, env: Env): (r: Reply<seq<Project>>)
    ensures RequireCaller(req.authorization, env).Refused? ==>
              r == Fail(RequireCaller(req.authorization, env).status, RequireCaller(req.authorization, env).error)
    ensures RequireCaller(req.authorization, env).Caller? ==>
              r == Ok(200, OpenProjects(store.projects, RequireCaller(req.authorization, env).id))
  {
    match RequireCaller(req.authorization, env)
    case Refused(status, error) => Fail(status, error)
    case Caller(user) => Ok(200, OpenProjects(store.projects, user))
  }

  /** `POST /api/projects`. `newId` and `joinCode` are what the database and
      the random code generator supply; `updatedAt` is the clock. */
  function ProjectsPost(req: Request, store: Store, env: Env, newId: Id, joinCode: string): (h: Handled<Project, Store>)
    ensures h.reply.Fail? ==> h.store == store
    ensures RequireCaller(req.authorization, env).Refused? ==>
              h.reply == Fail(RequireCaller(req.authorization, env).status, RequireCaller(req.authorization, env).error)
    ensures RequireCaller(req.authorization, env).Caller? && TrimmedOrEmpty(Field(req.body, "name")) == ""
            ==> h.reply == Fail(400, "Name is required")
    ensures h.reply.Ok? <==> RequireCaller(req.authorization, env).Caller? && TrimmedOrEmpty(Field(req.body, "name")) != ""
    ensures h.reply.Ok? ==>
              var p := h.reply.value;
              var user := RequireCaller(req.authorization, env).id;
              h.reply.status == 201
              && p.owner == user && p.members == [user] && CanAccess(p, user)
              && p.name != "" && IsTrimmed(p.name) && IsTrimmed(p.description)
              && p.updatedAt == env.now
              && h.store == store.(projects := store.projects + [p])
  {
    match RequireCaller(req.authorization, env)
    case Refused(status, error) => Handled(Fail(status, error), store)
    case Caller(user) =>
      var name := TrimmedOrEmpty(Field(req.body, "name"));
      if name == "" then Handled(Fail(400, "Name is required"), store)
      else
        var p := Project(newId, name, TrimmedOrEmpty(Field(req.body, "description")), user, [user], joinCode, env.now);
        Handled(Ok(201, p), store.(projects := store.projects + [p]))
  }

  /** A created project is at once in its creator's listing. */
  lemma CreatedProjectListed(req: Request, store: Store, env: Env, newId: Id, joinCode: string)
    requires RequireCaller(req.authorization, env).Caller?
    requires TrimmedOrEmpty(Field(req.body, "name")) != ""
    ensures var h := ProjectsPost(req, store, env, newId, joinCode);
            h.reply.value in OpenProjects(h.store.projects, RequireCaller(req.authorization, env).id)
  {
    var h := ProjectsPost(req, store, env, newId, joinCode);
    assert h.reply.value in h.store.projects;
  }

  // ---------------------------------------------------------------------
  // Joining by code

  /** `typeof joinCode === "string" ? joinCode.trim().toUpperCase() : ""`. */
  function NormalizedCode(j: Json): (code: string)
    ensures !j.JStr? ==> code == ""
    ensures j.JStr? ==> code == UpperAscii(Trim(j.s))
    ensures forall i :: 0 <= i < |code| ==> !('a' <= code[i] <= 'z')
  {
    if j.JStr? then UpperAsciiIdempotent(Trim(j.s)); UpperAscii(Trim(j.s)) else ""
  }

  /** The membership step of a join: nothing when the user already owns or
      belongs to the project, otherwise the user appended, which `save()`
      stamps with the clock. */
  function AddMember(p: Project, user: Id, now: int): (q: Project)
    ensures CanAccess(q, user)
    ensures CanAccess(p, user) ==> q == p
    ensures !CanAccess(p, user) ==> q == p.(members := p.members + [user], updatedAt := now)
  {
    if CanAccess(p, user) then p else p.(members := p.members + [user], updatedAt := now)
  }

  /** Joining twice is joining once, whatever the clock says the second
      time; the owner is never added to the member list; existing members
      keep their order and only the caller is ever added. */
  lemma AddMemberIdempotent(p: Project, user: Id, now: int, later: int)
    ensures AddMember(AddMember(p, user, now), user, later) == AddMember(p, user, now)
    ensures p.owner == user ==> AddMember(p, user, now).members == p.members
    ensures var m := AddMember(p, user, now).members;
            |p.members| <= |m| <= |p.members| + 1 && m[..|p.members|] == p.members
            && forall x :: x in m ==> x in p.members || x == user
  {
    var m := AddMember(p, user, now).members;
    if !CanAccess(p, user) {
      assert m[..|p.members|] == p.members;
    }
  }

  /** `POST /api/projects/join`. */
  function ProjectsJoin(req: Request, store: Store, env: Env): (h: Handled<Project, Store>)
    ensures h.reply.Fail? ==> h.store == store
    ensures RequireCaller(req.authorization, env).Refused? ==>
              h.reply == Fail(RequireCaller(req.authorization, env).status, RequireCaller(req.authorization, env).error)
    ensures RequireCaller(req.authorization, env).Caller? && NormalizedCode(Field(req.body, "joinCode")) == ""
            ==> h.reply == Fail(400, "Join code is required")
    ensures RequireCaller(req.authorization, env).Caller? && NormalizedCode(Field(req.body, "joinCode")) != ""
            && FindByJoinCode(store.projects, NormalizedCode(Field(req.body, "joinCode"))).None?
            ==> h.reply == Fail(404, "Invalid join code")
    ensures h.reply.Ok? <==>
              RequireCaller(req.authorization, env).Caller? && NormalizedCode(Field(req.body, "joinCode")) != ""
              && FindByJoinCode(store.projects, NormalizedCode(Field(req.body, "joinCode"))).Some?
    ensures h.reply.Ok? ==>
              var i := FindByJoinCode(store.projects, NormalizedCode(Field(req.body, "joinCode"))).value;
              var user := RequireCaller(req.authorization, env).id;
              h.reply.status == 200
              && h.reply.value == AddMember(store.projects[i], user, env.now)
              && h.store == store.(projects := store.projects[i := h.reply.value])
  {
    match RequireCaller(req.authorization, env)
    case Refused(status, error) => Handled(Fail(status, error), store)
    case Caller(user) =>
      var code := NormalizedCode(Field(req.body, "joinCode"));
      if code == "" then Handled(Fail(400, "Join code is required"), store)
      else match FindByJoinCode(store.projects, code)
        case None => Handled(Fail(404, "Invalid join code"), store)
        case Some(i) =>
          var q := AddMember(store.projects[i], user, env.now);
          Handled(Ok(200, q), store.(projects := store.projects[i := q]))
  }

  /** The code lookup depends only on the codes. */
  lemma FindByJoinCodeSameCodes(ps: seq<Project>, qs: seq<Project>, code: string)
    requires |ps| == |qs|
    requires forall k :: 0 <= k < |ps| ==> ps[k].joinCode == qs[k].joinCode
    ensures FindByJoinCode(ps, code) == FindByJoinCode(qs, code)
  {
  }

  /** Sending the same join request twice leaves the store as one request
      did, and the second answer is the project as the first left it. */
  lemma JoinTwiceSameAsOnce(req: Request, store: Store, env: Env, env2: Env)
    requires RequireCaller(req.authorization, env2) == RequireCaller(req.authorization, env)
    requires ProjectsJoin(req, store, env).reply.Ok?
    ensures var h1 := ProjectsJoin(req, store, env);
            var h2 := ProjectsJoin(req, h1.store, env2);
            h2.store == h1.store && h2.reply == h1.reply
  {
    var h1 := ProjectsJoin(req, store, env);
    var code := NormalizedCode(Field(req.body, "joinCode"));
    var i := FindByJoinCode(store.projects, code).value;
    var user := RequireCaller(req.authorization, env).id;
    FindByJoinCodeSameCodes(store.projects, h1.store.projects, code);
    AddMemberIdempotent(store.projects[i], user, env.now, env2.now);
    assert h1.store.projects[i] == h1.reply.value;
    assert h1.store.projects[i := h1.reply.value] == h1.store.projects;
  }

  /** After a successful join the caller can open the project: it is in
      their listing. */
  lemma JoinedProjectListed(req: Request, store: Store, env: Env)
    requires ProjectsJoin(req, store, env).reply.Ok?
    ensures var h := ProjectsJoin(req, store, env);
            h.reply.value in OpenProjects(h.store.projects, RequireCaller(req.authorization, env).id)
  {
    var h := ProjectsJoin(req, store, env);
    var i := FindByJoinCode(store.projects, NormalizedCode(Field(req.body, "joinCode"))).value;
    assert h.store.projects[i] == h.reply.value;
  }
}
