/**
 The due-tasks route (`GET /api/tasks/due`): the tasks of the caller's
 projects whose deadline lies in a window, which defaults to the coming week.
 */
module TasksDue {
  import opened Wrappers
  import opened Civil
  import opened Sorting
  import opened Http
  import opened Records
  import opened Auth
  import opened Selections
  import opened CalendarFeed

  /** `7 * 24 * 60 * 60 * 1000`. */
  const MsPerWeek: int := 7 * MsPerDay

  /** A window bound: an instant, or the Invalid Date that `new Date(s)`
      gives for a string that does not parse. */
  datatype Bound = At(t: int) | InvalidDate

  /** `v ? new Date(v) : fallback`: an absent or empty parameter takes the
      fallback; any other is parsed, and may be invalid. */
  function BoundOf(v: Option<string>, fallback: int, env: Env): (b: Bound)
    ensures v.None? || v == Some("") ==> b == At(fallback)
    ensures v.Some? && v.value != "" ==>
              (b.InvalidDate? <==> env.parseDate(v.value).None?)
              && (b.At? ==> b.t == env.parseDate(v.value).value)
  {
    match v
    case None => At(fallback)
    case Some(s) =>
      if s == "" then At(fallback)
      else match env.parseDate(s)
        case None => InvalidDate
        case Some(t) => At(t)
  }

  /** `GET /api/tasks/due`. The caller guard's refusal is passed on; past
      it, unlike the calendar, a bound that is given but does not parse is
      an error (the query cannot cast an Invalid Date) and the route answers
      500; otherwise 200. */
  function DueGet(req: Request, store: Store, env: Env): (r: Reply<seq<Task>>)
    ensures var c := RequireCaller(req.authorization, env);
            c.Refused? ==> r == Fail(c.status, c.error)
    ensures RequireCaller(req.authorization, env).Caller? ==>
              (r.Fail? <==> BoundOf(Param(req, "from"), env.now, env).InvalidDate?
                            || BoundOf(Param(req, "to"), env.now + MsPerWeek, env).InvalidDate?)
              && (r.Fail? ==> r == Fail(500, CastError))
              && (r.Ok? ==> r.status == 200)
  {
    DueFor(RequireCaller(req.authorization, env), req, env, store)
  }

  /** The route once its caller guard has run. */
  function DueFor(c: Caller, req: Request, env: Env, store: Store): Reply<seq<Task>> {
    match c
    case Refused(status, error) => Fail(status, error)
    case Caller(user) =>
      DueReply(store, user, BoundOf(Param(req, "from"), env.now, env), BoundOf(Param(req, "to"), env.now + MsPerWeek, env))
  }

  /** The reply once the caller and both bounds are known. */
  function DueReply(store: Store, user: Id, from: Bound, to: Bound): Reply<seq<Task>> {
    if from.InvalidDate? || to.InvalidDate? then Fail(500, CastError)
    else Ok(200, TasksDueIn(store.tasks, AccessibleIds(store.projects, user), Some(from.t), Some(to.t)))
  }

  /** The answer is exactly the tasks of projects the caller owns or belongs
      to whose deadline lies in the window, bounds included, in deadline
      order. */
  lemma DueContents(req: Request, store: Store, env: Env, from: int, to: int)
    requires RequireCaller(req.authorization, env).Caller?
    requires BoundOf(Param(req, "from"), env.now, env) == At(from)
    requires BoundOf(Param(req, "to"), env.now + MsPerWeek, env) == At(to)
    ensures var r := DueGet(req, store, env);
            var user := RequireCaller(req.authorization, env).id;
            r.Ok? && SortedBy(r.value, DeadlineKey)
            && forall t :: t in r.value <==>
                 t in store.tasks && t.deadline.Some? && from <= t.deadline.value <= to
                 && AccessibleProject(store.projects, t.project, user)
  {
    var user := RequireCaller(req.authorization, env).id;
    DueGetWithin(req, store, env, from, to);
    DueSelection(store, user, from, to);
  }

  /** The selection for two bounds, in the terms of the stored records. */
  lemma DueSelection(store: Store, user: Id, from: int, to: int)
    ensures var r := TasksDueIn(store.tasks, AccessibleIds(store.projects, user), Some(from), Some(to));
            SortedBy(r, DeadlineKey)
            && forall t :: t in r <==>
                 t in store.tasks && t.deadline.Some? && from <= t.deadline.value <= to
                 && AccessibleProject(store.projects, t.project, user)
  {
  }

  /** Without parameters the window is the next seven days from now. */
  lemma DefaultWindow(req: Request, store: Store, env: Env)
    requires RequireCaller(req.authorization, env).Caller?
    requires "from" !in req.query && "to" !in req.query
    ensures var user := RequireCaller(req.authorization, env).id;
            DueGet(req, store, env)
            == Ok(200, TasksDueIn(store.tasks, AccessibleIds(store.projects, user), Some(env.now), Some(env.now + 604_800_000)))
  {
    assert BoundOf(Param(req, "from"), env.now, env) == At(env.now);
    assert BoundOf(Param(req, "to"), env.now + MsPerWeek, env) == At(env.now + MsPerWeek);
    DueGetWithin(req, store, env, env.now, env.now + MsPerWeek);
  }

  /** With both bounds valid the reply is the selection for them. */
  lemma DueGetWithin(req: Request, store: Store, env: Env, from: int, to: int)
    requires RequireCaller(req.authorization, env).Caller?
    requires BoundOf(Param(req, "from"), env.now, env) == At(from)
    requires BoundOf(Param(req, "to"), env.now + MsPerWeek, env) == At(to)
    ensures var user := RequireCaller(req.authorization, env).id;
            DueGet(req, store, env) == Ok(200, TasksDueIn(store.tasks, AccessibleIds(store.projects, user), Some(from), Some(to)))
  {
    var user := RequireCaller(req.authorization, env).id;
    DueGetOfCaller(req, store, env, user);
    DueReplyAt(store, user, from, to);
  }

  /** Past the caller guard the reply depends on the two bounds only. */
  lemma DueGetOfCaller(req: Request, store: Store, env: Env, user: Id)
    requires RequireCaller(req.authorization, env) == Caller(user)
    ensures DueGet(req, store, env)
            == DueReply(store, user, BoundOf(Param(req, "from"), env.now, env), BoundOf(Param(req, "to"), env.now + MsPerWeek, env))
  {
  }

  /** Two valid bounds select the due tasks between them. */
  lemma DueReplyAt(store: Store, user: Id, from: int, to: int)
    ensures DueReply(store, user, At(from), At(to)) == Ok(200, TasksDueIn(store.tasks, AccessibleIds(store.projects, user), Some(from), Some(to)))
  {
  }

  /** For the same bounds, the due tasks are the task section of the
      dashboard calendar. */
  lemma SameAsCalendarTasks(store: Store, user: Id, from: int, to: int)
    ensures Select(store, user, Some(from), Some(to), None).Some?
    ensures TasksDueIn(store.tasks, AccessibleIds(store.projects, user), Some(from), Some(to))
            == Select(store, user, Some(from), Some(to), None).value.tasks
  {
    assert Scope(store.projects, user, None) == Some(AccessibleIds(store.projects, user));
  }
}
