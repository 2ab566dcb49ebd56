/**
 The calendar aggregation route (`GET /api/calendar`): it scopes the caller
 to the projects they own or belong to, selects personal events, project
 events and task deadlines in the requested window, and lays them out as one
 list of `CalendarItem`s in three sections.
 */
module CalendarFeed {
  import opened Wrappers
  import opened Civil
  import opened Sorting
  import opened Http
  import opened Records
  import opened Auth
  import opened Items
  import opened Selections

  /** `projectIdRaw && ObjectId.isValid(projectIdRaw) ? projectIdRaw : null`. */
  function ProjectFilter(raw: Option<string>, env: Env): (r: Option<Id>)
    ensures r.Some? <==> raw.Some? && raw.value != "" && env.isObjectId(raw.value)
    ensures r.Some? ==> r == raw
  {
    if raw.Some? && raw.value != "" && env.isObjectId(raw.value) then raw else None
  }

  /** The project ids the queries are restricted to, or None when the one
      requested project is not open to the caller. */
  function Scope(ps: seq<Project>, user: Id, pid: Option<Id>): (r: Option<seq<Id>>)
    ensures pid.Some? ==> (r.Some? <==> AccessibleProject(ps, pid.value, user))
    ensures pid.Some? && r.Some? ==> r.value == [pid.value]
    ensures pid.None? ==> r.Some?
    ensures pid.None? ==> forall id :: id in r.value <==> AccessibleProject(ps, id, user)
  {
    match pid
    case Some(id) => if AccessibleProject(ps, id, user) then Some([id]) else None
    case None => Some(AccessibleIds(ps, user))
  }

  /** The three query results, before they are turned into items. */
  datatype Sections = Sections(personal: seq<PersonalEvent>, events: seq<ProjectEvent>, tasks: seq<Task>)

  /** The three reads; personal events are read only when no project is
      requested. */
  function Select(store: Store, user: Id, from: Option<int>, to: Option<int>, pid: Option<Id>): (r: Option<Sections>)
    ensures r.None? <==> Scope(store.projects, user, pid).None?
    ensures r.Some? ==> forall t :: t in r.value.tasks ==> t.deadline.Some?
  {
    match Scope(store.projects, user, pid)
    case None => None
    case Some(ids) =>
      Some(Sections(
        if pid.Some? then [] else OwnedEvents(store.personalEvents, user, from, to),
        ProjectEventsIn(store.projectEvents, ids, from, to),
        TasksDueIn(store.tasks, ids, from, to)))
  }

  /** The scope test as the feed applies it to a record's project id. */
  predicate InScope(ps: seq<Project>, user: Id, pid: Option<Id>, project: Id) {
    if pid.Some? then project == pid.value else AccessibleProject(ps, project, user)
  }

  lemma ScopeMembers(ps: seq<Project>, user: Id, pid: Option<Id>, project: Id)
    requires Scope(ps, user, pid).Some?
    ensures project in Scope(ps, user, pid).value <==> InScope(ps, user, pid, project)
  {
  }

  /** The personal section: the caller's own events touching the window, in
      start order, and only on the dashboard. */
  lemma PersonalSection(store: Store, user: Id, from: Option<int>, to: Option<int>, pid: Option<Id>)
    requires Select(store, user, from, to, pid).Some?
    ensures var s := Select(store, user, from, to, pid).value;
            SortedBy(s.personal, PersonalStart)
            && forall e :: e in s.personal <==>
                 pid.None? && e in store.personalEvents && e.owner == user && Overlaps(e.start, e.end, from, to)
  {
  }

  /** The project-event section: events of in-scope projects touching the
      window, in start order. */
  lemma EventSection(store: Store, user: Id, from: Option<int>, to: Option<int>, pid: Option<Id>)
    requires Select(store, user, from, to, pid).Some?
    ensures var s := Select(store, user, from, to, pid).value;
            SortedBy(s.events, ProjectEventStart)
            && forall e :: e in s.events <==>
                 e in store.projectEvents && Overlaps(e.start, e.end, from, to)
                 && InScope(store.projects, user, pid, e.project)
  {
    var ids := Scope(store.projects, user, pid).value;
    var s := Select(store, user, from, to, pid).value;
    assert s.events == ProjectEventsIn(store.projectEvents, ids, from, to);
    forall e
      ensures e in s.events <==>
                e in store.projectEvents && Overlaps(e.start, e.end, from, to)
                && InScope(store.projects, user, pid, e.project)
    {
      ScopeMembers(store.projects, user, pid, e.project);
    }
  }

  /** The task section: tasks of in-scope projects whose deadline lies in the
      window, bounds included, in deadline order. */
  lemma TaskSection(store: Store, user: Id, from: Option<int>, to: Option<int>, pid: Option<Id>)
    requires Select(store, user, from, to, pid).Some?
    ensures var s := Select(store, user, from, to, pid).value;
            SortedBy(s.tasks, DeadlineKey)
            && forall t :: t in s.tasks <==>
                 t in store.tasks && t.deadline.Some?
                 && (from.None? || from.value <= t.deadline.value) && (to.None? || t.deadline.value <= to.value)
                 && InScope(store.projects, user, pid, t.project)
  {
    var ids := Scope(store.projects, user, pid).value;
    var s := Select(store, user, from, to, pid).value;
    assert s.tasks == TasksDueIn(store.tasks, ids, from, to);
    forall t
      ensures t in s.tasks <==>
                t in store.tasks && t.deadline.Some?
                && (from.None? || from.value <= t.deadline.value) && (to.None? || t.deadline.value <= to.value)
                && InScope(store.projects, user, pid, t.project)
    {
      ScopeMembers(store.projects, user, pid, t.project);
    }
  }

  /** Task deadlines as items, in the tasks' order. */
  function TaskItems(ps: seq<Project>, ts: seq<Task>): (r: seq<CalendarItem>)
    requires forall t :: t in ts ==> t.deadline.Some?
    ensures |r| == |ts|
    ensures forall i :: 0 <= i < |ts| ==> r[i] == TaskItem(ps, ts[i])
  {
    if ts == [] then [] else [TaskItem(ps, ts[0])] + TaskItems(ps, ts[1..])
  }

  function ItemStart(it: CalendarItem): int {
    it.start
  }

  /** Tasks in deadline order give items in start order: the start of a
      deadline's day never decreases as the deadline grows. */
  lemma TaskItemsInStartOrder(ps: seq<Project>, ts: seq<Task>)
    requires forall t :: t in ts ==> t.deadline.Some?
    requires SortedBy(ts, DeadlineKey)
    ensures SortedBy(TaskItems(ps, ts), ItemStart)
  {
    var r := TaskItems(ps, ts);
    forall i, j | 0 <= i < j < |r|
      ensures ItemStart(r[i]) <= ItemStart(r[j])
    {
      assert ts[i] in ts && ts[j] in ts;
      assert DeadlineKey(ts[i]) <= DeadlineKey(ts[j]);
      StartOfDayMonotone(ts[i].deadline.value, ts[j].deadline.value);
    }
  }

  /** The feed: personal events, then project events, then tasks. */
  function Layout(ps: seq<Project>, s: Sections): (items: seq<CalendarItem>)
    requires forall t :: t in s.tasks ==> t.deadline.Some?
    ensures |items| == |s.personal| + |s.events| + |s.tasks|
  {
    MapSeq(s.personal, PersonalItem)
    + MapSeq(s.events, (e: ProjectEvent) => ProjectEventItem(ps, e))
    + TaskItems(ps, s.tasks)
  }

  /** The items of the aggregation; nothing when the requested project is
      closed to the caller. */
  function Feed(store: Store, user: Id, from: Option<int>, to: Option<int>, pid: Option<Id>): (items: seq<CalendarItem>)
    ensures Scope(store.projects, user, pid).None? ==> items == []
    ensures Scope(store.projects, user, pid).Some? ==> items == Layout(store.projects, Select(store, user, from, to, pid).value)
  {
    match Select(store, user, from, to, pid)
    case None => []
    case Some(s) => Layout(store.projects, s)
  }

  /** The feed opens with the personal section: each event's own colour or
      the default blue, and no project. */
  lemma LayoutPersonalFirst(ps: seq<Project>, s: Sections)
    requires forall t :: t in s.tasks ==> t.deadline.Some?
    ensures var items := Layout(ps, s);
            forall i :: 0 <= i < |s.personal| ==>
              items[i].kind == EventKind && items[i].id == s.personal[i].id
              && items[i].start == s.personal[i].start && items[i].end == s.personal[i].end
              && items[i].project.None? && items[i].color == Some(ColorOr(s.personal[i].color))
  {
    var a := MapSeq(s.personal, PersonalItem);
    var rest := MapSeq(s.events, (e: ProjectEvent) => ProjectEventItem(ps, e)) + TaskItems(ps, s.tasks);
    assert Layout(ps, s) == a + rest;
    forall i | 0 <= i < |a|
      ensures Layout(ps, s)[i] == PersonalItem(s.personal[i])
    {
      assert Layout(ps, s)[i] == a[i];
    }
  }

  /** The personal section is a prefix of the feed. */
  lemma LayoutPersonalPrefix(ps: seq<Project>, s: Sections)
    requires forall t :: t in s.tasks ==> t.deadline.Some?
    ensures Layout(ps, s)[..|s.personal|] == MapSeq(s.personal, PersonalItem)
  {
    var a := MapSeq(s.personal, PersonalItem);
    var rest := MapSeq(s.events, (e: ProjectEvent) => ProjectEventItem(ps, e)) + TaskItems(ps, s.tasks);
    assert Layout(ps, s) == a + rest;
    assert (a + rest)[..|a|] == a;
  }

  /** Then the project section, all red. */
  lemma LayoutEventsNext(ps: seq<Project>, s: Sections)
    requires forall t :: t in s.tasks ==> t.deadline.Some?
    ensures var items := Layout(ps, s);
            var n1 := |s.personal|;
            forall i :: n1 <= i < n1 + |s.events| ==>
              items[i].kind == EventKind && items[i].id == s.events[i - n1].id
              && items[i].start == s.events[i - n1].start && items[i].end == s.events[i - n1].end
              && items[i].color == Some(ProjectRed)
  {
    var a := MapSeq(s.personal, PersonalItem);
    var b := MapSeq(s.events, (e: ProjectEvent) => ProjectEventItem(ps, e));
    var c := TaskItems(ps, s.tasks);
    assert Layout(ps, s) == a + b + c;
    forall i | |a| <= i < |a| + |b|
      ensures Layout(ps, s)[i] == ProjectEventItem(ps, s.events[i - |a|])
    {
      assert Layout(ps, s)[i] == b[i - |a|];
    }
  }

  /** Last the task section: whole-day items without a colour, carrying
      their status. */
  lemma LayoutTasksLast(ps: seq<Project>, s: Sections)
    requires forall t :: t in s.tasks ==> t.deadline.Some?
    ensures var items := Layout(ps, s);
            var n2 := |s.personal| + |s.events|;
            forall i :: n2 <= i < |items| ==>
              items[i].kind == TaskKind && items[i].id == s.tasks[i - n2].id && items[i].allDay
              && items[i].start <= s.tasks[i - n2].deadline.value <= items[i].end
              && items[i].color.None? && items[i].status == Some(s.tasks[i - n2].status)
  {
    var ab := MapSeq(s.personal, PersonalItem) + MapSeq(s.events, (e: ProjectEvent) => ProjectEventItem(ps, e));
    var c := TaskItems(ps, s.tasks);
    assert Layout(ps, s) == ab + c;
    forall i | |ab| <= i < |ab| + |c|
      ensures Layout(ps, s)[i] == TaskItem(ps, s.tasks[i - |ab|])
    {
      assert Layout(ps, s)[i] == c[i - |ab|];
    }
  }

  /** Sections in their query order give items in start order within each
      section; the whole list is not re-sorted. */
  lemma LayoutOrder(ps: seq<Project>, s: Sections)
    requires forall t :: t in s.tasks ==> t.deadline.Some?
    requires SortedBy(s.personal, PersonalStart) && SortedBy(s.events, ProjectEventStart)
    requires SortedBy(s.tasks, DeadlineKey)
    ensures var items := Layout(ps, s);
            var n1 := |s.personal|;
            var n2 := n1 + |s.events|;
            SortedBy(items[..n1], ItemStart)
            && SortedBy(items[n1..n2], ItemStart)
            && SortedBy(items[n2..], ItemStart)
  {
    var a := MapSeq(s.personal, PersonalItem);
    var b := MapSeq(s.events, (e: ProjectEvent) => ProjectEventItem(ps, e));
    var c := TaskItems(ps, s.tasks);
    var items := Layout(ps, s);
    assert items == a + b + c;
    assert items[..|a|] == a;
    assert items[|a|..|a| + |b|] == b;
    assert items[|a| + |b|..] == c;
    TaskItemsInStartOrder(ps, s.tasks);
    forall i, j | 0 <= i < j < |a|
      ensures ItemStart(a[i]) <= ItemStart(a[j])
    {
      assert PersonalStart(s.personal[i]) <= PersonalStart(s.personal[j]);
    }
    forall i, j | 0 <= i < j < |b|
      ensures ItemStart(b[i]) <= ItemStart(b[j])
    {
      assert ProjectEventStart(s.events[i]) <= ProjectEventStart(s.events[j]);
    }
  }

  /** The feed's three sections are each in start order. */
  lemma FeedOrder(store: Store, user: Id, from: Option<int>, to: Option<int>, pid: Option<Id>)
    requires Select(store, user, from, to, pid).Some?
    ensures var s := Select(store, user, from, to, pid).value;
            var items := Feed(store, user, from, to, pid);
            var n1 := |s.personal|;
            var n2 := n1 + |s.events|;
            |items| == n2 + |s.tasks|
            && SortedBy(items[..n1], ItemStart)
            && SortedBy(items[n1..n2], ItemStart)
            && SortedBy(items[n2..], ItemStart)
  {
    PersonalSection(store, user, from, to, pid);
    EventSection(store, user, from, to, pid);
    TaskSection(store, user, from, to, pid);
    LayoutOrder(store.projects, Select(store, user, from, to, pid).value);
  }

  /** `GET /api/calendar`. The store is only read. */
  function CalendarGet(req: Request, store: Store, env: Env): (r: Reply<seq<CalendarItem>>)
    ensures RequireCaller(req.authorization, env).Refused? ==>
              r == Fail(RequireCaller(req.authorization, env).status, RequireCaller(req.authorization, env).error)
    ensures RequireCaller(req.authorization, env).Caller? ==>
              r == Ok(200, Feed(store, RequireCaller(req.authorization, env).id,
                                DateParam(Param(req, "from"), env), DateParam(Param(req, "to"), env),
                                ProjectFilter(Param(req, "projectId"), env)))
  {
    match RequireCaller(req.authorization, env)
    case Refused(status, error) => Fail(status, error)
    case Caller(user) =>
      var from := DateParam(Param(req, "from"), env);
      var to := DateParam(Param(req, "to"), env);
      Ok(200, Feed(store, user, from, to, ProjectFilter(Param(req, "projectId"), env)))
  }

  /** A `projectId` that is empty or not an ObjectId is ignored: the answer
      is the dashboard view, personal events included. */
  lemma InvalidProjectIdIgnored(req: Request, store: Store, env: Env)
    requires "projectId" in req.query
    requires req.query["projectId"] == "" || !env.isObjectId(req.query["projectId"])
    ensures CalendarGet(req, store, env) == CalendarGet(req.(query := req.query - {"projectId"}), store, env)
  {
    var req' := req.(query := req.query - {"projectId"});
    assert Param(req', "from") == Param(req, "from");
    assert Param(req', "to") == Param(req, "to");
  }

  /** A valid `projectId` the caller cannot open answers 200 with no items. */
  lemma ClosedProjectEmpty(req: Request, store: Store, env: Env, user: Id)
    requires RequireCaller(req.authorization, env) == Caller(user)
    requires "projectId" in req.query && req.query["projectId"] != "" && env.isObjectId(req.query["projectId"])
    requires !AccessibleProject(store.projects, req.query["projectId"], user)
    ensures CalendarGet(req, store, env) == Ok(200, [])
  {
  }
}
