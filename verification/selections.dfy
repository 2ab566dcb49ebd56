/**
 The date-window filters the calendar, events and due-task routes put in
 their database queries, as selections over the stored sequences: the
 half-open overlap test for events and the inclusive containment test for
 deadlines, each result in the order the query's `sort` asks for.
 */
module Selections {
  import opened Wrappers
  import opened Civil
  import opened Sorting
  import opened Http
  import opened Records

  /** `parseDateParam`: a missing or empty parameter and one that does not
      parse are all "no bound"; a parameter is never an error. */
  function DateParam(v: Option<string>, env: Env): (r: Option<int>)
    ensures v.None? || v == Some("") ==> r.None?
    ensures v.Some? && v.value != "" && env.parseDate(v.value).None? ==> r.None?
    ensures r.Some? ==> v.Some? && env.parseDate(v.value) == r
  {
    match v
    case None => None
    case Some(s) => if s == "" then None else env.parseDate(s)
  }

  /** The overlap query `{ start: { $lt: to }, end: { $gt: from } }`, each
      half dropped when its bound is absent. */
  predicate Overlaps(start: int, end: int, from: Option<int>, to: Option<int>) {
    (to.None? || start < to.value) && (from.None? || end > from.value)
  }

  /** The deadline query `{ $ne: null, $gte: from, $lte: to }`. */
  predicate DueWithin(deadline: Option<int>, from: Option<int>, to: Option<int>) {
    deadline.Some? && (from.None? || from.value <= deadline.value) && (to.None? || deadline.value <= to.value)
  }

  /** The bounds are compared separately, so a window whose `to` precedes its
      `from` still admits an event that spans both, while no deadline falls
      inside it. */
  lemma InvertedWindowOverlap(start: int, end: int, deadline: Option<int>, from: int, to: int)
    requires to < from && start < to && end > from
    ensures Overlaps(start, end, Some(from), Some(to))
    ensures !DueWithin(deadline, Some(from), Some(to))
  {
  }

  function PersonalStart(e: PersonalEvent): int {
    e.start
  }

  function ProjectEventStart(e: ProjectEvent): int {
    e.start
  }

  /** The sort key of `sort({ deadline: 1 })`, read only on tasks that have a
      deadline. */
  function DeadlineKey(t: Task): int {
    t.deadline.GetOr(0)
  }

  predicate OwnedInWindow(e: PersonalEvent, user: Id, from: Option<int>, to: Option<int>) {
    e.owner == user && Overlaps(e.start, e.end, from, to)
  }

  predicate InProjectsInWindow(e: ProjectEvent, ids: seq<Id>, from: Option<int>, to: Option<int>) {
    e.project in ids && Overlaps(e.start, e.end, from, to)
  }

  predicate DueInProjects(t: Task, ids: seq<Id>, from: Option<int>, to: Option<int>) {
    t.project in ids && DueWithin(t.deadline, from, to)
  }

  /** `PersonalEvent.find({ owner: user, ...overlap }).sort({ start: 1 })`:
      exactly the user's events touching the window, each as often as it is
      stored, in start order. */
  function OwnedEvents(es: seq<PersonalEvent>, user: Id, from: Option<int>, to: Option<int>): (r: seq<PersonalEvent>)
    ensures SortedBy(r, PersonalStart)
    ensures forall e :: e in r <==> e in es && OwnedInWindow(e, user, from, to)
    ensures forall e :: multiset(r)[e] == if OwnedInWindow(e, user, from, to) then multiset(es)[e] else 0
  {
    var f := Filter(es, (e: PersonalEvent) => OwnedInWindow(e, user, from, to));
    SortByMembers(f, PersonalStart);
    SortBy(f, PersonalStart)
  }

  /** `ProjectEvent.find({ project: { $in: ids }, ...overlap }).sort({ start: 1 })`. */
  function ProjectEventsIn(es: seq<ProjectEvent>, ids: seq<Id>, from: Option<int>, to: Option<int>): (r: seq<ProjectEvent>)
    ensures SortedBy(r, ProjectEventStart)
    ensures forall e :: e in r <==> e in es && InProjectsInWindow(e, ids, from, to)
    ensures forall e :: multiset(r)[e] == if InProjectsInWindow(e, ids, from, to) then multiset(es)[e] else 0
  {
    var f := Filter(es, (e: ProjectEvent) => InProjectsInWindow(e, ids, from, to));
    SortByMembers(f, ProjectEventStart);
    SortBy(f, ProjectEventStart)
  }

  /** `Task.find({ project: { $in: ids }, deadline: ... }).sort({ deadline: 1 })`. */
  function TasksDueIn(ts: seq<Task>, ids: seq<Id>, from: Option<int>, to: Option<int>): (r: seq<Task>)
    ensures SortedBy(r, DeadlineKey)
    ensures forall t :: t in r ==> t.deadline.Some?
    ensures forall t :: t in r <==> t in ts && DueInProjects(t, ids, from, to)
    ensures forall t :: multiset(r)[t] == if DueInProjects(t, ids, from, to) then multiset(ts)[t] else 0
  {
    var f := Filter(ts, (t: Task) => DueInProjects(t, ids, from, to));
    SortByMembers(f, DeadlineKey);
    SortBy(f, DeadlineKey)
  }

  /** Two lists of ids with the same members select the same records. */
  lemma SameIdsSameSelection(es: seq<ProjectEvent>, ts: seq<Task>, a: seq<Id>, b: seq<Id>, from: Option<int>, to: Option<int>)
    requires forall id :: id in a <==> id in b
    ensures ProjectEventsIn(es, a, from, to) == ProjectEventsIn(es, b, from, to)
    ensures TasksDueIn(ts, a, from, to) == TasksDueIn(ts, b, from, to)
  {
    FilterEquivalent(es, (e: ProjectEvent) => InProjectsInWindow(e, a, from, to),
                         (e: ProjectEvent) => InProjectsInWindow(e, b, from, to));
    FilterEquivalent(ts, (t: Task) => DueInProjects(t, a, from, to),
                         (t: Task) => DueInProjects(t, b, from, to));
  }
}
