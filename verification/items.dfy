/**
 The `CalendarItem` the calendar and events routes send and the month view
 reads, and the mappings from stored records to items.
 */
module Items {
  import opened Wrappers
  import opened Civil
  import opened Http
  import opened Records

  datatype Kind = EventKind | TaskKind

  /** A populated `project` reference: `{ _id, name }`. */
  datatype ProjectRef = ProjectRef(id: Id, name: string)

  /** One entry of the calendar feed. `start` and `end` are instants (the
      ISO strings on the wire); an absent optional field is None. */
  datatype CalendarItem = CalendarItem(
    id: Id,
    kind: Kind,
    title: string,
    start: int,
    end: int,
    allDay: bool,
    project: Option<ProjectRef>,
    status: Option<Status>,
    color: Option<string>)

  const PersonalBlue: string := "#2563eb"
  const ProjectRed: string := "#ef4444"

  /** `e.color || "#2563eb"`. */
  function ColorOr(c: string): (r: string)
    ensures r != ""
    ensures c != "" ==> r == c
  {
    if c != "" then c else PersonalBlue
  }

  /** A personal event as the calendar and events routes list it. */
  function PersonalItem(e: PersonalEvent): (it: CalendarItem)
    ensures it.id == e.id && it.kind == EventKind && it.title == e.title
    ensures it.start == e.start && it.end == e.end && it.allDay == e.allDay
    ensures it.project.None? && it.status.None?
    ensures it.color == Some(ColorOr(e.color))
  {
    CalendarItem(e.id, EventKind, e.title, e.start, e.end, e.allDay, None, None, Some(ColorOr(e.color)))
  }

  /** `populate("project", "name")`: the referenced project's id and name, or
      nothing when the project no longer exists. */
  function Populate(projects: seq<Project>, id: Id): (r: Option<ProjectRef>)
    ensures r.Some? <==> FindProject(projects, id).Some?
    ensures r.Some? ==> r.value.id == id && r.value.name == FindProject(projects, id).value.name
  {
    match FindProject(projects, id)
    case None => None
    case Some(p) => Some(ProjectRef(p.id, p.name))
  }

  /** A project event in the feed: always red, with its project attached. */
  function ProjectEventItem(projects: seq<Project>, e: ProjectEvent): (it: CalendarItem)
    ensures it.id == e.id && it.kind == EventKind && it.title == e.title
    ensures it.start == e.start && it.end == e.end && it.allDay == e.allDay
    ensures it.project == Populate(projects, e.project) && it.status.None?
    ensures it.color == Some(ProjectRed)
  {
    CalendarItem(e.id, EventKind, e.title, e.start, e.end, e.allDay,
      Populate(projects, e.project), None, Some(ProjectRed))
  }

  /** A task with a deadline in the feed: an all-day item spanning the whole
      local day of the deadline, carrying the status and no colour. */
  function TaskItem(projects: seq<Project>, t: Task): (it: CalendarItem)
    requires t.deadline.Some?
    ensures it.id == t.id && it.kind == TaskKind && it.title == t.title && it.allDay
    ensures it.start <= t.deadline.value <= it.end
    ensures it.start % MsPerDay == 0 && it.end - it.start == MsPerDay - 1
    ensures DayOf(it.start) == DayOf(t.deadline.value) == DayOf(it.end)
    ensures it.project == Populate(projects, t.project)
    ensures it.status == Some(t.status) && it.color.None?
  {
    var s := StartOfDay(t.deadline.value);
    CalendarItem(t.id, TaskKind, t.title, s, EndOfDay(t.deadline.value), true,
      Populate(projects, t.project), Some(t.status), None)
  }
}
