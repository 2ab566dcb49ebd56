/**
 How the month view shows what the calendar route sends: the dot colour and
 the API path of each kind of feed item.
 */
module MonthFeed {
  import opened Wrappers
  import opened Text
  import opened Records
  import opened Items
  import opened CalendarMonth

  /** A personal event shows its own colour, or the route's default blue,
      and is addressed through the personal events route. */
  lemma PersonalItemInMonth(e: PersonalEvent)
    ensures DotColor(PersonalItem(e)) == ColorOr(e.color)
    ensures ApiBase(PersonalItem(e)) == EventsPath + e.id
  {
  }

  /** A project event is always red. It is addressed through its project
      while the project exists, and falls back to the personal events route
      once the project is gone, because `populate` then leaves no id. */
  lemma ProjectEventItemInMonth(ps: seq<Project>, e: ProjectEvent)
    ensures DotColor(ProjectEventItem(ps, e)) == ProjectRed
    ensures FindProject(ps, e.project).Some? && e.project != "" ==>
              ApiBase(ProjectEventItem(ps, e)) == ProjectsPath + e.project + "/events/" + e.id
    ensures FindProject(ps, e.project).None? ==> ApiBase(ProjectEventItem(ps, e)) == EventsPath + e.id
  {
  }

  /** A task's dot follows its status: green when done, orange while in
      progress, red otherwise. */
  lemma TaskItemInMonth(ps: seq<Project>, t: Task)
    requires t.deadline.Some?
    ensures t.status == Done ==> DotColor(TaskItem(ps, t)) == DoneGreen
    ensures t.status == Doing ==> DotColor(TaskItem(ps, t)) == DoingOrange
    ensures t.status == Todo ==> DotColor(TaskItem(ps, t)) == TaskRed
  {
  }
}
