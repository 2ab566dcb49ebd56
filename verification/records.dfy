/**
 The stored documents the routes read and write, as immutable records, and
 the store as one sequence per collection. Instants are milliseconds.
 */
module Records {
  import opened Wrappers
  import opened Http

  /** A task's workflow state; the schema allows exactly these three. */
  datatype Status = Todo | Doing | Done

  datatype Project = Project(
    id: Id,
    name: string,
    description: string,
    owner: Id,
    members: seq<Id>,
    joinCode: string,
    updatedAt: int)

  /** The `$or: [{ owner: userId }, { members: userId }]` filter. */
  predicate CanAccess(p: Project, user: Id) {
    p.owner == user || user in p.members
  }

  datatype Task = Task(id: Id, project: Id, title: string, status: Status, deadline: Option<int>)

  /** An event in one user's own calendar. */
  datatype PersonalEvent = PersonalEvent(
    id: Id,
    owner: Id,
    title: string,
    description: string,
    start: int,
    end: int,
    allDay: bool,
    color: string)

  /** An event attached to a project. */
  datatype ProjectEvent = ProjectEvent(
    id: Id,
    project: Id,
    title: string,
    description: string,
    start: int,
    end: int,
    allDay: bool,
    createdBy: Id)

  datatype Note = Note(
    id: Id,
    projectId: Id,
    title: string,
    content: string,
    linkedTask: Option<Id>,
    createdBy: Id,
    updatedAt: int)

  /** The collections the modelled routes touch. */
  datatype Store = Store(
    projects: seq<Project>,
    tasks: seq<Task>,
    personalEvents: seq<PersonalEvent>,
    projectEvents: seq<ProjectEvent>,
    notes: seq<Note>)

  /** `Project.findById(id)`: the first project with that id, if any. */
  function FindProject(ps: seq<Project>, id: Id): (r: Option<Project>)
    ensures r.Some? ==> r.value in ps && r.value.id == id
    ensures r.None? <==> forall i :: 0 <= i < |ps| ==> ps[i].id != id
  {
    if ps == [] then None
    else if ps[0].id == id then Some(ps[0])
    else FindProject(ps[1..], id)
  }

  /** `Project.findOne({ joinCode })`: the first project with that code. */
  function FindByJoinCode(ps: seq<Project>, code: string): (r: Option<nat>)
    ensures r.Some? ==> r.value < |ps| && ps[r.value].joinCode == code
    ensures r.Some? ==> forall i :: 0 <= i < r.value ==> ps[i].joinCode != code
    ensures r.None? <==> forall i :: 0 <= i < |ps| ==> ps[i].joinCode != code
  {
    if ps == [] then None
    else if ps[0].joinCode == code then Some(0)
    else match FindByJoinCode(ps[1..], code)
      case None => None
      case Some(i) => Some(i + 1)
  }

  /** `Note.findById(id)`: the position of the first note with that id. */
  function FindNote(ns: seq<Note>, id: Id): (r: Option<nat>)
    ensures r.Some? ==> r.value < |ns| && ns[r.value].id == id
    ensures r.None? <==> forall i :: 0 <= i < |ns| ==> ns[i].id != id
  {
    if ns == [] then None
    else if ns[0].id == id then Some(0)
    else match FindNote(ns[1..], id)
      case None => None
      case Some(i) => Some(i + 1)
  }

  /** `Project.findOne({ _id: id, $or: [{ owner: user }, { members: user }] })`
      finds something. */
  predicate AccessibleProject(ps: seq<Project>, id: Id, user: Id) {
    exists i :: 0 <= i < |ps| && ps[i].id == id && CanAccess(ps[i], user)
  }

  /** The ids of the projects `user` can access, in store order. */
  function AccessibleIds(ps: seq<Project>, user: Id): (ids: seq<Id>)
    ensures forall id :: id in ids <==> AccessibleProject(ps, id, user)
  {
    if ps == [] then []
    else
      var rest := AccessibleIds(ps[1..], user);
      assert forall i :: 0 < i < |ps| ==> ps[i] == ps[1..][i - 1];
      if CanAccess(ps[0], user) then [ps[0].id] + rest else rest
  }
}
