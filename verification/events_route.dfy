/**
 The personal-events route (`/api/events`): GET lists the caller's own events
 touching a window; POST validates a new event, fills in its defaults and
 stores it.
 */
module EventsRoute {
  import opened Wrappers
  import opened Civil
  import opened Text
  import opened Sorting
  import opened Http
  import opened Records
  import opened Auth
  import opened Items
  import opened Selections
  import opened CalendarFeed

  /** The listing of `GET /api/events` for a caller. */
  function OwnedItems(store: Store, user: Id, from: Option<int>, to: Option<int>): seq<CalendarItem> {
    MapSeq(OwnedEvents(store.personalEvents, user, from, to), PersonalItem)
  }

  /** `GET /api/events`. */
  function EventsGet(req: Request, store: Store, env: Env): (r: Reply<seq<CalendarItem>>)
    ensures RequireCaller(req.authorization, env).Refused? ==>
              r == Fail(RequireCaller(req.authorization, env).status, RequireCaller(req.authorization, env).error)
    ensures RequireCaller(req.authorization, env).Caller? ==>
              r == Ok(200, OwnedItems(store, RequireCaller(req.authorization, env).id,
                                      DateParam(Param(req, "from"), env), DateParam(Param(req, "to"), env)))
  {
    match RequireCaller(req.authorization, env)
    case Refused(status, error) => Fail(status, error)
    case Caller(user) =>
      Ok(200, OwnedItems(store, user, DateParam(Param(req, "from"), env), DateParam(Param(req, "to"), env)))
  }

  /** The listing is in start order. */
  lemma OwnedItemsOrdered(store: Store, user: Id, from: Option<int>, to: Option<int>)
    ensures SortedBy(OwnedItems(store, user, from, to), ItemStart)
  {
    var es := OwnedEvents(store.personalEvents, user, from, to);
    var items := OwnedItems(store, user, from, to);
    forall i, j | 0 <= i < j < |items|
      ensures ItemStart(items[i]) <= ItemStart(items[j])
    {
      assert PersonalStart(es[i]) <= PersonalStart(es[j]);
    }
  }

  /** Every owned event touching the window is listed, with its colour or
      the default blue. */
  lemma OwnedEventListed(store: Store, user: Id, from: Option<int>, to: Option<int>, e: PersonalEvent)
    requires e in store.personalEvents && e.owner == user && Overlaps(e.start, e.end, from, to)
    ensures PersonalItem(e) in OwnedItems(store, user, from, to)
  {
    var es := OwnedEvents(store.personalEvents, user, from, to);
    assert OwnedInWindow(e, user, from, to);
    assert e in es;
    var i :| 0 <= i < |es| && es[i] == e;
    assert OwnedItems(store, user, from, to)[i] == PersonalItem(e);
  }

  /** Nothing else is listed: each item comes from an owned event touching
      the window. */
  lemma ListedEventOwned(store: Store, user: Id, from: Option<int>, to: Option<int>, it: CalendarItem)
    requires it in OwnedItems(store, user, from, to)
    ensures exists e :: e in store.personalEvents && e.owner == user
                        && Overlaps(e.start, e.end, from, to) && it == PersonalItem(e)
  {
    var es := OwnedEvents(store.personalEvents, user, from, to);
    var items := OwnedItems(store, user, from, to);
    var i :| 0 <= i < |items| && items[i] == it;
    assert es[i] in es;
    assert OwnedInWindow(es[i], user, from, to);
  }

  /** The events route lists exactly the personal section of the dashboard
      calendar for the same window. */
  lemma SameAsDashboard(store: Store, user: Id, from: Option<int>, to: Option<int>)
    ensures Select(store, user, from, to, None).Some?
    ensures var s := Select(store, user, from, to, None).value;
            Feed(store, user, from, to, None)[..|s.personal|] == OwnedItems(store, user, from, to)
  {
    var s := Select(store, user, from, to, None).value;
    assert s.personal == OwnedEvents(store.personalEvents, user, from, to);
    LayoutPersonalPrefix(store.projects, s);
  }

  /** A string field read as a date: None when it is not a string or does
      not parse. */
  function DateField(j: Json, env: Env): (r: Option<int>)
    ensures r.Some? <==> j.JStr? && env.parseDate(j.s).Some?
    ensures r.Some? ==> r == env.parseDate(j.s)
  {
    if j.JStr? then env.parseDate(j.s) else None
  }

  /** `finalEnd`: the given end when it parses, otherwise an hour after the
      start (`setHours(getHours() + 1)` on the local clock). */
  function EndOrHourLater(end: Option<int>, start: int): (t: int)
    ensures end.Some? ==> t == end.value
    ensures end.None? ==> t == start + MsPerHour && t > start
  {
    match end
    case Some(e) => e
    case None => start + MsPerHour
  }

  /** The event `POST /api/events` stores for a caller: title and
      description trimmed, `allDay` false unless a boolean is given, colour
      blue unless a string is given. */
  function NewEvent(id: Id, user: Id, body: Body, start: int, env: Env): (e: PersonalEvent)
    ensures e.id == id && e.owner == user && e.start == start
    ensures e.title == Trim(StringOr(Field(body, "title"), ""))
    ensures e.description == Trim(StringOr(Field(body, "description"), ""))
    ensures e.end == EndOrHourLater(DateField(Field(body, "end"), env), start)
    ensures e.allDay <==> Field(body, "allDay") == JBool(true)
    ensures Field(body, "color").JStr? ==> e.color == Field(body, "color").s
    ensures !Field(body, "color").JStr? ==> e.color == PersonalBlue
  {
    var allDay := match Field(body, "allDay") case JBool(b) => b case _ => false;
    PersonalEvent(id, user,
      TrimmedOrEmpty(Field(body, "title")),
      TrimmedOrEmpty(Field(body, "description")),
      start,
      EndOrHourLater(DateField(Field(body, "end"), env), start),
      allDay,
      StringOr(Field(body, "color"), PersonalBlue))
  }

  /** The `event` of the 201 reply: the stored event with its colour as
      stored. */
  function CreatedItem(e: PersonalEvent): (it: CalendarItem)
    ensures it.id == e.id && it.kind == EventKind && it.title == e.title
    ensures it.start == e.start && it.end == e.end && it.allDay == e.allDay
    ensures it.project.None? && it.status.None? && it.color == Some(e.color)
  {
    CalendarItem(e.id, EventKind, e.title, e.start, e.end, e.allDay, None, None, Some(e.color))
  }

  /** `POST /api/events`. The body is read leniently (a malformed body is
      the empty object); `newId` is the id the database assigns. */
  function EventsPost(req: Request, store: Store, env: Env, newId: Id): (h: Handled<CalendarItem, Store>)
    ensures h.reply.Fail? ==> h.store == store
    ensures RequireCaller(req.authorization, env).Refused? ==>
              h.reply == Fail(RequireCaller(req.authorization, env).status, RequireCaller(req.authorization, env).error)
    ensures RequireCaller(req.authorization, env).Caller? && TrimmedOrEmpty(Field(req.body, "title")) == ""
            ==> h.reply == Fail(400, "Title is required")
    ensures RequireCaller(req.authorization, env).Caller? && TrimmedOrEmpty(Field(req.body, "title")) != ""
            && DateField(Field(req.body, "start"), env).None?
            ==> h.reply == Fail(400, "Invalid start")
    ensures h.reply.Ok? <==> RequireCaller(req.authorization, env).Caller?
                             && TrimmedOrEmpty(Field(req.body, "title")) != ""
                             && DateField(Field(req.body, "start"), env).Some?
    ensures h.reply.Ok? ==> h.reply.status == 201
  {
    match RequireCaller(req.authorization, env)
    case Refused(status, error) => Handled(Fail(status, error), store)
    case Caller(user) =>
      if TrimmedOrEmpty(Field(req.body, "title")) == "" then Handled(Fail(400, "Title is required"), store)
      else match DateField(Field(req.body, "start"), env)
        case None => Handled(Fail(400, "Invalid start"), store)
        case Some(start) =>
          var e := NewEvent(newId, user, req.body, start, env);
          Handled(Ok(201, CreatedItem(e)), store.(personalEvents := store.personalEvents + [e]))
  }

  /** A successful POST appends exactly one event, owned by the caller, with
      a non-empty trimmed title, and touches no other collection; the reply
      echoes it. */
  lemma PostAppendsOne(req: Request, store: Store, env: Env, newId: Id)
    requires EventsPost(req, store, env, newId).reply.Ok?
    ensures var h := EventsPost(req, store, env, newId);
            var es := h.store.personalEvents;
            |es| == |store.personalEvents| + 1
            && es[..|store.personalEvents|] == store.personalEvents
            && var e := es[|es| - 1];
               e.owner == RequireCaller(req.authorization, env).id
               && e.title != "" && IsTrimmed(e.title)
               && e.start == DateField(Field(req.body, "start"), env).value
               && h.reply.value == CreatedItem(e)
               && h.store == store.(personalEvents := store.personalEvents + [e])
  {
  }

  /** The successful POST in closed form: the new event and the new store. */
  lemma PostResult(req: Request, store: Store, env: Env, newId: Id)
    requires RequireCaller(req.authorization, env).Caller?
    requires TrimmedOrEmpty(Field(req.body, "title")) != ""
    requires DateField(Field(req.body, "start"), env).Some?
    ensures var e := NewEvent(newId, RequireCaller(req.authorization, env).id, req.body,
                              DateField(Field(req.body, "start"), env).value, env);
            EventsPost(req, store, env, newId)
            == Handled(Ok(201, CreatedItem(e)), store.(personalEvents := store.personalEvents + [e]))
  {
  }

  /** The stored end is not checked against the start: an end that parses
      to an earlier instant is stored as given. */
  lemma EndBeforeStartAccepted(req: Request, store: Store, env: Env, newId: Id, s: string, t: string, a: int, b: int)
    requires RequireCaller(req.authorization, env).Caller?
    requires TrimmedOrEmpty(Field(req.body, "title")) != ""
    requires Field(req.body, "start") == JStr(s) && Field(req.body, "end") == JStr(t)
    requires env.parseDate(s) == Some(a) && env.parseDate(t) == Some(b) && b < a
    ensures var h := EventsPost(req, store, env, newId);
            h.reply.Ok? && h.reply.value.start == a && h.reply.value.end == b
  {
    PostResult(req, store, env, newId);
  }

  /** A newly posted event is listed by the same caller's GET for any window
      it touches, with the stored colour or the default blue. */
  lemma PostedEventListed(req: Request, store: Store, env: Env, newId: Id, from: Option<int>, to: Option<int>)
    requires EventsPost(req, store, env, newId).reply.Ok?
    ensures var h := EventsPost(req, store, env, newId);
            var e := h.store.personalEvents[|h.store.personalEvents| - 1];
            Overlaps(e.start, e.end, from, to) ==>
              PersonalItem(e) in OwnedItems(h.store, RequireCaller(req.authorization, env).id, from, to)
  {
    var user := RequireCaller(req.authorization, env).id;
    PostResult(req, store, env, newId);
    var e := NewEvent(newId, user, req.body, DateField(Field(req.body, "start"), env).value, env);
    var after := store.(personalEvents := store.personalEvents + [e]);
    assert after.personalEvents[|after.personalEvents| - 1] == e;
    if Overlaps(e.start, e.end, from, to) {
      OwnedEventListed(after, user, from, to, e);
    }
  }
}
