# Calendar pipeline of collab-app, in Dafny

This project models the calendar pipeline of collab-app, a collaboration
app for student projects. It covers the month view component
(`CalendarMonth.tsx`) and the API routes that feed it or share its rules:
- the calendar aggregation;
- personal events;
- projects and joining by code;
- due tasks;
- the four note routes;
- the token helper `getUserIdFromRequest`;
- the edge proxy.

Each route is a pure function from a request, a store and an environment to
a reply. Routes that write also return the new store. The store holds one
sequence per collection. Everything outside the code is a field of `Env`:
- the JWT verifier, and the message it throws when no secret is set;
- the ObjectId syntax check;
- date parsing;
- the clock;
- the secret.

Every property below therefore holds for any behaviour of those services.

Layout, one module per file:
- `wrappers.dfy`: Option, Reply, Handled.
- `civil.dfy`: civil dates ⇄ day numbers ⇄ millisecond instants.
- `text.dfy`: the JavaScript string functions used (`trim`, `toUpperCase`, `replace`, `split`, `Number`, `padStart`) and `length` in UTF-16 code units.
- `sorting.dfy`: a stable sort by key, filtering and mapping.
- `grouping.dfy`: grouping into sorted buckets.
- `http.dfy`: request, JSON body (not JSON, `null`, or an object), environment, `jwt.verify`.
- `records.dfy`: stored documents and the id lookups.
- `auth.dfy`: `getUserIdFromRequest` and the 401/500 guard built on it.
- `proxy.dfy`: the edge gate.
- `items.dfy`: the `CalendarItem` shape and the record-to-item mappings.
- `selections.dfy`: the window queries.
- `calendar_feed.dfy`: `GET /api/calendar`.
- `events_route.dfy`: `/api/events`.
- `projects_route.dfy`: `/api/projects` and `/api/projects/join`.
- `tasks_due.dfy`: `/api/tasks/due`.
- `note_rules.dfy`, `notes_read.dfy`, `notes_write.dfy`: the note schema and routes.
- `calendar_month.dfy`: the month view.
- `month_feed.dfy`: how the view shows feed items.

Time model:
- An instant is an integer number of milliseconds on the local wall clock.
- Its local day is the floor of the instant divided by 86 400 000.
- `getFullYear`/`getMonth`/`getDate` are the proleptic Gregorian date of that day.
- `new Date(y, m, d)` is taken as the inverse for years from 100 on; the two JavaScript exceptions (years 0 to 99, and instants beyond the representable range) are listed under "Left out".

Four behaviours of the code that a reader might not expect, each stated by a member:
- **Grid size.** The grid pads only to whole weeks, so it has 28 to 42 cells, not always six weeks (`CalendarMonth.GridShape`).
- **Feed order.** The calendar feed is three sections concatenated, each in its own query order; the whole list is never sorted (`CalendarFeed.FeedOrder`).
- **Inverted windows.** The project-event query tests the two bounds separately, so with `to` before `from` an event that spans both is still selected (`Selections.InvertedWindowOverlap`).
- **End before start.** `POST /api/events` never compares the end with the start, so an event that ends before it starts is stored (`EventsRoute.EndBeforeStartAccepted`).

## Model

| member | source | states |
|---|---|---|
| Auth.FirstId | src/lib/auth.ts:19 | the first of the `id`, `userId`, `_id` claims that is present, in that order |
| Auth.BearerToken | src/lib/auth.ts:12-14 | the token is what follows the seven-character "Bearer " prefix, with surrounding white space removed |
| Auth.UserIdFromRequest | src/lib/auth.ts:10-20 | no header, or one that does not start with "Bearer ", gives no user; a bearer header with no secret throws "JWT_SECRET is not set" |
| Auth.VerifiedIdentity | src/lib/auth.ts:14-19 | with a secret and a bearer header, a rejected token is a thrown error (never "no user"), and an accepted one yields its first id claim or no user |
| Auth.RequireCaller | src/app/api/calendar/route.ts:35-37 | a route proceeds exactly when an id comes back non-empty; a thrown error is a 500 with its message; no id is 401 "Unauthorized" |
| Auth.NoBearerUnauthorized | src/lib/auth.ts:11-12 | a request without a bearer header is refused with 401 "Unauthorized" |
| Http.Field | src/app/api/events/route.ts:69-71 | a malformed body reads as the empty object; a `null` body and a missing field read as `undefined` |
| Http.JwtVerify | src/proxy.ts:20 | with an unset or empty secret every token is rejected; otherwise the verifier decides |
| Http.TrimmedOrEmpty | src/app/api/events/route.ts:71-73 | a string field is trimmed; anything else is empty; `POST /api/projects` reads its name and description the same way |
| Proxy.ProxyToken | src/proxy.ts:13 | no header gives no token; a header starting with "Bearer " gives the rest of it |
| Proxy.ProxyGate | src/proxy.ts:4-25 | unprotected paths pass; on protected ones a missing or empty token is 401 "Unauthorized", and a non-empty one passes exactly when it verifies, else 401 "Invalid token" |
| Proxy.ProtectedPaths | src/proxy.ts:5-9 | exactly the paths starting with "/api/projects" or "/api/tasks" are gated, so "/api/projectsX" is and "/api/calendar" and "/api/events" are not |
| Proxy.BareTokenPasses | src/proxy.ts:13-21 | a header that is a bare verifying token without the "Bearer " prefix passes the gate |
| Records.FindProject | src/app/api/notes/create/route.ts:18 | the result is a stored project with that id, and there is none exactly when no project has that id |
| Records.FindByJoinCode | src/app/api/projects/join/route.ts:29 | the first project with that join code, or none exactly when no project has it |
| Records.FindNote | src/app/api/notes/get/route.ts:19 | the position of a note with that id, or none exactly when no note has it |
| Records.AccessibleIds | src/app/api/calendar/route.ts:59-62 | an id is listed exactly when some project with that id is owned by the user or has them as a member |
| Text.TrimKeepsInfix | src/app/api/events/route.ts:71 | `trim` keeps one contiguous run of the string and drops only white space on either side |
| Text.TrimIdempotent | src/app/api/projects/route.ts:37-39 | trimming twice is trimming once |
| Text.UpperAsciiIdempotent | src/app/api/projects/join/route.ts:17-20 | upper-casing is idempotent and leaves no lower-case ASCII letter |
| Text.ReplaceFirst | src/proxy.ts:13 | the first occurrence of the pattern, wherever it is, is replaced and the rest kept; a string without the pattern is returned unchanged |
| Text.ReplaceLeadingPrefix | src/proxy.ts:13 | removing a leading "Bearer " with `replace` leaves the rest of the header |
| Text.SplitJoin | src/components/CalendarMonth.tsx:172-173 | joining the parts of a split with the separator gives back the string |
| Text.NumberOfDecimal | src/components/CalendarMonth.tsx:172-175 | `Number` reads back the decimal text of any natural number |
| Text.Pad2Injective | src/components/CalendarMonth.tsx:29-30 | two-digit padding of numbers below 100 is one-to-one |
| Text.Utf16Length | src/models/Note.ts:15 | JavaScript's `length` counts a character outside the Basic Multilingual Plane twice: it equals the character count exactly when every character is in that plane and twice it exactly when none is |
| Text.Utf16LengthAppend | src/models/Note.ts:15 | the code-unit length of a concatenation is the sum of the lengths |
| Sorting.SortBy | src/app/api/calendar/route.ts:98-108 | the sorted list is a permutation of the input, ordered by the key |
| Sorting.Filter | src/app/api/calendar/route.ts:97-108 | the result keeps exactly the elements satisfying the query, each as often as stored |
| Civil.DateOfDayNumber | src/components/CalendarMonth.tsx:27-31 | reading back the date of the day number of any valid date gives that date |
| Civil.DayNumberInjective | src/components/CalendarMonth.tsx:64-70 | two valid dates are the same day exactly when their day numbers are equal |
| Civil.MondayIndex | src/components/CalendarMonth.tsx:44 | `(getDay() + 6) % 7` is in 0..6 and counts days from Monday: the weekday is one past the index, so Monday is 0 and Sunday 6 |
| Civil.StartOfDay | src/app/api/calendar/route.ts:145-146 | `setHours(0,0,0,0)` gives the midnight at or before the instant, less than a day before it, on the same day |
| Civil.EndOfDay | src/app/api/calendar/route.ts:147-148 | `setHours(23,59,59,999)` gives the last millisecond of the same day |
| Civil.StartOfDayMonotone | src/app/api/calendar/route.ts:143-148 | a later deadline never falls on an earlier day |
| Civil.CivilOfBetween | src/components/CalendarMonth.tsx:64-70 | an instant lies on a date exactly when it is between that date's midnight and the next |
| Items.ColorOr | src/app/api/calendar/route.ts:122 | `color \|\| "#2563eb"` is never empty and keeps a non-empty colour |
| Items.PersonalItem | src/app/api/calendar/route.ts:114-124 | a personal event becomes an event item with its times, no project, and its colour or the default blue |
| Items.Populate | src/app/api/calendar/route.ts:135-137 | the project reference exists exactly when the project does, and carries its id and name |
| Items.ProjectEventItem | src/app/api/calendar/route.ts:127-140 | a project event becomes a red event item with its times and its populated project |
| Items.TaskItem | src/app/api/calendar/route.ts:143-162 | a deadline becomes an all-day task item spanning the whole local day that contains the deadline, with the task's status and no colour |
| Selections.DateParam | src/app/api/calendar/route.ts:25-29 | an absent, empty or unparseable bound is no bound and never an error |
| Selections.InvertedWindowOverlap | src/app/api/calendar/route.ts:66-74 | with `to` before `from` an event spanning both still overlaps, while no deadline lies in the window |
| Selections.OwnedEvents | src/app/api/events/route.ts:27-40 | exactly the user's events that overlap the window, each as often as stored, in start order |
| Selections.ProjectEventsIn | src/app/api/calendar/route.ts:66-74 | exactly the events of the listed projects that overlap the window, in start order |
| Selections.TasksDueIn | src/app/api/calendar/route.ts:76-84 | exactly the tasks of the listed projects with a deadline inside the window, bounds included, in deadline order |
| Selections.SameIdsSameSelection | src/app/api/calendar/route.ts:66-84 | the selections depend on the project-id list only as a set |
| CalendarFeed.ProjectFilter | src/app/api/calendar/route.ts:43-47 | a project filter is applied exactly when the parameter is non-empty and a valid ObjectId |
| CalendarFeed.Scope | src/app/api/calendar/route.ts:49-63 | a requested project is the whole scope if the caller can open it and closes the feed otherwise; without one the scope is every project the caller can open |
| CalendarFeed.Select | src/app/api/calendar/route.ts:97-109 | the reads happen exactly when the scope is open, and every selected task has a deadline |
| CalendarFeed.PersonalSection | src/app/api/calendar/route.ts:87-95 | personal events appear only without a project filter: the caller's own, overlapping the window, in start order |
| CalendarFeed.EventSection | src/app/api/calendar/route.ts:66-74 | project events are exactly those of in-scope projects that overlap the window, in start order |
| CalendarFeed.TaskSection | src/app/api/calendar/route.ts:76-84 | tasks are exactly those of in-scope projects due inside the window, in deadline order |
| CalendarFeed.TaskItems | src/app/api/calendar/route.ts:143-162 | one task item per task, in the tasks' order |
| CalendarFeed.TaskItemsInStartOrder | src/app/api/calendar/route.ts:143-148 | tasks in deadline order give items in start order |
| CalendarFeed.Layout | src/app/api/calendar/route.ts:111-162 | the feed has one item per personal event, project event and task |
| CalendarFeed.Feed | src/app/api/calendar/route.ts:49-164 | a requested project the caller cannot open gives no items; an open scope gives the three selected sections laid out in order (their contents are stated by the Section lemmas and FeedOrder) |
| CalendarFeed.LayoutPersonalFirst | src/app/api/calendar/route.ts:114-124 | the feed opens with the personal events, each with its colour or the default blue |
| CalendarFeed.LayoutEventsNext | src/app/api/calendar/route.ts:127-140 | the project events come next, all red |
| CalendarFeed.LayoutTasksLast | src/app/api/calendar/route.ts:143-162 | the tasks come last as all-day items around their deadlines, with status and no colour |
| CalendarFeed.LayoutOrder | src/app/api/calendar/route.ts:111-162 | each of the three sections is in start order; the whole list is not re-sorted |
| CalendarFeed.FeedOrder | src/app/api/calendar/route.ts:97-164 | the answer is three consecutive sections, each in start order |
| CalendarFeed.CalendarGet | src/app/api/calendar/route.ts:31-171 | a refused caller gets the guard's reply; an identified caller gets 200 with the feed for the parsed `from`/`to` window and the valid project filter |
| CalendarFeed.InvalidProjectIdIgnored | src/app/api/calendar/route.ts:43-47 | an empty or malformed projectId gives the same answer as none |
| CalendarFeed.ClosedProjectEmpty | src/app/api/calendar/route.ts:51-56 | a valid projectId the caller cannot open gives 200 with no items |
| EventsRoute.EventsGet | src/app/api/events/route.ts:15-59 | a refused caller gets the guard's reply; an identified caller gets 200 with its own events for the parsed `from`/`to` window |
| EventsRoute.OwnedItemsOrdered | src/app/api/events/route.ts:40-50 | the listing is in start order |
| EventsRoute.OwnedEventListed | src/app/api/events/route.ts:27-50 | every owned event that overlaps the window is listed |
| EventsRoute.ListedEventOwned | src/app/api/events/route.ts:27-50 | every listed item comes from an owned event that overlaps the window |
| EventsRoute.SameAsDashboard | src/app/api/events/route.ts:27-50 | the listing equals the personal section of the dashboard calendar for the same window |
| EventsRoute.DateField | src/app/api/events/route.ts:78-79 | a field gives an instant exactly when it is a string that parses |
| EventsRoute.EndOrHourLater | src/app/api/events/route.ts:90-94 | a parsed end is kept; otherwise the end is one hour after the start |
| EventsRoute.NewEvent | src/app/api/events/route.ts:96-104 | the stored event is the caller's, with trimmed texts, `allDay` only when given as true, and the given colour string or blue |
| EventsRoute.CreatedItem | src/app/api/events/route.ts:106-119 | the reply echoes the stored event with its colour exactly as stored |
| EventsRoute.EventsPost | src/app/api/events/route.ts:61-126 | 400 "Title is required", then 400 "Invalid start"; it succeeds with 201 exactly when the title is non-empty and the start parses; a failure leaves the store unchanged |
| EventsRoute.PostAppendsOne | src/app/api/events/route.ts:96-104 | success appends exactly one event owned by the caller with a non-empty trimmed title, and the reply describes it |
| EventsRoute.PostResult | src/app/api/events/route.ts:65-104 | a signed-in caller with a non-blank title and a parseable start gets 201 and the store gains exactly that one event at the end |
| EventsRoute.EndBeforeStartAccepted | src/app/api/events/route.ts:86-104 | an end that parses to before the start is stored as given |
| EventsRoute.PostedEventListed | src/app/api/events/route.ts:96-104 | a posted event is listed by the caller's GET for any window it overlaps |
| ProjectsRoute.OpenProjects | src/app/api/projects/route.ts:15-17 | exactly the projects the caller owns or belongs to, each as often as stored, most recently updated first |
| ProjectsRoute.ProjectsGet | src/app/api/projects/route.ts:7-26 | a refused caller gets the guard's reply; otherwise 200 with the caller's projects |
| ProjectsRoute.ProjectsPost | src/app/api/projects/route.ts:28-58 | 400 "Name is required" exactly when the trimmed name is empty; otherwise 201, the caller is owner and only member, and the project is appended |
| ProjectsRoute.CreatedProjectListed | src/app/api/projects/route.ts:44-49 | a created project is in its creator's listing |
| ProjectsRoute.NormalizedCode | src/app/api/projects/join/route.ts:17-20 | the code is the trimmed, upper-cased string, or empty for a non-string |
| ProjectsRoute.AddMember | src/app/api/projects/join/route.ts:35-43 | afterwards the caller can open the project; nothing changes when they already could; otherwise they are appended |
| ProjectsRoute.AddMemberIdempotent | src/app/api/projects/join/route.ts:35-43 | adding twice is adding once, the owner is never added, and existing members keep their order |
| ProjectsRoute.ProjectsJoin | src/app/api/projects/join/route.ts:7-52 | 400 for an empty code, 404 for an unknown code; 200 exactly when an identified caller's non-empty code matches, with only the matched project updated |
| ProjectsRoute.JoinTwiceSameAsOnce | src/app/api/projects/join/route.ts:35-45 | the same join sent twice leaves the store and the reply as one join did |
| ProjectsRoute.JoinedProjectListed | src/app/api/projects/join/route.ts:40-45 | after a join the project is in the caller's listing |
| TasksDue.BoundOf | src/app/api/tasks/due/route.ts:16-22 | an absent or empty bound takes its default; any other is parsed and may be invalid |
| TasksDue.DueGet | src/app/api/tasks/due/route.ts:7-45 | the caller guard's refusal is passed on; past it the route fails exactly when a bound is an invalid date, and then with 500; otherwise 200 |
| TasksDue.DueContents | src/app/api/tasks/due/route.ts:24-38 | the answer is exactly the accessible projects' tasks due within the window, bounds included, in deadline order |
| TasksDue.DueGetWithin | src/app/api/tasks/due/route.ts:11-38 | once the caller is known and both bounds parse, the reply is 200 with the due tasks between exactly those bounds |
| TasksDue.DefaultWindow | src/app/api/tasks/due/route.ts:19-22 | without parameters the window is now to now + 604 800 000 ms |
| TasksDue.SameAsCalendarTasks | src/app/api/tasks/due/route.ts:30-36 | for the same bounds the due tasks are the task section of the dashboard calendar |
| NoteRules.StoredTitle | src/models/Note.ts:11-16 | a title is stored trimmed, and accepted exactly when it is non-empty and at most 200 UTF-16 code units long, as `maxlength` measures it |
| NoteRules.StoredTitleOfValid | src/models/Note.ts:11-16 | an already valid title (trimmed, non-empty, at most 200 code units) is stored unchanged |
| NoteRules.AstralTitleTooLong | src/models/Note.ts:15 | 101 characters outside the Basic Multilingual Plane exceed the limit, being 202 code units |
| NoteRules.IdArgOf | src/app/api/notes/get/route.ts:19 | `undefined` finds nothing, an ObjectId string is looked up, and anything else fails the cast |
| NoteRules.DecodeAuthorization | src/app/api/notes/create/route.ts:12-16 | a missing or empty header is "no header"; with no secret every other header is a verification error carrying the message `jwt.verify` throws for the stripped token |
| NotesRead.Summary | src/app/api/notes/list/route.ts:41-43 | a listed note keeps its id, project, title, content, author and time |
| NotesRead.ProjectNotes | src/app/api/notes/list/route.ts:39-43 | exactly that project's notes, each as often as stored, most recent first |
| NotesRead.NotesList | src/app/api/notes/list/route.ts:8-49 | the caller guard, then 400 for a missing or malformed projectId, then 403 for a project the caller cannot open; success exactly when all three pass |
| NotesRead.SummariesOfProject | src/app/api/notes/list/route.ts:39-43 | the summaries cover every note of the project, only those, most recent first |
| NotesRead.ListedNotes | src/app/api/notes/list/route.ts:39-45 | a successful listing is that project's notes and no other, most recent first |
| NotesRead.NotesGet | src/app/api/notes/get/route.ts:7-35 | the caller guard, then 500 for a malformed body (the parser's message) or a `null` one (the destructuring `TypeError`), then 400 "noteId required"; a returned note is stored, has the requested id, and belongs to a project the caller can open |
| NotesRead.GetGuards | src/app/api/notes/get/route.ts:19-31 | an uncastable id is 500, an unknown one 404, a note of a closed project 403, otherwise the stored note |
| NotesWrite.WriterGate | src/app/api/notes/create/route.ts:10-16 | a malformed or `null` body is a 500 before anything else, with the parser's message or the destructuring `TypeError`; then a missing header is 401, a verification error 500, and otherwise the decoded id goes on |
| NotesWrite.GateWithoutSecret | src/app/api/notes/create/route.ts:12-16 | with no secret configured, a request with a header always fails with 500 and the message `jwt.verify` throws |
| NotesWrite.ContentOf | src/models/Note.ts:18-21 | an absent content is stored as "", a string as given, and anything else cannot be stored |
| NotesWrite.LinkOf | src/app/api/notes/create/route.ts:29 | a falsy link is no link, an ObjectId string is that link, and anything else cannot be stored |
| NotesWrite.NewNote | src/app/api/notes/create/route.ts:25-31 | the note is valid, belongs to the project and the caller, and is stamped now; it exists exactly when every field can be stored |
| NotesWrite.NotesCreate | src/app/api/notes/create/route.ts:7-37 | the guards in their order; success requires membership of an existing project and appends a valid note; a failure leaves the store unchanged |
| NotesWrite.CreateGuards | src/app/api/notes/create/route.ts:18-33 | an unknown project is 404, a caller outside the member list 403, an unstorable body 500, otherwise 200 with the new note |
| NoteRules.IsMember | src/app/api/notes/create/route.ts:21 | the caller passes exactly when its decoded id is in `members`; ownership alone does not count (`OwnerNotMemberCannotCreate`) |
| NotesWrite.OwnerNotMemberCannotCreate | src/app/api/notes/create/route.ts:21-23 | an owner missing from the member list gets 403 |
| NotesWrite.GetFinds | src/app/api/notes/get/route.ts:19-31 | a member of the note's project who asks for it gets it |
| NotesWrite.CreateThenGet | src/app/api/notes/create/route.ts:25-33 | the author reads a newly created note back through `get` exactly as stored |
| NotesWrite.MergeTitle | src/app/api/notes/update/route.ts:26 | null or absent keeps the title; a string is stored under the schema's title rules; anything else cannot be stored |
| NotesWrite.MergeContent | src/app/api/notes/update/route.ts:27 | null or absent keeps the content; a string replaces it |
| NotesWrite.MergeLink | src/app/api/notes/update/route.ts:28 | null or absent keeps the link; an ObjectId string replaces it |
| NotesWrite.MergeNote | src/app/api/notes/update/route.ts:26-28 | the merge keeps id, project, author and time, and applies each field's rule |
| NotesWrite.Saved | src/app/api/notes/update/route.ts:30 | `save()` changes the time only when something changed |
| NotesWrite.NotesUpdate | src/app/api/notes/update/route.ts:7-36 | the guards in their order; success replaces only the found note with the merged and stamped one; a failure leaves the store unchanged |
| NotesWrite.UpdateUnknownNote | src/app/api/notes/update/route.ts:18-19 | an ObjectId `noteId` naming no stored note is 404 "Note not found" and the store is unchanged |
| NotesWrite.UpdateGuards | src/app/api/notes/update/route.ts:21-32 | a note whose project is gone is a 500, a caller outside the member list 403, an unstorable merge 500, and a member's storable merge 200 with the saved note, which replaces the stored one |
| NotesWrite.UpdateKeepsIdentity | src/app/api/notes/update/route.ts:26-30 | an update keeps the note's id, project and author, touches no other note, keeps a valid note valid, and cannot clear a link |
| NotesWrite.EmptyUpdateChangesNothing | src/app/api/notes/update/route.ts:26-30 | a body naming only the note changes nothing, the time included |
| NotesWrite.MergeTwice | src/app/api/notes/update/route.ts:26-30 | merging the same body into the saved note changes nothing more |
| NotesWrite.UpdateTwiceSameAsOnce | src/app/api/notes/update/route.ts:7-36 | the same update sent again later leaves the store and the reply as one update did |
| NotesWrite.UpdateThenGet | src/app/api/notes/update/route.ts:30-32 | after an update the caller reads the updated note back through `get` |
| Grouping.GroupBy | src/components/CalendarMonth.tsx:230-246 | the buckets are the grouping of the items by key, each bucket sorted |
| Grouping.Collect | src/components/CalendarMonth.tsx:232-238 | after the loop the keys are exactly the items' keys, and each bucket holds that key's items in input order |
| Grouping.SortEach | src/components/CalendarMonth.tsx:239-244 | every bucket is replaced by its sorted version |
| Grouping.GroupsPartition | src/components/CalendarMonth.tsx:232-238 | every item is in the bucket of its own key and in no other |
| Grouping.GroupsOrdered | src/components/CalendarMonth.tsx:239-244 | every bucket is non-empty and sorted |
| Grouping.LookupGroup | src/components/CalendarMonth.tsx:250 | looking a key up gives that key's items in order, or nothing when there are none |
| CalendarMonth.DayKey | src/components/CalendarMonth.tsx:27-32 | the key is the decimal year, then "-", two-digit month, "-", two-digit day |
| CalendarMonth.DayKeyInjective | src/components/CalendarMonth.tsx:27-32 | two dates have the same key exactly when they are the same date |
| CalendarMonth.YmdSameDay | src/components/CalendarMonth.tsx:27-32 | two instants have the same key exactly when they fall on the same local day |
| CalendarMonth.YmdOfDate | src/components/CalendarMonth.tsx:248-251 | an instant has the key of a date exactly when it falls on that date |
| CalendarMonth.LeadingBlanks | src/components/CalendarMonth.tsx:134 | between 0 and 6 blanks precede the 1st |
| CalendarMonth.TrailingBlanks | src/components/CalendarMonth.tsx:150-153 | fewer than 7 blanks are added, making whole weeks |
| CalendarMonth.BuildGrid | src/components/CalendarMonth.tsx:129-156 | the cells built for the cursor are the grid of its month |
| CalendarMonth.MonthGrid | src/components/CalendarMonth.tsx:139-153 | the three loops build the grid: blanks, the month's days in order, blanks |
| CalendarMonth.GridShape | src/components/CalendarMonth.tsx:129-156 | whole weeks of 28 to 42 cells, blanks exactly before the 1st and after the last day, day d at position lead + d - 1 |
| CalendarMonth.GridCellsInMonth | src/components/CalendarMonth.tsx:139-147 | every day cell is a date of the month, and every date of the month has a cell |
| CalendarMonth.WeekStartIsMonday | src/components/CalendarMonth.tsx:42-49 | the window opens on a Monday |
| CalendarMonth.WeekEndIsSunday | src/components/CalendarMonth.tsx:50-57 | the window closes on a Sunday |
| CalendarMonth.WindowStart | src/components/CalendarMonth.tsx:42-49 | the window opens at midnight of the Monday of the 1st's week |
| CalendarMonth.WindowEnd | src/components/CalendarMonth.tsx:50-57 | the window closes at the last millisecond of the Sunday of the last day's week |
| CalendarMonth.WindowMatchesGrid | src/components/CalendarMonth.tsx:123-127 | the fetch window covers exactly one day per grid cell, cell i being day i of the window, and starts less than a week before the 1st |
| CalendarMonth.WindowLength | src/components/CalendarMonth.tsx:123-156 | the window is as many days long as the grid has cells |
| CalendarMonth.GridDayNumbers | src/components/CalendarMonth.tsx:129-156 | the day in cell i is the window's first day plus i |
| CalendarMonth.FetchWindow | src/components/CalendarMonth.tsx:123-127 | the window starts no later than the 1st of the cursor's month and ends after it starts |
| CalendarMonth.BuildStartEnd | src/components/CalendarMonth.tsx:158-185 | nothing without a selected day; the whole day when all-day; otherwise the two clock times, the end moved to an hour after the start when not later; the end is always after the start |
| CalendarMonth.TimeHHMM | src/components/CalendarMonth.tsx:76-81 | five characters with a colon in the middle |
| CalendarMonth.ClockOffset | src/components/CalendarMonth.tsx:172-175 | hours from the first `:`-separated part and minutes from the second, each 0 when `Number` gives no number; its properties are `ClockOffsetOfTime`, `NonNumericClock` and `HourOnlyClock` |
| CalendarMonth.ClockOffsetOfTime | src/components/CalendarMonth.tsx:172-175 | reading back the "HH:MM" of an instant gives its time of day to the minute |
| CalendarMonth.NonNumericClock | src/components/CalendarMonth.tsx:172-174 | a clock whose hour and minute halves are letters reads as zero: each non-numeric half counts as 0 |
| CalendarMonth.HourOnlyClock | src/components/CalendarMonth.tsx:172-174 | for any clock string without a colon the minutes part is missing and counts as zero: the offset is the hours alone |
| CalendarMonth.BuiltSpanOnSelectedDay | src/components/CalendarMonth.tsx:158-185 | a start chosen from two-digit clock values lies on the selected day |
| CalendarMonth.EventsByDay | src/components/CalendarMonth.tsx:230-246 | each item is in the non-empty, start-ordered bucket of its own day key, and every bucket holds only items of that day |
| CalendarMonth.SelectedEvents | src/components/CalendarMonth.tsx:248-251 | nothing without a selected day; otherwise that day's bucket of `eventsByDay` or nothing, whose contents `SelectedEventsOfDay` states |
| CalendarMonth.SelectedEventsOfDay | src/components/CalendarMonth.tsx:248-251 | the selected day's list is exactly the items starting on that day, each as often as given, in start order |
| CalendarMonth.DotColor | src/components/CalendarMonth.tsx:83-93 | never empty; a non-empty item colour wins |
| CalendarMonth.DotColorWithoutColor | src/components/CalendarMonth.tsx:83-93 | without a colour an item is blue exactly when it is an event; a task is green exactly when done and orange exactly when in progress |
| CalendarMonth.ApiBase | src/components/CalendarMonth.tsx:253-258 | an item with a non-empty project id goes to that project's events, anything else to the personal events |
| CalendarMonth.ApiBaseKinds | src/components/CalendarMonth.tsx:253-258 | the path names the project route exactly when the item has a project id, and ends with the item id |
| CalendarMonth.ShiftMonth | src/components/CalendarMonth.tsx:353-357 | the 1st of the month `delta` months away, carrying into the year |
| CalendarMonth.PrevCursor | src/components/CalendarMonth.tsx:353-357 | "previous" lands on the 1st of the month before |
| CalendarMonth.NextCursor | src/components/CalendarMonth.tsx:371-376 | "next" lands on the 1st of the month after |
| CalendarMonth.NavigationSteps | src/components/CalendarMonth.tsx:353-376 | one month per step, wrapping the year at both ends; "next" undoes "previous" and vice versa |
| MonthFeed.PersonalItemInMonth | src/components/CalendarMonth.tsx:83-93 | a personal event shows its colour or blue, and is edited through the personal events route |
| MonthFeed.ProjectEventItemInMonth | src/components/CalendarMonth.tsx:253-258 | a project event is red, and is edited through its project while the project exists, falling back to the personal route once it is gone |
| MonthFeed.TaskItemInMonth | src/components/CalendarMonth.tsx:83-93 | a task's dot is green when done, orange in progress, red to do |

## Left out

- Database access, the connection step, and `Promise.all` are left out. The reads and writes are functions on the store, so database faults and the 500 they cause are not modelled.
- Time zones and daylight saving are left out: the local wall clock is taken as uniform. ISO-8601 parsing and formatting (`new Date(s)`, `toISOString`) are represented by `Env.parseDate` and by integer instants.
- `toDate` in the month view falls back to the current time for an unparseable start. Feed items carry integer instants, so that branch cannot arise.
- The error texts thrown by `jwt.verify` and by Mongoose are named constants, not the libraries' exact wording: `CastError`, `NoteInvalid`, `BadJson`.
- Mongoose casting is simplified. For note fields it is a JSON string or nothing, and other JSON values are treated as uncastable. An explicit `null` content is stored as "". `ObjectId.isValid` is modelled on strings only: a numeric `projectId` such as 5, which it also accepts, reads as invalid in `NotesRead.ValidProjectId`, so the model answers 400 where the route would pass the check and fail the later cast with 500.
- Http.Body: a JSON body that is neither an object nor `null` (a number, string, boolean or array) is written as an object without fields. The routes read only named properties such as `title` or `noteId`, which those values lack, so destructuring them gives `undefined` as for an empty object. The `TypeError` text of `NoteRules.NullBodyError` follows V8's wording.
- Ties between equal sort keys: the database leaves their order unspecified, while the model uses a stable insertion sort.
- The random join code and the database ids are parameters of the create routes.
- Populating `project` and `assignedTo` in the due-tasks route is left out. So are the `linkedTasks`, `linkedFiles` and `linkedNotes` arrays of a note, which no modelled route writes.
- `toUpperCase` is modelled on ASCII letters only, and `trim` on the ECMAScript white-space set.
- From the month view, only the grid, the window, the buckets, the start/end builder, the dot colour, the API path and navigation are modelled. Rendering, the fetch call, `prettyTime`'s locale formatting, the "Today" button (a clock read), and inline create/edit/delete (calls to routes outside this model) are left out.
- Proxy.ProxyGate: the `matcher` configuration that applies the proxy to `/api/*` is taken as given; the gate is modelled for any path.
- NotesRead.NotesList: `createdAt` is not modelled; records carry one time stamp (`updatedAt`), so the summary has no `createdAt` field.
- CalendarMonth.ShiftMonth: `new Date(y, m, d)` maps a year argument from 0 to 99 onto 1900 to 1999, and the component builds every cursor and grid cell that way; the model takes the year as given, so `ShiftMonth`, `PrevCursor`, `NextCursor` and the grid differ from the program for years 0 to 99 (stepping back from December 99 gives 1999-11-01 in the program and 99-11-01 in the model).
- Civil.CivilOf: JavaScript dates are limited to ±8.64e15 ms and are Invalid Date beyond; model instants are unbounded integers.
- Text.NumberOf: `Number` is modelled only for decimal integers with one optional sign and surrounding white space. Forms such as "1.5", "1e1", "0x1A", ".5" and "Infinity", which `Number` also reads, are taken as NaN, so the clock parts of the month view's time inputs are modelled as integers or 0.
- Http.JwtVerify: the message `jwt.verify` throws without a secret is left to the library (`Env.keyless`); the library checks the token's shape first (an empty token and one that is not three dot-separated parts get their own messages) and only then the missing key.
- Auth.RequireCaller: the id claim of a token is assumed to be an ObjectId, as the app's own login signs it. The routes put the caller id into database filters (`owner`, `members`), where a non-ObjectId id would raise a cast error (500); the model answers 200 for any non-empty id.
