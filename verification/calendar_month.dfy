/**
 The month view of src/components/CalendarMonth.tsx without its rendering:
 the `YYYY-MM-DD` day key, the Monday-first grid of the cursor's month, the
 window it fetches, the per-day buckets of fetched items, the start/end
 builder for a new event, the dot colour, the item's API path and month
 navigation. The cursor is an instant; its month is that of its local date.
 */
module CalendarMonth {
  import opened Wrappers
  import opened Civil
  import opened Text
  import opened Sorting
  import opened Grouping
  import opened Records
  import opened Items

  // ---------------------------------------------------------------------
  // Day keys

  /** `ymd`: the decimal year, then month and day padded to two digits,
      joined by hyphens. */
  function DayKey(d: Date): (k: string)
    requires ValidDate(d)
    ensures |k| == |IntString(d.year)| + 6
    ensures k[..|k| - 6] == IntString(d.year)
    ensures k[|k| - 6..] == "-" + Pad2(d.month) + "-" + Pad2(d.day)
  {
    IntString(d.year) + "-" + Pad2(d.month) + "-" + Pad2(d.day)
  }

  /** Distinct dates have distinct keys. */
  lemma DayKeyInjective(a: Date, b: Date)
    requires ValidDate(a) && ValidDate(b)
    ensures DayKey(a) == DayKey(b) <==> a == b
  {
    if DayKey(a) == DayKey(b) {
      var k := DayKey(a);
      IntStringInjective(a.year, b.year);
      var tail := k[|k| - 6..];
      assert tail[1..3] == Pad2(a.month) && tail[4..6] == Pad2(a.day);
      assert tail[1..3] == Pad2(b.month) && tail[4..6] == Pad2(b.day);
      Pad2Injective(a.month, b.month);
      Pad2Injective(a.day, b.day);
    }
  }

  /** `ymd(d)` of an instant: the key of its local date. */
  function Ymd(t: int): string {
    DayKey(CivilOf(t))
  }

  /** Two instants share a key exactly when they fall on the same local day. */
  lemma YmdSameDay(s: int, t: int)
    ensures Ymd(s) == Ymd(t) <==> DayOf(s) == DayOf(t)
  {
    DayKeyInjective(CivilOf(s), CivilOf(t));
  }

  /** The key of an instant is the key of a date exactly when the instant
      falls on that date. */
  lemma YmdOfDate(t: int, d: Date)
    requires ValidDate(d)
    ensures Ymd(t) == DayKey(d) <==> CivilOf(t) == d
  {
    DayKeyInjective(CivilOf(t), d);
  }

  // ---------------------------------------------------------------------
  // The month grid

  /** Blank cells before the 1st: the Monday-first weekday of the 1st. */
  function LeadingBlanks(y: int, m: int): (n: int)
    requires 1 <= m <= 12
    ensures 0 <= n < 7
  {
    MondayIndex(DayNumber(Date(y, m, 1)))
  }

  /** Blank cells after the last day, completing the last row. */
  function TrailingBlanks(filled: int): (n: int)
    requires filled >= 0
    ensures 0 <= n < 7 && (filled + n) % 7 == 0
  {
    var rem := filled % 7;
    if rem == 0 then 0 else 7 - rem
  }

  function Blanks(n: nat): (cells: seq<Option<Date>>)
    ensures |cells| == n && forall i :: 0 <= i < n ==> cells[i].None?
  {
    seq(n, i requires 0 <= i < n => None)
  }

  /** Day cells for days 1..n of a month. */
  function MonthDays(y: int, m: int, n: nat): (cells: seq<Option<Date>>)
    ensures |cells| == n && forall i :: 0 <= i < n ==> cells[i] == Some(Date(y, m, i + 1))
  {
    seq(n, i requires 0 <= i < n => Some(Date(y, m, i + 1)))
  }

  /** The grid as a single expression: leading blanks, the month's days in
      order, trailing blanks. */
  function Grid(y: int, m: int): seq<Option<Date>>
    requires 1 <= m <= 12
  {
    var lead := LeadingBlanks(y, m);
    var n := DaysInMonth(y, m);
    Blanks(lead) + MonthDays(y, m, n) + Blanks(TrailingBlanks(lead + n))
  }

  /** The `days` memo of the cursor's month. */
  method BuildGrid(cursor: int) returns (cells: seq<Option<Date>>)
    ensures cells == Grid(CivilOf(cursor).year, CivilOf(cursor).month)
  {
    var d := CivilOf(cursor);
    cells := MonthGrid(d.year, d.month);
  }

  /** The grid of a month, built with the three loops of the component. */
  method MonthGrid(y: int, m: int) returns (cells: seq<Option<Date>>)
    requires 1 <= m <= 12
    ensures cells == Grid(y, m)
  {
    var lead := MondayIndex(DayNumber(Date(y, m, 1)));
    var total := DaysInMonth(y, m);
    cells := [];
    var i := 0;
    while i < lead
      invariant 0 <= i <= lead
      invariant cells == Blanks(i)
    {
      cells := cells + [None];
      i := i + 1;
    }
    var day := 1;
    while day <= total
      invariant 1 <= day <= total + 1
      invariant cells == Blanks(lead) + MonthDays(y, m, day - 1)
    {
      assert MonthDays(y, m, day) == MonthDays(y, m, day - 1) + [Some(Date(y, m, day))];
      cells := cells + [Some(Date(y, m, day))];
      day := day + 1;
    }
    var remainder := |cells| % 7;
    assert |cells| == lead + total;
    ghost var body := Blanks(lead) + MonthDays(y, m, total);
    assert cells == body + Blanks(0);
    if remainder != 0 {
      var k := 0;
      while k < 7 - remainder
        invariant 0 <= k <= 7 - remainder
        invariant cells == body + Blanks(k)
      {
        assert Blanks(k + 1) == Blanks(k) + [None];
        cells := cells + [None];
        k := k + 1;
      }
    }
  }

  /** Shape of the grid: whole weeks, at least the month's days and at most
      six rows; blanks exactly before the 1st and after the last day, and day
      `d` at position `lead + d - 1`. */
  lemma GridShape(y: int, m: int)
    requires 1 <= m <= 12
    ensures var g := Grid(y, m);
            var lead := LeadingBlanks(y, m);
            var n := DaysInMonth(y, m);
            |g| % 7 == 0 && n <= |g| <= n + 12 && 28 <= |g| <= 42
            && (forall i :: 0 <= i < lead ==> g[i].None?)
            && (forall d :: 1 <= d <= n ==> g[lead + d - 1] == Some(Date(y, m, d)))
            && (forall i :: lead + n <= i < |g| ==> g[i].None?)
  {
    var lead := LeadingBlanks(y, m);
    var n := DaysInMonth(y, m);
    var g := Grid(y, m);
    assert |g| == lead + n + TrailingBlanks(lead + n);
    forall d | 1 <= d <= n
      ensures g[lead + d - 1] == Some(Date(y, m, d))
    {
      assert g[lead + d - 1] == MonthDays(y, m, n)[d - 1];
    }
  }

  /** Every day cell is a real date of the cursor's month, and every date of
      that month has a cell. */
  lemma GridCellsInMonth(y: int, m: int)
    requires 1 <= m <= 12
    ensures forall i :: 0 <= i < |Grid(y, m)| && Grid(y, m)[i].Some? ==>
              ValidDate(Grid(y, m)[i].value) && Grid(y, m)[i].value.year == y && Grid(y, m)[i].value.month == m
    ensures forall d :: ValidDate(d) && d.year == y && d.month == m ==> Some(d) in Grid(y, m)
  {
    var lead := LeadingBlanks(y, m);
    var n := DaysInMonth(y, m);
    var g := Grid(y, m);
    GridShape(y, m);
    forall i | 0 <= i < |g| && g[i].Some?
      ensures ValidDate(g[i].value) && g[i].value.year == y && g[i].value.month == m
    {
      assert lead <= i < lead + n;
      assert g[i] == g[lead + (i - lead + 1) - 1];
    }
    forall d | ValidDate(d) && d.year == y && d.month == m
      ensures Some(d) in g
    {
      assert g[lead + d.day - 1] == Some(d);
    }
  }

  // ---------------------------------------------------------------------
  // The fetch window

  /** Day number of the Monday on or before day `first`. */
  function WeekStartDay(first: int): int {
    first - MondayIndex(first)
  }

  /** Day number of the Sunday on or after day `last`. */
  function WeekEndDay(last: int): int {
    last + (6 - MondayIndex(last))
  }

  lemma WeekStartIsMonday(first: int)
    ensures MondayIndex(WeekStartDay(first)) == 0
  {
    var r := (first + 3) % 7;
    var q := (first + 3) / 7;
    assert first + 3 == 7 * q + r;
    assert WeekStartDay(first) + 3 == 7 * q;
  }

  lemma WeekEndIsSunday(last: int)
    ensures MondayIndex(WeekEndDay(last)) == 6
  {
    var r := (last + 3) % 7;
    var q := (last + 3) / 7;
    assert last + 3 == 7 * q + r;
    assert WeekEndDay(last) + 3 == 7 * q + 6;
  }

  /** From the Monday before the 1st to the Sunday after the last day there
      are as many days as the grid has cells. */
  lemma WeekAlign(first: int, n: int)
    requires n >= 1
    ensures WeekEndDay(first + n - 1) - WeekStartDay(first) + 1
            == MondayIndex(first) + n + TrailingBlanks(MondayIndex(first) + n)
  {
    var lead := MondayIndex(first);
    var q := (first + 3) / 7;
    assert first + 3 == 7 * q + lead;
    var last := first + n - 1;
    var q2 := (lead + n - 1) / 7;
    var r2 := (lead + n - 1) % 7;
    assert lead + n - 1 == 7 * q2 + r2;
    ModSeven(last + 3, q + q2, r2);
    if r2 == 6 {
      ModSeven(lead + n, q2 + 1, 0);
    } else {
      ModSeven(lead + n, q2, r2 + 1);
    }
  }

  /** Division by seven, from the quotient and remainder. */
  lemma ModSeven(x: int, q: int, r: int)
    requires x == 7 * q + r && 0 <= r < 7
    ensures x % 7 == r && x / 7 == q
  {
  }

  /** The last millisecond of a day still belongs to it. */
  lemma LastMillisecond(n: int)
    ensures DayOf(MidnightOfDay(n) + MsPerDay - 1) == n
    ensures (MidnightOfDay(n) + MsPerDay - 1) % MsPerDay == MsPerDay - 1
  {
    var t := MidnightOfDay(n) + MsPerDay - 1;
    assert t == n * MsPerDay + (MsPerDay - 1);
  }

  /** `startOfCalendarGrid`: local midnight of the Monday on or before the 1st. */
  function WindowStart(y: int, m: int): (t: int)
    requires 1 <= m <= 12
    ensures t % MsPerDay == 0
    ensures DayOf(t) == WeekStartDay(DayNumber(Date(y, m, 1)))
  {
    MidnightOfDay(WeekStartDay(DayNumber(Date(y, m, 1))))
  }

  /** `endOfCalendarGrid`: 23:59:59.999 of the Sunday on or after the last day. */
  function WindowEnd(y: int, m: int): (t: int)
    requires 1 <= m <= 12
    ensures t % MsPerDay == MsPerDay - 1
    ensures DayOf(t) == WeekEndDay(DayNumber(Date(y, m, DaysInMonth(y, m))))
  {
    var d := WeekEndDay(DayNumber(Date(y, m, DaysInMonth(y, m))));
    LastMillisecond(d);
    MidnightOfDay(d) + MsPerDay - 1
  }

  /** The window opens at midnight on a Monday no later than the 1st and less
      than a week before it, closes at the last millisecond of a Sunday no
      earlier than the last day and less than a week after it, and covers
      exactly one day per grid cell, cell `i` being day `i` of the window. */
  lemma WindowMatchesGrid(y: int, m: int)
    requires 1 <= m <= 12
    ensures var from := WindowStart(y, m);
            var to := WindowEnd(y, m);
            var first := DayNumber(Date(y, m, 1));
            var last := DayNumber(Date(y, m, DaysInMonth(y, m)));
            from % MsPerDay == 0 && MondayIndex(DayOf(from)) == 0
            && first - 6 <= DayOf(from) <= first
            && to % MsPerDay == MsPerDay - 1 && MondayIndex(DayOf(to)) == 6
            && last <= DayOf(to) <= last + 6
            && to + 1 - from == |Grid(y, m)| * MsPerDay
            && (forall i :: 0 <= i < |Grid(y, m)| && Grid(y, m)[i].Some? ==>
                  DayNumber(Grid(y, m)[i].value) == DayOf(from) + i)
  {
    var first := DayNumber(Date(y, m, 1));
    var n := DaysInMonth(y, m);
    var last := DayNumber(Date(y, m, n));
    DayNumberOfDay(y, m, n);
    WeekStartIsMonday(first);
    WeekEndIsSunday(last);
    WindowLength(y, m);
    GridDayNumbers(y, m);
  }

  lemma WindowLength(y: int, m: int)
    requires 1 <= m <= 12
    ensures WindowEnd(y, m) + 1 - WindowStart(y, m) == |Grid(y, m)| * MsPerDay
  {
    var first := DayNumber(Date(y, m, 1));
    var n := DaysInMonth(y, m);
    var last := DayNumber(Date(y, m, n));
    DayNumberOfDay(y, m, n);
    WeekAlign(first, n);
    var days := WeekEndDay(last) - WeekStartDay(first) + 1;
    assert |Grid(y, m)| == days;
    var from := WindowStart(y, m);
    var to := WindowEnd(y, m);
    assert from == WeekStartDay(first) * MsPerDay;
    assert to + 1 == (WeekEndDay(last) + 1) * MsPerDay;
  }

  /** Cell `i` of the grid holds day `i` counted from the Monday the window
      opens on. */
  lemma GridDayNumbers(y: int, m: int)
    requires 1 <= m <= 12
    ensures forall i :: 0 <= i < |Grid(y, m)| && Grid(y, m)[i].Some? ==>
              DayNumber(Grid(y, m)[i].value) == WeekStartDay(DayNumber(Date(y, m, 1))) + i
  {
    var g := Grid(y, m);
    GridShape(y, m);
    forall i | 0 <= i < |g| && g[i].Some?
      ensures DayNumber(g[i].value) == WeekStartDay(DayNumber(Date(y, m, 1))) + i
    {
      GridCellDay(y, m, g, i);
    }
  }

  lemma GridCellDay(y: int, m: int, g: seq<Option<Date>>, i: int)
    requires 1 <= m <= 12 && g == Grid(y, m) && 0 <= i < |g| && g[i].Some?
    requires forall k :: 0 <= k < LeadingBlanks(y, m) ==> g[k].None?
    requires forall d :: 1 <= d <= DaysInMonth(y, m) ==> g[LeadingBlanks(y, m) + d - 1] == Some(Date(y, m, d))
    requires forall k :: LeadingBlanks(y, m) + DaysInMonth(y, m) <= k < |g| ==> g[k].None?
    ensures DayNumber(g[i].value) == WeekStartDay(DayNumber(Date(y, m, 1))) + i
  {
    var lead := LeadingBlanks(y, m);
    var d := i - lead + 1;
    assert 1 <= d <= DaysInMonth(y, m);
    assert g[lead + d - 1] == Some(Date(y, m, d));
    DayNumberOfDay(y, m, d);
  }

  /** The window of the cursor's month, as the `range` memo holds it. */
  function FetchWindow(cursor: int): (w: (int, int))
    ensures w.0 <= Midnight(Date(CivilOf(cursor).year, CivilOf(cursor).month, 1))
    ensures w.0 < w.1
  {
    var d := CivilOf(cursor);
    WindowMatchesGrid(d.year, d.month);
    (WindowStart(d.year, d.month), WindowEnd(d.year, d.month))
  }

  // ---------------------------------------------------------------------
  // Start and end of a new event

  /** `Number(part) || 0` for part `i` of a split, 0 when it is missing or
      not a number. */
  function PartOrZero(parts: seq<string>, i: nat): int {
    if i < |parts| then NumberOf(parts[i]).GetOr(0) else 0
  }

  /** The offset from midnight that `setHours(h || 0, m || 0, 0, 0)` applies
      for an "HH:MM" string. */
  function ClockOffset(hhmm: string): int {
    OffsetOfParts(Split(hhmm, ':'))
  }

  /** Hours from the first part and minutes from the second. */
  function OffsetOfParts(parts: seq<string>): int {
    PartOrZero(parts, 0) * MsPerHour + PartOrZero(parts, 1) * MsPerMinute
  }

  datatype Span = Span(start: int, end: int)

  /** `buildStartEndForSelectedDay`: nothing without a selected day; the whole
      day for an all-day event; otherwise the two clock times on that day,
      with the end moved to one hour after the start when it is not later. */
  function BuildStartEnd(selected: Option<Date>, allDay: bool, startHHMM: string, endHHMM: string): (r: Option<Span>)
    requires selected.Some? ==> ValidDate(selected.value)
    ensures r.None? <==> selected.None?
    ensures r.Some? ==> r.value.start < r.value.end
    ensures r.Some? && allDay ==>
              r.value.start == Midnight(selected.value) && r.value.end == r.value.start + MsPerDay - 1
    ensures r.Some? && !allDay ==> r.value.start == Midnight(selected.value) + ClockOffset(startHHMM)
    ensures r.Some? && !allDay && Midnight(selected.value) + ClockOffset(endHHMM) > r.value.start ==>
              r.value.end == Midnight(selected.value) + ClockOffset(endHHMM)
    ensures r.Some? && !allDay && Midnight(selected.value) + ClockOffset(endHHMM) <= r.value.start ==>
              r.value.end == r.value.start + MsPerHour
  {
    match selected
    case None => None
    case Some(d) =>
      var midnight := Midnight(d);
      var start := if allDay then midnight else midnight + ClockOffset(startHHMM);
      var end := if allDay then midnight + MsPerDay - 1 else midnight + ClockOffset(endHHMM);
      Some(Span(start, if end <= start then start + MsPerHour else end))
  }

  /** `timeHHMM`: the local hours and minutes of an instant, each padded to two
      digits. */
  function TimeHHMM(t: int): (s: string)
    ensures |s| == 5 && s[2] == ':'
  {
    var ofDay := t % MsPerDay;
    Pad2(ofDay / MsPerHour) + ":" + Pad2((ofDay % MsPerHour) / MsPerMinute)
  }

  lemma TwoDigitsValue(n: nat)
    requires n < 100
    ensures NumberOf(Pad2(n)) == Some(n)
  {
    var p := Pad2(n);
    assert IsTrimmed(p);
    TrimOfTrimmed(p);
    assert p[..1] == [p[0]];
    assert DigitsValue(p) == DigitsValue(p[..1]) * 10 + DigitValue(p[1]);
    assert DigitsValue(p[..1]) == DigitValue(p[0]);
  }

  /** The clock offset of "a:b" is read from its two halves. */
  lemma ClockOfHalves(a: string, b: string)
    requires ':' !in a && ':' !in b
    ensures ClockOffset(a + ":" + b) == NumberOf(a).GetOr(0) * MsPerHour + NumberOf(b).GetOr(0) * MsPerMinute
  {
    assert a + ":" + b == a + [':'] + b;
    SplitTwo(a, b, ':');
    OffsetOfTwo(a, b);
  }

  lemma OffsetOfTwo(a: string, b: string)
    ensures OffsetOfParts([a, b]) == NumberOf(a).GetOr(0) * MsPerHour + NumberOf(b).GetOr(0) * MsPerMinute
  {
  }

  /** Two padded numbers joined by a colon read back as hours and minutes. */
  lemma ClockOfPads(a: nat, b: nat)
    requires a < 100 && b < 100
    ensures ClockOffset(Pad2(a) + ":" + Pad2(b)) == a * MsPerHour + b * MsPerMinute
  {
    assert ':' !in Pad2(a) && ':' !in Pad2(b);
    ClockOfHalves(Pad2(a), Pad2(b));
    TwoDigitsValue(a);
    TwoDigitsValue(b);
  }

  /** The hours and minutes of a time of day, and the milliseconds left. */
  lemma TimeOfDayParts(ofDay: int)
    requires 0 <= ofDay < MsPerDay
    ensures ofDay / MsPerHour < 24 && (ofDay % MsPerHour) / MsPerMinute < 60
    ensures var c := (ofDay / MsPerHour) * MsPerHour + ((ofDay % MsPerHour) / MsPerMinute) * MsPerMinute;
            c <= ofDay < c + MsPerMinute
  {
  }

  /** What `timeHHMM` writes, the builder reads back: the time of day to the
      minute. */
  lemma ClockOffsetOfTime(t: int)
    ensures ClockOffset(TimeHHMM(t)) <= t % MsPerDay < ClockOffset(TimeHHMM(t)) + MsPerMinute
  {
    var ofDay := t % MsPerDay;
    TimeOfDayParts(ofDay);
    var h := ofDay / MsPerHour;
    var mi := (ofDay % MsPerHour) / MsPerMinute;
    assert TimeHHMM(t) == Pad2(h) + ":" + Pad2(mi);
    ClockOfPads(h, mi);
  }

  /** A non-empty run of lower-case letters. */
  predicate Letters(s: string) {
    s != [] && forall i :: 0 <= i < |s| ==> 'a' <= s[i] <= 'z'
  }

  /** Letters are not a number. */
  lemma LettersNotNumber(s: string)
    requires Letters(s)
    ensures NumberOf(s) == None
  {
    assert IsTrimmed(s);
    TrimOfTrimmed(s);
    assert !IsDigit(s[0]);
  }

  /** Parts that are not numbers count as 0. */
  lemma NonNumericClock(a: string, b: string)
    requires Letters(a) && Letters(b)
    ensures ClockOffset(a + ":" + b) == 0
  {
    assert ':' !in a && ':' !in b;
    ClockOfHalves(a, b);
    LettersNotNumber(a);
    LettersNotNumber(b);
  }

  /** A missing minutes part counts as 0: a clock without a colon is read as
      hours only. */
  lemma HourOnlyClock(s: string)
    requires ':' !in s
    ensures ClockOffset(s) == NumberOf(s).GetOr(0) * MsPerHour
  {
    SplitNone(s, ':');
  }

  /** A time typed as "HH:MM" within a day keeps a timed event on the
      selected date, and an all-day event lies within it. */
  lemma BuiltSpanOnSelectedDay(d: Date, allDay: bool, h: nat, mi: nat, endHHMM: string)
    requires ValidDate(d) && h < 24 && mi < 60
    ensures var r := BuildStartEnd(Some(d), allDay, Pad2(h) + ":" + Pad2(mi), endHHMM);
            r.Some? && CivilOf(r.value.start) == d
            && (allDay ==> CivilOf(r.value.end) == d)
  {
    var r := BuildStartEnd(Some(d), allDay, Pad2(h) + ":" + Pad2(mi), endHHMM);
    ClockOfPads(h, mi);
    assert 0 <= r.value.start - Midnight(d) < MsPerDay;
    assert allDay ==> 0 <= r.value.end - Midnight(d) < MsPerDay;
    CivilOfBetween(r.value.start, d);
    CivilOfBetween(r.value.end, d);
  }

  // ---------------------------------------------------------------------
  // Items by day

  /** The day key of an item: `ymd(toDate(e.start))`. */
  function StartKey(e: CalendarItem): string {
    Ymd(e.start)
  }

  function ByStart(e: CalendarItem): int {
    e.start
  }

  /** The `eventsByDay` memo: every item is listed under the key of its start
      day and nowhere else, no list is empty, and each list is in start
      order (a stable sort, so items starting together keep feed order). */
  method EventsByDay(events: seq<CalendarItem>) returns (byDay: map<string, seq<CalendarItem>>)
    ensures byDay == Groups(events, StartKey, ByStart)
    ensures forall k :: k in byDay ==> byDay[k] != [] && SortedBy(byDay[k], ByStart)
    ensures forall e :: e in events ==> StartKey(e) in byDay && e in byDay[StartKey(e)]
    ensures forall k :: k in byDay ==> forall e :: e in byDay[k] ==> e in events && StartKey(e) == k
  {
    byDay := GroupBy(events, StartKey, ByStart);
    GroupsOrdered(events, StartKey, ByStart);
    ByDayCover(events, byDay);
    ByDayOnlyKey(events, byDay);
  }

  lemma ByDayCover(events: seq<CalendarItem>, byDay: map<string, seq<CalendarItem>>)
    requires byDay == Groups(events, StartKey, ByStart)
    ensures forall e :: e in events ==> StartKey(e) in byDay && e in byDay[StartKey(e)]
  {
    GroupsCover(events, StartKey, ByStart, byDay);
  }

  lemma ByDayOnlyKey(events: seq<CalendarItem>, byDay: map<string, seq<CalendarItem>>)
    requires byDay == Groups(events, StartKey, ByStart)
    ensures forall k :: k in byDay ==> forall e :: e in byDay[k] ==> e in events && StartKey(e) == k
  {
    forall k | k in byDay
      ensures forall e :: e in byDay[k] ==> e in events && StartKey(e) == k
    {
      OnlyKey(events, byDay[k], k);
    }
  }

  lemma OnlyKey(events: seq<CalendarItem>, g: seq<CalendarItem>, k: string)
    requires g == Group(events, StartKey, ByStart, k)
    ensures forall e :: e in g ==> e in events && StartKey(e) == k
  {
    GroupContents(events, StartKey, ByStart, k);
  }

  /** `selectedEvents`: the selected day's bucket, or nothing. */
  function SelectedEvents(selected: Option<Date>, byDay: map<string, seq<CalendarItem>>): seq<CalendarItem>
    requires selected.Some? ==> ValidDate(selected.value)
  {
    match selected
    case None => []
    case Some(d) => if DayKey(d) in byDay then byDay[DayKey(d)] else []
  }

  /** The selected day shows exactly the items whose start falls on that
      local date, each as often as in the feed, in start order. */
  lemma SelectedEventsOfDay(events: seq<CalendarItem>, d: Date)
    requires ValidDate(d)
    ensures var r := SelectedEvents(Some(d), Groups(events, StartKey, ByStart));
            SortedBy(r, ByStart)
            && (forall e :: e in r <==> e in events && CivilOf(e.start) == d)
            && (forall e :: multiset(r)[e] == if CivilOf(e.start) == d then multiset(events)[e] else 0)
  {
    var k := DayKey(d);
    SelectedIsGroup(events, d);
    GroupContents(events, StartKey, ByStart, k);
    KeyOfDay(d);
  }

  /** The selected day's list is the group of its key, empty or not. */
  lemma SelectedIsGroup(events: seq<CalendarItem>, d: Date)
    requires ValidDate(d)
    ensures SelectedEvents(Some(d), Groups(events, StartKey, ByStart)) == Group(events, StartKey, ByStart, DayKey(d))
  {
    var k := DayKey(d);
    LookupGroup(events, StartKey, ByStart, k);
    if k !in Groups(events, StartKey, ByStart) {
      assert SortBy(WithKey(events, StartKey, k), ByStart) == [];
    }
  }

  /** An item has the key of a date exactly when it starts on that date. */
  lemma KeyOfDay(d: Date)
    requires ValidDate(d)
    ensures forall e :: StartKey(e) == DayKey(d) <==> CivilOf(e.start) == d
  {
    forall e
      ensures StartKey(e) == DayKey(d) <==> CivilOf(e.start) == d
    {
      YmdOfDate(e.start, d);
    }
  }

  // ---------------------------------------------------------------------
  // Dot colour and API path

  const DoneGreen: string := "#22c55e"
  const DoingOrange: string := "#f59e0b"
  const TaskRed: string := "#ef4444"
  const EventBlue: string := "#3b82f6"

  /** `eventDotColor`: a non-empty colour of the item wins; otherwise a task
      is coloured by its status and an event is blue. */
  function DotColor(e: CalendarItem): (c: string)
    ensures c != ""
    ensures e.color.Some? && e.color.value != "" ==> c == e.color.value
  {
    if e.color.Some? && e.color.value != "" then e.color.value
    else if e.kind == TaskKind then
      (if e.status == Some(Done) then DoneGreen
       else if e.status == Some(Doing) then DoingOrange
       else TaskRed)
    else EventBlue
  }

  /** Without a colour, the dot tells a task's status apart, and an event
      from every task. */
  lemma DotColorWithoutColor(e: CalendarItem)
    requires e.color.None? || e.color == Some("")
    ensures e.kind == EventKind <==> DotColor(e) == EventBlue
    ensures e.kind == TaskKind ==> (DotColor(e) == DoneGreen <==> e.status == Some(Done))
    ensures e.kind == TaskKind ==> (DotColor(e) == DoingOrange <==> e.status == Some(Doing))
  {
  }

  const ProjectsPath: string := "/api/projects/"
  const EventsPath: string := "/api/events/"

  /** `eventApiBase`: an item with a non-empty project id is a project event,
      anything else a personal one. */
  function ApiBase(e: CalendarItem): (path: string)
    ensures e.project.Some? && e.project.value.id != "" ==>
              path == ProjectsPath + e.project.value.id + "/events/" + e.id
    ensures !(e.project.Some? && e.project.value.id != "") ==> path == EventsPath + e.id
  {
    if e.project.Some? && e.project.value.id != "" then ProjectsPath + e.project.value.id + "/events/" + e.id
    else EventsPath + e.id
  }

  /** The path tells which kind of item it addresses, and ends with the
      item's own id. */
  lemma ApiBaseKinds(e: CalendarItem)
    ensures StartsWith(ApiBase(e), ProjectsPath) <==> e.project.Some? && e.project.value.id != ""
    ensures StartsWith(ApiBase(e), EventsPath) <==> !(e.project.Some? && e.project.value.id != "")
    ensures var p := ApiBase(e); |e.id| <= |p| && p[|p| - |e.id|..] == e.id
  {
    var p := ApiBase(e);
    if e.project.Some? && e.project.value.id != "" {
      assert p[..|ProjectsPath|] == ProjectsPath;
      assert p[5] == 'p' && EventsPath[5] == 'e';
    } else {
      assert p[..|EventsPath|] == EventsPath;
      assert p[5] == 'e' && ProjectsPath[5] == 'p';
    }
  }

  // ---------------------------------------------------------------------
  // Month navigation

  /** Months counted from January of year 0. */
  function MonthIndex(d: Date): int {
    d.year * 12 + d.month - 1
  }

  /** `new Date(y, monthIndex + delta, 1)`: the Date constructor carries a
      month outside 0..11 into the year. */
  function ShiftMonth(d: Date, delta: int): (r: Date)
    ensures ValidDate(r) && r.day == 1
    ensures MonthIndex(r) == MonthIndex(d) + delta
  {
    var mo := d.month - 1 + delta;
    Date(d.year + mo / 12, mo % 12 + 1, 1)
  }

  /** The "previous" button: midnight of the 1st of the month before. */
  function PrevCursor(cursor: int): (c: int)
    ensures CivilOf(c) == ShiftMonth(CivilOf(cursor), -1)
  {
    Midnight(ShiftMonth(CivilOf(cursor), -1))
  }

  /** The "next" button: midnight of the 1st of the month after. */
  function NextCursor(cursor: int): (c: int)
    ensures CivilOf(c) == ShiftMonth(CivilOf(cursor), 1)
  {
    Midnight(ShiftMonth(CivilOf(cursor), 1))
  }

  /** Dates of a month are told apart by their month index alone. */
  lemma MonthIndexInjective(a: Date, b: Date)
    requires 1 <= a.month <= 12 && 1 <= b.month <= 12
    ensures MonthIndex(a) == MonthIndex(b) <==> a.year == b.year && a.month == b.month
  {
  }

  /** Navigation moves one month at a time, lands on the 1st, wraps the year
      at both ends, and "next" undoes "previous" and vice versa. */
  lemma NavigationSteps(cursor: int)
    ensures var d := CivilOf(cursor);
            var n := CivilOf(NextCursor(cursor));
            var p := CivilOf(PrevCursor(cursor));
            n.day == 1 && p.day == 1
            && (d.month == 12 ==> n.year == d.year + 1 && n.month == 1)
            && (d.month < 12 ==> n.year == d.year && n.month == d.month + 1)
            && (d.month == 1 ==> p.year == d.year - 1 && p.month == 12)
            && (d.month > 1 ==> p.year == d.year && p.month == d.month - 1)
            && NextCursor(PrevCursor(cursor)) == Midnight(Date(d.year, d.month, 1))
            && PrevCursor(NextCursor(cursor)) == Midnight(Date(d.year, d.month, 1))
  {
    var d := CivilOf(cursor);
    ShiftOneMonth(d);
    ShiftBack(d);
    assert NextCursor(PrevCursor(cursor)) == Midnight(ShiftMonth(ShiftMonth(d, -1), 1));
    assert PrevCursor(NextCursor(cursor)) == Midnight(ShiftMonth(ShiftMonth(d, 1), -1));
  }

  /** One month forward and one back, with the year carried. */
  lemma ShiftOneMonth(d: Date)
    requires 1 <= d.month <= 12
    ensures var n := ShiftMonth(d, 1);
            (d.month == 12 ==> n.year == d.year + 1 && n.month == 1)
            && (d.month < 12 ==> n.year == d.year && n.month == d.month + 1)
    ensures var p := ShiftMonth(d, -1);
            (d.month == 1 ==> p.year == d.year - 1 && p.month == 12)
            && (d.month > 1 ==> p.year == d.year && p.month == d.month - 1)
  {
  }

  /** Shifting back and forth lands on the 1st of the same month. */
  lemma ShiftBack(d: Date)
    requires 1 <= d.month <= 12
    ensures ShiftMonth(ShiftMonth(d, -1), 1) == Date(d.year, d.month, 1)
    ensures ShiftMonth(ShiftMonth(d, 1), -1) == Date(d.year, d.month, 1)
  {
    var first := Date(d.year, d.month, 1);
    MonthIndexInjective(ShiftMonth(ShiftMonth(d, -1), 1), first);
    MonthIndexInjective(ShiftMonth(ShiftMonth(d, 1), -1), first);
  }
}
