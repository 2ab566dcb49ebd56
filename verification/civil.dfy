/**
 Proleptic Gregorian civil dates, day numbers and millisecond instants.

 An instant is an integer count of milliseconds on the local wall clock,
 counted from local midnight of 1970-01-01; its local day is the floor of the
 instant divided by the length of a day. A civil date is converted to and
 from its day number (days since 1970-01-01) through eras of 400 years that
 start on 1 March, so that February, with its leap day, is the last month of
 each era year.
 */
module Civil {

  const MsPerMinute: int := 60_000
  const MsPerHour: int := 3_600_000
  const MsPerDay: int := 86_400_000
  /** Days in one 400-year Gregorian era. */
  const DaysPerEra: int := 146_097
  /** Day number of 0000-03-01, the first day of era 0, counted back from 1970-01-01. */
  const EpochShift: int := 719_468

  datatype Date = Date(year: int, month: int, day: int)

  predicate IsLeap(y: int) {
    y % 4 == 0 && (y % 100 != 0 || y % 400 == 0)
  }

  function DaysInMonth(y: int, m: int): (n: int)
    ensures 28 <= n <= 31
    ensures n == 29 <==> m == 2 && IsLeap(y)
  {
    if m == 2 then (if IsLeap(y) then 29 else 28)
    else if m == 4 || m == 6 || m == 9 || m == 11 then 30
    else 31
  }

  predicate ValidDate(d: Date) {
    1 <= d.month <= 12 && 1 <= d.day <= DaysInMonth(d.year, d.month)
  }

  /** Days from 1 March of era year 0 to 1 March of era year `yoe`, not counting
      the leap day that closes the era's last year. */
  function YearStart(yoe: int): int
    requires 0 <= yoe <= 399
  {
    365 * yoe + yoe / 4 - yoe / 100
  }

  /** Length in days of the era year `yoe`, which runs from 1 March to the last
      day of February of the following civil year. */
  function YearLength(yoe: int): (n: int)
    requires 0 <= yoe <= 399
    ensures n == 365 || n == 366
  {
    if yoe == 399 then 366 else YearStep(yoe); YearStart(yoe + 1) - YearStart(yoe)
  }

  /** Consecutive era years start 365 or 366 days apart. */
  lemma YearStep(yoe: int)
    requires 0 <= yoe < 399
    ensures 365 <= YearStart(yoe + 1) - YearStart(yoe) <= 366
  {
    var q, c := yoe / 4, yoe / 100;
    assert (yoe + 1) / 4 == q || (yoe + 1) / 4 == q + 1;
    assert (yoe + 1) / 100 == c || (yoe + 1) / 100 == c + 1;
    if (yoe + 1) / 100 == c + 1 {
      assert yoe + 1 == 100 * (c + 1);
      assert (yoe + 1) / 4 == q + 1;
    }
  }

  /** Days from 1 March to the first day of the `mp`-th month counted from March. */
  function MonthStart(mp: int): int
    requires 0 <= mp <= 11
  {
    (153 * mp + 2) / 5
  }

  /** Month number 1..12 of the `mp`-th month counted from March. */
  function MonthOfMp(mp: int): int
    requires 0 <= mp <= 11
  {
    if mp < 10 then mp + 3 else mp - 9
  }

  lemma YearStartGrowth(a: int, b: int)
    requires 0 <= a < b <= 399
    ensures YearStart(a) + 365 <= YearStart(b)
  {
    assert b / 4 >= a / 4;
    assert b / 100 - a / 100 <= (b - a) / 100 + 1;
  }

  /** Era years follow one another without overlap. */
  lemma YearStartMonotone(a: int, b: int)
    requires 0 <= a < b <= 399
    ensures YearStart(a) + YearLength(a) <= YearStart(b)
  {
    if a + 1 < b {
      YearStartGrowth(a + 1, b);
    }
  }

  lemma LeapPeriodic(y: int)
    ensures IsLeap(y + 400) == IsLeap(y)
  {
    assert (y + 400) % 4 == y % 4;
    assert (y + 400) % 100 == y % 100;
    assert (y + 400) % 400 == y % 400;
  }

  /** Leap years repeat with a period of one era. */
  lemma {:induction false} LeapEra(era: int, k: int)
    ensures IsLeap(era * 400 + k) == IsLeap(k)
    decreases if era < 0 then -era else era
  {
    if era > 0 {
      LeapEra(era - 1, k);
      LeapPeriodic((era - 1) * 400 + k);
    } else if era < 0 {
      LeapEra(era + 1, k);
      LeapPeriodic(era * 400 + k);
    }
  }

  lemma StepQuarter(x: int)
    requires 0 <= x
    ensures (x + 1) / 4 - x / 4 == (if (x + 1) % 4 == 0 then 1 else 0)
  {
  }

  lemma StepCentury(x: int)
    requires 0 <= x
    ensures (x + 1) / 100 - x / 100 == (if (x + 1) % 100 == 0 then 1 else 0)
  {
  }

  lemma YearLengthIsLeap(era: int, yoe: int)
    requires 0 <= yoe <= 399
    ensures YearLength(yoe) == 366 <==> IsLeap(era * 400 + yoe + 1)
  {
    LeapEra(era, yoe + 1);
    if yoe < 399 {
      StepQuarter(yoe);
      StepCentury(yoe);
      assert (yoe + 1) % 100 == 0 ==> (yoe + 1) % 4 == 0;
      assert (yoe + 1) % 400 != 0;
    }
  }

  /** The era year holding day `doe` of an era, searching down from `k`. */
  function YearOfEraFrom(doe: int, k: int): (yoe: int)
    requires 0 <= doe < DaysPerEra && 0 <= k <= 399
    requires k == 399 || doe < YearStart(k + 1)
    ensures 0 <= yoe <= k
    ensures YearStart(yoe) <= doe < YearStart(yoe) + YearLength(yoe)
    decreases k
  {
    if YearStart(k) <= doe then k else YearOfEraFrom(doe, k - 1)
  }

  /** The month (counted from March) holding day `doy` of era year `yoe`,
      searching down from `k`. */
  function MonthOfYearFrom(yoe: int, doy: int, k: int): (mp: int)
    requires 0 <= yoe <= 399 && 0 <= doy < YearLength(yoe) && 0 <= k <= 11
    requires k == 11 || doy < MonthStart(k + 1)
    ensures 0 <= mp <= k
    ensures MonthStart(mp) <= doy
    ensures mp < 11 ==> doy < MonthStart(mp + 1)
    decreases k
  {
    if MonthStart(k) <= doy then k else MonthOfYearFrom(yoe, doy, k - 1)
  }

  lemma MonthStartMonotone(a: int, b: int)
    requires 0 <= a < b <= 11
    ensures MonthStart(a) + 30 <= MonthStart(b)
  {
  }

  /** Month lengths from March on: each month other than February spans the
      days between its MonthStart and the next one. */
  lemma MonthSpan(y: int, mp: int)
    requires 0 <= mp <= 11
    ensures mp < 11 ==> MonthStart(mp + 1) - MonthStart(mp) == DaysInMonth(y, MonthOfMp(mp))
    ensures mp == 11 ==> MonthStart(mp) == 337 && MonthOfMp(mp) == 2
    ensures (MonthOfMp(mp) + 9) % 12 == mp
  {
    if mp == 0 { assert MonthStart(1) == 31; }
    else if mp == 1 { assert MonthStart(1) == 31 && MonthStart(2) == 61; }
    else if mp == 2 { assert MonthStart(2) == 61 && MonthStart(3) == 92; }
    else if mp == 3 { assert MonthStart(3) == 92 && MonthStart(4) == 122; }
    else if mp == 4 { assert MonthStart(4) == 122 && MonthStart(5) == 153; }
    else if mp == 5 { assert MonthStart(5) == 153 && MonthStart(6) == 184; }
    else if mp == 6 { assert MonthStart(6) == 184 && MonthStart(7) == 214; }
    else if mp == 7 { assert MonthStart(7) == 214 && MonthStart(8) == 245; }
    else if mp == 8 { assert MonthStart(8) == 245 && MonthStart(9) == 275; }
    else if mp == 9 { assert MonthStart(9) == 275 && MonthStart(10) == 306; }
    else if mp == 10 { assert MonthStart(10) == 306 && MonthStart(11) == 337; }
    else { assert MonthStart(11) == 337; }
  }

  /** A day offset into an era year, placed in the month the search finds,
      gives a day of month within that month's length. */
  lemma DayWithinMonth(era: int, yoe: int, doy: int, mp: int)
    requires 0 <= yoe <= 399 && 0 <= doy < YearLength(yoe) && 0 <= mp <= 11
    requires MonthStart(mp) <= doy && (mp < 11 ==> doy < MonthStart(mp + 1))
    ensures var month := MonthOfMp(mp);
            var year := era * 400 + yoe + (if month <= 2 then 1 else 0);
            doy - MonthStart(mp) + 1 <= DaysInMonth(year, month)
  {
    var month := MonthOfMp(mp);
    var year := era * 400 + yoe + (if month <= 2 then 1 else 0);
    MonthSpan(year, mp);
    if mp == 11 {
      YearLengthIsLeap(era, yoe);
    }
  }

  /** Days since 1970-01-01 of a civil date (negative before it). */
  function DayNumber(d: Date): int
    requires 1 <= d.month <= 12
  {
    var y := if d.month <= 2 then d.year - 1 else d.year;
    var era := y / 400;
    var yoe := y - era * 400;
    var mp := (d.month + 9) % 12;
    var doy := MonthStart(mp) + d.day - 1;
    era * 146_097 + YearStart(yoe) + doy - EpochShift
  }

  /** DayNumber of a date given by its era, era year, month from March and day. */
  lemma DayNumberOfParts(era: int, yoe: int, mp: int, day: int)
    requires 0 <= yoe <= 399 && 0 <= mp <= 11
    ensures var month := MonthOfMp(mp);
            var year := era * 400 + yoe + (if month <= 2 then 1 else 0);
            DayNumber(Date(year, month, day))
              == era * 146_097 + YearStart(yoe) + MonthStart(mp) + day - 1 - EpochShift
  {
    var month := MonthOfMp(mp);
    var year := era * 400 + yoe + (if month <= 2 then 1 else 0);
    MonthSpan(year, mp);
    var y := if month <= 2 then year - 1 else year;
    assert y == era * 400 + yoe;
    assert y / 400 == era;
  }

  /** The civil date on day `doy` of era year `yoe` of era `era`. */
  function DateInYear(era: int, yoe: int, doy: int): (d: Date)
    requires 0 <= yoe <= 399 && 0 <= doy < YearLength(yoe)
    ensures ValidDate(d)
  {
    var mp := MonthOfYearFrom(yoe, doy, 11);
    var month := MonthOfMp(mp);
    var year := era * 400 + yoe + (if month <= 2 then 1 else 0);
    DayWithinMonth(era, yoe, doy, mp);
    Date(year, month, doy - MonthStart(mp) + 1)
  }

  lemma DayNumberInYear(era: int, yoe: int, doy: int)
    requires 0 <= yoe <= 399 && 0 <= doy < YearLength(yoe)
    ensures DayNumber(DateInYear(era, yoe, doy)) == era * 146_097 + YearStart(yoe) + doy - EpochShift
  {
    var mp := MonthOfYearFrom(yoe, doy, 11);
    var month := MonthOfMp(mp);
    var d := Date(era * 400 + yoe + (if month <= 2 then 1 else 0), month, doy - MonthStart(mp) + 1);
    assert DateInYear(era, yoe, doy) == d;
    DayNumberOfParts(era, yoe, mp, d.day);
  }

  /** The civil date on day `doe` of era `era`. */
  function DateInEra(era: int, doe: int): (d: Date)
    requires 0 <= doe < DaysPerEra
    ensures ValidDate(d)
  {
    var yoe := YearOfEraFrom(doe, 399);
    DateInYear(era, yoe, doe - YearStart(yoe))
  }

  lemma DayNumberInEra(era: int, doe: int)
    requires 0 <= doe < DaysPerEra
    ensures DayNumber(DateInEra(era, doe)) == era * 146_097 + doe - EpochShift
  {
    var yoe := YearOfEraFrom(doe, 399);
    var doy := doe - YearStart(yoe);
    var d := DateInYear(era, yoe, doy);
    assert DateInEra(era, doe) == d;
    DayNumberAtYear(era, doe, yoe, doy, d);
  }

  /** DayNumberInEra once the era year holding the day is known. */
  lemma DayNumberAtYear(era: int, doe: int, yoe: int, doy: int, d: Date)
    requires 0 <= yoe <= 399 && 0 <= doy < YearLength(yoe) && doe == YearStart(yoe) + doy
    requires d == DateInYear(era, yoe, doy)
    ensures DayNumber(d) == era * 146_097 + doe - EpochShift
  {
    DayNumberInYear(era, yoe, doy);
  }

  /** The civil date of a day number; the inverse of DayNumber. */
  function DateOfDay(n: int): (d: Date)
    ensures ValidDate(d)
    ensures DayNumber(d) == n
  {
    var z := n + EpochShift;
    DayNumberInEra(z / 146_097, z % 146_097);
    DateInEra(z / 146_097, z % 146_097)
  }

  lemma DateOfDayInEra(n: int, era: int, doe: int)
    requires 0 <= doe < DaysPerEra && n == era * 146_097 + doe - EpochShift
    ensures DateOfDay(n) == DateInEra(era, doe)
  {
    var z := era * 146_097 + doe;
    assert z / 146_097 == era && z % 146_097 == doe;
    EraSplit(z);
  }

  lemma EraSplit(z: int)
    ensures DateOfDay(z - EpochShift) == DateInEra(z / 146_097, z % 146_097)
  {
  }

  /** Each day of an era lies in exactly one era year. */
  lemma YearOfEraUnique(doe: int, yoe: int)
    requires 0 <= yoe <= 399 && 0 <= doe < DaysPerEra
    requires YearStart(yoe) <= doe < YearStart(yoe) + YearLength(yoe)
    ensures YearOfEraFrom(doe, 399) == yoe
  {
    var r := YearOfEraFrom(doe, 399);
    if r < yoe {
      YearStartMonotone(r, yoe);
    } else if yoe < r {
      YearStartMonotone(yoe, r);
    }
  }

  /** Each day of an era year lies in exactly one month. */
  lemma MonthOfYearUnique(yoe: int, doy: int, mp: int)
    requires 0 <= yoe <= 399 && 0 <= doy < YearLength(yoe) && 0 <= mp <= 11
    requires MonthStart(mp) <= doy && (mp < 11 ==> doy < MonthStart(mp + 1))
    ensures MonthOfYearFrom(yoe, doy, 11) == mp
  {
    var q := MonthOfYearFrom(yoe, doy, 11);
    if q + 1 < mp {
      MonthStartMonotone(q + 1, mp);
    } else if mp + 1 < q {
      MonthStartMonotone(mp + 1, q);
    }
  }

  lemma DateInEraOfYear(era: int, doe: int, yoe: int, doy: int)
    requires 0 <= doe < DaysPerEra && 0 <= yoe <= 399
    requires YearOfEraFrom(doe, 399) == yoe && doe == YearStart(yoe) + doy
    ensures 0 <= doy < YearLength(yoe)
    ensures DateInEra(era, doe) == DateInYear(era, yoe, doy)
  {
  }

  lemma DateInYearOfMonth(era: int, yoe: int, doy: int, mp: int)
    requires 0 <= yoe <= 399 && 0 <= doy < YearLength(yoe) && 0 <= mp <= 11
    requires MonthOfYearFrom(yoe, doy, 11) == mp
    ensures DateInYear(era, yoe, doy)
              == Date(era * 400 + yoe + (if mp >= 10 then 1 else 0), MonthOfMp(mp), doy - MonthStart(mp) + 1)
  {
  }

  /** DateOfDay recovers the era, era year, month and day a day number was
      assembled from. */
  lemma DateOfParts(n: int, era: int, yoe: int, mp: int, day: int)
    requires 0 <= yoe <= 399 && 0 <= mp <= 11
    requires 0 <= MonthStart(mp) + day - 1 < YearLength(yoe)
    requires 1 <= day && (mp < 11 ==> MonthStart(mp) + day - 1 < MonthStart(mp + 1))
    requires n == era * 146_097 + YearStart(yoe) + MonthStart(mp) + day - 1 - EpochShift
    ensures DateOfDay(n) == Date(era * 400 + yoe + (if mp >= 10 then 1 else 0), MonthOfMp(mp), day)
  {
    var doy := MonthStart(mp) + day - 1;
    var doe := YearStart(yoe) + doy;
    if yoe < 399 {
      YearStartMonotone(yoe, 399);
    }
    DateOfDayInEra(n, era, doe);
    YearOfEraUnique(doe, yoe);
    DateInEraOfYear(era, doe, yoe, doy);
    MonthOfYearUnique(yoe, doy, mp);
    DateInYearOfMonth(era, yoe, doy, mp);
  }

  /** Day numbers and valid civil dates are in one-to-one correspondence. */
  lemma DateOfDayNumber(d: Date)
    requires ValidDate(d)
    ensures DateOfDay(DayNumber(d)) == d
  {
    var y := if d.month <= 2 then d.year - 1 else d.year;
    var era := y / 400;
    var yoe := y - era * 400;
    var mp := (d.month + 9) % 12;
    assert MonthOfMp(mp) == d.month;
    MonthSpan(d.year, mp);
    YearLengthIsLeap(era, yoe);
    assert d.year == era * 400 + yoe + (if d.month <= 2 then 1 else 0);
    DayNumberOfParts(era, yoe, mp, d.day);
    DateOfParts(DayNumber(d), era, yoe, mp, d.day);
  }

  /** DayNumber is injective on valid dates. */
  lemma DayNumberInjective(a: Date, b: Date)
    requires ValidDate(a) && ValidDate(b)
    ensures DayNumber(a) == DayNumber(b) <==> a == b
  {
    if DayNumber(a) == DayNumber(b) {
      DateOfDayNumber(a);
      DateOfDayNumber(b);
    }
  }

  /** Consecutive days of one month have consecutive day numbers. */
  lemma DayNumberOfDay(y: int, m: int, k: int)
    requires 1 <= m <= 12
    ensures DayNumber(Date(y, m, k)) == DayNumber(Date(y, m, 1)) + k - 1
  {
  }

  /** JavaScript `Date.prototype.getDay` on a day number: 0 is Sunday;
      1970-01-01 was a Thursday. */
  function JsWeekday(n: int): int {
    (n + 4) % 7
  }

  /** Position of a day in a Monday-first week, computed the way the calendar
      does it: `(getDay() + 6) % 7`. Monday is 0 and Sunday is 6. */
  function MondayIndex(n: int): (i: int)
    ensures 0 <= i < 7
    ensures JsWeekday(n) == (i + 1) % 7
    ensures i == (n + 3) % 7
  {
    (JsWeekday(n) + 6) % 7
  }

  /** Local day of an instant. */
  function DayOf(t: int): int {
    t / MsPerDay
  }

  /** `setHours(0, 0, 0, 0)`: local midnight of the day of `t`. */
  function StartOfDay(t: int): (s: int)
    ensures s <= t < s + MsPerDay
    ensures s % MsPerDay == 0
    ensures DayOf(s) == DayOf(t)
  {
    DayOf(t) * MsPerDay
  }

  /** `setHours(23, 59, 59, 999)`: last millisecond of the day of `t`. */
  function EndOfDay(t: int): (e: int)
    ensures e - StartOfDay(t) == MsPerDay - 1
    ensures DayOf(e) == DayOf(t)
  {
    DayOf(t) * MsPerDay + MsPerDay - 1
  }

  /** Later instants never fall on an earlier day. */
  lemma StartOfDayMonotone(s: int, t: int)
    requires s <= t
    ensures StartOfDay(s) <= StartOfDay(t)
  {
    if DayOf(s) > DayOf(t) {
      assert DayOf(s) * MsPerDay >= (DayOf(t) + 1) * MsPerDay;
    }
  }

  /** Local midnight opening a day number. */
  function MidnightOfDay(n: int): (t: int)
    ensures DayOf(t) == n && t % MsPerDay == 0
  {
    n * MsPerDay
  }

  /** Local midnight opening a civil date. */
  function Midnight(d: Date): (t: int)
    requires ValidDate(d)
    ensures CivilOf(t) == d
    ensures t % MsPerDay == 0
  {
    DateOfDayNumber(d);
    MidnightOfDay(DayNumber(d))
  }

  /** The local civil date of an instant (`getFullYear`, `getMonth() + 1`,
      `getDate()`). */
  function CivilOf(t: int): (d: Date)
    ensures ValidDate(d)
    ensures DayNumber(d) == DayOf(t)
  {
    DateOfDay(DayOf(t))
  }

  /** An instant lies on civil date `d` exactly when it falls between that
      date's local midnight and the last millisecond of the date. */
  lemma CivilOfBetween(t: int, d: Date)
    requires ValidDate(d)
    ensures CivilOf(t) == d <==> MidnightOfDay(DayNumber(d)) <= t < MidnightOfDay(DayNumber(d)) + MsPerDay
  {
    DayNumberInjective(CivilOf(t), d);
  }
}
