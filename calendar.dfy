/**
  A small proleptic Gregorian model of a local (zoned) date-time, standing in for the
  luxon and date-fns operations the schedule atoms use. Seconds and milliseconds are
  dropped: no field reads them and the minute mutator leaves them untouched.
 */
module Calendar {

  datatype DateTime = DateTime(year: int, month: int, day: int, hour: int, minute: int)

  /** UTC offset (in minutes) of a local date-time in some time zone. The tz database is not
      modelled: a zone is any such function. */
  type Zone = DateTime -> int

  predicate IsLeapYear(y: int)
  {
    (y % 4 == 0 && y % 100 != 0) || y % 400 == 0
  }

  function DaysInMonth(y: int, m: int): (n: int)
    requires 1 <= m <= 12
    ensures 28 <= n <= 31
    ensures m == 2 ==> (n == 29 <==> IsLeapYear(y)) && n <= 29
    ensures m == 12 ==> n == 31
  {
    if m == 2 then (if IsLeapYear(y) then 29 else 28)
    else if m == 4 || m == 6 || m == 9 || m == 11 then 30
    else 31
  }

  /** A date-time whose fields name an existing local time. */
  predicate WellFormed(d: DateTime)
  {
    && 1 <= d.month <= 12
    && 1 <= d.day <= DaysInMonth(d.year, d.month)
    && 0 <= d.hour <= 23
    && 0 <= d.minute <= 59
  }

  /** Strict chronological order of local date-times: lexicographic on the fields. */
  predicate Before(a: DateTime, b: DateTime)
  {
    || a.year < b.year
    || (a.year == b.year && a.month < b.month)
    || (a.year == b.year && a.month == b.month && a.day < b.day)
    || (a.year == b.year && a.month == b.month && a.day == b.day && a.hour < b.hour)
    || (a.year == b.year && a.month == b.month && a.day == b.day && a.hour == b.hour && a.minute < b.minute)
  }

  lemma BeforeIsTransitive(a: DateTime, b: DateTime, c: DateTime)
    requires Before(a, b) && Before(b, c)
    ensures Before(a, c)
  {
  }

  lemma BeforeIsTotal(a: DateTime, b: DateTime)
    ensures a == b || Before(a, b) || Before(b, a)
    ensures !(Before(a, b) && Before(b, a))
    ensures !Before(a, a)
  {
  }

  /** A zone whose UTC offset never decreases as local time moves forward: no "fall back"
      transition, so no local hour is ever repeated. */
  ghost predicate NoFallBack(zone: Zone)
  {
    forall a: DateTime, b: DateTime :: Before(a, b) ==> zone(a) <= zone(b)
  }

  // ---------------------------------------------------------------------------------
  // Day numbers and weekdays

  function DaysBeforeYear(y: int): int
  {
    var p := y - 1;
    365 * p + p / 4 - p / 100 + p / 400
  }

  function DaysBeforeMonth(y: int, m: int): int
    requires 1 <= m <= 12
  {
    if m == 1 then 0 else DaysBeforeMonth(y, m - 1) + DaysInMonth(y, m - 1)
  }

  /** Days elapsed since 0001-01-01, which was a Monday. */
  function DayNumber(d: DateTime): int
    requires 1 <= d.month <= 12
  {
    DaysBeforeYear(d.year) + DaysBeforeMonth(d.year, d.month) + d.day - 1
  }

  /** luxon's `weekday`: ISO numbering, 1 = Monday ... 7 = Sunday. */
  function IsoWeekday(d: DateTime): (w: int)
    requires 1 <= d.month <= 12
    ensures 1 <= w <= 7
  {
    DayNumber(d) % 7 + 1
  }

  /** Moving the day within the same month moves the ISO weekday by the same amount, mod 7. */
  lemma IsoWeekdayShift(d: DateTime, day: int)
    requires 1 <= d.month <= 12
    ensures DayNumber(d.(day := day)) == DayNumber(d) + day - d.day
    ensures IsoWeekday(d.(day := day)) - 1 == (IsoWeekday(d) - 1 + day - d.day) % 7
  {
  }

  /** date-fns `getDay`: 0 = Sunday ... 6 = Saturday. */
  function Weekday(d: DateTime): (w: int)
    requires 1 <= d.month <= 12
    ensures 0 <= w <= 6
  {
    (DayNumber(d) + 1) % 7
  }

  /** Within a month, moving the day by k moves the weekday by k, mod 7. */
  lemma WeekdayShift(d: DateTime, day: int)
    requires 1 <= d.month <= 12
    ensures Weekday(d.(day := day)) == (Weekday(d) + day - d.day) % 7
  {
    IsoWeekdayShift(d, day);
    ModSevenShift(DayNumber(d) + 1, day - d.day);
  }

  /** The weekday of any date, from the weekday of the first of its month; the time of day
      plays no part. */
  lemma WeekdayFromFirst(d: DateTime, w: int)
    requires 1 <= d.month <= 12 && Weekday(DateTime(d.year, d.month, 1, 0, 0)) == w
    ensures Weekday(d) == (w + d.day - 1) % 7
  {
    var first := DateTime(d.year, d.month, 1, 0, 0);
    WeekdayShift(first, d.day);
    assert DayNumber(d) == DayNumber(first.(day := d.day));
  }

  lemma ModSevenShift(a: int, k: int)
    ensures (a + k) % 7 == (a % 7 + k) % 7
  {
    var q := a / 7;
    assert a == 7 * q + a % 7;
    assert a + k == 7 * q + (a % 7 + k);
  }

  // ---------------------------------------------------------------------------------
  // The library operations the atoms use

  /** luxon `set({ minute })`. */
  function SetMinute(d: DateTime, v: int): DateTime
  {
    d.(minute := v)
  }

  /** luxon `set({ hour })`. */
  function SetHour(d: DateTime, v: int): DateTime
  {
    d.(hour := v)
  }

  /** luxon `startOf("hour")`. */
  function StartOfHour(d: DateTime): DateTime
  {
    d.(minute := 0)
  }

  /** luxon `startOf("day")`. */
  function StartOfDay(d: DateTime): DateTime
  {
    d.(hour := 0, minute := 0)
  }

  /** luxon `startOf("month")`. */
  function StartOfMonth(d: DateTime): DateTime
  {
    d.(day := 1, hour := 0, minute := 0)
  }

  /** luxon `plus({ years: 1 }).startOf("year")`. */
  function StartOfNextYear(d: DateTime): (r: DateTime)
    ensures WellFormed(r) && r.month == 1 && r.day == 1 && r.hour == 0 && r.minute == 0
    ensures Before(d, r) && r.year == d.year + 1
  {
    DateTime(d.year + 1, 1, 1, 0, 0)
  }

  /** luxon `set({ month })`: the day is kept, clamped to the length of the new month. */
  function SetMonth(d: DateTime, v: int): (r: DateTime)
    requires 1 <= v <= 12
    ensures r.year == d.year && r.month == v && r.hour == d.hour && r.minute == d.minute
    ensures d.day >= 1 ==> 1 <= r.day <= DaysInMonth(d.year, v)
    ensures r.day == d.day || r.day == DaysInMonth(d.year, v) < d.day
  {
    var dim := DaysInMonth(d.year, v);
    d.(month := v, day := if d.day <= dim then d.day else dim)
  }

  /** luxon `plus({ days: k })` / date-fns `addDays` for a step that crosses at most one month
      end (every month has at least 28 days). */
  function AddDays(d: DateTime, k: int): (r: DateTime)
    requires WellFormed(d) && 0 <= k && d.day + k <= DaysInMonth(d.year, d.month) + 28
    ensures WellFormed(r) && r.hour == d.hour && r.minute == d.minute
    ensures r.month == d.month <==> d.day + k <= DaysInMonth(d.year, d.month)
    ensures r.month == d.month ==> r.year == d.year && r.day == d.day + k
    ensures k > 0 ==> Before(d, r)
  {
    var dim := DaysInMonth(d.year, d.month);
    if d.day + k <= dim then d.(day := d.day + k)
    else if d.month == 12 then DateTime(d.year + 1, 1, d.day + k - dim, d.hour, d.minute)
    else d.(month := d.month + 1, day := d.day + k - dim)
  }

  /** date-fns `setDate`: a day past the end of the month rolls over into the next month. */
  function SetDate(d: DateTime, v: int): (r: DateTime)
    requires WellFormed(d) && 1 <= v <= 31
    ensures WellFormed(r) && r.hour == d.hour && r.minute == d.minute
    ensures v <= DaysInMonth(d.year, d.month) ==> r == d.(day := v)
    ensures v > DaysInMonth(d.year, d.month) ==>
              r.year == d.year && r.month == d.month + 1 && r.day == v - DaysInMonth(d.year, d.month)
  {
    AddDays(d.(day := 1), v - 1)
  }
}
