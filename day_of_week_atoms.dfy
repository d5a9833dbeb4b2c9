/**
  The day-of-week atoms: a single weekday, a range of weekdays, the last given weekday of
  the month (`nL`) and the n-th given weekday of the month (`n#k`). Cron numbers weekdays
  0 (Sunday) to 6 (Saturday); luxon numbers them 1 (Monday) to 7 (Sunday).
 */
module DayOfWeekAtoms {
  import opened Outcomes
  import opened Calendar
  import FieldAtoms

  const MinCronWeekday := 0
  const MaxCronWeekday := 6

  /** Maps luxon's Sunday (7) to cron's Sunday (0); Monday to Saturday agree. */
  function ConvertLuxonValueToCronValue(luxonValue: int): (cron: int)
    requires 1 <= luxonValue <= 7
    ensures 0 <= cron <= 6
    ensures (cron == 0) <==> (luxonValue == 7)
  {
    if luxonValue == 7 then 0 else luxonValue
  }

  /** The cron weekday the atoms read: luxon's weekday, converted. */
  function CronWeekday(d: DateTime): int
    requires 1 <= d.month <= 12
  {
    ConvertLuxonValueToCronValue(IsoWeekday(d))
  }

  /** Converting luxon's ISO weekday gives the date-fns (`getDay`) weekday of the same date:
      the two numberings agree through the conversion. */
  lemma CronWeekdayIsWeekday(d: DateTime)
    requires 1 <= d.month <= 12
    ensures CronWeekday(d) == Weekday(d)
  {
    ModSevenShift(DayNumber(d), 1);
  }

  /** Moving the day within the month moves the cron weekday by the same amount, mod 7. */
  lemma CronWeekdayShift(d: DateTime, day: int)
    requires 1 <= d.month <= 12
    ensures CronWeekday(d.(day := day)) == (CronWeekday(d) + day - d.day) % 7
  {
    CronWeekdayIsWeekday(d);
    CronWeekdayIsWeekday(d.(day := day));
    WeekdayShift(d, day);
  }

  // ---------------------------------------------------------------------------------
  // A single weekday

  /** Days forward from weekday c to the next weekday v: a full week when they are equal. */
  function ValueDaysAhead(c: int, v: int): (k: int)
    requires 0 <= c <= 6 && 0 <= v <= 6
    ensures 1 <= k <= 7 && (c + k) % 7 == v
  {
    if c < v then v - c else if c == v then 7 else 7 - c + v
  }

  /** No weekday v is passed on the way there. */
  lemma ValueDaysAheadIsFirst(c: int, v: int, j: int)
    requires 0 <= c <= 6 && 0 <= v <= 6 && 0 < j < ValueDaysAhead(c, v)
    ensures (c + j) % 7 != v
  {
  }

  /** `DayOfWeekValueAtom.getNextDateAfter`: the next day with that weekday, at midnight,
      unless it lies in the next month. */
  function WeekdayValueNext(v: int, d: DateTime): (r: Option<DateTime>)
    requires WellFormed(d) && MinCronWeekday <= v <= MaxCronWeekday
    ensures r.Some? ==> WellFormed(r.value)
  {
    var currentWeekday := CronWeekday(d);
    var nextDate := AddDays(d, ValueDaysAhead(currentWeekday, v));
    if nextDate.month == d.month then Some(StartOfDay(nextDate)) else None
  }

  /** `DayOfWeekValueAtom.isValid`. */
  predicate WeekdayValueIsValid(v: int, d: DateTime)
    requires 1 <= d.month <= 12
  {
    CronWeekday(d) == v
  }

  /** Next gives midnight of the first later day of the month that has weekday v, and nothing
      when the month has no such day left: no valid day is skipped. */
  lemma WeekdayValueNextSpec(v: int, d: DateTime)
    requires WellFormed(d) && MinCronWeekday <= v <= MaxCronWeekday
    ensures var r := WeekdayValueNext(v, d);
      var end := if r.Some? then r.value.day else DaysInMonth(d.year, d.month) + 1;
      && (r.Some? ==> && r.value.year == d.year && r.value.month == d.month
                      && d.day < r.value.day && r.value.hour == 0 && r.value.minute == 0
                      && WeekdayValueIsValid(v, r.value))
      && (forall x :: d.day < x < end ==> !WeekdayValueIsValid(v, d.(day := x)))
  {
    var c := CronWeekday(d);
    var k := ValueDaysAhead(c, v);
    var r := WeekdayValueNext(v, d);
    var end := if r.Some? then r.value.day else DaysInMonth(d.year, d.month) + 1;
    if r.Some? {
      CronWeekdayShift(d, d.day + k);
      assert r.value == d.(day := d.day + k).(hour := 0, minute := 0);
    }
    forall x | d.day < x < end
      ensures !WeekdayValueIsValid(v, d.(day := x))
    {
      CronWeekdayShift(d, x);
      ValueDaysAheadIsFirst(c, v, x - d.day);
    }
  }

  // ---------------------------------------------------------------------------------
  // A range of weekdays

  /** Days forward from weekday c to the next weekday in [min, max]. */
  function RangeDaysAhead(c: int, min: int, max: int): (k: int)
    requires 0 <= c <= 6 && 0 <= min <= max <= 6
    ensures 1 <= k <= 7 && min <= (c + k) % 7 <= max
  {
    if c < min then min - c else if c < max then 1 else 7 - c + min
  }

  /** No weekday of the range is passed on the way there. */
  lemma RangeDaysAheadIsFirst(c: int, min: int, max: int, j: int)
    requires 0 <= c <= 6 && 0 <= min <= max <= 6 && 0 < j < RangeDaysAhead(c, min, max)
    ensures !(min <= (c + j) % 7 <= max)
  {
  }

  /** `DayOfWeekRangeAtom.getNextDateAfter`. */
  function WeekdayRangeNext(min: int, max: int, d: DateTime): (r: Option<DateTime>)
    requires WellFormed(d) && MinCronWeekday <= min <= max <= MaxCronWeekday
    ensures r.Some? ==> WellFormed(r.value)
  {
    var currentWeekday := CronWeekday(d);
    var nextDate := AddDays(d, RangeDaysAhead(currentWeekday, min, max));
    if nextDate.month == d.month then Some(StartOfDay(nextDate)) else None
  }

  /** `DayOfWeekRangeAtom.isValid`. */
  predicate WeekdayRangeIsValid(min: int, max: int, d: DateTime)
    requires 1 <= d.month <= 12
  {
    min <= CronWeekday(d) <= max
  }

  /** Next gives midnight of the first later day of the month whose weekday is in the range,
      and nothing when the month has no such day left. */
  lemma WeekdayRangeNextSpec(min: int, max: int, d: DateTime)
    requires WellFormed(d) && MinCronWeekday <= min <= max <= MaxCronWeekday
    ensures var r := WeekdayRangeNext(min, max, d);
      var end := if r.Some? then r.value.day else DaysInMonth(d.year, d.month) + 1;
      && (r.Some? ==> && r.value.year == d.year && r.value.month == d.month
                      && d.day < r.value.day && r.value.hour == 0 && r.value.minute == 0
                      && WeekdayRangeIsValid(min, max, r.value))
      && (forall x :: d.day < x < end ==> !WeekdayRangeIsValid(min, max, d.(day := x)))
  {
    var c := CronWeekday(d);
    var k := RangeDaysAhead(c, min, max);
    var r := WeekdayRangeNext(min, max, d);
    var end := if r.Some? then r.value.day else DaysInMonth(d.year, d.month) + 1;
    if r.Some? {
      CronWeekdayShift(d, d.day + k);
      assert r.value == d.(day := d.day + k).(hour := 0, minute := 0);
    }
    forall x | d.day < x < end
      ensures !WeekdayRangeIsValid(min, max, d.(day := x))
    {
      CronWeekdayShift(d, x);
      RangeDaysAheadIsFirst(c, min, max, x - d.day);
    }
  }

  /** The range of all seven weekdays ("*" in the day-of-week field) moves on to midnight of
      the next day, while the month has one. */
  lemma FullWeekRangeNext(d: DateTime)
    requires WellFormed(d) && d.day < DaysInMonth(d.year, d.month)
    ensures WeekdayRangeNext(MinCronWeekday, MaxCronWeekday, d) == Some(d.(day := d.day + 1, hour := 0, minute := 0))
  {
    var c := CronWeekday(d);
    assert RangeDaysAhead(c, MinCronWeekday, MaxCronWeekday) == 1;
  }

  // ---------------------------------------------------------------------------------
  // The last given weekday of the month

  /** How far back from a last day of weekday lw the last weekday v lies. */
  function DaysBack(lw: int, v: int): (b: int)
    requires 0 <= lw <= 6 && 0 <= v <= 6
    ensures 0 <= b <= 6
  {
    if lw == v then 0 else if lw > v then lw - v else 7 - v + lw
  }

  /** Among the last seven days of a month, exactly the one `DaysBack` away has weekday v. */
  lemma DaysBackIsUnique(lw: int, v: int, j: int)
    requires 0 <= lw <= 6 && 0 <= v <= 6 && 0 <= j <= 6
    ensures (lw - j) % 7 == v <==> j == DaysBack(lw, v)
  {
  }

  /** The day `nL` names in the month of d. */
  function LastWeekdayDay(v: int, d: DateTime): int
    requires WellFormed(d) && MinCronWeekday <= v <= MaxCronWeekday
  {
    var lastDay := d.(day := DaysInMonth(d.year, d.month));
    DaysInMonth(d.year, d.month) - DaysBack(CronWeekday(lastDay), v)
  }

  /** `LastDayOfWeekAtom.getNextDateAfter`: going back from the last day of the month stays
      in the month (at most six days out of at least 28), so the candidate is the same date
      with its day replaced. */
  function LastWeekdayNext(v: int, d: DateTime): (r: Option<DateTime>)
    requires WellFormed(d) && MinCronWeekday <= v <= MaxCronWeekday
    ensures r.Some? ==> WellFormed(r.value)
  {
    var t := LastWeekdayDay(v, d);
    if d.day < t then Some(StartOfDay(d.(day := t))) else None
  }

  /** `LastDayOfWeekAtom.isValid`. */
  predicate LastWeekdayIsValid(v: int, d: DateTime)
    requires 1 <= d.month <= 12
  {
    CronWeekday(d) == v && DaysInMonth(d.year, d.month) - d.day < 7
  }

  /** A day of the month is valid for `nL` exactly when it is the day `LastWeekdayDay` names. */
  lemma LastWeekdayIsValidIff(v: int, e: DateTime)
    requires WellFormed(e) && MinCronWeekday <= v <= MaxCronWeekday
    ensures LastWeekdayIsValid(v, e) <==> e.day == LastWeekdayDay(v, e)
  {
    var dim := DaysInMonth(e.year, e.month);
    var lastDay := e.(day := dim);
    var lw := CronWeekday(lastDay);
    CronWeekdayShift(lastDay, e.day);
    assert lastDay.(day := e.day) == e;
    if dim - e.day < 7 {
      DaysBackIsUnique(lw, v, dim - e.day);
    }
  }

  /** Next moves to midnight of the month's last weekday v exactly when the current day is
      before it; the result is then valid. */
  lemma LastWeekdayNextSpec(v: int, d: DateTime)
    requires WellFormed(d) && MinCronWeekday <= v <= MaxCronWeekday
    ensures var t := LastWeekdayDay(v, d);
      var r := LastWeekdayNext(v, d);
      && DaysInMonth(d.year, d.month) - 7 < t <= DaysInMonth(d.year, d.month)
      && (r.Some? <==> d.day < t)
      && (r.Some? ==> r.value == DateTime(d.year, d.month, t, 0, 0) && LastWeekdayIsValid(v, r.value))
  {
    var t := LastWeekdayDay(v, d);
    if d.day < t {
      LastWeekdayIsValidIff(v, DateTime(d.year, d.month, t, 0, 0));
    }
  }

  // ---------------------------------------------------------------------------------
  // The n-th given weekday of the month

  /** Days from the first of the month, of weekday s, to the first weekday v of the month. */
  function FirstOffset(s: int, v: int): (k: int)
    requires 0 <= s <= 6 && 0 <= v <= 6
    ensures 0 <= k <= 6
  {
    if s <= v then v - s else 7 - s + v
  }

  /** The day `v#n` names in the month of d; it may lie past the month's end. */
  function NthWeekdayDay(v: int, n: int, d: DateTime): int
    requires WellFormed(d) && MinCronWeekday <= v <= MaxCronWeekday && 1 <= n <= 5
  {
    1 + FirstOffset(CronWeekday(StartOfMonth(d)), v) + (n - 1) * 7
  }

  /** `NthDayOfWeekAtom.getNextDateAfter`. */
  function NthWeekdayNext(v: int, n: int, d: DateTime): (r: Option<DateTime>)
    requires WellFormed(d) && MinCronWeekday <= v <= MaxCronWeekday && 1 <= n <= 5
    ensures r.Some? ==> WellFormed(r.value)
  {
    var startOfMonth := StartOfMonth(d);
    var weekdayOffset := FirstOffset(CronWeekday(startOfMonth), v);
    var nextDate := AddDays(startOfMonth, weekdayOffset + (n - 1) * 7);
    if d.month == nextDate.month && d.day < nextDate.day then Some(StartOfDay(nextDate)) else None
  }

  /** `NthDayOfWeekAtom.isValid`. */
  predicate NthWeekdayIsValid(v: int, n: int, d: DateTime)
    requires 1 <= d.month <= 12
  {
    CronWeekday(d) == v && FieldAtoms.CeilDiv(d.day, 7) == n
  }

  /** The week of the month a day falls in, `Math.ceil(day / 7)`, counted from the day's
      distance to the first. */
  lemma WeekOfMonth(day: int)
    requires 1 <= day
    ensures FieldAtoms.CeilDiv(day, 7) == (day - 1) / 7 + 1
  {
    var w, r := (day - 1) / 7, (day - 1) % 7;
    assert day == 7 * w + r + 1 && 0 <= r <= 6;
    if r == 6 {
      assert day == 7 * (w + 1);
    } else {
      assert day / 7 == w && day % 7 == r + 1;
    }
  }

  /** Whole weeks do not change a weekday. */
  lemma WholeWeeks(x: int, w: int)
    ensures (x + 7 * w) % 7 == x % 7
  {
    var q := x / 7;
    assert x == 7 * q + x % 7;
    assert x + 7 * w == 7 * (q + w) + x % 7;
  }

  /** In a month starting on weekday s, day `day` has weekday v and lies in week n exactly
      when it is the day `FirstOffset` and n - 1 whole weeks past the first. */
  lemma NthArithmetic(s: int, v: int, n: int, day: int)
    requires 0 <= s <= 6 && 0 <= v <= 6 && 1 <= n <= 5 && 1 <= day
    ensures ((s + day - 1) % 7 == v && FieldAtoms.CeilDiv(day, 7) == n)
            <==> day == 1 + FirstOffset(s, v) + (n - 1) * 7
  {
    var w, r := (day - 1) / 7, (day - 1) % 7;
    assert day - 1 == 7 * w + r && 0 <= r <= 6;
    WeekOfMonth(day);
    WholeWeeks(s + r, w);
    assert (s + day - 1) % 7 == (s + r) % 7;
    var o := FirstOffset(s, v);
    assert (s + r) % 7 == v <==> r == o;
    if day == 1 + o + (n - 1) * 7 {
      // both r and o lie in 0..6, so the whole weeks must agree as well
      assert 7 * (w - n + 1) == o - r;
      assert w == n - 1;
    }
  }

  /** A day of the month is valid for `v#n` exactly when it is the day `NthWeekdayDay` names. */
  lemma NthWeekdayIsValidIff(v: int, n: int, e: DateTime)
    requires WellFormed(e) && MinCronWeekday <= v <= MaxCronWeekday && 1 <= n <= 5
    ensures NthWeekdayIsValid(v, n, e) <==> e.day == NthWeekdayDay(v, n, e)
  {
    var first := StartOfMonth(e);
    CronWeekdayShift(first, e.day);
    CronWeekdayIsWeekday(first.(day := e.day));
    CronWeekdayIsWeekday(e);
    NthArithmetic(CronWeekday(first), v, n, e.day);
  }

  /** Next moves to midnight of the month's n-th weekday v exactly when that day exists in
      the month and the current day is before it; the result is then valid. */
  lemma NthWeekdayNextSpec(v: int, n: int, d: DateTime)
    requires WellFormed(d) && MinCronWeekday <= v <= MaxCronWeekday && 1 <= n <= 5
    ensures var t := NthWeekdayDay(v, n, d);
      var r := NthWeekdayNext(v, n, d);
      && (r.Some? <==> t <= DaysInMonth(d.year, d.month) && d.day < t)
      && (r.Some? ==> r.value == DateTime(d.year, d.month, t, 0, 0) && NthWeekdayIsValid(v, n, r.value))
  {
    var t := NthWeekdayDay(v, n, d);
    var r := NthWeekdayNext(v, n, d);
    if r.Some? {
      var e := DateTime(d.year, d.month, t, 0, 0);
      NthWeekdayIsValidIff(v, n, e);
      assert StartOfMonth(e) == StartOfMonth(d);
    }
  }

  // ---------------------------------------------------------------------------------
  // Worked examples, at any time of day, in August 2020

  /** August 2020 began on a Saturday. */
  lemma AugustTwentyTwentyWeekday(d: DateTime)
    requires d.year == 2020 && d.month == 8
    ensures CronWeekday(d) == (d.day + 5) % 7
  {
    var first := DateTime(2020, 8, 1, 0, 0);
    assert CronWeekday(first) == 6;
    CronWeekdayShift(first, d.day);
    assert CronWeekday(d) == CronWeekday(first.(day := d.day));
  }

  /** Weekday 3 (Wednesday): Monday the 3rd gives the 5th, and the 5th gives the 12th. */
  lemma WednesdayValueExamples(h: int, m: int)
    requires 0 <= h <= 23 && 0 <= m <= 59
    ensures WeekdayValueNext(3, DateTime(2020, 8, 3, h, m)) == Some(DateTime(2020, 8, 5, 0, 0))
    ensures WeekdayValueNext(3, DateTime(2020, 8, 5, h, m)) == Some(DateTime(2020, 8, 12, 0, 0))
  {
    AugustTwentyTwentyWeekday(DateTime(2020, 8, 3, h, m));
    AugustTwentyTwentyWeekday(DateTime(2020, 8, 5, h, m));
  }

  /** Weekday 3 (Wednesday): Friday the 7th gives the 12th, and from Thursday the 27th the
      next Wednesday is in September. */
  lemma LateWednesdayValueExamples(h: int, m: int)
    requires 0 <= h <= 23 && 0 <= m <= 59
    ensures WeekdayValueNext(3, DateTime(2020, 8, 7, h, m)) == Some(DateTime(2020, 8, 12, 0, 0))
    ensures WeekdayValueNext(3, DateTime(2020, 8, 27, h, m)) == None
  {
    AugustTwentyTwentyWeekday(DateTime(2020, 8, 7, h, m));
    AugustTwentyTwentyWeekday(DateTime(2020, 8, 27, h, m));
  }

  /** Weekday 0 (Sunday): Monday the 3rd gives the 9th, and on Sunday the 9th the next one
      is a week later, the 16th. */
  lemma SundayValueExamples(h: int, m: int)
    requires 0 <= h <= 23 && 0 <= m <= 59
    ensures WeekdayValueNext(0, DateTime(2020, 8, 3, h, m)) == Some(DateTime(2020, 8, 9, 0, 0))
    ensures WeekdayValueNext(0, DateTime(2020, 8, 9, h, m)) == Some(DateTime(2020, 8, 16, 0, 0))
  {
    AugustTwentyTwentyWeekday(DateTime(2020, 8, 3, h, m));
    AugustTwentyTwentyWeekday(DateTime(2020, 8, 9, h, m));
  }

  /** Weekdays 1-4 (Monday to Thursday): Thursday the 6th and Sunday the 9th give Monday the
      10th, Tuesday the 11th gives the 12th, and Monday the 31st has no later one in August. */
  lemma WeekdayRangeExamples(h: int, m: int)
    requires 0 <= h <= 23 && 0 <= m <= 59
    ensures WeekdayRangeNext(1, 4, DateTime(2020, 8, 6, h, m)) == Some(DateTime(2020, 8, 10, 0, 0))
    ensures WeekdayRangeNext(1, 4, DateTime(2020, 8, 9, h, m)) == Some(DateTime(2020, 8, 10, 0, 0))
    ensures WeekdayRangeNext(1, 4, DateTime(2020, 8, 11, h, m)) == Some(DateTime(2020, 8, 12, 0, 0))
    ensures WeekdayRangeNext(1, 4, DateTime(2020, 8, 31, h, m)) == None
  {
    AugustTwentyTwentyWeekday(DateTime(2020, 8, 6, h, m));
    AugustTwentyTwentyWeekday(DateTime(2020, 8, 9, h, m));
    AugustTwentyTwentyWeekday(DateTime(2020, 8, 11, h, m));
    AugustTwentyTwentyWeekday(DateTime(2020, 8, 31, h, m));
  }

  /** From 15 August: the last Monday is the 31st, the last Sunday the 30th, the last
      Thursday the 27th; from the 27th or the 29th the last Thursday has been reached. */
  lemma LastWeekdayExamples(h: int, m: int)
    requires 0 <= h <= 23 && 0 <= m <= 59
    ensures LastWeekdayNext(1, DateTime(2020, 8, 15, h, m)) == Some(DateTime(2020, 8, 31, 0, 0))
    ensures LastWeekdayNext(0, DateTime(2020, 8, 15, h, m)) == Some(DateTime(2020, 8, 30, 0, 0))
    ensures LastWeekdayNext(4, DateTime(2020, 8, 15, h, m)) == Some(DateTime(2020, 8, 27, 0, 0))
    ensures LastWeekdayNext(4, DateTime(2020, 8, 27, h, m)) == None
    ensures LastWeekdayNext(4, DateTime(2020, 8, 29, h, m)) == None
  {
    AugustTwentyTwentyWeekday(DateTime(2020, 8, 31, h, m));
  }

  /** From 4 August: the fourth Friday is the 28th, the second Sunday the 9th, the third
      Tuesday the 18th and the fifth Monday the 31st; the third Tuesday has passed on the 20th,
      and August 2020 has no fifth Tuesday. */
  lemma NthWeekdayExamples(h: int, m: int)
    requires 0 <= h <= 23 && 0 <= m <= 59
    ensures NthWeekdayNext(5, 4, DateTime(2020, 8, 4, h, m)) == Some(DateTime(2020, 8, 28, 0, 0))
    ensures NthWeekdayNext(0, 2, DateTime(2020, 8, 4, h, m)) == Some(DateTime(2020, 8, 9, 0, 0))
    ensures NthWeekdayNext(2, 3, DateTime(2020, 8, 4, h, m)) == Some(DateTime(2020, 8, 18, 0, 0))
    ensures NthWeekdayNext(1, 5, DateTime(2020, 8, 4, h, m)) == Some(DateTime(2020, 8, 31, 0, 0))
    ensures NthWeekdayNext(2, 3, DateTime(2020, 8, 20, h, m)) == None
    ensures NthWeekdayNext(2, 5, DateTime(2020, 8, 1, h, m)) == None
  {
    AugustTwentyTwentyWeekday(DateTime(2020, 8, 1, 0, 0));
  }
}
