/**
  The atoms special to the day of the month: nearest weekday (`nW`, `LW`) and last day of
  the month with an offset (`L`, `L-k`). The generic Value and Range atoms for this field
  live in FieldAtoms.
 */
module DayOfMonthAtoms {
  import opened Outcomes
  import opened Calendar

  /** `getWeekdayValueForMonth`: the weekday (Monday to Friday) of the month nearest to day v,
      where v is first clamped to the month's length. */
  function NearestWeekdayDay(d: DateTime, v: int): (t: int)
    requires WellFormed(d) && 1 <= v <= 31
    ensures 1 <= t <= DaysInMonth(d.year, d.month)
  {
    var dim := DaysInMonth(d.year, d.month);
    var closest := if dim < v then dim else v;
    var dayOfWeek := Weekday(d.(day := closest));
    if dayOfWeek == 0 then
      // Sunday: the following Monday, unless it is already in the next month
      if closest + 1 <= dim then closest + 1 else closest - 2
    else if dayOfWeek == 6 then
      // Saturday: the preceding Friday, unless it is still in the previous month
      if closest - 1 >= 1 then closest - 1 else closest + 2
    else closest
  }

  /** The nearest weekday lies in the month, falls on Monday to Friday, is the clamped day
      itself when that is a weekday, and is never more than two days from it. */
  lemma NearestWeekdayIsWeekday(d: DateTime, v: int)
    requires WellFormed(d) && 1 <= v <= 31
    ensures var dim := DaysInMonth(d.year, d.month);
      var closest := if dim < v then dim else v;
      var t := NearestWeekdayDay(d, v);
      && 1 <= t <= dim
      && 1 <= Weekday(d.(day := t)) <= 5
      && (1 <= Weekday(d.(day := closest)) <= 5 ==> t == closest)
      && closest - 2 <= t <= closest + 2
  {
    var dim := DaysInMonth(d.year, d.month);
    var closest := if dim < v then dim else v;
    var t := NearestWeekdayDay(d, v);
    WeekdayShift(d.(day := closest), t);
    assert d.(day := closest).(day := t) == d.(day := t);
  }

  /** `DayOfMonthWeekdayAtom.getNextDateAfter`. */
  function NearestWeekdayNext(v: int, d: DateTime): (r: Option<DateTime>)
    requires WellFormed(d) && 1 <= v <= 31
    ensures r.Some? ==> WellFormed(r.value)
  {
    var t := NearestWeekdayDay(d, v);
    if d.day < t then Some(SetDate(d, t)) else None
  }

  /** `DayOfMonthWeekdayAtom.isValid`. */
  predicate NearestWeekdayIsValid(v: int, d: DateTime)
    requires WellFormed(d) && 1 <= v <= 31
  {
    d.day == NearestWeekdayDay(d, v)
  }

  /** Next moves to the nearest weekday, keeping the time of day, exactly when the current day
      is before it; the result is then valid. */
  lemma NearestWeekdayNextSpec(v: int, d: DateTime)
    requires WellFormed(d) && 1 <= v <= 31
    ensures var t := NearestWeekdayDay(d, v);
      var r := NearestWeekdayNext(v, d);
      && (r.Some? <==> d.day < t)
      && (r.Some? ==> r.value == d.(day := t) && NearestWeekdayIsValid(v, r.value))
  {
    var t := NearestWeekdayDay(d, v);
    if d.day < t {
      assert NearestWeekdayDay(d.(day := t), v) == t;
    }
  }

  /** The day `L-k` names: the month's length minus the offset. */
  function LastOfMonthDay(d: DateTime, offset: int): int
    requires 1 <= d.month <= 12
  {
    DaysInMonth(d.year, d.month) - offset
  }

  /** Last-day-of-month atom, `getNextDateAfter`. */
  function LastOfMonthNext(offset: int, d: DateTime): (r: Option<DateTime>)
    requires WellFormed(d) && 0 <= offset
    ensures r.Some? ==> WellFormed(r.value)
  {
    var t := LastOfMonthDay(d, offset);
    if d.day < t then Some(SetDate(d, t)) else None
  }

  /** Last-day-of-month atom, `isValid`. */
  predicate LastOfMonthIsValid(offset: int, d: DateTime)
    requires 1 <= d.month <= 12
  {
    d.day == LastOfMonthDay(d, offset)
  }

  /** Next moves to day (days in month - offset), keeping the time of day, exactly when the
      current day is before it; the result is then valid. */
  lemma LastOfMonthNextSpec(offset: int, d: DateTime)
    requires WellFormed(d) && 0 <= offset
    ensures var t := DaysInMonth(d.year, d.month) - offset;
      var r := LastOfMonthNext(offset, d);
      && (r.Some? <==> d.day < t)
      && (r.Some? ==> r.value == d.(day := t) && LastOfMonthIsValid(offset, r.value))
  {
  }

  // ---------------------------------------------------------------------------------
  // The day-of-month Value atom as the source writes it

  /** `DayOfMonthValueAtom.getNextDateAfter` as written: the class does not override
      `getMaxDateValue`, so the capacity is Infinity and `setDate` may roll over. */
  function DayValueNextUncapped(v: int, d: DateTime): Option<DateTime>
    requires WellFormed(d) && 1 <= v <= 31
  {
    if d.day < v then Some(SetDate(d, v)) else None
  }

  /** With the inherited Infinity capacity, Value(31) on 1 September 2020 rolls over to
      1 October instead of giving null, and the result does not even hold day 31. */
  lemma DayValueUncappedRollsOver()
    ensures DayValueNextUncapped(31, DateTime(2020, 9, 1, 0, 0)) == Some(DateTime(2020, 10, 1, 0, 0))
  {
  }

  // ---------------------------------------------------------------------------------
  // Worked examples, at any time of day (August 2020 began on a Saturday, January 2021 on
  // a Friday, February 2021 on a Monday)

  /** 12W in August 2020: the 12th is a Wednesday, so it is the day itself, reached from the
      2nd and already passed on the 14th. */
  lemma NearestWeekdayWednesdayExamples(h: int, m: int)
    requires 0 <= h <= 23 && 0 <= m <= 59
    ensures NearestWeekdayNext(12, DateTime(2020, 8, 2, h, m)) == Some(DateTime(2020, 8, 12, h, m))
    ensures NearestWeekdayNext(12, DateTime(2020, 8, 14, h, m)) == None
  {
    WeekdayFromFirst(DateTime(2020, 8, 12, h, m), 6);
  }

  /** In August 2020: 15W (a Saturday) is Friday the 14th, 1W (a Saturday, the first) is
      Monday the 3rd, and 16W (a Sunday) is Monday the 17th. */
  lemma NearestWeekdayWeekendExamples(h: int, m: int)
    requires 0 <= h <= 23 && 0 <= m <= 59
    ensures NearestWeekdayNext(15, DateTime(2020, 8, 2, h, m)) == Some(DateTime(2020, 8, 14, h, m))
    ensures NearestWeekdayNext(1, DateTime(2020, 8, 1, h, m)) == Some(DateTime(2020, 8, 3, h, m))
    ensures NearestWeekdayNext(16, DateTime(2020, 8, 2, h, m)) == Some(DateTime(2020, 8, 17, h, m))
  {
    WeekdayFromFirst(DateTime(2020, 8, 15, h, m), 6);
    WeekdayFromFirst(DateTime(2020, 8, 1, h, m), 6);
    WeekdayFromFirst(DateTime(2020, 8, 16, h, m), 6);
  }

  /** 31W at a month's end: Sunday 31 January 2021 gives Friday the 29th, and in February
      2021 day 31 is clamped to Sunday the 28th, giving Friday the 26th. */
  lemma NearestWeekdayMonthEndExamples(h: int, m: int)
    requires 0 <= h <= 23 && 0 <= m <= 59
    ensures NearestWeekdayNext(31, DateTime(2021, 1, 2, h, m)) == Some(DateTime(2021, 1, 29, h, m))
    ensures NearestWeekdayNext(31, DateTime(2021, 2, 1, h, m)) == Some(DateTime(2021, 2, 26, h, m))
  {
    WeekdayFromFirst(DateTime(2021, 1, 31, h, m), 5);
    WeekdayFromFirst(DateTime(2021, 2, 28, h, m), 1);
  }

  /** L on 1 August 2020 is the 31st; L-4 on 1 September 2020 is the 26th, and on the 28th
      it has passed. */
  lemma LastOfMonthExamples()
    ensures LastOfMonthNext(0, DateTime(2020, 8, 1, 0, 0)) == Some(DateTime(2020, 8, 31, 0, 0))
    ensures LastOfMonthNext(4, DateTime(2020, 9, 1, 0, 0)) == Some(DateTime(2020, 9, 26, 0, 0))
    ensures LastOfMonthNext(4, DateTime(2020, 9, 28, 0, 0)) == None
  {
  }
}
