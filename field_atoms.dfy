/**
  The generic Value and Range atom algorithms, parameterised by a per-field configuration:
  domain bounds, an accessor, a mutator and a capacity (unbounded except for the day of the
  month). The fields are minutes, hours, day of month and month.
 */
module FieldAtoms {
  import opened Outcomes
  import opened Calendar

  datatype Field = MinuteField | HourField | DayOfMonthField | MonthField

  /** The field's MIN_VALUE. */
  function FieldMin(f: Field): int
  {
    match f
    case MinuteField => 0
    case HourField => 0
    case DayOfMonthField => 1
    case MonthField => 1
  }

  /** The field's MAX_VALUE. */
  function FieldMax(f: Field): int
  {
    match f
    case MinuteField => 59
    case HourField => 23
    case DayOfMonthField => 31
    case MonthField => 12
  }

  /** The field's `getDateValue`. */
  function Accessor(f: Field, d: DateTime): int
  {
    match f
    case MinuteField => d.minute
    case HourField => d.hour
    case DayOfMonthField => d.day
    case MonthField => d.month
  }

  /** The field's `getMaxDateValue`: None stands for Infinity. */
  function Capacity(f: Field, d: DateTime): (cap: Option<int>)
    requires WellFormed(d)
    ensures cap.Some? <==> f == DayOfMonthField
    ensures cap.Some? ==> cap.value == DaysInMonth(d.year, d.month)
  {
    if f == DayOfMonthField then Some(DaysInMonth(d.year, d.month)) else None
  }

  predicate WithinCapacity(f: Field, d: DateTime, v: int)
    requires WellFormed(d)
  {
    match Capacity(f, d)
    case None => true
    case Some(cap) => v <= cap
  }

  /** The field's `calculateNextDate` for Value atoms (and for Range atoms of every field but
      hours): set the field, truncating to the start of the hour for hours and to the start
      of the month for months. The month step as written keeps the day and the time
      (MonthMutateAsWritten); this model takes the step to the start of the new month, as
      the hour step truncates to the start of the new hour. */
  function Mutate(f: Field, d: DateTime, v: int): (r: DateTime)
    requires WellFormed(d) && FieldMin(f) <= v <= FieldMax(f)
    ensures Accessor(f, r) == v || (f == DayOfMonthField && v > DaysInMonth(d.year, d.month))
  {
    match f
    case MinuteField => SetMinute(d, v)
    case HourField => StartOfHour(SetHour(d, v))
    case DayOfMonthField => SetDate(d, v)
    case MonthField => StartOfMonth(SetMonth(d, v))
  }

  /** The minute mutator touches the minute only. */
  lemma MinuteMutatorFrame(d: DateTime, v: int)
    requires WellFormed(d) && 0 <= v <= 59
    ensures Mutate(MinuteField, d, v) == DateTime(d.year, d.month, d.day, d.hour, v)
  {
  }

  /** The hour mutator sets the hour and truncates to the start of that hour. */
  lemma HourMutatorFrame(d: DateTime, v: int)
    requires WellFormed(d) && 0 <= v <= 23
    ensures Mutate(HourField, d, v) == DateTime(d.year, d.month, d.day, v, 0)
  {
  }

  /** The month mutator moves to midnight of the first day of month v of the same year, so
      that no day of the new month is passed over. */
  lemma MonthMutatorFrame(d: DateTime, v: int)
    requires WellFormed(d) && 1 <= v <= 12
    ensures Mutate(MonthField, d, v) == DateTime(d.year, v, 1, 0, 0)
    ensures forall e :: WellFormed(e) && e.year == d.year && e.month == v ==> !Before(e, Mutate(MonthField, d, v))
  {
  }

  /** The month `calculateNextDate` as written: luxon `set({ month })`, which keeps the day
      (clamped to the new month's length) and the time of day. */
  function MonthMutateAsWritten(d: DateTime, v: int): (r: DateTime)
    requires WellFormed(d) && 1 <= v <= 12
    ensures WellFormed(r) && r.year == d.year && r.month == v && r.hour == d.hour && r.minute == d.minute
    ensures r.day == (if d.day <= DaysInMonth(d.year, v) then d.day else DaysInMonth(d.year, v))
    ensures r.day > 1 ==> Before(Mutate(MonthField, d, v), r)
  {
    SetMonth(d, v)
  }

  /** The day-of-month mutator sets the day within the month and keeps the time of day. */
  lemma DayMutatorFrame(d: DateTime, v: int)
    requires WellFormed(d) && 1 <= v <= DaysInMonth(d.year, d.month)
    ensures Mutate(DayOfMonthField, d, v) == DateTime(d.year, d.month, v, d.hour, d.minute)
  {
  }

  /** `HourRangeAtom.calculateNextDate`: like the hour Value mutator, except that one hour is
      taken back when a single-step range moves to the next hour across a backward shift of
      the zone's offset, so that the repeated local hour is not skipped. Subtracting one hour
      of absolute time across that shift shows as the previous wall-clock hour. */
  function HourRangeMutate(min: int, step: int, d: DateTime, v: int, zone: Zone): (r: DateTime)
  {
    var next := SetHour(d, v);
    var timeShiftedBackwards := zone(next) < zone(d);
    var maybeDuplicateHourInRange := step == 1 && min <= d.hour && v == d.hour + 1;
    var shifted := if maybeDuplicateHourInRange && timeShiftedBackwards then next.(hour := v - 1) else next;
    StartOfHour(shifted)
  }

  /** One hour is subtracted exactly under the four conditions of the source; otherwise the
      Range mutator is the Value mutator. */
  lemma HourRangeMutateCases(min: int, step: int, d: DateTime, v: int, zone: Zone)
    requires WellFormed(d) && 0 <= v <= 23
    ensures var r := HourRangeMutate(min, step, d, v, zone);
      var fired := step == 1 && min <= d.hour && v == d.hour + 1 && zone(SetHour(d, v)) < zone(d);
      && r.year == d.year && r.month == d.month && r.day == d.day && r.minute == 0
      && (fired ==> r.hour == d.hour)
      && (!fired ==> r == Mutate(HourField, d, v))
  {
  }

  /** The mutator a Range atom applies. */
  function RangeMutate(f: Field, min: int, step: int, d: DateTime, v: int, zone: Zone): DateTime
    requires WellFormed(d) && FieldMin(f) <= v <= FieldMax(f)
  {
    if f == HourField then HourRangeMutate(min, step, d, v, zone) else Mutate(f, d, v)
  }

  // ---------------------------------------------------------------------------------
  // Value atoms

  /** `ValueAtom.getNextDateAfter`. */
  function ValueNext(f: Field, v: int, d: DateTime): (r: Option<DateTime>)
    requires WellFormed(d) && FieldMin(f) <= v <= FieldMax(f)
    ensures r.Some? ==> WellFormed(r.value)
  {
    if Accessor(f, d) < v && WithinCapacity(f, d, v) then Some(Mutate(f, d, v)) else None
  }

  /** `ValueAtom.isValid`. */
  predicate ValueIsValid(f: Field, v: int, d: DateTime)
  {
    Accessor(f, d) == v
  }

  /** Value next moves to the value exactly when the field is below it and the value fits the
      month (for the day of month), and the result then matches. */
  lemma ValueNextSpec(f: Field, v: int, d: DateTime)
    requires WellFormed(d) && FieldMin(f) <= v <= FieldMax(f)
    ensures ValueNext(f, v, d).Some? <==>
              Accessor(f, d) < v && (f == DayOfMonthField ==> v <= DaysInMonth(d.year, d.month))
    ensures ValueNext(f, v, d).Some? ==> ValueIsValid(f, v, ValueNext(f, v, d).value)
  {
  }

  // ---------------------------------------------------------------------------------
  // Range atoms

  /** `Math.ceil(a / b)` for a positive divisor. */
  function CeilDiv(a: int, b: int): (q: int)
    requires b > 0
    ensures b * (q - 1) < a <= b * q
  {
    if a % b == 0 then a / b else a / b + 1
  }

  /** The next stepped value after c: min + step * ceil((c - min + 1) / step). */
  function NextStep(c: int, min: int, step: int): int
    requires step > 0
  {
    CeilDiv(c - min + 1, step) * step + min
  }

  /** x is min plus a whole number of steps. */
  predicate OnStep(x: int, min: int, step: int)
    requires step > 0
  {
    (x - min) % step == 0
  }

  lemma MulMono(s: int, a: int, b: int)
    requires s > 0
    ensures a <= b ==> s * a <= s * b
  {
  }

  lemma NotMultipleBetween(y: int, q: int, step: int)
    requires step > 0 && step * (q - 1) < y < step * q
    ensures y % step != 0
  {
    var k, r := y / step, y % step;
    assert y == step * k + r && 0 <= r < step;
    assert step * (k + 1) == step * k + step;
    MulMono(step, k + 1, q - 1);
    MulMono(step, q, k);
    assert k == q - 1;
  }

  lemma MultipleIsOnStep(q: int, step: int)
    requires step > 0
    ensures (step * q) % step == 0
  {
    var k, r := (step * q) / step, (step * q) % step;
    assert step * q == step * k + r && 0 <= r < step;
    assert step * (q - k) == r;
    MulMono(step, 1, q - k);
    MulMono(step, q - k, 0);
  }

  /** The stepped value is the least value above c that is min plus a multiple of step. */
  lemma NextStepIsLeastAbove(c: int, min: int, step: int)
    requires step > 0 && min <= c
    ensures var n := NextStep(c, min, step);
      && c < n && OnStep(n, min, step)
      && forall x :: c < x < n ==> !OnStep(x, min, step)
  {
    var q := CeilDiv(c - min + 1, step);
    var n := NextStep(c, min, step);
    assert n - min == step * q;
    MultipleIsOnStep(q, step);
    forall x | c < x < n
      ensures !OnStep(x, min, step)
    {
      NotMultipleBetween(x - min, q, step);
    }
  }

  /** `RangeAtom.getNextDateAfter`, with the capacity consulted below the range as well as
      above it: a minimum that does not exist in the month gives nothing. (The source moves
      to the minimum unchecked; see RangeNextAsWritten.) */
  function RangeNext(f: Field, min: int, max: int, step: int, d: DateTime, zone: Zone): (r: Option<DateTime>)
    requires WellFormed(d) && FieldMin(f) <= min <= max <= FieldMax(f) && step >= 1
    ensures r.Some? ==> WellFormed(r.value)
  {
    var c := Accessor(f, d);
    if c < min then
      if WithinCapacity(f, d, min) then Some(RangeMutate(f, min, step, d, min, zone)) else None
    else
      var next := NextStep(c, min, step);
      if next > max || !WithinCapacity(f, d, next) then None
      else Some(RangeMutate(f, min, step, d, next, zone))
  }

  /** `RangeAtom.isValid`. */
  predicate RangeIsValid(f: Field, min: int, max: int, step: int, d: DateTime)
    requires step >= 1
  {
    var c := Accessor(f, d);
    min <= c <= max && OnStep(c, min, step)
  }

  /** Below the range, next moves to min, or gives nothing when min is past the month's
      length (for the day of month). */
  lemma RangeNextBelowMin(f: Field, min: int, max: int, step: int, d: DateTime, zone: Zone)
    requires WellFormed(d) && FieldMin(f) <= min <= max <= FieldMax(f) && step >= 1
    requires Accessor(f, d) < min
    ensures var r := RangeNext(f, min, max, step, d, zone);
      && (r.None? <==> f == DayOfMonthField && min > DaysInMonth(d.year, d.month))
      && (r.Some? ==> r.value == RangeMutate(f, min, step, d, min, zone))
  {
  }

  /** `RangeAtom.getNextDateAfter` as written: below the range it moves to min without
      consulting the capacity. It differs from RangeNext only for a day-of-month range whose
      minimum is past the month's length, where `setDate` rolls over into the next month. */
  function RangeNextAsWritten(f: Field, min: int, max: int, step: int, d: DateTime, zone: Zone): (r: Option<DateTime>)
    requires WellFormed(d) && FieldMin(f) <= min <= max <= FieldMax(f) && step >= 1
    ensures r != RangeNext(f, min, max, step, d, zone) <==>
              f == DayOfMonthField && d.day < min && min > DaysInMonth(d.year, d.month)
  {
    var c := Accessor(f, d);
    if c < min then Some(RangeMutate(f, min, step, d, min, zone))
    else RangeNext(f, min, max, step, d, zone)
  }

  /** Inside or above the range, next is the least stepped value above the current one
      (NextStepIsLeastAbove), or nothing when that value passes max or the month's length. */
  lemma RangeNextStepped(f: Field, min: int, max: int, step: int, d: DateTime, zone: Zone)
    requires WellFormed(d) && FieldMin(f) <= min <= max <= FieldMax(f) && 1 <= step
    requires min <= Accessor(f, d)
    ensures var n := NextStep(Accessor(f, d), min, step);
      var r := RangeNext(f, min, max, step, d, zone);
      && (r.None? <==> n > max || (f == DayOfMonthField && n > DaysInMonth(d.year, d.month)))
      && (r.Some? ==> r.value == RangeMutate(f, min, step, d, n, zone))
  {
  }

  // ---------------------------------------------------------------------------------
  // Worked examples

  /** Minute value 35: 00:30 moves to 00:35; from 00:35 or 00:36 the hour has no later
      minute 35. */
  lemma MinuteValueExamples()
    ensures ValueNext(MinuteField, 35, DateTime(2020, 8, 1, 0, 30)) == Some(DateTime(2020, 8, 1, 0, 35))
    ensures ValueNext(MinuteField, 35, DateTime(2020, 8, 1, 0, 35)) == None
    ensures ValueNext(MinuteField, 35, DateTime(2020, 8, 1, 0, 36)) == None
  {
  }

  /** Minute range 15-30: 00:17 moves to 00:18 and 00:09 to 00:15; from 00:30 or 00:35
      nothing is left in the hour. */
  lemma MinuteRangeExamples(zone: Zone)
    ensures RangeNext(MinuteField, 15, 30, 1, DateTime(2020, 9, 1, 0, 17), zone) == Some(DateTime(2020, 9, 1, 0, 18))
    ensures RangeNext(MinuteField, 15, 30, 1, DateTime(2020, 9, 1, 0, 9), zone) == Some(DateTime(2020, 9, 1, 0, 15))
    ensures RangeNext(MinuteField, 15, 30, 1, DateTime(2020, 9, 1, 0, 30), zone) == None
    ensures RangeNext(MinuteField, 15, 30, 1, DateTime(2020, 9, 1, 0, 35), zone) == None
  {
  }

  /** Minute range 15-30/5: 00:17 moves to 00:20, and 00:27 to 00:30, the range's maximum. */
  lemma SteppedMinuteRangeExamples(zone: Zone)
    ensures RangeNext(MinuteField, 15, 30, 5, DateTime(2020, 9, 1, 0, 17), zone) == Some(DateTime(2020, 9, 1, 0, 20))
    ensures RangeNext(MinuteField, 15, 30, 5, DateTime(2020, 9, 1, 0, 27), zone) == Some(DateTime(2020, 9, 1, 0, 30))
  {
  }

  /** Day-of-month range 28-31 on 30 September: the 31st does not exist, so nothing. Day-of-month
      value 31 on 1 September, with the month's length as its capacity: nothing either. */
  lemma DayOfMonthCapacityExamples(zone: Zone)
    ensures RangeNext(DayOfMonthField, 28, 31, 1, DateTime(2020, 9, 30, 0, 0), zone) == None
    ensures ValueNext(DayOfMonthField, 31, DateTime(2020, 9, 1, 0, 0)) == None
  {
  }
}
