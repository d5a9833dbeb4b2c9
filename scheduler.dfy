/**
  The scheduler: from a parsed expression and a start date, search for the next date that
  every field accepts. Each pass repairs the fields from the coarsest (months) to the finest
  (minutes); a field whose atom has no later value in the current period hands over to the
  next coarser unit, up to the start of the next year. The search gives up after a fixed
  number of passes.
 */
module Scheduler {
  import opened Outcomes
  import opened Calendar
  import opened Atoms
  import opened CronParser
  import opened FieldGrammars
  import FieldAtoms
  import DayOfWeekAtoms

  /** The units of `getNextValid`, finest first. */
  datatype Unit = Minutes | Hours | Days | Months | Years

  /** `MAX_ITERATIONS`. */
  const MaxIterations: nat := 100

  /** The atom the schedule holds for a unit below years. */
  function AtomOf(s: Schedule, u: Unit): Atom
    requires u != Years
  {
    match u
    case Minutes => s.minutes
    case Hours => s.hours
    case Days => s.days
    case Months => s.months
  }

  /** The unit after u in the list minutes, hours, days, months, years. */
  function Coarser(u: Unit): Unit
    requires u != Years
  {
    match u
    case Minutes => Hours
    case Hours => Days
    case Days => Months
    case Months => Years
  }

  /** How many units lie above u: the measure that `getNextValid`'s recursion decreases. */
  function UnitsAbove(u: Unit): nat
  {
    match u
    case Minutes => 4
    case Hours => 3
    case Days => 2
    case Months => 1
    case Years => 0
  }

  /** `getNextValid`: the unit's atom moves the date on within its period; when it cannot,
      the next coarser unit is asked; years always move to the start of the next year. */
  function GetNextValid(s: Schedule, u: Unit, d: DateTime, zone: Zone): (r: DateTime)
    requires WellFormedSchedule(s) && WellFormed(d)
    ensures WellFormed(r)
    decreases UnitsAbove(u)
  {
    if u == Years then StartOfNextYear(d)
    else
      match Next(AtomOf(s, u), d, zone)
      case Some(n) => n
      case None => GetNextValid(s, Coarser(u), d, zone)
  }

  /** In a zone without a backward offset shift, getNextValid always moves strictly later. */
  lemma {:induction false} GetNextValidIsLater(s: Schedule, u: Unit, d: DateTime, zone: Zone)
    requires WellFormedSchedule(s) && WellFormed(d) && NoFallBack(zone)
    ensures Before(d, GetNextValid(s, u, d, zone))
    decreases UnitsAbove(u)
  {
    if u != Years {
      match Next(AtomOf(s, u), d, zone)
      case Some(n) => NextIsLater(AtomOf(s, u), d, zone);
      case None => GetNextValidIsLater(s, Coarser(u), d, zone);
    }
  }

  /** The result of getNextValid is the next date of the unit's own atom or of a coarser
      unit's atom, or the start of the next year; each unit is asked only when every finer one,
      from u on, had no next date. */
  lemma {:induction false} GetNextValidSource(s: Schedule, u: Unit, d: DateTime, zone: Zone)
    requires WellFormedSchedule(s) && WellFormed(d)
    ensures var r := GetNextValid(s, u, d, zone);
      || (r == StartOfNextYear(d) && forall v :: v != Years && UnitsAbove(v) <= UnitsAbove(u) ==> Next(AtomOf(s, v), d, zone).None?)
      || exists v :: v != Years && UnitsAbove(v) <= UnitsAbove(u) && Next(AtomOf(s, v), d, zone) == Some(r)
    decreases UnitsAbove(u)
  {
    if u != Years {
      match Next(AtomOf(s, u), d, zone)
      case Some(n) =>
        assert Next(AtomOf(s, u), d, zone) == Some(GetNextValid(s, u, d, zone));
      case None =>
        GetNextValidSource(s, Coarser(u), d, zone);
        forall v | v != Years && UnitsAbove(v) <= UnitsAbove(Coarser(u))
          ensures UnitsAbove(v) <= UnitsAbove(u)
        {
        }
    }
  }

  /** Every field of the schedule accepts the date. */
  predicate Matches(s: Schedule, d: DateTime)
    requires WellFormedSchedule(s) && WellFormed(d)
  {
    IsValid(s.months, d) && IsValid(s.days, d) && IsValid(s.hours, d) && IsValid(s.minutes, d)
  }

  /** d is the start itself or a later date. */
  predicate AtOrAfter(start: DateTime, d: DateTime)
  {
    d == start || Before(start, d)
  }

  /** One pass of the loop: months, days and hours are repaired when they do not match; the
      minutes also when the date is still the start date. */
  function Pass(s: Schedule, start: DateTime, d: DateTime, zone: Zone): (r: DateTime)
    requires WellFormedSchedule(s) && WellFormed(d)
    ensures WellFormed(r)
  {
    var d1 := if !IsValid(s.months, d) then GetNextValid(s, Months, d, zone) else d;
    var d2 := if !IsValid(s.days, d1) then GetNextValid(s, Days, d1, zone) else d1;
    var d3 := if !IsValid(s.hours, d2) then GetNextValid(s, Hours, d2, zone) else d2;
    if !IsValid(s.minutes, d3) || d3 == start then GetNextValid(s, Minutes, d3, zone) else d3
  }

  /** The search with a number of passes left: the first pass whose result matches every
      field gives it; NextDateNotFound when no pass is left. */
  function Search(s: Schedule, start: DateTime, d: DateTime, zone: Zone, passes: nat): Result<DateTime>
    requires WellFormedSchedule(s) && WellFormed(d)
    decreases passes
  {
    if passes == 0 then Err(NextDateNotFound)
    else
      var n := Pass(s, start, d, zone);
      if Matches(s, n) then Ok(n) else Search(s, start, n, zone, passes - 1)
  }

  /** getNextValid with the month step as written (Atoms.NextAsWritten). */
  function GetNextValidAsWritten(s: Schedule, u: Unit, d: DateTime, zone: Zone): (r: DateTime)
    requires WellFormedSchedule(s) && WellFormed(d)
    ensures WellFormed(r)
    decreases UnitsAbove(u)
  {
    if u == Years then StartOfNextYear(d)
    else
      match NextAsWritten(AtomOf(s, u), d, zone)
      case Some(n) => n
      case None => GetNextValidAsWritten(s, Coarser(u), d, zone)
  }

  /** One pass of the loop with the month step as written. */
  function PassAsWritten(s: Schedule, start: DateTime, d: DateTime, zone: Zone): (r: DateTime)
    requires WellFormedSchedule(s) && WellFormed(d)
    ensures WellFormed(r)
  {
    var d1 := if !IsValid(s.months, d) then GetNextValidAsWritten(s, Months, d, zone) else d;
    var d2 := if !IsValid(s.days, d1) then GetNextValidAsWritten(s, Days, d1, zone) else d1;
    var d3 := if !IsValid(s.hours, d2) then GetNextValidAsWritten(s, Hours, d2, zone) else d2;
    if !IsValid(s.minutes, d3) || d3 == start then GetNextValidAsWritten(s, Minutes, d3, zone) else d3
  }

  /** The search with the month step as written. What it finds matches every field, as in
      the model; only NextDateNotFound is an error. */
  function SearchAsWritten(s: Schedule, start: DateTime, d: DateTime, zone: Zone, passes: nat): (r: Result<DateTime>)
    requires WellFormedSchedule(s) && WellFormed(d)
    ensures r.Ok? ==> WellFormed(r.value) && Matches(s, r.value)
    ensures r.Err? ==> r.error == NextDateNotFound
    decreases passes
  {
    if passes == 0 then Err(NextDateNotFound)
    else
      var n := PassAsWritten(s, start, d, zone);
      if Matches(s, n) then Ok(n) else SearchAsWritten(s, start, n, zone, passes - 1)
  }

  /** One pass of the loop, its four repairs taken one at a time: a match ends the search,
      otherwise the search goes on from the repaired date with one pass fewer. */
  lemma PassAdvancesSearch(s: Schedule, start: DateTime, d: DateTime, d1: DateTime, d2: DateTime, d3: DateTime, d4: DateTime,
                           zone: Zone, passes: nat, rest: nat)
    requires WellFormedSchedule(s) && WellFormed(d) && passes == rest + 1
    requires d1 == if !IsValid(s.months, d) then GetNextValid(s, Months, d, zone) else d
    requires d2 == if !IsValid(s.days, d1) then GetNextValid(s, Days, d1, zone) else d1
    requires d3 == if !IsValid(s.hours, d2) then GetNextValid(s, Hours, d2, zone) else d2
    requires d4 == if !IsValid(s.minutes, d3) || d3 == start then GetNextValid(s, Minutes, d3, zone) else d3
    ensures WellFormed(d4)
    ensures Matches(s, d4) ==> Search(s, start, d, zone, passes) == Ok(d4)
    ensures !Matches(s, d4) ==> Search(s, start, d, zone, passes) == Search(s, start, d4, zone, rest)
  {
    PassRepairs(s, start, d, d1, d2, d3, d4, zone);
    if Matches(s, d4) {
      SearchStops(s, start, d, zone, rest);
    } else {
      SearchGoesOn(s, start, d, zone, rest);
    }
  }

  /** A pass is its four repairs taken one at a time. */
  lemma PassRepairs(s: Schedule, start: DateTime, d: DateTime, d1: DateTime, d2: DateTime, d3: DateTime, d4: DateTime,
                    zone: Zone)
    requires WellFormedSchedule(s) && WellFormed(d)
    requires d1 == if !IsValid(s.months, d) then GetNextValid(s, Months, d, zone) else d
    requires d2 == if !IsValid(s.days, d1) then GetNextValid(s, Days, d1, zone) else d1
    requires d3 == if !IsValid(s.hours, d2) then GetNextValid(s, Hours, d2, zone) else d2
    requires d4 == if !IsValid(s.minutes, d3) || d3 == start then GetNextValid(s, Minutes, d3, zone) else d3
    ensures Pass(s, start, d, zone) == d4
  {
  }

  /** A search with passes left whose next pass matches stops with that pass's date. */
  lemma SearchStops(s: Schedule, start: DateTime, d: DateTime, zone: Zone, rest: nat)
    requires WellFormedSchedule(s) && WellFormed(d) && Matches(s, Pass(s, start, d, zone))
    ensures Search(s, start, d, zone, rest + 1) == Ok(Pass(s, start, d, zone))
  {
  }

  /** A search with passes left whose next pass does not match goes on from that pass's
      date with one pass fewer. */
  lemma SearchGoesOn(s: Schedule, start: DateTime, d: DateTime, zone: Zone, rest: nat)
    requires WellFormedSchedule(s) && WellFormed(d) && !Matches(s, Pass(s, start, d, zone))
    ensures Search(s, start, d, zone, rest + 1) == Search(s, start, Pass(s, start, d, zone), zone, rest)
  {
  }

  /** A found date is well formed and matches every field; the only error is
      NextDateNotFound. */
  lemma {:induction false} SearchIsSound(s: Schedule, start: DateTime, d: DateTime, zone: Zone, passes: nat)
    requires WellFormedSchedule(s) && WellFormed(d)
    ensures var r := Search(s, start, d, zone, passes);
      && (r.Ok? ==> WellFormed(r.value) && Matches(s, r.value))
      && (r.Err? ==> r.error == NextDateNotFound)
    decreases passes
  {
    if passes > 0 {
      var n := Pass(s, start, d, zone);
      if Matches(s, n) {
        SearchStops(s, start, d, zone, passes - 1);
      } else {
        SearchGoesOn(s, start, d, zone, passes - 1);
        SearchIsSound(s, start, n, zone, passes - 1);
      }
    }
  }

  /** In a zone without a backward offset shift, a pass from a date at or after the start
      ends strictly after the start: when nothing else moves the date, the minutes do. */
  lemma PassIsLater(s: Schedule, start: DateTime, d: DateTime, zone: Zone)
    requires WellFormedSchedule(s) && WellFormed(d) && NoFallBack(zone) && AtOrAfter(start, d)
    ensures Before(start, Pass(s, start, d, zone))
  {
    var d1 := if !IsValid(s.months, d) then GetNextValid(s, Months, d, zone) else d;
    if !IsValid(s.months, d) {
      GetNextValidIsLater(s, Months, d, zone);
      if d != start { BeforeIsTransitive(start, d, d1); }
    }
    assert AtOrAfter(start, d1);
    var d2 := if !IsValid(s.days, d1) then GetNextValid(s, Days, d1, zone) else d1;
    if !IsValid(s.days, d1) {
      GetNextValidIsLater(s, Days, d1, zone);
      if d1 != start { BeforeIsTransitive(start, d1, d2); }
    }
    assert AtOrAfter(start, d2);
    var d3 := if !IsValid(s.hours, d2) then GetNextValid(s, Hours, d2, zone) else d2;
    if !IsValid(s.hours, d2) {
      GetNextValidIsLater(s, Hours, d2, zone);
      if d2 != start { BeforeIsTransitive(start, d2, d3); }
    }
    assert AtOrAfter(start, d3);
    if !IsValid(s.minutes, d3) || d3 == start {
      var d4 := GetNextValid(s, Minutes, d3, zone);
      GetNextValidIsLater(s, Minutes, d3, zone);
      if d3 != start { BeforeIsTransitive(start, d3, d4); }
    }
  }

  /** In a zone without a backward offset shift, a found date is strictly after the start. */
  lemma {:induction false} SearchIsLater(s: Schedule, start: DateTime, d: DateTime, zone: Zone, passes: nat)
    requires WellFormedSchedule(s) && WellFormed(d) && NoFallBack(zone) && AtOrAfter(start, d)
    ensures Search(s, start, d, zone, passes).Ok? ==> Before(start, Search(s, start, d, zone, passes).value)
    decreases passes
  {
    if passes > 0 {
      var n := Pass(s, start, d, zone);
      PassIsLater(s, start, d, zone);
      if Matches(s, n) {
        SearchStops(s, start, d, zone, passes - 1);
      } else {
        SearchGoesOn(s, start, d, zone, passes - 1);
        SearchIsLater(s, start, n, zone, passes - 1);
      }
    }
  }

  /** A schedule that no date satisfies is reported as NextDateNotFound, whatever the start. */
  lemma {:induction false} UnsatisfiableIsNotFound(s: Schedule, start: DateTime, d: DateTime, zone: Zone, passes: nat)
    requires WellFormedSchedule(s) && WellFormed(d)
    requires forall e :: WellFormed(e) ==> !Matches(s, e)
    ensures Search(s, start, d, zone, passes) == Err(NextDateNotFound)
    decreases passes
  {
    if passes > 0 {
      var n := Pass(s, start, d, zone);
      SearchGoesOn(s, start, d, zone, passes - 1);
      UnsatisfiableIsNotFound(s, start, n, zone, passes - 1);
    }
  }

  /** `getNextDateAfter`: at most MaxIterations passes; the first date that matches every
      field is returned, otherwise NextDateNotFound. (That the result is later than the
      start in a zone without a backward offset shift is SearchIsLater.) */
  method GetNextDateAfter(s: Schedule, date: DateTime, zone: Zone) returns (r: Result<DateTime>)
    requires WellFormedSchedule(s) && WellFormed(date)
    ensures r == Search(s, date, date, zone, MaxIterations)
    ensures r.Ok? ==> WellFormed(r.value) && Matches(s, r.value)
    ensures r.Err? ==> r.error == NextDateNotFound
  {
    ghost var outcome := Search(s, date, date, zone, MaxIterations);
    ghost var left: nat := MaxIterations;
    var i := 0;
    var next := date;
    while i < MaxIterations
      invariant 0 <= i <= MaxIterations && left == MaxIterations - i && WellFormed(next)
      invariant Search(s, date, next, zone, left) == outcome
      decreases MaxIterations - i
    {
      ghost var previous := next;
      if !IsValid(s.months, next) {
        next := GetNextValid(s, Months, next, zone);
      }
      ghost var d1 := next;
      if !IsValid(s.days, next) {
        next := GetNextValid(s, Days, next, zone);
      }
      ghost var d2 := next;
      if !IsValid(s.hours, next) {
        next := GetNextValid(s, Hours, next, zone);
      }
      ghost var d3 := next;
      if !IsValid(s.minutes, next) || next == date {
        next := GetNextValid(s, Minutes, next, zone);
      }
      ghost var passes := left;
      i := i + 1;
      left := left - 1;
      PassAdvancesSearch(s, date, previous, d1, d2, d3, next, zone, passes, left);
      if Matches(s, next) {
        SearchIsSound(s, date, date, zone, MaxIterations);
        return Ok(next);
      }
    }
    SearchIsSound(s, date, date, zone, MaxIterations);
    return Err(NextDateNotFound);
  }

  // ---------------------------------------------------------------------------------
  // Scenarios

  /** The schedule of "* * 31 2 ?": every minute of the 31st of February. */
  function FebruaryThirtyFirst(): (s: Schedule)
    ensures WellFormedSchedule(s)
  {
    WildcardAtomValues();
    Schedule(WildcardAtom(MinutesGrammar), WildcardAtom(HoursGrammar),
      Or([Value(FieldAtoms.DayOfMonthField, 31), Noop]), Value(FieldAtoms.MonthField, 2))
  }

  /** No year has a 31st of February, so whatever the start the search gives up with
      NextDateNotFound. */
  lemma FebruaryThirtyFirstNotFound(date: DateTime, zone: Zone)
    requires WellFormed(date)
    ensures Search(FebruaryThirtyFirst(), date, date, zone, MaxIterations) == Err(NextDateNotFound)
  {
    var s := FebruaryThirtyFirst();
    forall e | WellFormed(e)
      ensures !Matches(s, e)
    {
      FebruaryThirtyFirstNeverMatches(e);
    }
    UnsatisfiableIsNotFound(s, date, date, zone, MaxIterations);
  }

  /** No date matches the schedule: in February the day is at most 29. */
  lemma FebruaryThirtyFirstNeverMatches(e: DateTime)
    requires WellFormed(e)
    ensures !Matches(FebruaryThirtyFirst(), e)
  {
    var s := FebruaryThirtyFirst();
    if IsValid(s.months, e) {
      assert e.day <= DaysInMonth(e.year, 2) <= 29;
      assert !IsValid(s.days.atoms[0], e);
    }
  }

  /** "* * 31 2 ?" is a valid expression, yet the scheduler never finds a date for it. */
  lemma FebruaryThirtyFirstParsesButNeverFires(date: DateTime, zone: Zone)
    requires WellFormed(date)
    ensures ParseCron(JoinFields(["*", "*", "31", "2", "?"])) == Ok(FebruaryThirtyFirst())
    ensures Search(FebruaryThirtyFirst(), date, date, zone, MaxIterations) == Err(NextDateNotFound)
  {
    FebruaryThirtyFirstParses();
    FebruaryThirtyFirstNotFound(date, zone);
  }

  /** The schedule of "3-15/3,18,32 * * * *". */
  function MinuteList(): (s: Schedule)
    ensures WellFormedSchedule(s)
  {
    Schedule(Or([Range(FieldAtoms.MinuteField, 3, 15, 3), Value(FieldAtoms.MinuteField, 18), Value(FieldAtoms.MinuteField, 32)]),
      Range(FieldAtoms.HourField, 0, 23, 1), Or([Range(FieldAtoms.DayOfMonthField, 1, 31, 1), WeekdayRange(0, 6)]),
      Range(FieldAtoms.MonthField, 1, 12, 1))
  }

  /** The expression parses to that schedule. */
  lemma MinuteListIsParsed()
    ensures ParseCron(JoinFields(["3-15/3,18,32", "*", "*", "*", "*"])) == Ok(MinuteList())
  {
    WildcardAtomValues();
    MinuteListParses();
  }

  /** At minute 3, the minute list's next is minute 6, the range's next step. */
  lemma MinuteListAtomNext(d: DateTime, zone: Zone)
    requires WellFormed(d) && d.minute == 3
    ensures Next(MinuteList().minutes, d, zone) == Some(d.(minute := 6))
  {
    var minutes := MinuteList().minutes.atoms;
    var e := d.(minute := 6);
    assert Next(minutes[0], d, zone) == Some(e);
    assert Next(minutes[1], d, zone) == Some(d.(minute := 18));
    assert Next(minutes[2], d, zone) == Some(d.(minute := 32));
    OrNextPicks(minutes, d, zone, 0);
  }

  /** From minute 32 on, no item of the minute list has a later minute in the hour. */
  lemma MinuteListAtomAfterLast(d: DateTime, zone: Zone)
    requires WellFormed(d) && d.minute >= 32
    ensures Next(MinuteList().minutes, d, zone) == None
  {
    var minutes := MinuteList().minutes.atoms;
    assert FieldAtoms.NextStep(d.minute, 3, 3) > 15;
    assert Next(minutes[0], d, zone) == None;
    OrNextSpec(minutes, d, zone);
  }

  /** At the top of the hour, the minute list's next is minute 3, the range's first step. */
  lemma MinuteListAtomFromTop(d: DateTime, zone: Zone)
    requires WellFormed(d) && d.minute == 0
    ensures Next(MinuteList().minutes, d, zone) == Some(d.(minute := 3))
  {
    var minutes := MinuteList().minutes.atoms;
    assert Next(minutes[0], d, zone) == Some(d.(minute := 3));
    assert Next(minutes[1], d, zone) == Some(d.(minute := 18));
    assert Next(minutes[2], d, zone) == Some(d.(minute := 32));
    OrNextPicks(minutes, d, zone, 0);
  }

  /** Every date matches the schedule's hours, days and months. */
  lemma MinuteListCoarserFieldsMatch(d: DateTime)
    requires WellFormed(d)
    ensures var s := MinuteList(); IsValid(s.months, d) && IsValid(s.days, d) && IsValid(s.hours, d)
  {
    assert IsValid(MinuteList().days.atoms[0], d);
  }

  /** A date matches the schedule exactly when its minute is one of 3, 6, 9, 12, 15, 18
      and 32. */
  lemma MinuteListMatches(d: DateTime)
    requires WellFormed(d)
    ensures Matches(MinuteList(), d) <==> d.minute in {3, 6, 9, 12, 15, 18, 32}
  {
    var minutes := MinuteList().minutes.atoms;
    MinuteListCoarserFieldsMatch(d);
    if d.minute in {3, 6, 9, 12, 15} {
      assert IsValid(minutes[0], d);
    } else if d.minute == 18 {
      assert IsValid(minutes[1], d);
    } else if d.minute == 32 {
      assert IsValid(minutes[2], d);
    }
  }

  /** From minute 3, which matches, one pass moves on to minute 6. */
  lemma MinuteListPass(d: DateTime, zone: Zone)
    requires WellFormed(d) && d.minute == 3
    ensures Pass(MinuteList(), d, d, zone) == d.(minute := 6)
  {
    MinuteListCoarserFieldsMatch(d);
    MinuteListAtomNext(d, zone);
  }

  /** At minute 3 of any hour, a time that matches, the next fire time is the next step
      of the range, minute 6 of the same hour (00:03 gives 00:06). */
  lemma MinuteListNextStep(d: DateTime, zone: Zone)
    requires WellFormed(d) && d.minute == 3
    ensures Search(MinuteList(), d, d, zone, MaxIterations) == Ok(d.(minute := 6))
  {
    MinuteListPass(d, zone);
    MinuteListMatches(d.(minute := 6));
  }

  /** From minute 32, one pass moves on to the top of the next hour. */
  lemma MinuteListPassLast(d: DateTime, zone: Zone)
    requires WellFormed(d) && d.minute == 32 && d.hour < 23 && NoFallBack(zone)
    ensures Pass(MinuteList(), d, d, zone) == d.(hour := d.hour + 1, minute := 0)
  {
    MinuteListCoarserFieldsMatch(d);
    MinuteListAtomAfterLast(d, zone);
    assert Before(d, SetHour(d, d.hour + 1));
    FieldAtoms.HourRangeMutateCases(0, 1, d, d.hour + 1, zone);
  }

  /** From the top of an hour, one pass moves on to minute 3. */
  lemma MinuteListPassTop(start: DateTime, d: DateTime, zone: Zone)
    requires WellFormed(d) && d.minute == 0 && start != d
    ensures Pass(MinuteList(), start, d, zone) == d.(minute := 3)
  {
    MinuteListCoarserFieldsMatch(d);
    MinuteListAtomFromTop(d, zone);
  }

  /** At minute 32, the last of the list, in a zone without a backward offset shift, the
      next fire time is minute 3 of the next hour (00:32 gives 01:03): the minutes have no
      later value, so the hours move on, and the next pass repairs the minutes. */
  lemma MinuteListNextHour(d: DateTime, zone: Zone)
    requires WellFormed(d) && d.minute == 32 && d.hour < 23 && NoFallBack(zone)
    ensures Search(MinuteList(), d, d, zone, MaxIterations) == Ok(d.(hour := d.hour + 1, minute := 3))
  {
    var h := d.(hour := d.hour + 1, minute := 0);
    MinuteListPassLast(d, zone);
    MinuteListMatches(h);
    MinuteListPassTop(d, h, zone);
    MinuteListMatches(h.(minute := 3));
  }

  /** The schedule of "30 8 5 2-4,7,12 ?". */
  function MonthList(): (s: Schedule)
    ensures WellFormedSchedule(s)
  {
    Schedule(Value(FieldAtoms.MinuteField, 30), Value(FieldAtoms.HourField, 8),
      Or([Value(FieldAtoms.DayOfMonthField, 5), Noop]),
      Or([Range(FieldAtoms.MonthField, 2, 4, 1), Value(FieldAtoms.MonthField, 7), Value(FieldAtoms.MonthField, 12)]))
  }

  /** The expression parses to that schedule. */
  lemma MonthListIsParsed()
    ensures ParseCron(JoinFields(["30", "8", "5", "2-4,7,12", "?"])) == Ok(MonthList())
  {
    MonthListParses();
  }

  /** A date matches the schedule exactly when it is 08:30 on the fifth of February, March,
      April, July or December; field by field. */
  lemma MonthListMatches(d: DateTime)
    requires WellFormed(d)
    ensures var s := MonthList();
      && (IsValid(s.months, d) <==> d.month in {2, 3, 4, 7, 12})
      && (IsValid(s.days, d) <==> d.day == 5)
      && (IsValid(s.hours, d) <==> d.hour == 8)
      && (IsValid(s.minutes, d) <==> d.minute == 30)
    ensures Matches(MonthList(), d) <==>
              d.month in {2, 3, 4, 7, 12} && d.day == 5 && d.hour == 8 && d.minute == 30
  {
    var s := MonthList();
    if d.month in {2, 3, 4} {
      assert IsValid(s.months.atoms[0], d);
    } else if d.month == 7 {
      assert IsValid(s.months.atoms[1], d);
    } else if d.month == 12 {
      assert IsValid(s.months.atoms[2], d);
    }
    if d.day == 5 {
      assert IsValid(s.days.atoms[0], d);
    }
  }

  /** In December, none of the months has a later value in the year. */
  lemma MonthListMonthsAfterLast(d: DateTime, zone: Zone)
    requires WellFormed(d) && d.month == 12
    ensures Next(MonthList().months, d, zone) == None
  {
    var months := MonthList().months.atoms;
    assert Next(months[0], d, zone) == None;
    OrNextSpec(months, d, zone);
  }

  /** At 08:30 on a fifth of December, one pass moves on to the start of the next year:
      every field from the minutes to the months has run out of later values. */
  lemma MonthListPassYearEnd(d: DateTime, zone: Zone)
    requires WellFormed(d) && d.month == 12 && d.day == 5 && d.hour == 8 && d.minute == 30
    ensures Pass(MonthList(), d, d, zone) == StartOfNextYear(d)
  {
    var s := MonthList();
    MonthListMatches(d);
    OrNextSpec(s.days.atoms, d, zone);
    MonthListMonthsAfterLast(d, zone);
  }

  /** In January the months move on to the start of February. */
  lemma MonthListMonthsFromJanuary(d: DateTime, zone: Zone)
    requires WellFormed(d) && d.month == 1
    ensures Next(MonthList().months, d, zone) == Some(DateTime(d.year, 2, 1, 0, 0))
  {
    var months := MonthList().months.atoms;
    assert Next(months[0], d, zone) == Some(DateTime(d.year, 2, 1, 0, 0));
    assert Next(months[1], d, zone) == Some(DateTime(d.year, 7, 1, 0, 0));
    assert Next(months[2], d, zone) == Some(DateTime(d.year, 12, 1, 0, 0));
    OrNextPicks(months, d, zone, 0);
  }

  /** Before the fifth, the days move on to the fifth. */
  lemma MonthListDaysBeforeFifth(d: DateTime, zone: Zone)
    requires WellFormed(d) && d.day < 5
    ensures GetNextValid(MonthList(), Days, d, zone) == d.(day := 5)
  {
    var days := MonthList().days.atoms;
    assert Next(days[0], d, zone) == Some(d.(day := 5));
    OrNextPicks(days, d, zone, 0);
  }

  /** From the start of a year, one pass repairs months, days, hours and minutes in turn
      and reaches 08:30 on the fifth of February. */
  lemma MonthListPassNewYear(start: DateTime, d: DateTime, zone: Zone)
    requires WellFormed(d) && d.month == 1 && d.day == 1 && d.hour == 0 && d.minute == 0 && start != d
    ensures Pass(MonthList(), start, d, zone) == DateTime(d.year, 2, 5, 8, 30)
  {
    var s := MonthList();
    var d1 := d.(month := 2);
    var d2 := d1.(day := 5);
    var d3 := d2.(hour := 8);
    var d4 := d3.(minute := 30);
    MonthListRepairsMonths(d, zone);
    MonthListRepairsDays(d1, zone);
    MonthListRepairsHours(d2, zone);
    MonthListRepairsMinutes(start, d3, zone);
    PassRepairs(s, start, d, d1, d2, d3, d4, zone);
  }

  /** In January the months are repaired to the start of February. */
  lemma MonthListRepairsMonths(d: DateTime, zone: Zone)
    requires WellFormed(d) && d.month == 1
    ensures var s := MonthList();
      (if !IsValid(s.months, d) then GetNextValid(s, Months, d, zone) else d) == DateTime(d.year, 2, 1, 0, 0)
  {
    MonthListMatches(d);
    MonthListMonthsFromJanuary(d, zone);
  }

  /** On the first of February the days are repaired to the fifth. */
  lemma MonthListRepairsDays(d: DateTime, zone: Zone)
    requires WellFormed(d) && d.month == 2 && d.day == 1
    ensures var s := MonthList();
      (if !IsValid(s.days, d) then GetNextValid(s, Days, d, zone) else d) == d.(day := 5)
  {
    MonthListMatches(d);
    MonthListDaysBeforeFifth(d, zone);
  }

  /** At midnight on the fifth the hours are repaired to 08:00. */
  lemma MonthListRepairsHours(d: DateTime, zone: Zone)
    requires WellFormed(d) && d.month == 2 && d.day == 5 && d.hour == 0 && d.minute == 0
    ensures var s := MonthList();
      (if !IsValid(s.hours, d) then GetNextValid(s, Hours, d, zone) else d) == d.(hour := 8)
  {
    MonthListMatches(d);
    assert Next(MonthList().hours, d, zone) == Some(d.(hour := 8));
  }

  /** At 08:00 the minutes are repaired to 08:30. */
  lemma MonthListRepairsMinutes(start: DateTime, d: DateTime, zone: Zone)
    requires WellFormed(d) && d.month == 2 && d.day == 5 && d.hour == 8 && d.minute == 0
    ensures var s := MonthList();
      (if !IsValid(s.minutes, d) || d == start then GetNextValid(s, Minutes, d, zone) else d) == d.(minute := 30)
  {
    MonthListMatches(d);
    assert Next(MonthList().minutes, d, zone) == Some(d.(minute := 30));
  }

  /** At 08:30 on the fifth of December the next fire time is 08:30 on the fifth of February
      of the next year (2020-12-05 08:30 gives 2021-02-05 08:30): the first pass rolls over
      into the next year, the second repairs every field. */
  lemma MonthListNextYear(d: DateTime, zone: Zone)
    requires WellFormed(d) && d.month == 12 && d.day == 5 && d.hour == 8 && d.minute == 30
    ensures Search(MonthList(), d, d, zone, MaxIterations) == Ok(DateTime(d.year + 1, 2, 5, 8, 30))
  {
    var j := StartOfNextYear(d);
    MonthListPassYearEnd(d, zone);
    MonthListMatches(j);
    MonthListPassNewYear(d, j, zone);
    MonthListMatches(DateTime(d.year + 1, 2, 5, 8, 30));
  }

  /** A day-of-week field left blank (`?`) adds nothing to the days: OR-ing Noop in leaves
      both next and isValid as they were. */
  lemma BlankWeekdaysChangeNothing(a: Atom, d: DateTime, zone: Zone)
    requires WellFormedAtom(a) && WellFormed(d)
    ensures WellFormedAtom(Or([a, Noop]))
    ensures Next(Or([a, Noop]), d, zone) == Next(a, d, zone)
    ensures IsValid(Or([a, Noop]), d) <==> IsValid(a, d)
  {
    OrNextSpec([a, Noop], d, zone);
    if Next(a, d, zone).Some? {
      OrNextPicks([a, Noop], d, zone, 0);
    }
  }

  /** The day-of-month items "lo-hi,12W,L-4". */
  function DayItems(lo: int, hi: int): (a: Atom)
    requires 1 <= lo <= hi <= 31
    ensures WellFormedAtom(a) && a.Or? && |a.atoms| == 3
  {
    Or([Range(FieldAtoms.DayOfMonthField, lo, hi, 1), NearestWeekday(12), LastOfMonth(4)])
  }

  /** The schedule of "30 8 lo-hi,12W,L-4 * ?": 08:30 on the days lo to hi, on the weekday
      nearest the 12th, and four days before the month's last day. */
  function DayItemList(lo: int, hi: int): (s: Schedule)
    requires 1 <= lo <= hi <= 31
    ensures WellFormedSchedule(s)
  {
    assert WellFormedAtom(Or([DayItems(lo, hi), Noop]));
    Schedule(Value(FieldAtoms.MinuteField, 30), Value(FieldAtoms.HourField, 8), Or([DayItems(lo, hi), Noop]),
      Range(FieldAtoms.MonthField, 1, 12, 1))
  }

  /** "30 8 1-3,12W,L-4 * ?" and "30 8 3-7,12W,L-4 * ?" parse to those schedules. */
  lemma DayItemListIsParsed()
    ensures ParseCron(JoinFields(["30", "8", "1-3,12W,L-4", "*", "?"])) == Ok(DayItemList(1, 3))
    ensures ParseCron(JoinFields(["30", "8", "3-7,12W,L-4", "*", "?"])) == Ok(DayItemList(3, 7))
  {
    WildcardAtomValues();
    assert Numeral(1) + "-" + Numeral(3) + ",12W,L-4" == "1-3,12W,L-4";
    assert Numeral(3) + "-" + Numeral(7) + ",12W,L-4" == "3-7,12W,L-4";
    DayItemListParses(1, 3, "1-3,12W,L-4");
    DayItemListParses(3, 7, "3-7,12W,L-4");
  }

  /** 12 September 2020 is a Saturday, so the weekday nearest the 12th is Friday the 11th;
      12 October 2020 is a Monday, the day itself. */
  lemma NearestTwelfthIn2020(d: DateTime)
    requires WellFormed(d) && d.year == 2020 && (d.month == 9 || d.month == 10)
    ensures DayOfMonthAtoms.NearestWeekdayDay(d, 12) == if d.month == 9 then 11 else 12
  {
    if d.month == 9 {
      assert Weekday(DateTime(2020, 9, 1, 0, 0)) == 2;
      WeekdayFromFirst(d.(day := 12), 2);
    } else {
      assert Weekday(DateTime(2020, 10, 1, 0, 0)) == 4;
      WeekdayFromFirst(d.(day := 12), 4);
    }
  }

  /** The items "lo-hi,12W,L-4" accept exactly the days lo to hi, the weekday nearest the
      12th and the fourth day before the month's last. */
  lemma DayItemsValid(lo: int, hi: int, d: DateTime)
    requires 1 <= lo <= hi <= 31 && WellFormed(d)
    ensures IsValid(DayItems(lo, hi), d) <==>
              lo <= d.day <= hi || d.day == DayOfMonthAtoms.NearestWeekdayDay(d, 12) || d.day == DaysInMonth(d.year, d.month) - 4
  {
    var items := DayItems(lo, hi).atoms;
    assert IsValid(items[0], d) <==> lo <= d.day <= hi by {
      assert FieldAtoms.OnStep(d.day, lo, 1);
    }
    assert IsValid(items[1], d) <==> d.day == DayOfMonthAtoms.NearestWeekdayDay(d, 12);
    assert IsValid(items[2], d) <==> d.day == DaysInMonth(d.year, d.month) - 4;
    assert IsValid(DayItems(lo, hi), d) <==> IsValid(items[0], d) || IsValid(items[1], d) || IsValid(items[2], d);
  }

  /** In September and October 2020 the days of "30 8 lo-hi,12W,L-4 * ?" accept exactly the
      days lo to hi, the weekday nearest the 12th (the 11th, the 12th) and the fourth day
      before the last (the 26th, the 27th). */
  lemma DayItemListDays(lo: int, hi: int, d: DateTime, zone: Zone)
    requires 1 <= lo <= hi <= 31
    requires WellFormed(d) && d.year == 2020 && (d.month == 9 || d.month == 10)
    ensures IsValid(DayItemList(lo, hi).days, d) <==>
              lo <= d.day <= hi || d.day == (if d.month == 9 then 11 else 12) || d.day == (if d.month == 9 then 26 else 27)
  {
    NearestTwelfthIn2020(d);
    DayItemsValid(lo, hi, d);
    BlankWeekdaysChangeNothing(DayItems(lo, hi), d, zone);
  }

  /** On 10 September 2020 the days of "30 8 1-3,12W,L-4 * ?" move on to the 11th, the
      weekday nearest the 12th, keeping the time: the range has passed and the 26th is
      later. */
  lemma DayItemListDaysFromTenth(d: DateTime, zone: Zone)
    requires WellFormed(d) && d.year == 2020 && d.month == 9 && d.day == 10
    ensures Next(DayItemList(1, 3).days, d, zone) == Some(d.(day := 11))
  {
    var items := DayItems(1, 3).atoms;
    DayItemsFromTenth(d, zone);
    OrNextPicks(items, d, zone, 1);
    BlankWeekdaysChangeNothing(DayItems(1, 3), d, zone);
  }

  /** On 10 September 2020 the range 1-3 has passed, 12W moves on to the 11th and L-4 to the
      26th. */
  lemma DayItemsFromTenth(d: DateTime, zone: Zone)
    requires WellFormed(d) && d.year == 2020 && d.month == 9 && d.day == 10
    ensures var items := DayItems(1, 3).atoms;
      && Next(items[0], d, zone) == None
      && Next(items[1], d, zone) == Some(d.(day := 11))
      && Next(items[2], d, zone) == Some(d.(day := 26))
  {
    FieldAtoms.RangeNextStepped(FieldAtoms.DayOfMonthField, 1, 3, 1, d, zone);
    NearestTwelfthIn2020(d);
  }

  /** From 08:30 on 10 September 2020, "30 8 1-3,12W,L-4 * ?" next fires at 08:30 on Friday
      11 September, the weekday nearest the 12th, in one pass. */
  lemma DayItemListNearestWeekday(zone: Zone)
    ensures var d := DateTime(2020, 9, 10, 8, 30);
      Search(DayItemList(1, 3), d, d, zone, MaxIterations) == Ok(DateTime(2020, 9, 11, 8, 30))
  {
    var s, d, e := DayItemList(1, 3), DateTime(2020, 9, 10, 8, 30), DateTime(2020, 9, 11, 8, 30);
    DayItemListDays(1, 3, d, zone);
    DayItemListDays(1, 3, e, zone);
    DayItemListDaysFromTenth(d, zone);
    PassRepairs(s, d, d, d, e, e, e, zone);
    SearchStops(s, d, d, zone, MaxIterations - 1);
  }

  /** On 27 September 2020 no day of "30 8 3-7,12W,L-4 * ?" is left in the month: the range
      and the nearest weekday have passed, and the 27th is past L-4. */
  lemma DayItemListNoDayLeft(d: DateTime, zone: Zone)
    requires WellFormed(d) && d.year == 2020 && d.month == 9 && d.day == 27
    ensures Next(DayItemList(3, 7).days, d, zone) == None
  {
    var items := DayItems(3, 7).atoms;
    NearestTwelfthIn2020(d);
    assert Next(items[0], d, zone) == None by {
      FieldAtoms.RangeNextStepped(FieldAtoms.DayOfMonthField, 3, 7, 1, d, zone);
    }
    assert Next(items[1], d, zone) == None;
    assert Next(items[2], d, zone) == None;
    OrNextSpec(items, d, zone);
    BlankWeekdaysChangeNothing(DayItems(3, 7), d, zone);
  }

  /** On 27 September 2020 the days hand over to the months, which move on to October. */
  lemma DayItemListMonthEnd(d: DateTime, zone: Zone)
    requires WellFormed(d) && d.year == 2020 && d.month == 9 && d.day == 27
    ensures !IsValid(DayItemList(3, 7).days, d)
    ensures GetNextValid(DayItemList(3, 7), Days, d, zone) == FieldAtoms.Mutate(FieldAtoms.MonthField, d, 10)
  {
    var s := DayItemList(3, 7);
    DayItemListDays(3, 7, d, zone);
    DayItemListNoDayLeft(d, zone);
    assert Next(s.months, d, zone) == Some(FieldAtoms.Mutate(FieldAtoms.MonthField, d, 10)) by {
      FieldAtoms.RangeNextStepped(FieldAtoms.MonthField, 1, 12, 1, d, zone);
    }
  }

  /** The month step as written keeps the day: from 08:30 on 27 September 2020,
      "30 8 3-7,12W,L-4 * ?" hands over to the months, and `set({ month: 10 })` gives 08:30
      on 27 October, which is L-4 in October and so matches every field. That date ends the
      first pass, since the hours and minutes match too and it is not the start, although
      08:30 on 3 October, an earlier date, matches as well. */
  lemma DayItemListMonthStepAsWritten(zone: Zone)
    ensures var s, d := DayItemList(3, 7), DateTime(2020, 9, 27, 8, 30);
      var e := FieldAtoms.MonthMutateAsWritten(d, 10);
      && IsValid(s.months, d) && !IsValid(s.days, d)
      && Next(s.days, d, zone) == None
      && e == DateTime(2020, 10, 27, 8, 30) && e != d && Matches(s, e)
      && Matches(s, DateTime(2020, 10, 3, 8, 30)) && Before(DateTime(2020, 10, 3, 8, 30), e)
  {
    var d := DateTime(2020, 9, 27, 8, 30);
    DayItemListDays(3, 7, d, zone);
    DayItemListNoDayLeft(d, zone);
    DayItemListDays(3, 7, DateTime(2020, 10, 27, 8, 30), zone);
    DayItemListDays(3, 7, DateTime(2020, 10, 3, 8, 30), zone);
  }

  /** As written, from 08:30 on 27 September 2020 the days of "30 8 3-7,12W,L-4 * ?" hand
      over to the months, whose step keeps the day and the time. */
  lemma DayItemListDaysAsWritten(zone: Zone)
    ensures var d := DateTime(2020, 9, 27, 8, 30);
      GetNextValidAsWritten(DayItemList(3, 7), Days, d, zone) == DateTime(2020, 10, 27, 8, 30)
  {
    var s, d := DayItemList(3, 7), DateTime(2020, 9, 27, 8, 30);
    DayItemListNoDayLeft(d, zone);
    assert AvoidsMonths(s.days) by {
      assert AvoidsMonths(DayItems(3, 7));
    }
    NextAsWrittenAvoidingMonths(s.days, d, zone);
    FieldAtoms.NextStepIsLeastAbove(9, 1, 1);
    assert NextAsWritten(s.months, d, zone) == Some(FieldAtoms.MonthMutateAsWritten(d, 10));
  }

  /** As written, the search of "30 8 3-7,12W,L-4 * ?" from 08:30 on 27 September 2020 ends
      with its first pass, at 08:30 on 27 October, which matches every field. */
  lemma DayItemListSearchAsWritten(zone: Zone)
    ensures var d, e := DateTime(2020, 9, 27, 8, 30), DateTime(2020, 10, 27, 8, 30);
      && PassAsWritten(DayItemList(3, 7), d, d, zone) == e
      && SearchAsWritten(DayItemList(3, 7), d, d, zone, MaxIterations) == Ok(e)
  {
    var s, d := DayItemList(3, 7), DateTime(2020, 9, 27, 8, 30);
    var e := DateTime(2020, 10, 27, 8, 30);
    DayItemListMonthStepAsWritten(zone);
    DayItemListDaysAsWritten(zone);
    assert PassAsWritten(s, d, d, zone) == e;
  }

  /** On 1 October 2020 the days of "30 8 3-7,12W,L-4 * ?" move on to the 3rd, keeping the
      time: the 12th and the 27th are later. */
  lemma DayItemListDaysFromFirst(d: DateTime, zone: Zone)
    requires WellFormed(d) && d.year == 2020 && d.month == 10 && d.day == 1
    ensures Next(DayItemList(3, 7).days, d, zone) == Some(d.(day := 3))
  {
    var items := DayItems(3, 7).atoms;
    NearestTwelfthIn2020(d);
    assert Next(items[0], d, zone) == Some(d.(day := 3));
    assert Next(items[1], d, zone) == Some(d.(day := 12));
    assert Next(items[2], d, zone) == Some(d.(day := 27));
    OrNextPicks(items, d, zone, 0);
    BlankWeekdaysChangeNothing(DayItems(3, 7), d, zone);
  }

  /** From 08:30 on 27 September 2020 the first pass of "30 8 3-7,12W,L-4 * ?" moves to the
      start of October and repairs the hours and the minutes. */
  lemma DayItemListPassToOctober(zone: Zone)
    ensures var d := DateTime(2020, 9, 27, 8, 30);
      Pass(DayItemList(3, 7), d, d, zone) == DateTime(2020, 10, 1, 8, 30)
  {
    var s, d := DayItemList(3, 7), DateTime(2020, 9, 27, 8, 30);
    var m := DateTime(2020, 10, 1, 0, 0);
    DayItemListMonthEnd(d, zone);
    assert Next(s.hours, m, zone) == Some(m.(hour := 8));
    assert Next(s.minutes, m.(hour := 8), zone) == Some(m.(hour := 8, minute := 30));
    PassRepairs(s, d, d, d, m, m.(hour := 8), m.(hour := 8, minute := 30), zone);
  }

  /** From 08:30 on 27 September 2020, "30 8 3-7,12W,L-4 * ?" next fires at 08:30 on
      3 October: the first pass moves to the start of October and repairs the hours and
      minutes, the second moves on to the 3rd, the first day of the range. */
  lemma DayItemListNextMonth(zone: Zone)
    ensures var d := DateTime(2020, 9, 27, 8, 30);
      Search(DayItemList(3, 7), d, d, zone, MaxIterations) == Ok(DateTime(2020, 10, 3, 8, 30))
  {
    var s, d := DayItemList(3, 7), DateTime(2020, 9, 27, 8, 30);
    var n := DateTime(2020, 10, 1, 8, 30);
    DayItemListPassToOctober(zone);
    DayItemListDays(3, 7, n, zone);
    SearchGoesOn(s, d, d, zone, MaxIterations - 1);
    DayItemListPassToThird(d, zone);
    SearchStops(s, d, n, zone, MaxIterations - 2);
  }

  /** From 08:30 on 1 October 2020 the next pass of "30 8 3-7,12W,L-4 * ?" moves on to 08:30
      on the 3rd, which matches every field. */
  lemma DayItemListPassToThird(start: DateTime, zone: Zone)
    requires start != DateTime(2020, 10, 3, 8, 30)
    ensures var e := DateTime(2020, 10, 3, 8, 30);
      Pass(DayItemList(3, 7), start, DateTime(2020, 10, 1, 8, 30), zone) == e && Matches(DayItemList(3, 7), e)
  {
    var s := DayItemList(3, 7);
    var n := DateTime(2020, 10, 1, 8, 30);
    var e := DateTime(2020, 10, 3, 8, 30);
    DayItemListDays(3, 7, n, zone);
    DayItemListDaysFromFirst(n, zone);
    DayItemListDays(3, 7, e, zone);
    PassRepairs(s, start, n, n, e, e, e, zone);
  }

  /** The schedule of "0 0-4 * * *". */
  function EarlyHours(): (s: Schedule)
    ensures WellFormedSchedule(s)
  {
    Schedule(Value(FieldAtoms.MinuteField, 0), Range(FieldAtoms.HourField, 0, 4, 1),
      Or([Range(FieldAtoms.DayOfMonthField, 1, 31, 1), WeekdayRange(0, 6)]), Range(FieldAtoms.MonthField, 1, 12, 1))
  }

  /** The schedule of "0 1 * * *". */
  function OneOClock(): (s: Schedule)
    ensures WellFormedSchedule(s)
  {
    Schedule(Value(FieldAtoms.MinuteField, 0), Value(FieldAtoms.HourField, 1),
      Or([Range(FieldAtoms.DayOfMonthField, 1, 31, 1), WeekdayRange(0, 6)]), Range(FieldAtoms.MonthField, 1, 12, 1))
  }

  /** The expression parses to that schedule. */
  lemma EarlyHoursIsParsed()
    ensures ParseCron(JoinFields(["0", "0-4", "*", "*", "*"])) == Ok(EarlyHours())
  {
    WildcardAtomValues();
    EarlyHoursParses();
  }

  /** The expression parses to that schedule. */
  lemma OneOClockIsParsed()
    ensures ParseCron(JoinFields(["0", "1", "*", "*", "*"])) == Ok(OneOClock())
  {
    WildcardAtomValues();
    OneOClockParses();
  }

  /** Every date matches the months and days of both schedules. */
  lemma EveryDayMatches(d: DateTime)
    requires WellFormed(d)
    ensures IsValid(EarlyHours().months, d) && IsValid(EarlyHours().days, d)
    ensures OneOClock().months == EarlyHours().months && OneOClock().days == EarlyHours().days
  {
    assert IsValid(EarlyHours().days.atoms[0], d);
  }

  /** At 01:00, when the zone's offset drops before 02:00 (the end of daylight saving time),
      "0 0-4 * * *" fires again at 01:00: the hour range steps to 02:00, which the backward
      shift turns into the repeated 01:00. The local model has one 01:00, so the result is
      the start itself; in the source it is the same wall-clock time an hour later. */
  lemma EarlyHoursRepeatsFallBackHour(d: DateTime, zone: Zone)
    requires WellFormed(d) && d.hour == 1 && d.minute == 0 && zone(d.(hour := 2)) < zone(d)
    ensures Search(EarlyHours(), d, d, zone, MaxIterations) == Ok(d)
  {
    var s := EarlyHours();
    EveryDayMatches(d);
    assert Next(s.minutes, d, zone) == None;
    FieldAtoms.HourRangeMutateCases(0, 1, d, 2, zone);
    assert GetNextValid(s, Hours, d, zone) == d;
    assert GetNextValid(s, Minutes, d, zone) == d;
  }

  /** A date matches "0 1 * * *" exactly when it is 01:00. */
  lemma OneOClockMatches(d: DateTime)
    requires WellFormed(d)
    ensures Matches(OneOClock(), d) <==> d.hour == 1 && d.minute == 0
  {
    EveryDayMatches(d);
  }

  /** The day-of-month range of "0 1 * * *" moves on to the next day, keeping the time. */
  lemma OneOClockDayRangeNext(d: DateTime, zone: Zone)
    requires WellFormed(d) && d.day < DaysInMonth(d.year, d.month)
    ensures Next(OneOClock().days.atoms[0], d, zone) == Some(d.(day := d.day + 1))
  {
    assert FieldAtoms.NextStep(d.day, 1, 1) == d.day + 1;
    FieldAtoms.RangeNextStepped(FieldAtoms.DayOfMonthField, 1, 31, 1, d, zone);
  }

  /** The weekday range of "0 1 * * *" moves on to midnight of the next day. */
  lemma OneOClockWeekdaysNext(d: DateTime, zone: Zone)
    requires WellFormed(d) && d.day < DaysInMonth(d.year, d.month)
    ensures Next(OneOClock().days.atoms[1], d, zone) == Some(d.(day := d.day + 1, hour := 0, minute := 0))
  {
    DayOfWeekAtoms.FullWeekRangeNext(d);
    assert Next(OneOClock().days.atoms[1], d, zone) == DayOfWeekAtoms.WeekdayRangeNext(0, 6, d);
  }

  /** The days of "0 1 * * *" move on to midnight of the next day of the month: the weekday
      range gets there before the day-of-month range. */
  lemma OneOClockDaysNext(d: DateTime, zone: Zone)
    requires WellFormed(d) && d.day < DaysInMonth(d.year, d.month)
    ensures GetNextValid(OneOClock(), Days, d, zone) == d.(day := d.day + 1, hour := 0, minute := 0)
  {
    var atoms := OneOClock().days.atoms;
    var m := d.(day := d.day + 1, hour := 0, minute := 0);
    OneOClockDayRangeNext(d, zone);
    OneOClockWeekdaysNext(d, zone);
    forall i | 0 <= i < |atoms| && Next(atoms[i], d, zone).Some?
      ensures !Before(Next(atoms[i], d, zone).value, m)
    {
      if i == 0 {
        assert Next(atoms[0], d, zone).value == d.(day := d.day + 1);
      }
    }
    OrNextPicks(atoms, d, zone, 1);
    assert Next(OneOClock().days, d, zone) == Some(m);
  }

  /** From 01:00, the first pass finds no later minute or hour that day and moves on to
      midnight of the next day. */
  lemma OneOClockPassFromStart(d: DateTime, zone: Zone)
    requires WellFormed(d) && d.hour == 1 && d.minute == 0 && d.day < DaysInMonth(d.year, d.month)
    ensures Pass(OneOClock(), d, d, zone) == d.(day := d.day + 1, hour := 0, minute := 0)
  {
    var s := OneOClock();
    EveryDayMatches(d);
    assert Next(s.minutes, d, zone) == None;
    assert Next(s.hours, d, zone) == None;
    OneOClockDaysNext(d, zone);
  }

  /** From midnight, the next pass repairs the hour. */
  lemma OneOClockPassFromMidnight(start: DateTime, d: DateTime, zone: Zone)
    requires WellFormed(d) && d.hour == 0 && d.minute == 0 && start != d.(hour := 1)
    ensures Pass(OneOClock(), start, d, zone) == d.(hour := 1)
  {
    var s, e := OneOClock(), d.(hour := 1);
    EveryDayMatches(d);
    OneOClockMatches(e);
    assert Next(s.hours, d, zone) == Some(e);
  }

  /** From 01:00, "0 1 * * *" fires at 01:00 the next day, whatever the zone: a single hour
      value has no duplicate-hour compensation. */
  lemma OneOClockFiresNextDay(d: DateTime, zone: Zone)
    requires WellFormed(d) && d.hour == 1 && d.minute == 0 && d.day < DaysInMonth(d.year, d.month)
    ensures Search(OneOClock(), d, d, zone, MaxIterations) == Ok(d.(day := d.day + 1))
  {
    var s, e := OneOClock(), d.(day := d.day + 1);
    var m := e.(hour := 0);
    assert m.(hour := 1) == e;
    OneOClockPassFromMidnight(d, m, zone);
    OneOClockMatches(e);
    assert Search(s, d, m, zone, MaxIterations - 1) == Ok(e);
    assert Pass(s, d, d, zone) == m && !Matches(s, m) by {
      OneOClockPassFromStart(d, zone);
      OneOClockMatches(m);
    }
  }
}
