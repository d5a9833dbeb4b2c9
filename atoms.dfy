/**
  Schedule atoms: one datatype with a case per atom class, the smart constructors that
  validate as the class constructors do, `getNextDateAfter` (Next), `isValid` (IsValid),
  `toString` (Render), and the OR combinator.
 */
module Atoms {
  import opened Outcomes
  import opened Calendar
  import opened Numerals
  import opened FieldAtoms
  import opened DayOfMonthAtoms
  import opened DayOfWeekAtoms

  datatype Atom =
    | Noop
      /** `MinuteValueAtom`, `HourValueAtom`, `DayOfMonthValueAtom`, `MonthValueAtom`. */
    | Value(field: Field, value: int)
      /** `MinuteRangeAtom`, `HourRangeAtom`, `DayOfMonthRangeAtom`, `MonthRangeAtom`. */
    | Range(field: Field, min: int, max: int, step: int)
      /** `DayOfMonthWeekdayAtom` (`nW`, `LW`). */
    | NearestWeekday(day: int)
      /** `LastDayOfMonthAtom` (`L`, `L-k`). */
    | LastOfMonth(offset: int)
      /** `DayOfWeekValueAtom`. */
    | WeekdayValue(weekday: int)
      /** `DayOfWeekRangeAtom`. */
    | WeekdayRange(first: int, last: int)
      /** `LastDayOfWeekAtom` (`nL`). */
    | LastWeekday(weekday: int)
      /** `NthDayOfWeekAtom` (`n#k`). */
    | NthWeekday(weekday: int, ordinal: int)
      /** `OrAtom`. */
    | Or(atoms: seq<Atom>)

  /** The invariant the constructors establish: every value within its field's bounds. */
  predicate WellFormedAtom(a: Atom)
  {
    match a
    case Noop => true
    case Value(f, v) => FieldMin(f) <= v <= FieldMax(f)
    case Range(f, min, max, step) => FieldMin(f) <= min <= max <= FieldMax(f) && 1 <= step <= FieldMax(f)
    case NearestWeekday(v) => 1 <= v <= 31
    case LastOfMonth(k) => 0 <= k <= 30
    case WeekdayValue(v) => MinCronWeekday <= v <= MaxCronWeekday
    case WeekdayRange(lo, hi) => MinCronWeekday <= lo <= hi <= MaxCronWeekday
    case LastWeekday(v) => MinCronWeekday <= v <= MaxCronWeekday
    case NthWeekday(v, n) => MinCronWeekday <= v <= MaxCronWeekday && 1 <= n <= 5
    case Or(atoms) => forall i :: 0 <= i < |atoms| ==> WellFormedAtom(atoms[i])
  }

  // ---------------------------------------------------------------------------------
  // Smart constructors: the checks of the class constructors, in their order

  /** `ValueAtom` constructor. */
  function MakeValue(f: Field, v: int): (r: Result<Atom>)
    ensures r.Ok? <==> FieldMin(f) <= v <= FieldMax(f)
    ensures r.Err? ==> r.error == RangeError
    ensures r.Ok? ==> WellFormedAtom(r.value) && r.value.Value? && r.value.field == f && r.value.value == v
  {
    if v < FieldMin(f) || v > FieldMax(f) then Err(RangeError) else Ok(Value(f, v))
  }

  /** `RangeAtom` constructor: three RangeError checks (min, max, step), and only then the
      InvalidRangeError check for an inverted range. */
  function MakeRange(f: Field, min: int, max: int, step: int): (r: Result<Atom>)
    ensures r.Err? && r.error == RangeError <==>
              min < FieldMin(f) || max > FieldMax(f) || step < 1 || step > FieldMax(f)
    ensures r.Err? && r.error == InvalidRangeError <==>
              FieldMin(f) <= min && max <= FieldMax(f) && 1 <= step <= FieldMax(f) && max < min
    ensures r.Err? ==> r.error in {RangeError, InvalidRangeError}
    ensures r.Ok? ==> WellFormedAtom(r.value) && r.value == Range(f, min, max, step)
  {
    if min < FieldMin(f) then Err(RangeError)
    else if max > FieldMax(f) then Err(RangeError)
    else if step < 1 || step > FieldMax(f) then Err(RangeError)
    else if max < min then Err(InvalidRangeError)
    else Ok(Range(f, min, max, step))
  }

  /** `LastDayOfMonthAtom` constructor: the offset must lie in 0..30. */
  function MakeLastOfMonth(offset: int): (r: Result<Atom>)
    ensures r.Ok? <==> 0 <= offset <= 30
    ensures r.Err? ==> r.error == RangeError
    ensures r.Ok? ==> WellFormedAtom(r.value) && r.value == LastOfMonth(offset)
  {
    if offset < 0 || offset > 30 then Err(RangeError) else Ok(LastOfMonth(offset))
  }

  /** `DayOfWeekValueAtom` constructor. */
  function MakeWeekdayValue(v: int): (r: Result<Atom>)
    ensures r.Ok? <==> MinCronWeekday <= v <= MaxCronWeekday
    ensures r.Err? ==> r.error == RangeError
    ensures r.Ok? ==> WellFormedAtom(r.value) && r.value == WeekdayValue(v)
  {
    if v < MinCronWeekday || v > MaxCronWeekday then Err(RangeError) else Ok(WeekdayValue(v))
  }

  /** `DayOfWeekRangeAtom` constructor: RangeError for min or max out of 0..6, checked first,
      then InvalidRangeError for min > max. */
  function MakeWeekdayRange(min: int, max: int): (r: Result<Atom>)
    ensures r.Err? && r.error == RangeError <==> min < MinCronWeekday || max > MaxCronWeekday
    ensures r.Err? && r.error == InvalidRangeError <==>
              MinCronWeekday <= min && max <= MaxCronWeekday && min > max
    ensures r.Err? ==> r.error in {RangeError, InvalidRangeError}
    ensures r.Ok? ==> WellFormedAtom(r.value) && r.value == WeekdayRange(min, max)
  {
    if min < MinCronWeekday then Err(RangeError)
    else if max > MaxCronWeekday then Err(RangeError)
    else if min > max then Err(InvalidRangeError)
    else Ok(WeekdayRange(min, max))
  }

  /** `LastDayOfWeekAtom` constructor. */
  function MakeLastWeekday(v: int): (r: Result<Atom>)
    ensures r.Ok? <==> MinCronWeekday <= v <= MaxCronWeekday
    ensures r.Err? ==> r.error == RangeError
    ensures r.Ok? ==> WellFormedAtom(r.value) && r.value == LastWeekday(v)
  {
    if v < MinCronWeekday || v > MaxCronWeekday then Err(RangeError) else Ok(LastWeekday(v))
  }

  /** `NthDayOfWeekAtom` constructor: the weekday is checked before the ordinal. */
  function MakeNthWeekday(v: int, n: int): (r: Result<Atom>)
    ensures r.Ok? <==> MinCronWeekday <= v <= MaxCronWeekday && 1 <= n <= 5
    ensures r.Err? ==> r.error == RangeError
    ensures r.Ok? ==> WellFormedAtom(r.value) && r.value == NthWeekday(v, n)
  {
    if v < MinCronWeekday || v > MaxCronWeekday then Err(RangeError)
    else if n < 1 || n > 5 then Err(RangeError)
    else Ok(NthWeekday(v, n))
  }

  // ---------------------------------------------------------------------------------
  // The OR combinator's helpers

  /** `filter((result) => result !== null)`. */
  function Somes(rs: seq<Option<DateTime>>): (vs: seq<DateTime>)
    ensures forall x :: x in vs <==> Some(x) in rs
  {
    if |rs| == 0 then []
    else
      assert rs == [rs[0]] + rs[1..];
      (if rs[0].Some? then [rs[0].value] else []) + Somes(rs[1..])
  }

  /** `DateTime.min(...)`: an earliest element of a non-empty list. */
  function Earliest(vs: seq<DateTime>): (m: DateTime)
    requires |vs| > 0
    ensures m in vs
    ensures forall x :: x in vs ==> !Before(x, m)
  {
    if |vs| == 1 then vs[0]
    else
      var rest := Earliest(vs[1..]);
      assert vs == [vs[0]] + vs[1..];
      if Before(rest, vs[0]) then rest else vs[0]
  }

  /** `OrAtom.getNextDateAfter` given the children's results, in order. */
  function OrNext(rs: seq<Option<DateTime>>): Option<DateTime>
  {
    var vs := Somes(rs);
    if |vs| > 0 then Some(Earliest(vs)) else None
  }

  // ---------------------------------------------------------------------------------
  // getNextDateAfter and isValid

  /** `getNextDateAfter`: the next date within the current coarser period whose field the atom
      accepts, or None. Every result is a well-formed date-time. */
  function Next(a: Atom, d: DateTime, zone: Zone): (r: Option<DateTime>)
    requires WellFormedAtom(a) && WellFormed(d)
    ensures r.Some? ==> WellFormed(r.value)
    decreases a
  {
    match a
    case Noop => None
    case Value(f, v) => ValueNext(f, v, d)
    case Range(f, min, max, step) => RangeNext(f, min, max, step, d, zone)
    case NearestWeekday(v) => NearestWeekdayNext(v, d)
    case LastOfMonth(k) => LastOfMonthNext(k, d)
    case WeekdayValue(v) => WeekdayValueNext(v, d)
    case WeekdayRange(lo, hi) => WeekdayRangeNext(lo, hi, d)
    case LastWeekday(v) => LastWeekdayNext(v, d)
    case NthWeekday(v, n) => NthWeekdayNext(v, n, d)
    case Or(atoms) =>
      var rs := seq(|atoms|, i requires 0 <= i < |atoms| => Next(atoms[i], d, zone));
      var r := OrNext(rs);
      assert r.Some? ==> WellFormed(r.value) by {
        if r.Some? {
          assert Some(r.value) in rs;
        }
      }
      r
  }

  /** `isValid`. */
  predicate IsValid(a: Atom, d: DateTime)
    requires WellFormedAtom(a) && WellFormed(d)
    decreases a
  {
    match a
    case Noop => false
    case Value(f, v) => ValueIsValid(f, v, d)
    case Range(f, min, max, step) => RangeIsValid(f, min, max, step, d)
    case NearestWeekday(v) => NearestWeekdayIsValid(v, d)
    case LastOfMonth(k) => LastOfMonthIsValid(k, d)
    case WeekdayValue(v) => WeekdayValueIsValid(v, d)
    case WeekdayRange(lo, hi) => WeekdayRangeIsValid(lo, hi, d)
    case LastWeekday(v) => LastWeekdayIsValid(v, d)
    case NthWeekday(v, n) => NthWeekdayIsValid(v, n, d)
    case Or(atoms) => exists i :: 0 <= i < |atoms| && IsValid(atoms[i], d)
  }

  // ---------------------------------------------------------------------------------
  // toString

  /** `join(",")`. */
  function Join(parts: seq<string>): string
  {
    if |parts| == 0 then ""
    else if |parts| == 1 then parts[0]
    else parts[0] + "," + Join(parts[1..])
  }

  /** `toString`. `DayOfWeekRangeAtom` and `NthDayOfWeekAtom` define none; they are written the
      way the parser's expectations spell them. */
  function Render(a: Atom): string
    decreases a
  {
    match a
    case Noop => "Noop"
    case Value(_, v) => "Value(" + IntToString(v) + ")"
    case Range(_, min, max, step) =>
      "Range(" + IntToString(min) + "-" + IntToString(max)
      + (if step > 1 then "/" + IntToString(step) else "") + ")"
    case NearestWeekday(v) => "Weekday(" + IntToString(v) + ")"
    case LastOfMonth(k) => "LastOfMonth(" + IntToString(k) + ")"
    case WeekdayValue(v) => "Value(" + IntToString(v) + ")"
    case WeekdayRange(lo, hi) => "Range(" + IntToString(lo) + "-" + IntToString(hi) + ")"
    case LastWeekday(v) => "LastDayOfWeek(" + IntToString(v) + ")"
    case NthWeekday(v, n) => "NthDayOfWeek(" + IntToString(v) + "," + IntToString(n) + ")"
    case Or(atoms) => "OR(" + Join(seq(|atoms|, i requires 0 <= i < |atoms| => Render(atoms[i]))) + ")"
  }

  /** The text of an integer holds no "/". */
  lemma NoSlashInNumber(n: int)
    ensures '/' !in IntToString(n)
  {
    var t := NatToString(if n < 0 then -n else n);
    assert forall i :: 0 <= i < |t| ==> IsDigit(t[i]);
    assert IntToString(n) == if n < 0 then "-" + t else t;
  }

  /** A Range atom is written with "/step" exactly when its step is above one: a stepped
      range's text is the unstepped one with "/step" before the closing parenthesis, and a
      range of step one has no "/" at all. */
  lemma RangeRenderStep(f: Field, min: int, max: int, step: int)
    ensures '/' in Render(Range(f, min, max, step)) <==> step > 1
    ensures var plain := Render(Range(f, min, max, 1));
      && |plain| >= 1 && plain[|plain| - 1] == ')'
      && Render(Range(f, min, max, step))
           == if step > 1 then plain[..|plain| - 1] + "/" + IntToString(step) + ")" else plain
  {
    var lo, hi := IntToString(min), IntToString(max);
    NoSlashInNumber(min);
    NoSlashInNumber(max);
    var plain := Render(Range(f, min, max, 1));
    assert plain == "Range(" + lo + "-" + hi + ")";
    assert plain[..|plain| - 1] == "Range(" + lo + "-" + hi;
    assert '/' !in plain;
    if step > 1 {
      assert '/' in Render(Range(f, min, max, step)) by {
        var text := Render(Range(f, min, max, step));
        assert text == plain[..|plain| - 1] + "/" + IntToString(step) + ")";
        assert text[|plain| - 1] == '/';
      }
    }
  }

  // ---------------------------------------------------------------------------------
  // The OR combinator

  /** OR's next is None exactly when every child's is; otherwise it is one of the children's
      results, and no child's result is earlier. */
  lemma OrNextSpec(atoms: seq<Atom>, d: DateTime, zone: Zone)
    requires WellFormedAtom(Or(atoms)) && WellFormed(d)
    ensures var r := Next(Or(atoms), d, zone);
      && (r.None? <==> forall i :: 0 <= i < |atoms| ==> Next(atoms[i], d, zone).None?)
      && (r.Some? ==> exists i :: 0 <= i < |atoms| && Next(atoms[i], d, zone) == r)
      && (r.Some? ==> forall i :: 0 <= i < |atoms| && Next(atoms[i], d, zone).Some? ==>
                        !Before(Next(atoms[i], d, zone).value, r.value))
  {
    var rs := seq(|atoms|, i requires 0 <= i < |atoms| => Next(atoms[i], d, zone));
    var vs := Somes(rs);
    var r := Next(Or(atoms), d, zone);
    assert r == OrNext(rs);
    if r.None? {
      forall i | 0 <= i < |atoms|
        ensures Next(atoms[i], d, zone).None?
      {
        if rs[i].Some? {
          assert rs[i].value in vs;
        }
      }
    } else {
      assert Some(r.value) in rs;
      forall i | 0 <= i < |atoms| && Next(atoms[i], d, zone).Some?
        ensures !Before(Next(atoms[i], d, zone).value, r.value)
      {
        assert rs[i] == Some(rs[i].value);
        assert rs[i].value in vs;
      }
    }
  }

  /** When no child's next is earlier than child j's, OR's next is child j's. */
  lemma OrNextPicks(atoms: seq<Atom>, d: DateTime, zone: Zone, j: int)
    requires WellFormedAtom(Or(atoms)) && WellFormed(d)
    requires 0 <= j < |atoms| && Next(atoms[j], d, zone).Some?
    requires forall i :: 0 <= i < |atoms| && Next(atoms[i], d, zone).Some? ==>
               !Before(Next(atoms[i], d, zone).value, Next(atoms[j], d, zone).value)
    ensures Next(Or(atoms), d, zone) == Next(atoms[j], d, zone)
  {
    OrNextSpec(atoms, d, zone);
    var r := Next(Or(atoms), d, zone);
    var i :| 0 <= i < |atoms| && Next(atoms[i], d, zone) == r;
    BeforeIsTotal(r.value, Next(atoms[j], d, zone).value);
  }

  /** Reordering (or permuting) the children does not change OR's next. */
  lemma OrNextOrderIndependent(atoms: seq<Atom>, others: seq<Atom>, d: DateTime, zone: Zone)
    requires WellFormedAtom(Or(atoms)) && WellFormed(d)
    requires multiset(atoms) == multiset(others)
    ensures WellFormedAtom(Or(others))
    ensures Next(Or(atoms), d, zone) == Next(Or(others), d, zone)
  {
    assert forall x :: x in atoms <==> x in multiset(atoms);
    assert forall x :: x in others <==> x in multiset(others);
    OrNextSameMembers(atoms, others, d, zone);
  }

  /** OR's next depends only on which children it has. */
  lemma OrNextSameMembers(atoms: seq<Atom>, others: seq<Atom>, d: DateTime, zone: Zone)
    requires WellFormedAtom(Or(atoms)) && WellFormed(d)
    requires forall x :: x in atoms <==> x in others
    ensures WellFormedAtom(Or(others))
    ensures Next(Or(atoms), d, zone) == Next(Or(others), d, zone)
  {
    forall j | 0 <= j < |others|
      ensures WellFormedAtom(others[j])
    {
      assert others[j] in atoms;
    }
    var r, q := Next(Or(atoms), d, zone), Next(Or(others), d, zone);
    OrNextSpec(atoms, d, zone);
    OrNextSpec(others, d, zone);
    OrFiresWithSubset(atoms, others, d, zone);
    OrFiresWithSubset(others, atoms, d, zone);
    if r.Some? && q.Some? {
      // each is one of the other's children's results, so neither is earlier than the other
      var i :| 0 <= i < |atoms| && Next(atoms[i], d, zone) == r;
      assert atoms[i] in others;
      var j :| 0 <= j < |others| && Next(others[j], d, zone) == q;
      assert others[j] in atoms;
      BeforeIsTotal(r.value, q.value);
    }
  }

  /** When every child of one OR is a child of another, the second fires whenever the
      first does. */
  lemma OrFiresWithSubset(atoms: seq<Atom>, others: seq<Atom>, d: DateTime, zone: Zone)
    requires WellFormedAtom(Or(atoms)) && WellFormedAtom(Or(others)) && WellFormed(d)
    requires forall x :: x in atoms ==> x in others
    ensures Next(Or(atoms), d, zone).Some? ==> Next(Or(others), d, zone).Some?
  {
    OrNextSpec(atoms, d, zone);
    OrNextSpec(others, d, zone);
    if Next(Or(atoms), d, zone).Some? {
      var i :| 0 <= i < |atoms| && Next(atoms[i], d, zone).Some?;
      assert atoms[i] in others;
    }
  }

  /** An OR without children never fires and is never valid; neither is Noop. */
  lemma EmptyAlternativesNeverMatch(d: DateTime, zone: Zone)
    requires WellFormed(d)
    ensures Next(Or([]), d, zone) == None && !IsValid(Or([]), d)
    ensures Next(Noop, d, zone) == None && !IsValid(Noop, d)
  {
  }

  // ---------------------------------------------------------------------------------
  // Soundness of next

  /** Every result of next satisfies the same atom's isValid. */
  lemma {:induction false} NextIsValid(a: Atom, d: DateTime, zone: Zone)
    requires WellFormedAtom(a) && WellFormed(d)
    requires Next(a, d, zone).Some?
    ensures IsValid(a, Next(a, d, zone).value)
    decreases a
  {
    var r := Next(a, d, zone).value;
    match a
    case Value(f, v) => ValueNextSpec(f, v, d);
    case Range(f, min, max, step) =>
      var c := Accessor(f, d);
      if c < min {
        RangeNextBelowMin(f, min, max, step, d, zone);
        if f == HourField {
          HourRangeMutateCases(min, step, d, min, zone);
        }
      } else {
        RangeNextStepped(f, min, max, step, d, zone);
        var n := NextStep(c, min, step);
        NextStepIsLeastAbove(c, min, step);
        if f == HourField {
          HourRangeMutateCases(min, step, d, n, zone);
          if step == 1 && min <= d.hour && n == d.hour + 1 && zone(SetHour(d, n)) < zone(d) {
            // the repeated hour: the result keeps the current hour, which the range holds
            assert (c - min) % 1 == 0;
          }
        }
      }
    case NearestWeekday(v) => NearestWeekdayNextSpec(v, d);
    case LastOfMonth(k) => LastOfMonthNextSpec(k, d);
    case WeekdayValue(v) => WeekdayValueNextSpec(v, d);
    case WeekdayRange(lo, hi) => WeekdayRangeNextSpec(lo, hi, d);
    case LastWeekday(v) => LastWeekdayNextSpec(v, d);
    case NthWeekday(v, n) => NthWeekdayNextSpec(v, n, d);
    case Or(atoms) =>
      OrNextSpec(atoms, d, zone);
      var i :| 0 <= i < |atoms| && Next(atoms[i], d, zone) == Some(r);
      NextIsValid(atoms[i], d, zone);
  }

  /** A range moves the field to a larger value; for hours, a backward offset shift cannot
      keep the hour. */
  lemma RangeNextIsLater(f: Field, min: int, max: int, step: int, d: DateTime, zone: Zone)
    requires WellFormed(d) && FieldMin(f) <= min <= max <= FieldMax(f) && step >= 1 && NoFallBack(zone)
    requires RangeNext(f, min, max, step, d, zone).Some?
    ensures Before(d, RangeNext(f, min, max, step, d, zone).value)
  {
    var c := Accessor(f, d);
    var v := if c < min then min else NextStep(c, min, step);
    if min <= c {
      NextStepIsLeastAbove(c, min, step);
    }
    if f == HourField {
      HourRangeMutateCases(min, step, d, v, zone);
      assert Before(d, SetHour(d, v));
    }
  }

  /** In a zone without a backward offset shift, every result of next is strictly later
      than its input. */
  lemma {:induction false} NextIsLater(a: Atom, d: DateTime, zone: Zone)
    requires WellFormedAtom(a) && WellFormed(d) && NoFallBack(zone)
    requires Next(a, d, zone).Some?
    ensures Before(d, Next(a, d, zone).value)
    decreases a
  {
    var r := Next(a, d, zone).value;
    match a
    case Value(f, v) =>
    case Range(f, min, max, step) => RangeNextIsLater(f, min, max, step, d, zone);
    case NearestWeekday(v) => NearestWeekdayNextSpec(v, d);
    case LastOfMonth(k) => LastOfMonthNextSpec(k, d);
    case WeekdayValue(v) => WeekdayValueNextSpec(v, d);
    case WeekdayRange(lo, hi) => WeekdayRangeNextSpec(lo, hi, d);
    case LastWeekday(v) => LastWeekdayNextSpec(v, d);
    case NthWeekday(v, n) => NthWeekdayNextSpec(v, n, d);
    case Or(atoms) =>
      OrNextSpec(atoms, d, zone);
      var i :| 0 <= i < |atoms| && Next(atoms[i], d, zone) == Some(r);
      NextIsLater(atoms[i], d, zone);
  }

  /** As written, Range(30-31) of the day of month, on 10 February 2021, moves to "day 30",
      which `setDate` turns into 2 March: a date the range rejects. With the capacity
      consulted, there is no next day in February. */
  lemma DayRangeRollsOverExample(zone: Zone)
    ensures var d := DateTime(2021, 2, 10, 9, 0);
      && RangeNextAsWritten(DayOfMonthField, 30, 31, 1, d, zone) == Some(DateTime(2021, 3, 2, 9, 0))
      && !IsValid(Range(DayOfMonthField, 30, 31, 1), DateTime(2021, 3, 2, 9, 0))
      && Next(Range(DayOfMonthField, 30, 31, 1), d, zone) == None
  {
  }

  // ---------------------------------------------------------------------------------
  // The month step as written

  /** `getNextDateAfter` with the month atoms' `calculateNextDate` as written: luxon
      `set({ month })` keeps the day and the time of day (MonthMutateAsWritten). Every other
      atom moves as Next does, and OR takes the earliest of its children's results. */
  function NextAsWritten(a: Atom, d: DateTime, zone: Zone): (r: Option<DateTime>)
    requires WellFormedAtom(a) && WellFormed(d)
    ensures r.Some? ==> WellFormed(r.value)
    decreases a
  {
    match a
    case Value(MonthField, v) => if d.month < v then Some(MonthMutateAsWritten(d, v)) else None
    case Range(MonthField, min, max, step) =>
      if d.month < min then Some(MonthMutateAsWritten(d, min))
      else
        var n := NextStep(d.month, min, step);
        NextStepIsLeastAbove(d.month, min, step);
        if n > max then None else Some(MonthMutateAsWritten(d, n))
    case Or(atoms) =>
      var rs := seq(|atoms|, i requires 0 <= i < |atoms| => NextAsWritten(atoms[i], d, zone));
      var r := OrNext(rs);
      assert r.Some? ==> WellFormed(r.value) by {
        if r.Some? {
          assert Some(r.value) in rs;
        }
      }
      r
    case _ => Next(a, d, zone)
  }

  /** The atom holds no month Value or Range, at any depth. */
  predicate AvoidsMonths(a: Atom)
    decreases a
  {
    match a
    case Value(f, _) => f != MonthField
    case Range(f, _, _, _) => f != MonthField
    case Or(atoms) => forall i :: 0 <= i < |atoms| ==> AvoidsMonths(atoms[i])
    case _ => true
  }

  /** The month step as written changes where the months land, never whether they do: the
      source's next gives a date exactly when the model's does. */
  lemma {:induction false} NextAsWrittenFiresWithNext(a: Atom, d: DateTime, zone: Zone)
    requires WellFormedAtom(a) && WellFormed(d)
    ensures NextAsWritten(a, d, zone).Some? <==> Next(a, d, zone).Some?
    decreases a
  {
    match a
    case Range(MonthField, min, max, step) =>
      if min <= d.month {
        FieldAtoms.RangeNextStepped(MonthField, min, max, step, d, zone);
      }
    case Or(atoms) =>
      var written := seq(|atoms|, i requires 0 <= i < |atoms| => NextAsWritten(atoms[i], d, zone));
      var model := seq(|atoms|, i requires 0 <= i < |atoms| => Next(atoms[i], d, zone));
      forall i | 0 <= i < |atoms|
        ensures written[i].Some? <==> model[i].Some?
      {
        NextAsWrittenFiresWithNext(atoms[i], d, zone);
      }
      if NextAsWritten(a, d, zone).Some? {
        var x := Earliest(Somes(written));
        var i :| 0 <= i < |atoms| && written[i] == Some(x);
        assert model[i].value in Somes(model);
      }
      if Next(a, d, zone).Some? {
        var x := Earliest(Somes(model));
        var i :| 0 <= i < |atoms| && model[i] == Some(x);
        assert written[i].value in Somes(written);
      }
    case _ =>
  }

  /** An atom without month Value or Range atoms moves as written exactly as in the model. */
  lemma {:induction false} NextAsWrittenAvoidingMonths(a: Atom, d: DateTime, zone: Zone)
    requires WellFormedAtom(a) && WellFormed(d) && AvoidsMonths(a)
    ensures NextAsWritten(a, d, zone) == Next(a, d, zone)
    decreases a
  {
    match a
    case Or(atoms) =>
      var written := seq(|atoms|, i requires 0 <= i < |atoms| => NextAsWritten(atoms[i], d, zone));
      var model := seq(|atoms|, i requires 0 <= i < |atoms| => Next(atoms[i], d, zone));
      forall i | 0 <= i < |atoms|
        ensures written[i] == model[i]
      {
        NextAsWrittenAvoidingMonths(atoms[i], d, zone);
      }
      assert written == model;
    case _ =>
  }
}
