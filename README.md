# task-schedule-parser in Dafny

A model of the core of `task-schedule-parser`: a cron scheduler that reads a five-field
expression (`minutes hours day-of-month months day-of-week`) and computes a date after a
given one on which the expression fires. That date is not always the earliest one: see
"## Findings".

The model follows the program's three layers:

- **Schedule atoms** (`field_atoms.dfy`, `day_of_month_atoms.dfy`, `day_of_week_atoms.dfy`,
  `atoms.dfy`). Each field value of an expression is an atom with two operations:
  - `getNextDateAfter` gives the next date within the current coarser period (hour, day,
    month or year) whose field the atom accepts, or nothing.
  - `isValid` says whether a date is accepted.

  The atoms are:
  - Value and Range (with a step), with each field's bounds and mutator;
  - the day-of-month atoms `nW`, `LW`, `L` and `L-k`;
  - the day-of-week atoms value, range, `nL` and `n#k`;
  - the OR combinator and the no-op atom.

  Atoms are datatype values. `Atoms.Next` and `Atoms.IsValid` dispatch on them.
- **Parsers** (`field_grammars.dfy`, `cron_parser.dfy`). These model the Parsimmon grammars
  of each field and of the whole expression as PEG functions over strings. A reply is
  `Parsed(value, rest)`, `NoMatch`, or `Thrown(error)`; a `Thrown` reply is an atom
  constructor throwing inside `.map`. A throw ends the whole parse. `alt` tries its
  alternatives in the source's order, `sepBy` and `many` read comma-separated items, and
  `seq` joins the five fields with single spaces. The two day fields are combined with OR.
- **Scheduler** (`scheduler.dfy`).
  - `getNextValid` is a recursive function over the units minutes < hours < days <
    months < years.
  - `getNextDateAfter` is a method with the source's `while` loop of at most 100 passes.
    It is proved equal to a specification function `Search` over passes, whose soundness
    and lateness are lemmas.

Dates are naive local date-times (year, month, day, hour, minute) in the proleptic
Gregorian calendar (`calendar.dfy`). A time zone is any function from a local date-time
to its UTC offset, `Zone`. Only the hour Range atom consults it, to detect a backward
offset shift. Properties that need the clock never to repeat an hour assume
`NoFallBack(zone)`. Errors (`RangeError`, `InvalidRangeError`, `NextDateNotFound`,
`ParseError`) are an enumeration in `outcomes.dfy`, beside `Result` and `Option`.

## Model

| member | source | states |
|---|---|---|
| Calendar.DaysInMonth | src/schedule-atoms/day-of-month.ts:30-32 | A month has 28 to 31 days; February has 29 exactly in leap years and December has 31 |
| Calendar.IsoWeekdayShift | src/schedule-atoms/day-of-week.ts:28 | Moving the day within a month moves luxon's ISO weekday by the same number of days, mod 7 |
| Calendar.WeekdayShift | src/schedule-atoms/day-of-month.ts:46 | Moving the day within a month moves the `getDay` weekday by the same number of days, mod 7 |
| Calendar.StartOfNextYear | src/scheduler.ts:30-32 | Midnight of 1 January of the following year; strictly later than the input |
| Calendar.SetMonth | src/schedule-atoms/month.ts:10-12 | Year, hour and minute are kept and the month is the new one; the day is kept, or clamped to the new month's last day when it does not exist there |
| Calendar.AddDays | src/schedule-atoms/day-of-week.ts:31-37 | The result stays in the month exactly when day + k fits; then it is day + k. The time of day is kept, and a positive step is strictly later |
| Calendar.SetDate | src/schedule-atoms/day-of-month.ts:18-20 | A day that exists in the month is set in place; a day past the month's end rolls over into the next month by the excess |
| Numerals.NatToString | src/schedule-atoms/base.ts:50-52 | The decimal text of a number: non-empty, digits only, no leading zero, and reading it back gives the number |
| FieldAtoms.Capacity | src/schedule-atoms/day-of-month.ts:30-32 | `getMaxDateValue` is unbounded for every field except the day of month, whose bound is the month's length |
| FieldAtoms.Accessor | src/schedule-atoms/minutes.ts:7-9 | `getDateValue`: each field's value read from the date (minute, hour, day of month, month) |
| FieldAtoms.Mutate | src/schedule-atoms/base.ts:32 | After the field's `calculateNextDate` the field holds the new value, unless a day of month past the month's end rolled over. The month case is the corrected step of Findings row 3 (the start of the new month); the source's step is MonthMutateAsWritten |
| FieldAtoms.MinuteMutatorFrame | src/schedule-atoms/minutes.ts:10-12 | Setting the minute changes the minute and nothing else |
| FieldAtoms.HourMutatorFrame | src/schedule-atoms/hours.ts:10-12 | Setting the hour changes the hour and truncates to the start of that hour |
| FieldAtoms.MonthMutatorFrame | src/schedule-atoms/month.ts:10-12 | The month step goes to midnight on the 1st of the new month, and no date of that month comes before it. This is the corrected step of Findings row 3; the source keeps the day, see MonthMutateAsWritten |
| FieldAtoms.MonthMutateAsWritten | src/schedule-atoms/month.ts:10-12 | As written, `set({ month })` keeps the year and the time of day, and keeps the day, clamped to the new month's length. For any day after the 1st, that date is later than the start of the new month |
| FieldAtoms.DayMutatorFrame | src/schedule-atoms/day-of-month.ts:18-20 | Setting an existing day keeps the year, month and time of day |
| FieldAtoms.HourRangeMutateCases | src/schedule-atoms/hours.ts:21-35 | The hour Range mutator keeps the current hour exactly when the step is 1, the hour is in range, the target is the next hour and the zone's offset shifts backwards; otherwise it is the Value mutator. The result is always at minute 0 of the same day |
| FieldAtoms.HourRangeMutate | src/schedule-atoms/hours.ts:21-35 | `HourRangeAtom.calculateNextDate`: set the hour, take one hour back under the four conditions of lines 24-30, then truncate to the start of the hour. Its cases are stated by HourRangeMutateCases |
| FieldAtoms.RangeMutate | src/schedule-atoms/hours.ts:21-35 | The mutator a Range atom applies: the hour range's own override, otherwise the field's Value mutator |
| FieldAtoms.ValueNext | src/schedule-atoms/base.ts:34-42 | Every result of a Value atom's next is a well-formed date |
| FieldAtoms.ValueIsValid | src/schedule-atoms/base.ts:44-48 | `ValueAtom.isValid`: the field's value equals v. ValueNextSpec connects it to next |
| FieldAtoms.ValueNextSpec | src/schedule-atoms/base.ts:34-48 | Value next gives a date exactly when the field is below the value and the value fits the field's capacity; that date is then valid for the atom |
| FieldAtoms.CeilDiv | src/schedule-atoms/base.ts:118-119 | `Math.ceil(a / b)` for positive b: the least q with a <= b*q |
| FieldAtoms.NextStep | src/schedule-atoms/base.ts:118-119 | The stepped value `Math.ceil((c - min + 1) / step) * step + min`. NextStepIsLeastAbove states that it is the least on-step value above c |
| FieldAtoms.NextStepIsLeastAbove | src/schedule-atoms/base.ts:118-119 | The stepped value is greater than the current one, is min plus a multiple of the step, and no value between them is |
| FieldAtoms.RangeNext | src/schedule-atoms/base.ts:110-126 | Every result of a Range atom's next is a well-formed date. The below-minimum branch is corrected as in Findings row 4 (the capacity is checked there too); the source's branch is RangeNextAsWritten |
| FieldAtoms.RangeIsValid | src/schedule-atoms/base.ts:128-136 | `RangeAtom.isValid`: the field's value lies in [min, max] and is min plus a multiple of the step. NextIsValid connects it to next |
| FieldAtoms.RangeNextBelowMin | src/schedule-atoms/base.ts:113-116 | Below the range, next moves the field to min. It gives nothing exactly when min is a day of month past the month's length. This is the corrected half of Findings row 4 |
| FieldAtoms.RangeNextAsWritten | src/schedule-atoms/base.ts:109-126 | As written, below the range next moves to min without checking the capacity. It differs from RangeNext exactly for a day-of-month range whose min is past the month's length |
| FieldAtoms.RangeNextStepped | src/schedule-atoms/base.ts:118-125 | At or above min, next is nothing exactly when the next stepped value passes max or the capacity; otherwise it moves the field to that value |
| FieldAtoms.MinuteValueExamples | src/schedule-atoms/__tests__/base.ts:15-34 | Minute value 35 moves 00:30 to 00:35, and gives nothing at or after 00:35 |
| FieldAtoms.MinuteRangeExamples | src/schedule-atoms/__tests__/base.ts:72-98 | Range 15-30 moves 00:17 to 00:18 and 00:09 to 00:15, and gives nothing at 00:30 or 00:35 |
| FieldAtoms.SteppedMinuteRangeExamples | src/schedule-atoms/__tests__/base.ts:100-112 | Range 15-30/5 moves 00:17 to 00:20 and 00:27 to the maximum, 00:30 |
| FieldAtoms.DayOfMonthCapacityExamples | src/schedule-atoms/__tests__/day-of-month.ts:10-26 | On 30 September, day range 28-31 gives nothing; on 1 September, day value 31 gives nothing when capped by the month's length |
| DayOfMonthAtoms.NearestWeekdayDay | src/schedule-atoms/day-of-month.ts:42-69 | The nearest weekday to a day always lies inside the month |
| DayOfMonthAtoms.NearestWeekdayIsWeekday | src/schedule-atoms/day-of-month.ts:42-69 | The nearest weekday lies in the month and falls on Monday to Friday. It is the clamped day itself when that is a weekday, and never more than two days from it |
| DayOfMonthAtoms.NearestWeekdayNext | src/schedule-atoms/day-of-month.ts:77-85 | Every result of `nW` next is a well-formed date |
| DayOfMonthAtoms.NearestWeekdayIsValid | src/schedule-atoms/day-of-month.ts:87-91 | `isValid` of `nW`: the date's day is the month's weekday nearest to day v. NearestWeekdayNextSpec connects it to next |
| DayOfMonthAtoms.NearestWeekdayNextSpec | src/schedule-atoms/day-of-month.ts:77-91 | `nW` next moves to the nearest weekday, keeping the time of day, exactly when the current day is before it; the result is then valid |
| DayOfMonthAtoms.LastOfMonthNext | src/schedule-atoms/__tests__/day-of-month.ts:93-113 | Every result of `L-k` next is a well-formed date |
| DayOfMonthAtoms.LastOfMonthDay | src/parser/day-of-month.ts:41-44 | The day `L-k` names: the month's length minus k. LastOfMonthNextSpec states next and isValid in its terms |
| DayOfMonthAtoms.LastOfMonthIsValid | src/parser/day-of-month.ts:37-44 | `isValid` of `L-k`: the day is the month's length minus k. The class is not among the source files; LastOfMonthNextSpec connects this to next |
| DayOfMonthAtoms.LastOfMonthNextSpec | src/schedule-atoms/__tests__/day-of-month.ts:93-113 | `L-k` next moves to day (month length - k), keeping the time of day, exactly when the current day is before it; the result is then valid |
| DayOfMonthAtoms.DayValueNextUncapped | src/schedule-atoms/day-of-month.ts:12-21 | `DayOfMonthValueAtom.getNextDateAfter` as written (base.ts:34-42 with the inherited Infinity capacity): `setDate(v)` whenever the day is below v. It is the as-written half of Findings row 1 |
| DayOfMonthAtoms.DayValueUncappedRollsOver | src/schedule-atoms/day-of-month.ts:12-21 | As written, day value 31 on 1 September 2020 rolls over to 1 October instead of giving nothing |
| DayOfMonthAtoms.NearestWeekdayWednesdayExamples | src/schedule-atoms/__tests__/day-of-month.ts:31-45 | 12W in August 2020 is Wednesday the 12th; it is reached from the 2nd and has passed on the 14th |
| DayOfMonthAtoms.NearestWeekdayWeekendExamples | src/schedule-atoms/__tests__/day-of-month.ts:47-72 | In August 2020, 15W (a Saturday) is Friday the 14th, 1W (Saturday the 1st) is Monday the 3rd, and 16W (a Sunday) is Monday the 17th |
| DayOfMonthAtoms.NearestWeekdayMonthEndExamples | src/schedule-atoms/__tests__/day-of-month.ts:74-90 | 31W is Friday 29 January 2021 (the 31st is a Sunday). In February 2021 it is clamped to Sunday the 28th and gives Friday the 26th |
| DayOfMonthAtoms.LastOfMonthExamples | src/schedule-atoms/__tests__/day-of-month.ts:94-113 | L in August 2020 is the 31st; L-4 in September 2020 is the 26th and has passed on the 28th |
| DayOfWeekAtoms.ConvertLuxonValueToCronValue | src/schedule-atoms/day-of-week.ts:9-11 | The cron weekday is in 0..6 and is 0 exactly for luxon's Sunday, 7 |
| DayOfWeekAtoms.CronWeekday | src/schedule-atoms/day-of-week.ts:47 | `convertLuxonValueToCronValue(date.weekday)`: the cron weekday 0..6 of a date. CronWeekdayIsWeekday ties it to `getDay` |
| DayOfWeekAtoms.CronWeekdayIsWeekday | src/schedule-atoms/day-of-week.ts:28 | luxon's ISO weekday converted to cron numbering equals the `getDay` weekday of the same date |
| DayOfWeekAtoms.CronWeekdayShift | src/schedule-atoms/day-of-week.ts:28 | Within a month, the cron weekday moves with the day, mod 7 |
| DayOfWeekAtoms.ValueDaysAhead | src/schedule-atoms/day-of-week.ts:31-37 | The number of days to the next weekday v is 1 to 7, with a full week when the weekdays are equal, and lands on v |
| DayOfWeekAtoms.ValueDaysAheadIsFirst | src/schedule-atoms/day-of-week.ts:31-37 | No day before that distance has weekday v |
| DayOfWeekAtoms.WeekdayValueNext | src/schedule-atoms/day-of-week.ts:27-44 | Every result of weekday-value next is a well-formed date |
| DayOfWeekAtoms.WeekdayValueIsValid | src/schedule-atoms/day-of-week.ts:46-48 | `isValid` of a weekday value: the date's cron weekday is v. WeekdayValueNextSpec connects it to next |
| DayOfWeekAtoms.WeekdayValueNextSpec | src/schedule-atoms/day-of-week.ts:27-48 | Weekday-value next gives midnight of the first later day of the same month with weekday v; when there is none it gives nothing, and no valid day is skipped |
| DayOfWeekAtoms.RangeDaysAhead | src/schedule-atoms/day-of-week.ts:91-97 | The number of days to the next weekday in [min, max] is 1 to 7 and lands in the range |
| DayOfWeekAtoms.RangeDaysAheadIsFirst | src/schedule-atoms/day-of-week.ts:91-97 | No day before that distance has a weekday in the range |
| DayOfWeekAtoms.WeekdayRangeNext | src/schedule-atoms/day-of-week.ts:87-103 | Every result of weekday-range next is a well-formed date |
| DayOfWeekAtoms.WeekdayRangeIsValid | src/schedule-atoms/day-of-week.ts:105-109 | `isValid` of a weekday range: the date's cron weekday lies in [min, max]. WeekdayRangeNextSpec connects it to next |
| DayOfWeekAtoms.WeekdayRangeNextSpec | src/schedule-atoms/day-of-week.ts:87-109 | Weekday-range next gives midnight of the first later day of the same month whose weekday is in the range; when there is none it gives nothing, and no valid day is skipped |
| DayOfWeekAtoms.FullWeekRangeNext | src/schedule-atoms/day-of-week.ts:93-94 | The range 0-6 moves to midnight of the next day while the month has one |
| DayOfWeekAtoms.DaysBack | src/schedule-atoms/day-of-week.ts:133-139 | The step back from the month's last day to its last weekday v is 0 to 6 days |
| DayOfWeekAtoms.DaysBackIsUnique | src/schedule-atoms/day-of-week.ts:133-139 | Among the month's last seven days, exactly the one that far back has weekday v |
| DayOfWeekAtoms.LastWeekdayNext | src/schedule-atoms/day-of-week.ts:128-146 | Every result of `vL` next is a well-formed date |
| DayOfWeekAtoms.LastWeekdayDay | src/schedule-atoms/day-of-week.ts:129-139 | The day of the month's last weekday v: the last day, stepped back by DaysBack. DaysBackIsUnique states that it is that weekday's last occurrence |
| DayOfWeekAtoms.LastWeekdayIsValid | src/schedule-atoms/day-of-week.ts:148-153 | `isValid` of `vL`: weekday v and within the month's last seven days. LastWeekdayIsValidIff connects it to LastWeekdayDay |
| DayOfWeekAtoms.LastWeekdayIsValidIff | src/schedule-atoms/day-of-week.ts:148-153 | A date is valid for `vL` exactly when it is the month's last weekday v |
| DayOfWeekAtoms.LastWeekdayNextSpec | src/schedule-atoms/day-of-week.ts:128-146 | The month's last weekday v lies in its last seven days. `vL` next moves to its midnight exactly when the current day is before it, and the result is then valid |
| DayOfWeekAtoms.FirstOffset | src/schedule-atoms/day-of-week.ts:188-193 | The first weekday v of a month is 0 to 6 days after the first |
| DayOfWeekAtoms.NthWeekdayNext | src/schedule-atoms/day-of-week.ts:184-204 | Every result of `v#n` next is a well-formed date |
| DayOfWeekAtoms.NthWeekdayDay | src/schedule-atoms/day-of-week.ts:185-197 | The day of the n-th weekday v: the 1st plus FirstOffset plus n - 1 weeks. NthArithmetic and NthWeekdayIsValidIff state what it means |
| DayOfWeekAtoms.NthWeekdayIsValid | src/schedule-atoms/day-of-week.ts:206-211 | `isValid` of `v#n`: weekday v and `Math.ceil(day / 7)` equal to n. NthWeekdayIsValidIff connects it to NthWeekdayDay |
| DayOfWeekAtoms.WeekOfMonth | src/schedule-atoms/day-of-week.ts:209 | `Math.ceil(day / 7)` is the week of the month counted from the first |
| DayOfWeekAtoms.NthArithmetic | src/schedule-atoms/day-of-week.ts:188-209 | A day has weekday v and lies in week n exactly when it is the first weekday v plus n - 1 weeks |
| DayOfWeekAtoms.NthWeekdayIsValidIff | src/schedule-atoms/day-of-week.ts:206-211 | A date is valid for `v#n` exactly when it is the n-th weekday v of its month |
| DayOfWeekAtoms.NthWeekdayNextSpec | src/schedule-atoms/day-of-week.ts:184-204 | `v#n` next moves to midnight of the n-th weekday v exactly when that day exists in the month and the current day is before it; the result is then valid |
| DayOfWeekAtoms.WednesdayValueExamples | src/schedule-atoms/__tests__/day-of-week.ts:21-30 | Weekday 3 from Monday 3 August 2020 is the 5th, and from the 5th it is the 12th |
| DayOfWeekAtoms.LateWednesdayValueExamples | src/schedule-atoms/__tests__/day-of-week.ts:21-46 | Weekday 3 from Friday 7 August 2020 is the 12th; from Thursday the 27th the next one is in September, so nothing |
| DayOfWeekAtoms.SundayValueExamples | src/schedule-atoms/__tests__/day-of-week.ts:32-39 | Weekday 0 from Monday 3 August 2020 is the 9th, and from Sunday the 9th it is the 16th |
| DayOfWeekAtoms.WeekdayRangeExamples | src/schedule-atoms/__tests__/day-of-week.ts:82-98 | Weekdays 1-4 in August 2020: the 6th and 9th give the 10th, the 11th gives the 12th, and the 31st gives nothing |
| DayOfWeekAtoms.LastWeekdayExamples | src/schedule-atoms/__tests__/day-of-week.ts:134-157 | In August 2020 the last Monday is the 31st, the last Sunday the 30th and the last Thursday the 27th; from the 27th or the 29th, nothing |
| DayOfWeekAtoms.NthWeekdayExamples | src/schedule-atoms/__tests__/day-of-week.ts:199-224 | In August 2020, 5#4 is the 28th, 0#2 the 9th, 2#3 the 18th and 1#5 the 31st. 2#3 has passed on the 20th, and there is no 2#5 |
| Atoms.WellFormedAtom | src/schedule-atoms/base.ts:62-99 | What the constructors establish: every value within its field's bounds, min ≤ max and 1 ≤ step ≤ MAX_VALUE for ranges (base.ts:15-23 for values), and the same for every child of an OR. The Make* functions establish it and every lemma about next assumes it |
| Atoms.MakeValue | src/schedule-atoms/base.ts:15-23 | A Value atom is built exactly when the value lies within the field's bounds; otherwise RangeError |
| Atoms.MakeRange | src/schedule-atoms/base.ts:62-99 | RangeError exactly when min, max or the step is out of bounds. InvalidRangeError exactly when those checks pass and max < min. Otherwise the Range atom is built |
| Atoms.MakeLastOfMonth | src/parser/day-of-month.ts:41-44 | The `L-k` atom is built exactly when the offset lies in 0..30; otherwise RangeError |
| Atoms.MakeWeekdayValue | src/schedule-atoms/day-of-week.ts:15-25 | A weekday value atom is built exactly when the value lies in 0..6; otherwise RangeError |
| Atoms.MakeWeekdayRange | src/schedule-atoms/day-of-week.ts:59-85 | RangeError exactly when an end lies outside 0..6; InvalidRangeError exactly when the ends are in range and min > max; otherwise the atom is built |
| Atoms.MakeLastWeekday | src/schedule-atoms/day-of-week.ts:115-126 | The `vL` atom is built exactly when v lies in 0..6; otherwise RangeError |
| Atoms.MakeNthWeekday | src/schedule-atoms/day-of-week.ts:164-182 | The `v#n` atom is built exactly when v lies in 0..6 and n in 1..5; otherwise RangeError |
| Atoms.Somes | src/schedule-atoms/combinators.ts:8-10 | Dropping the null results keeps exactly the dates that were present |
| Atoms.Earliest | src/schedule-atoms/combinators.ts:12-14 | `DateTime.min` picks a member of the list that no other member precedes |
| Atoms.OrNext | src/schedule-atoms/combinators.ts:7-17 | OR's next from its children's results: drop the nulls, take the earliest of the rest, otherwise null. OrNextSpec and OrNextPicks state its properties |
| Atoms.Next | src/schedule-atoms/base.ts:4-8 | Every atom's next is a well-formed date or nothing |
| Atoms.IsValid | src/schedule-atoms/base.ts:4-8 | The `isValid` dispatch: Value (base.ts:44-48), Range (base.ts:128-136), Noop (base.ts:150-152), OR as `some` (combinators.ts:19-21), and the day atoms' own. NextIsValid relates it to next |
| Atoms.Render | src/schedule-atoms/base.ts:50-52 | `toString`: `Value(v)`, `Range(min-max)` with `/step` when the step is above 1 (base.ts:138-142), `Noop`, and `OR(...)` joining the children's texts with commas (combinators.ts:23-25). RangeRenderStep states the step rule for every range, and the Renders lemmas state the parser tests' texts |
| Atoms.RangeRenderStep | src/schedule-atoms/base.ts:138-142 | For every Range atom, the text holds "/" exactly when the step is above 1. A stepped range's text is its step-1 text with `/step` before the closing parenthesis |
| Atoms.OrNextSpec | src/schedule-atoms/combinators.ts:7-17 | OR's next is nothing exactly when every child's is. Otherwise it is one of the children's results, and no child's result is earlier |
| Atoms.OrNextPicks | src/schedule-atoms/combinators.ts:12-14 | When no child's next is earlier than child j's, OR's next is child j's |
| Atoms.OrNextOrderIndependent | src/schedule-atoms/combinators.ts:12-14 | Permuting an OR's children does not change its next |
| Atoms.OrNextSameMembers | src/schedule-atoms/combinators.ts:7-17 | OR's next depends only on the set of its children |
| Atoms.OrFiresWithSubset | src/schedule-atoms/combinators.ts:7-17 | An OR with more children fires whenever one with fewer does |
| Atoms.EmptyAlternativesNeverMatch | src/schedule-atoms/base.ts:145-157 | The no-op atom and an OR of nothing never fire and accept no date |
| Atoms.NextIsValid | src/schedule-atoms/base.ts:4-8 | Whatever next returns satisfies the same atom's isValid, for every atom. This holds with the capacity check of Findings row 4 |
| Atoms.RangeNextIsLater | src/schedule-atoms/base.ts:110-126 | A range's next is strictly later than its input, in a zone that never shifts backwards |
| Atoms.NextIsLater | src/schedule-atoms/base.ts:4-8 | In a zone without a backward offset shift, every atom's next is strictly later than its input |
| Atoms.DayRangeRollsOverExample | src/schedule-atoms/base.ts:113-116 | As written, day range 30-31 on 10 February 2021 moves to "day 30", which rolls over to 2 March, a date the range rejects. With the capacity checked, next gives nothing |
| Atoms.NextAsWritten | src/schedule-atoms/month.ts:10-12 | getNextDateAfter with the month atoms' `set({ month })` as written, which keeps the day and the time. Every result is well formed |
| Atoms.NextAsWrittenFiresWithNext | src/schedule-atoms/month.ts:10-12 | For every atom, the as-written next gives a date exactly when the model's next does: the month step changes where the months land, not whether they do |
| Atoms.NextAsWrittenAvoidingMonths | src/schedule-atoms/month.ts:10-12 | For an atom with no month Value or Range at any depth, the as-written next equals the model's |
| FieldGrammars.Construct | src/parser/minutes.ts:19-21 | `.map` with a constructor parses exactly when the constructor succeeds, and throws its error otherwise |
| FieldGrammars.Alt | src/parser/minutes.ts:47-52 | Parsimmon `alt` of two parsers: the first reply unless it is NoMatch. A throw is not backtracked over. The Item and Field lemmas state the ordered choices |
| FieldGrammars.TwoDigitToken | src/parser/minutes.ts:5 | `\d?\d` matches exactly when the text starts with a digit; it reads one or two digits, a value below 100 |
| FieldGrammars.HourToken | src/parser/hours.ts:5 | The hour pattern matches exactly when the text starts with a digit, and reads at most 23 |
| FieldGrammars.OneDigitToken | src/parser/day-of-week.ts:11 | `\d` matches exactly when the text starts with a digit, and reads one digit |
| FieldGrammars.Token | src/parser/day-of-month.ts:11 | Each grammar's number token matches exactly when the text starts with a digit, and never throws |
| FieldGrammars.ValueItem | src/parser/minutes.ts:19-21 | A parsed value item is a well-formed Value atom of the grammar's field |
| FieldGrammars.RangeItem | src/parser/minutes.ts:23-27 | A parsed range item is a well-formed Range atom of the grammar's field |
| FieldGrammars.SteppedRangeItem | src/parser/minutes.ts:29-35 | A parsed stepped range is a well-formed Range atom of the grammar's field |
| FieldGrammars.WildcardField | src/parser/minutes.ts:7-9 | `*` yields a well-formed atom and never throws |
| FieldGrammars.SteppedWildcardField | src/parser/minutes.ts:11-17 | `*/k` yields a well-formed atom |
| FieldGrammars.NearestWeekdayItem | src/parser/day-of-month.ts:30-33 | `nW` yields a well-formed nearest-weekday atom |
| FieldGrammars.LastOfMonthWithOffsetItem | src/parser/day-of-month.ts:41-44 | `L-k` yields a well-formed last-of-month atom |
| FieldGrammars.LastWeekdayOfMonthItem | src/parser/day-of-month.ts:46-48 | `LW` yields the nearest weekday to day 31 and never throws |
| FieldGrammars.LastOfMonthItem | src/parser/day-of-month.ts:37-39 | `L` yields the last-of-month atom with offset 0 and never throws |
| FieldGrammars.WeekdayValueItem | src/parser/day-of-week.ts:17-19 | A weekday value yields a well-formed weekday value atom |
| FieldGrammars.WeekdayRangeItem | src/parser/day-of-week.ts:33-37 | A weekday range yields a well-formed weekday range atom |
| FieldGrammars.NthWeekdayItem | src/parser/day-of-week.ts:27-31 | `v#n` yields a well-formed n-th weekday atom |
| FieldGrammars.LastWeekdayItem | src/parser/day-of-week.ts:21-23 | `vL` yields a well-formed last-weekday atom |
| FieldGrammars.Item | src/parser/day-of-month.ts:65-73 | Every parsed item is a well-formed atom that belongs to the grammar |
| FieldGrammars.MoreItems | src/parser/minutes.ts:43-45 | The further items of a list always parse (possibly to none), and each is a well-formed item of the grammar |
| FieldGrammars.ListItems | src/parser/minutes.ts:43-45 | `sepBy` always succeeds or throws, and every item it reads is a well-formed item of the grammar |
| FieldGrammars.ListAtom | src/parser/minutes.ts:43-45 | A single item stands for itself; any other number of items stands for their OR |
| FieldGrammars.ListField | src/parser/minutes.ts:43-45 | The list alternative never fails to match, and gives a well-formed atom |
| FieldGrammars.BlankField | src/parser/day-of-month.ts:79 | `?` yields the no-op atom and never throws |
| FieldGrammars.WeekdayWildcardField | src/parser/day-of-week.ts:13-15 | The day-of-week `*` yields a well-formed atom and never throws |
| FieldGrammars.Field | src/parser/day-of-month.ts:81-87 | Every field that parses gives a well-formed atom |
| FieldGrammars.ParseField | src/parser/minutes.ts:47-52 | A whole field that parses gives a well-formed atom |
| FieldGrammars.TokenRoundTrip | src/parser/minutes.ts:5 | Every grammar's token reads back any number up to its largest, from its decimal text |
| FieldGrammars.HourTokenStopsAtTwentyThree | src/parser/hours.ts:5 | The hour token never reads more than 23; on "24" it takes only the "2" |
| FieldGrammars.ValueItemRoundTrip | src/parser/minutes.ts:19-21 | The text of an in-bounds number reads back as the field's Value atom |
| FieldGrammars.RangeItemRoundTrip | src/parser/minutes.ts:23-27 | `lo-hi` reads back as the Range atom with step 1 |
| FieldGrammars.SteppedRangeItemRoundTrip | src/parser/minutes.ts:29-35 | `lo-hi/k` reads back as the Range atom with step k |
| FieldGrammars.ValueIsItem | src/parser/minutes.ts:37-41 | A value is read by the item alternatives, after the range alternatives fail to match |
| FieldGrammars.RangeIsItem | src/parser/minutes.ts:37-41 | `lo-hi` is read by the item alternatives as a step-1 range |
| FieldGrammars.SteppedRangeIsItem | src/parser/minutes.ts:37-41 | `lo-hi/k` is read by the item alternatives as a stepped range |
| FieldGrammars.NumericItemRoundTrip | src/parser/minutes.ts:37-41 | Every value or range of a numeric field reads back from its text |
| FieldGrammars.DayOfMonthExtensionRoundTrip | src/parser/day-of-month.ts:65-73 | `nW` and `L-k` read back from their text |
| FieldGrammars.WeekdayValueItemRoundTrip | src/parser/day-of-week.ts:17-19 | A weekday's digit reads back as the weekday value atom |
| FieldGrammars.WeekdayValueIsItem | src/parser/day-of-week.ts:39-44 | A weekday value is read by the day-of-week item alternatives |
| FieldGrammars.WeekdayRangeIsItem | src/parser/day-of-week.ts:39-44 | `lo-hi` of weekdays is read by the item alternatives |
| FieldGrammars.LastWeekdayIsItem | src/parser/day-of-week.ts:39-44 | `vL` is read by the item alternatives |
| FieldGrammars.NthWeekdayIsItem | src/parser/day-of-week.ts:39-44 | `v#n` is read by the item alternatives |
| FieldGrammars.WeekdayItemRoundTrip | src/parser/day-of-week.ts:39-44 | Every day-of-week item reads back from its text |
| FieldGrammars.ItemRoundTrip | src/parser/day-of-month.ts:65-73 | Every well-formed item of any grammar reads back from its text, through the alternatives in order |
| FieldGrammars.MoreItemsRoundTrip | src/parser/minutes.ts:43-45 | The comma-led text of further items reads back as those items |
| FieldGrammars.ListItemsRoundTrip | src/parser/minutes.ts:43-45 | The comma-joined text of a non-empty list of items reads back as those items, in order |
| FieldGrammars.FieldOfList | src/parser/minutes.ts:47-52 | Text starting with neither `*` nor `?` is read by the list alternative, or by the single item when the list does not match |
| FieldGrammars.FieldRoundTrip | src/parser/minutes.ts:47-52 | The text of a non-empty list reads back as the list's atom: the item itself, or the OR of the items in order |
| FieldGrammars.ParseFieldRoundTrip | src/parser/minutes.ts:43-52 | A whole field written from a non-empty list parses to the list's atom |
| FieldGrammars.ThrownItemFailsField | src/parser/minutes.ts:47-52 | When the first item throws, the whole field fails with the constructor's error; no other alternative is tried |
| FieldGrammars.OutOfRangeValueFails | src/parser/minutes.ts:19-21 | A number above the field's maximum fails the field with RangeError |
| FieldGrammars.HourTwentyFourFails | src/parser/hours.ts:5 | The hour field "24" fails with a parse error, because the "4" is left over |
| FieldGrammars.InvertedRangeFails | src/parser/minutes.ts:23-27 | `lo-hi` with lo > hi fails the field with InvalidRangeError |
| FieldGrammars.NthOrdinalOutOfRangeFails | src/parser/day-of-week.ts:27-31 | `v#n` with n outside 1..5 fails with RangeError |
| FieldGrammars.WildcardParses | src/parser/minutes.ts:7-9 | `*` is the full range of the field; for the day of week, all seven weekdays |
| FieldGrammars.SteppedWildcardParses | src/parser/minutes.ts:11-17 | `*/k` is the full range stepped by k when 1 <= k <= the field's maximum, and RangeError otherwise |
| FieldGrammars.BlankParses | src/parser/day-of-month.ts:79 | `?` is the no-op atom in the two day fields and a parse error elsewhere |
| FieldGrammars.EmptyFieldParses | src/parser/minutes.ts:43-45 | An empty field parses, to an OR of nothing |
| FieldGrammars.ListValueAsWritten | src/parser/hours.ts:39-41 | As written, every grammar but minutes yields a bare array for a one-item list, and the list's atom otherwise |
| FieldGrammars.SingleHourAsWritten | src/parser/hours.ts:39-41 | The hour field "4" reads one item; as written it is a bare array, and with the item unwrapped the field is Value(4) |
| FieldGrammars.FourItemsRead | src/parser/minutes.ts:43-45 | Four items written with commas between read back as their OR, in order |
| FieldGrammars.MinuteListReads | src/parser/__tests__/minutes.ts:40-47 | "2,3-15/3,19,23-35" parses to the OR of Value 2, Range 3-15/3, Value 19 and Range 23-35 |
| FieldGrammars.MinuteListRenders | src/parser/__tests__/minutes.ts:40-47 | That OR is written `OR(Value(2),Range(3-15/3),Value(19),Range(23-35))` |
| FieldGrammars.HourListReads | src/parser/__tests__/hours.ts:40-47 | "2,3-15/3,19,21-23" parses to the OR of its four hour items in order |
| FieldGrammars.HourListRenders | src/parser/__tests__/hours.ts:40-47 | That OR is written `OR(Value(2),Range(3-15/3),Value(19),Range(21-23))` |
| FieldGrammars.DayOfMonthListReads | src/parser/__tests__/day-of-month.ts:75-82 | "2,3-15/3,16W,L-5" parses to the OR of Value 2, Range 3-15/3, 16W and L-5 |
| FieldGrammars.DayOfMonthListRenders | src/parser/__tests__/day-of-month.ts:75-82 | That OR is written `OR(Value(2),Range(3-15/3),Weekday(16),LastOfMonth(5))` |
| FieldGrammars.DayOfWeekListReads | src/parser/__tests__/day-of-week.ts:40-47 | "1,3-4,5#3,6L" parses to the OR of weekday 1, weekdays 3-4, 5#3 and 6L |
| FieldGrammars.DayOfWeekListRenders | src/parser/__tests__/day-of-week.ts:40-47 | That OR is written `OR(Value(1),Range(3-4),NthDayOfWeek(5,3),LastDayOfWeek(6))` |
| CronParser.Fields | src/parser/cron.ts:12-21 | A successful `seq` reads one atom per field |
| CronParser.FieldsWellFormed | src/parser/cron.ts:12-21 | Every atom the five fields read is well formed |
| CronParser.ParseCron | src/parser/cron.ts:12-27 | A parsed expression is a well-formed schedule |
| CronParser.ParseFieldsWellFormed | src/parser/cron.ts:22-27 | The schedule built from the five fields is well formed |
| CronParser.ParseFields | src/parser/cron.ts:22-27 | The five fields, then the end of the input, give the schedule record with days = OR(day of month, day of week). A constructor error ends the parse with that error; anything else is ParseError |
| CronParser.ScheduleWellFormed | src/parser/cron.ts:22-27 | Five well-formed atoms, with the day fields combined by OR, make a well-formed schedule |
| CronParser.ListReadsAs | src/parser/minutes.ts:47-52 | A non-empty list's text reads, as a field, as the list's atom |
| CronParser.WildcardAtom | src/parser/minutes.ts:7-9 | The atom `*` stands for: the field's full range with step 1, and weekdays 0-6 for the day of week (src/parser/day-of-week.ts:13). WildcardReadsAs and WildcardAtomValues state it |
| CronParser.WildcardReadsAs | src/parser/minutes.ts:7-9 | `*` reads as the field's full range; for the day of week, all seven weekdays |
| CronParser.WildcardFieldReads | src/parser/minutes.ts:47-52 | `*` followed by more text is taken by the wildcard alternative |
| CronParser.BlankReadsAs | src/parser/day-of-month.ts:79 | `?` reads as the no-op atom in the two day fields |
| CronParser.FieldsRoundTrip | src/parser/cron.ts:12-21 | Field texts joined by single spaces read back as their atoms, in order |
| CronParser.FieldsMissing | src/parser/cron.ts:12-21 | Fewer field texts than grammars do not match: the space before the next field is missing |
| CronParser.CronRoundTrip | src/parser/cron.ts:12-27 | Five field texts joined by spaces parse to the schedule of their atoms, with the two day fields combined by OR |
| CronParser.FiveFieldsParse | src/parser/cron.ts:12-27 | The same, with the five fields named one by one |
| CronParser.MissingFieldFails | src/parser/cron.ts:12-21 | An expression with fewer than five fields is a parse error |
| CronParser.TrailingTextFails | src/parser/cron.ts:12-21 | Text after the fifth field is a parse error |
| CronParser.WildcardsParse | src/parser/__tests__/cron.ts:5-14 | "* * * * *" parses to the wildcard atom of every field |
| CronParser.EveryMinuteParses | src/parser/__tests__/cron.ts:5-14 | "* * * * *" is minutes 0-59, hours 0-23, days 1-31 OR weekdays 0-6, and months 1-12 |
| CronParser.WildcardAtomValues | src/parser/__tests__/cron.ts:5-14 | The wildcard of each field is its full range: 0-59, 0-23, 1-31, 1-12 and weekdays 0-6 |
| CronParser.FourFieldsFail | src/parser/__tests__/cron.ts:16-21 | "* * * *" is a parse error |
| CronParser.MinuteListParses | src/__tests__/scheduler.ts:6-8 | "3-15/3,18,32 * * * *" parses to a minute OR of a stepped range and two values |
| CronParser.ItemReadsAs | src/parser/minutes.ts:47-52 | A single item's text reads as that item |
| CronParser.MonthItemsReadAs | src/parser/months.ts:43-45 | "2-4,7,12" reads as the OR of a month range and two month values |
| CronParser.MonthListParses | src/__tests__/scheduler.ts:64-66 | "30 8 5 2-4,7,12 ?" parses to 08:30 on the 5th (OR no-op) of months 2-4, 7 and 12 |
| CronParser.DayItemsReadAs | src/parser/day-of-month.ts:65-77 | "lo-hi,12W,L-4" reads as the OR of a day range, the weekday nearest the 12th and L-4 |
| CronParser.DayItemListParses | src/parser/cron.ts:12-27 | "30 8 lo-hi,12W,L-4 * ?" parses to its schedule: the day items OR-ed with the blank day of week, and every month |
| CronParser.FebruaryThirtyFirstParses | src/__tests__/scheduler.ts:208-209 | "* * 31 2 ?" parses to every minute of the 31st of February |
| CronParser.EarlyHoursParses | src/__tests__/scheduler.ts:175-178 | "0 0-4 * * *" parses to minute 0 of hours 0-4 every day |
| CronParser.OneOClockParses | src/__tests__/scheduler.ts:142-145 | "0 1 * * *" parses to 01:00 every day |
| Scheduler.GetNextValid | src/scheduler.ts:27-42 | `getNextValid` always gives a well-formed date |
| Scheduler.GetNextValidIsLater | src/scheduler.ts:27-42 | In a zone without a backward shift, `getNextValid` always moves strictly later |
| Scheduler.GetNextValidSource | src/scheduler.ts:27-42 | The result comes from the first atom, from the unit upward, that has a next date. When none has, it is the start of the next year |
| Scheduler.Matches | src/scheduler.ts:64-69 | The loop's exit test: the months, days, hours and minutes atoms all accept the date |
| Scheduler.Pass | src/scheduler.ts:52-63 | One loop pass repairs the months, days and hours when they do not accept the date, then the minutes when they do not or the date is still the start. The result is well formed |
| Scheduler.Search | src/scheduler.ts:49-76 | The loop as a function of the passes left: the first pass whose result matches is the answer, and NextDateNotFound when no pass is left. PassAdvancesSearch, SearchIsSound, SearchIsLater and GetNextDateAfter state its properties |
| Scheduler.GetNextValidAsWritten | src/scheduler.ts:27-42 | getNextValid with the month step as written. Every result is well formed |
| Scheduler.PassAsWritten | src/scheduler.ts:52-63 | One loop pass with the month step as written. The result is well formed |
| Scheduler.SearchAsWritten | src/scheduler.ts:49-76 | The loop with the month step as written. A found date matches all four fields, and the only error is NextDateNotFound |
| Scheduler.PassAdvancesSearch | src/scheduler.ts:51-74 | One loop pass, repair by repair: a match ends the search with that date; otherwise the search goes on from it with one pass fewer |
| Scheduler.SearchIsSound | src/scheduler.ts:64-76 | A found date is well formed and matches all four fields; the only failure is NextDateNotFound |
| Scheduler.PassIsLater | src/scheduler.ts:61-63 | In a zone without a backward shift, a pass from a date at or after the start ends strictly after the start |
| Scheduler.SearchIsLater | src/scheduler.ts:44-77 | In a zone without a backward shift, a found date is strictly after the start |
| Scheduler.UnsatisfiableIsNotFound | src/scheduler.ts:73-76 | A schedule that no date satisfies ends in NextDateNotFound |
| Scheduler.GetNextDateAfter | src/scheduler.ts:44-77 | The loop computes the search of 100 passes; a result matches every field, and the only error is NextDateNotFound |
| Scheduler.FebruaryThirtyFirstNotFound | src/__tests__/scheduler.ts:208-214 | "* * 31 2 ?" gives NextDateNotFound from any start |
| Scheduler.FebruaryThirtyFirstNeverMatches | src/__tests__/scheduler.ts:208-214 | No date matches "* * 31 2 ?" |
| Scheduler.FebruaryThirtyFirstParsesButNeverFires | src/__tests__/scheduler.ts:208-214 | "* * 31 2 ?" parses, yet the scheduler never finds a date for it |
| Scheduler.MinuteListIsParsed | src/__tests__/scheduler.ts:6-8 | The expression "3-15/3,18,32 * * * *" parses to the schedule used below |
| Scheduler.MinuteListAtomNext | src/__tests__/scheduler.ts:6-14 | At minute 3 the minute OR moves to minute 6 |
| Scheduler.MinuteListAtomAfterLast | src/__tests__/scheduler.ts:16-24 | From minute 32 on, the minute OR has nothing later in the hour |
| Scheduler.MinuteListAtomFromTop | src/__tests__/scheduler.ts:16-24 | At the top of the hour the minute OR moves to minute 3 |
| Scheduler.MinuteListCoarserFieldsMatch | src/__tests__/scheduler.ts:6-24 | Every date matches that schedule's hours, days and months |
| Scheduler.MinuteListMatches | src/__tests__/scheduler.ts:6-24 | A date matches exactly when its minute is 3, 6, 9, 12, 15, 18 or 32 |
| Scheduler.MinuteListPass | src/__tests__/scheduler.ts:6-14 | From minute 3, one pass reaches minute 6 |
| Scheduler.MinuteListNextStep | src/__tests__/scheduler.ts:6-14 | From minute 3 of any hour the next fire time is minute 6 of that hour (00:03 gives 00:06) |
| Scheduler.MinuteListPassLast | src/__tests__/scheduler.ts:16-24 | From minute 32, one pass reaches the top of the next hour |
| Scheduler.MinuteListPassTop | src/__tests__/scheduler.ts:16-24 | From the top of an hour, one pass reaches minute 3 |
| Scheduler.MinuteListNextHour | src/__tests__/scheduler.ts:16-24 | From minute 32 the next fire time is minute 3 of the next hour (00:32 gives 01:03) |
| Scheduler.MonthListIsParsed | src/__tests__/scheduler.ts:64-66 | "30 8 5 2-4,7,12 ?" parses to the schedule used below |
| Scheduler.MonthListMatches | src/__tests__/scheduler.ts:64-82 | A date matches exactly when it is 08:30 on the 5th of February, March, April, July or December; field by field |
| Scheduler.MonthListMonthsAfterLast | src/__tests__/scheduler.ts:74-82 | In December the month OR has nothing later in the year |
| Scheduler.MonthListPassYearEnd | src/__tests__/scheduler.ts:74-82 | At 08:30 on 5 December, one pass moves to the start of the next year |
| Scheduler.MonthListMonthsFromJanuary | src/__tests__/scheduler.ts:74-82 | In January the month OR moves to the start of February |
| Scheduler.MonthListDaysBeforeFifth | src/__tests__/scheduler.ts:64-82 | Before the 5th, the days move to the 5th |
| Scheduler.MonthListPassNewYear | src/__tests__/scheduler.ts:74-82 | From the start of a year, one pass reaches 08:30 on 5 February |
| Scheduler.MonthListRepairsMonths | src/__tests__/scheduler.ts:74-82 | In January the months are repaired to the start of February |
| Scheduler.MonthListRepairsDays | src/__tests__/scheduler.ts:74-82 | On 1 February the days are repaired to the 5th |
| Scheduler.MonthListRepairsHours | src/__tests__/scheduler.ts:74-82 | At midnight on the 5th the hours are repaired to 08:00 |
| Scheduler.MonthListRepairsMinutes | src/__tests__/scheduler.ts:74-82 | At 08:00 the minutes are repaired to 08:30 |
| Scheduler.MonthListNextYear | src/__tests__/scheduler.ts:74-82 | From 08:30 on 5 December the next fire time is 08:30 on 5 February of the next year |
| Scheduler.BlankWeekdaysChangeNothing | src/parser/cron.ts:25 | OR-ing the no-op atom of a blank `?` day of week into the days leaves their next and isValid unchanged |
| Scheduler.DayItems | src/__tests__/scheduler.ts:44-62 | The day-of-month items "lo-hi,12W,L-4" form a well-formed OR of three atoms |
| Scheduler.DayItemList | src/__tests__/scheduler.ts:44-62 | The schedule of "30 8 lo-hi,12W,L-4 * ?" is well formed |
| Scheduler.DayItemListIsParsed | src/__tests__/scheduler.ts:44-62 | "30 8 1-3,12W,L-4 * ?" and "30 8 3-7,12W,L-4 * ?" parse to the schedules used below |
| Scheduler.DayItemsValid | src/__tests__/scheduler.ts:44-62 | The items "lo-hi,12W,L-4" accept exactly the days lo to hi, the weekday nearest the 12th, and the month's length minus 4 |
| Scheduler.NearestTwelfthIn2020 | src/__tests__/scheduler.ts:44-62 | 12W is the 11th in September 2020 (the 12th is a Saturday) and the 12th in October 2020 |
| Scheduler.DayItemListDays | src/__tests__/scheduler.ts:44-62 | In September and October 2020 those days are lo to hi, the 11th or the 12th, and the 26th or the 27th |
| Scheduler.DayItemsFromTenth | src/__tests__/scheduler.ts:44-52 | On 10 September 2020 the range 1-3 has passed, 12W moves to the 11th and L-4 to the 26th |
| Scheduler.DayItemListDaysFromTenth | src/__tests__/scheduler.ts:44-52 | On 10 September 2020 the days of "30 8 1-3,12W,L-4 * ?" move to the 11th, keeping the time |
| Scheduler.DayItemListNearestWeekday | src/__tests__/scheduler.ts:44-52 | From 2020-09-10 08:30, "30 8 1-3,12W,L-4 * ?" fires next at 2020-09-11 08:30, as the test expects |
| Scheduler.DayItemListNoDayLeft | src/__tests__/scheduler.ts:54-62 | On 27 September 2020 no day item of "30 8 3-7,12W,L-4 * ?" has a later day in the month |
| Scheduler.DayItemListMonthEnd | src/__tests__/scheduler.ts:54-62 | There the days hand over to the months, which take the month step to October |
| Scheduler.DayItemListMonthStepAsWritten | src/schedule-atoms/month.ts:10-12 | On 2020-09-27 08:30 the months accept the date and the days have no next date. The month step as written gives 2020-10-27 08:30, which matches every field. 2020-10-03 08:30 also matches and is earlier |
| Scheduler.DayItemListDaysAsWritten | src/scheduler.ts:27-42 | As written, from 2020-09-27 08:30 the days' getNextValid hands over to the months and lands on 2020-10-27 08:30 |
| Scheduler.DayItemListSearchAsWritten | src/scheduler.ts:49-76 | As written, the first pass from 2020-09-27 08:30 gives 2020-10-27 08:30, and the search returns it |
| Scheduler.DayItemListDaysFromFirst | src/__tests__/scheduler.ts:54-62 | On 1 October 2020 the days of "30 8 3-7,12W,L-4 * ?" move to the 3rd, keeping the time |
| Scheduler.DayItemListPassToOctober | src/__tests__/scheduler.ts:54-62 | From 2020-09-27 08:30 the first pass reaches 2020-10-01 08:30 |
| Scheduler.DayItemListPassToThird | src/__tests__/scheduler.ts:54-62 | From 2020-10-01 08:30 the next pass reaches 2020-10-03 08:30, which matches |
| Scheduler.DayItemListNextMonth | src/__tests__/scheduler.ts:54-62 | From 2020-09-27 08:30, "30 8 3-7,12W,L-4 * ?" fires next at 2020-10-03 08:30, as the test expects, with the month step corrected |
| Scheduler.EarlyHoursIsParsed | src/__tests__/scheduler.ts:175-178 | "0 0-4 * * *" parses to the schedule used below |
| Scheduler.OneOClockIsParsed | src/__tests__/scheduler.ts:142-145 | "0 1 * * *" parses to the schedule used below |
| Scheduler.EveryDayMatches | src/__tests__/scheduler.ts:142-202 | Every date matches the months and days of both schedules, and the two share them |
| Scheduler.EarlyHoursRepeatsFallBackHour | src/__tests__/scheduler.ts:175-202 | At 01:00 with a backward offset shift before 02:00, "0 0-4 * * *" keeps the hour: the search gives the start's own local time again |
| Scheduler.OneOClockMatches | src/__tests__/scheduler.ts:142-173 | A date matches "0 1 * * *" exactly when it is 01:00 |
| Scheduler.OneOClockDayRangeNext | src/__tests__/scheduler.ts:142-173 | The day-of-month range of "0 1 * * *" moves to the next day, keeping the time |
| Scheduler.OneOClockWeekdaysNext | src/__tests__/scheduler.ts:142-173 | The weekday range of "0 1 * * *" moves to midnight of the next day |
| Scheduler.OneOClockDaysNext | src/__tests__/scheduler.ts:142-173 | The days move to midnight of the next day: the weekday range gets there first |
| Scheduler.OneOClockPassFromStart | src/__tests__/scheduler.ts:142-173 | From 01:00, the first pass moves to midnight of the next day |
| Scheduler.OneOClockPassFromMidnight | src/__tests__/scheduler.ts:142-173 | From midnight, the next pass repairs the hour to 01:00 |
| Scheduler.OneOClockFiresNextDay | src/__tests__/scheduler.ts:142-173 | From 01:00, "0 1 * * *" fires at 01:00 the next day, whatever the zone: a single hour value does not repeat a fall-back hour |

## Left out

- Time zones are an uninterpreted offset function. The tz database, named zones like "UTC+1", and luxon's handling of skipped (spring-forward) local times are not modelled, so the tests at src/__tests__/scheduler.ts:84-140 are not stated.
- Seconds and milliseconds, and the conversions between JS `Date` and luxon's `DateTime`, are not modelled. A date is a naive local minute.
- The day-of-month atoms call date-fns functions on the luxon values the scheduler passes them. The model treats both libraries as operating on the same naive date-time.
- `src/errors.ts` is not part of this model. Its error classes are an enumeration.
- The `LastDayOfMonthAtom` class is not among the source files. Its behaviour is taken from the parser (`src/parser/day-of-month.ts:37-44`) and its tests. The 0..30 bound in `Atoms.MakeLastOfMonth` is an assumption of the model.
- Two steps follow the corrected behaviour of Findings rows 3 and 4, not the source: the month step goes to the start of the new month, and a day-of-month range below its minimum checks the month's length. The source's steps are kept as `FieldAtoms.MonthMutateAsWritten` and `FieldAtoms.RangeNextAsWritten`, with their counterexamples. The as-written month step is carried through the scheduler by `Atoms.NextAsWritten` and `Scheduler.SearchAsWritten`.
- Scheduler.EarlyHoursRepeatsFallBackHour: the naive date has one 01:00, so the repeated hour after a fall-back shift is the start's own local time, not the wall-clock time one hour later.
- Calendar.AddDays: models a step that crosses at most one month end. The atoms never take a larger one.
- `toString` is modelled only as `Atoms.Render`, to state the tests' texts.
- `DayOfWeekRangeAtom` and `NthDayOfWeekAtom` have no `toString` in the source, so JavaScript would print them as `[object Object]`. `Atoms.Render` writes them as the parser tests spell them.
- Parsimmon internals are not modelled: failure positions, expected-token messages, and how `tryParse` reports failure. A failed parse is `Err(ParseError)`, and the `Scheduler` constructor's throw is `CronParser.ParseCron` returning `Err`.
- Scheduler.GetNextDateAfter: its contract does not state that the result is the earliest matching date after the start. Only soundness (the result matches every field) is proved. Lateness is a separate lemma, `Scheduler.SearchIsLater`, under a zone without a backward shift.
- Most scenario lemmas are stated for symbolic dates (any year, day or time the scenario allows), not for the tests' literal `new Date(...)` values. The "lo-hi,12W,L-4" scenarios use the tests' dates, because they depend on the weekdays of September and October 2020.

## Findings

| source | as written | input that shows it | evidently intended | confidence | as-written member | corrected member |
|---|---|---|---|---|---|---|
| src/schedule-atoms/day-of-month.ts:12-21 | `DayOfMonthValueAtom` does not override `getMaxDateValue`, so its capacity is Infinity and `setDate` may roll over into the next month | Value 31, next after 1 September 2020: gives 1 October 2020 | Nothing when the day does not exist in the month, as the test at src/schedule-atoms/__tests__/day-of-month.ts:11-16 expects and as the Range atom does at lines 30-32 | not executed | DayOfMonthAtoms.DayValueUncappedRollsOver | FieldAtoms.ValueNextSpec |
| src/parser/hours.ts:39-41 | The hours, day-of-month, months and day-of-week lists return the bare one-element array for a single item, instead of the item (only src/parser/minutes.ts:43-45 unwraps it) | The hour field "4" of "0 4 * * *": the scheduler gets an array with no `isValid` | The single item itself, as the minutes list does | not executed | FieldGrammars.SingleHourAsWritten | FieldGrammars.ParseFieldRoundTrip |
| src/schedule-atoms/month.ts:10-12 | The month step is `date.set({ month })`, which keeps the day and the time of day. A step to a later month can therefore pass over days of that month that the schedule accepts | "30 8 3-7,12W,L-4 * ?" from 2020-09-27 08:30: no day is left in September, the months step to 2020-10-27 08:30, which is L-4 in October, and the search returns it | 2020-10-03 08:30, as the test at src/__tests__/scheduler.ts:54-62 expects. The step to a new month starts at its first day, as the hour step starts at minute 0 (`FieldAtoms.MonthMutatorFrame`) | not executed | Scheduler.DayItemListSearchAsWritten | Scheduler.DayItemListNextMonth |
| src/schedule-atoms/base.ts:113-116 | Below the range, next moves to min without comparing it with `getMaxDateValue`. A day-of-month range whose minimum is past the month's end therefore rolls over into the next month | Day range 30-31, next after 2021-02-10 09:00: gives 2021-03-02 09:00, which the range rejects | Nothing, as the same method gives above min (lines 121-123), so that every non-null next satisfies isValid | not executed | Atoms.DayRangeRollsOverExample | Atoms.NextIsValid |
