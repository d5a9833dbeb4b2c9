/**
  The five field grammars (minutes, hours, day of month, month, day of week) as a
  recursive-descent parser over strings, with the combinator library's meaning spelled out:
  a regular-expression token matches greedily at the current position; `seq` fails when a
  part fails; `alt` takes the first alternative that matches, trying the next from the same
  position otherwise; a constructor that throws inside `map` aborts the whole parse (no
  alternative is tried after it); `sepBy` matches zero or more items.
 */
module FieldGrammars {
  import opened Outcomes
  import opened Numerals
  import opened FieldAtoms
  import opened Atoms
  import opened DayOfWeekAtoms

  /** What a sub-parser does at a position: match (with the value and the remaining input),
      not match, or throw from an atom constructor. */
  datatype Reply<+T> = Parsed(value: T, rest: string) | NoMatch | Thrown(error: Error)

  datatype Grammar = MinutesGrammar | HoursGrammar | DayOfMonthGrammar | MonthsGrammar | DayOfWeekGrammar

  /** The field the numeric atoms of a grammar constrain. */
  function FieldOf(g: Grammar): Field
    requires g != DayOfWeekGrammar
  {
    match g
    case MinutesGrammar => MinuteField
    case HoursGrammar => HourField
    case DayOfMonthGrammar => DayOfMonthField
    case MonthsGrammar => MonthField
  }

  /** The atoms a single list item of the grammar can denote. */
  predicate ItemOf(g: Grammar, a: Atom)
  {
    match g
    case DayOfWeekGrammar => a.WeekdayValue? || a.WeekdayRange? || a.LastWeekday? || a.NthWeekday?
    case DayOfMonthGrammar =>
      ((a.Value? || a.Range?) && a.field == DayOfMonthField) || a.NearestWeekday? || a.LastOfMonth?
    case _ => (a.Value? || a.Range?) && a.field == FieldOf(g)
  }

  predicate StartsWith(s: string, lit: string)
  {
    |lit| <= |s| && s[..|lit|] == lit
  }

  /** `alt(p, q)` on the two replies at the same position. */
  function Alt<T>(first: Reply<T>, second: Reply<T>): Reply<T>
  {
    if first.NoMatch? then second else first
  }

  /** `.map(...)` with a constructor that may throw. */
  function Construct(r: Result<Atom>, rest: string): (reply: Reply<Atom>)
    ensures reply.Parsed? <==> r.Ok?
    ensures reply.Parsed? ==> reply.value == r.value && reply.rest == rest
    ensures reply.Thrown? ==> reply.error == r.error
  {
    match r
    case Ok(a) => Parsed(a, rest)
    case Err(e) => Thrown(e)
  }

  // ---------------------------------------------------------------------------------
  // Tokens

  /** `regexp(/\d?\d/)`: two digits when there are two, else one. */
  function TwoDigitToken(s: string): (r: Reply<int>)
    ensures !r.Thrown?
    ensures r.NoMatch? <==> |s| == 0 || !IsDigit(s[0])
    ensures r.Parsed? ==> 0 <= r.value <= 99 && |s| - 2 <= |r.rest| < |s|
  {
    if |s| >= 2 && IsDigit(s[0]) && IsDigit(s[1]) then Parsed(DigitValue(s[0]) * 10 + DigitValue(s[1]), s[2..])
    else if |s| >= 1 && IsDigit(s[0]) then Parsed(DigitValue(s[0]), s[1..])
    else NoMatch
  }

  /** `regexp(/(2[0-3]|[0-1]?[0-9])/)`: "20" to "23" first; otherwise an optional 0 or 1
      followed by a digit. */
  function HourToken(s: string): (r: Reply<int>)
    ensures !r.Thrown?
    ensures r.NoMatch? <==> |s| == 0 || !IsDigit(s[0])
    ensures r.Parsed? ==> 0 <= r.value <= 23 && |s| - 2 <= |r.rest| < |s|
  {
    if |s| >= 2 && s[0] == '2' && '0' <= s[1] <= '3' then Parsed(20 + DigitValue(s[1]), s[2..])
    else if |s| >= 2 && '0' <= s[0] <= '1' && IsDigit(s[1]) then Parsed(DigitValue(s[0]) * 10 + DigitValue(s[1]), s[2..])
    else if |s| >= 1 && IsDigit(s[0]) then Parsed(DigitValue(s[0]), s[1..])
    else NoMatch
  }

  /** `regexp(/\d/)`: exactly one digit. */
  function OneDigitToken(s: string): (r: Reply<int>)
    ensures !r.Thrown?
    ensures r.NoMatch? <==> |s| == 0 || !IsDigit(s[0])
    ensures r.Parsed? ==> 0 <= r.value <= 9 && |r.rest| == |s| - 1
  {
    if |s| >= 1 && IsDigit(s[0]) then Parsed(DigitValue(s[0]), s[1..]) else NoMatch
  }

  /** The number token of each grammar: `MinutesRegex`, `HoursRegex`, `DayOfMonthRegex`,
      `MonthsRegex`, `DayOfWeekRegex`. */
  function Token(g: Grammar, s: string): (r: Reply<int>)
    ensures !r.Thrown?
    ensures r.NoMatch? <==> |s| == 0 || !IsDigit(s[0])
    ensures r.Parsed? ==> 0 <= r.value <= 99 && |r.rest| < |s|
  {
    match g
    case HoursGrammar => HourToken(s)
    case DayOfWeekGrammar => OneDigitToken(s)
    case _ => TwoDigitToken(s)
  }

  // ---------------------------------------------------------------------------------
  // Items of the numeric grammars (and the numeric items of the day-of-month grammar)

  /** `XValue`: a number token mapped to the field's Value atom. */
  function ValueItem(g: Grammar, s: string): (r: Reply<Atom>)
    requires g != DayOfWeekGrammar
    ensures r.Parsed? ==> |r.rest| < |s| && WellFormedAtom(r.value) && r.value.Value? && r.value.field == FieldOf(g)
  {
    match Token(g, s)
    case Parsed(n, rest) => Construct(MakeValue(FieldOf(g), n), rest)
    case _ => NoMatch
  }

  /** `XRange`: value, "-", value, mapped to a Range atom with step 1. */
  function RangeItem(g: Grammar, s: string): (r: Reply<Atom>)
    requires g != DayOfWeekGrammar
    ensures r.Parsed? ==> |r.rest| < |s| && WellFormedAtom(r.value) && r.value.Range? && r.value.field == FieldOf(g)
  {
    match ValueItem(g, s)
    case Parsed(lo, r1) =>
      if !StartsWith(r1, "-") then NoMatch
      else
        (match ValueItem(g, r1[1..])
        case Parsed(hi, r2) => Construct(MakeRange(FieldOf(g), lo.value, hi.value, 1), r2)
        case NoMatch => NoMatch
        case Thrown(e) => Thrown(e))
    case NoMatch => NoMatch
    case Thrown(e) => Thrown(e)
  }

  /** `XSteppedRange`: a range, "/", a number token; the range is built (and may throw)
      before the step is read. */
  function SteppedRangeItem(g: Grammar, s: string): (r: Reply<Atom>)
    requires g != DayOfWeekGrammar
    ensures r.Parsed? ==> |r.rest| < |s| && WellFormedAtom(r.value) && r.value.Range? && r.value.field == FieldOf(g)
  {
    match RangeItem(g, s)
    case Parsed(range, r1) =>
      if !StartsWith(r1, "/") then NoMatch
      else
        (match Token(g, r1[1..])
        case Parsed(step, r2) => Construct(MakeRange(FieldOf(g), range.min, range.max, step), r2)
        case _ => NoMatch)
    case NoMatch => NoMatch
    case Thrown(e) => Thrown(e)
  }

  /** `XWildcard`: "*", the full range of the field. */
  function WildcardField(g: Grammar, s: string): (r: Reply<Atom>)
    requires g != DayOfWeekGrammar
    ensures r.Parsed? ==> |r.rest| < |s| && WellFormedAtom(r.value)
    ensures !r.Thrown?
  {
    if StartsWith(s, "*") then Construct(MakeRange(FieldOf(g), FieldMin(FieldOf(g)), FieldMax(FieldOf(g)), 1), s[1..])
    else NoMatch
  }

  /** `XSteppedWildcard`: "*", "/", a number token. */
  function SteppedWildcardField(g: Grammar, s: string): (r: Reply<Atom>)
    requires g != DayOfWeekGrammar
    ensures r.Parsed? ==> |r.rest| < |s| && WellFormedAtom(r.value)
  {
    match WildcardField(g, s)
    case Parsed(range, r1) =>
      if !StartsWith(r1, "/") then NoMatch
      else
        (match Token(g, r1[1..])
        case Parsed(step, r2) => Construct(MakeRange(FieldOf(g), range.min, range.max, step), r2)
        case _ => NoMatch)
    case _ => NoMatch
  }

  // ---------------------------------------------------------------------------------
  // The day-of-month extensions

  /** `DayOfMonthWeekdayValue`: a day value followed by "W". */
  function NearestWeekdayItem(s: string): (r: Reply<Atom>)
    ensures r.Parsed? ==> |r.rest| < |s| && WellFormedAtom(r.value) && r.value.NearestWeekday?
  {
    match ValueItem(DayOfMonthGrammar, s)
    case Parsed(v, r1) => if StartsWith(r1, "W") then Parsed(NearestWeekday(v.value), r1[1..]) else NoMatch
    case NoMatch => NoMatch
    case Thrown(e) => Thrown(e)
  }

  /** `LastDayOfMonthWithOffset`: "L-" and a one- or two-digit offset. */
  function LastOfMonthWithOffsetItem(s: string): (r: Reply<Atom>)
    ensures r.Parsed? ==> |r.rest| < |s| && WellFormedAtom(r.value) && r.value.LastOfMonth?
  {
    if !StartsWith(s, "L-") then NoMatch
    else
      match TwoDigitToken(s[2..])
      case Parsed(k, rest) => Construct(MakeLastOfMonth(k), rest)
      case _ => NoMatch
  }

  /** `LastWeekdayOfMonth`: "LW", the weekday nearest to day 31 (clamped to the month). */
  function LastWeekdayOfMonthItem(s: string): (r: Reply<Atom>)
    ensures r.Parsed? ==> |r.rest| < |s| && WellFormedAtom(r.value) && r.value == NearestWeekday(31)
    ensures !r.Thrown?
  {
    if !StartsWith(s, "LW") then NoMatch
    else
      match MakeValue(DayOfMonthField, 31)
      case Ok(v) => Parsed(NearestWeekday(v.value), s[2..])
      case Err(e) => Thrown(e)
  }

  /** `LastDayOfMonth`: "L", offset 0. */
  function LastOfMonthItem(s: string): (r: Reply<Atom>)
    ensures r.Parsed? ==> |r.rest| < |s| && r.value == LastOfMonth(0)
    ensures !r.Thrown?
  {
    if StartsWith(s, "L") then Construct(MakeLastOfMonth(0), s[1..]) else NoMatch
  }

  // ---------------------------------------------------------------------------------
  // The day-of-week items

  /** `DayOfWeekValue`: one digit mapped to a weekday Value atom. */
  function WeekdayValueItem(s: string): (r: Reply<Atom>)
    ensures r.Parsed? ==> |r.rest| < |s| && WellFormedAtom(r.value) && r.value.WeekdayValue?
  {
    match OneDigitToken(s)
    case Parsed(n, rest) => Construct(MakeWeekdayValue(n), rest)
    case _ => NoMatch
  }

  /** `DayOfWeekRange`: weekday, "-", weekday. */
  function WeekdayRangeItem(s: string): (r: Reply<Atom>)
    ensures r.Parsed? ==> |r.rest| < |s| && WellFormedAtom(r.value) && r.value.WeekdayRange?
  {
    match WeekdayValueItem(s)
    case Parsed(lo, r1) =>
      if !StartsWith(r1, "-") then NoMatch
      else
        (match WeekdayValueItem(r1[1..])
        case Parsed(hi, r2) => Construct(MakeWeekdayRange(lo.weekday, hi.weekday), r2)
        case NoMatch => NoMatch
        case Thrown(e) => Thrown(e))
    case NoMatch => NoMatch
    case Thrown(e) => Thrown(e)
  }

  /** `NthDayOfWeek`: weekday, "#", one-digit ordinal. */
  function NthWeekdayItem(s: string): (r: Reply<Atom>)
    ensures r.Parsed? ==> |r.rest| < |s| && WellFormedAtom(r.value) && r.value.NthWeekday?
  {
    match WeekdayValueItem(s)
    case Parsed(v, r1) =>
      if !StartsWith(r1, "#") then NoMatch
      else
        (match OneDigitToken(r1[1..])
        case Parsed(n, r2) => Construct(MakeNthWeekday(v.weekday, n), r2)
        case _ => NoMatch)
    case NoMatch => NoMatch
    case Thrown(e) => Thrown(e)
  }

  /** `LastDayOfWeek`: weekday followed by "L". */
  function LastWeekdayItem(s: string): (r: Reply<Atom>)
    ensures r.Parsed? ==> |r.rest| < |s| && WellFormedAtom(r.value) && r.value.LastWeekday?
  {
    match WeekdayValueItem(s)
    case Parsed(v, r1) => if StartsWith(r1, "L") then Construct(MakeLastWeekday(v.weekday), r1[1..]) else NoMatch
    case NoMatch => NoMatch
    case Thrown(e) => Thrown(e)
  }

  // ---------------------------------------------------------------------------------
  // Items, lists and fields

  /** `XRangeOrValue`: the item alternatives of each grammar, in their order. */
  function Item(g: Grammar, s: string): (r: Reply<Atom>)
    ensures r.Parsed? ==> |r.rest| < |s| && WellFormedAtom(r.value) && ItemOf(g, r.value)
  {
    match g
    case DayOfWeekGrammar =>
      Alt(WeekdayRangeItem(s), Alt(NthWeekdayItem(s), Alt(LastWeekdayItem(s), WeekdayValueItem(s))))
    case DayOfMonthGrammar =>
      Alt(SteppedRangeItem(g, s), Alt(RangeItem(g, s), Alt(NearestWeekdayItem(s),
        Alt(LastOfMonthWithOffsetItem(s), Alt(LastWeekdayOfMonthItem(s), Alt(LastOfMonthItem(s), ValueItem(g, s)))))))
    case _ =>
      Alt(SteppedRangeItem(g, s), Alt(RangeItem(g, s), ValueItem(g, s)))
  }

  /** `many(string(",").then(item))`: further items, each after a comma; stops (before the
      comma) at the first item that does not match. */
  function MoreItems(g: Grammar, s: string): (r: Reply<seq<Atom>>)
    ensures !r.NoMatch?
    ensures r.Parsed? ==> |r.rest| <= |s| && forall i :: 0 <= i < |r.value| ==> WellFormedAtom(r.value[i]) && ItemOf(g, r.value[i])
    decreases |s|
  {
    if !StartsWith(s, ",") then Parsed([], s)
    else
      match Item(g, s[1..])
      case NoMatch => Parsed([], s)
      case Thrown(e) => Thrown(e)
      case Parsed(a, r1) =>
        match MoreItems(g, r1)
        case Parsed(more, r2) => Parsed([a] + more, r2)
        case Thrown(e) => Thrown(e)
  }

  /** `sepBy(item, string(","))`: zero or more items separated by commas. */
  function ListItems(g: Grammar, s: string): (r: Reply<seq<Atom>>)
    ensures !r.NoMatch?
    ensures r.Parsed? ==> |r.rest| <= |s| && forall i :: 0 <= i < |r.value| ==> WellFormedAtom(r.value[i]) && ItemOf(g, r.value[i])
  {
    match Item(g, s)
    case NoMatch => Parsed([], s)
    case Thrown(e) => Thrown(e)
    case Parsed(a, r1) =>
      match MoreItems(g, r1)
      case Parsed(more, r2) => Parsed([a] + more, r2)
      case Thrown(e) => Thrown(e)
  }

  /** The atom a list stands for: a single item is that item, any other number of items their
      OR (minutes.ts does this; see `ListResultAsWritten` for the other grammars). */
  function ListAtom(items: seq<Atom>): (a: Atom)
    ensures |items| == 1 ==> a == items[0]
    ensures |items| != 1 ==> a == Or(items)
  {
    if |items| == 1 then items[0] else Or(items)
  }

  /** `XList`. */
  function ListField(g: Grammar, s: string): (r: Reply<Atom>)
    ensures !r.NoMatch?
    ensures r.Parsed? ==> |r.rest| <= |s| && WellFormedAtom(r.value)
  {
    match ListItems(g, s)
    case Parsed(items, rest) => Parsed(ListAtom(items), rest)
    case NoMatch => NoMatch
    case Thrown(e) => Thrown(e)
  }

  /** `Blank`: "?", the no-op atom. */
  function BlankField(s: string): (r: Reply<Atom>)
    ensures r.Parsed? ==> |r.rest| < |s| && r.value == Noop
    ensures !r.Thrown?
  {
    if StartsWith(s, "?") then Parsed(Noop, s[1..]) else NoMatch
  }

  /** `DayOfWeekWildcard`: "*", all seven weekdays. */
  function WeekdayWildcardField(s: string): (r: Reply<Atom>)
    ensures r.Parsed? ==> |r.rest| < |s| && WellFormedAtom(r.value)
    ensures !r.Thrown?
  {
    if StartsWith(s, "*") then Construct(MakeWeekdayRange(MinCronWeekday, MaxCronWeekday), s[1..]) else NoMatch
  }

  /** `Minutes`, `Hours`, `DayOfMonth`, `Months`, `DayOfWeek`: the top-level alternatives of
      each field, in their order. */
  function Field(g: Grammar, s: string): (r: Reply<Atom>)
    ensures r.Parsed? ==> |r.rest| <= |s| && WellFormedAtom(r.value)
  {
    match g
    case DayOfWeekGrammar =>
      Alt(WeekdayWildcardField(s), Alt(BlankField(s), Alt(ListField(g, s), Item(g, s))))
    case DayOfMonthGrammar =>
      Alt(SteppedWildcardField(g, s), Alt(WildcardField(g, s), Alt(BlankField(s), Alt(ListField(g, s), Item(g, s)))))
    case _ =>
      Alt(SteppedWildcardField(g, s), Alt(WildcardField(g, s), Alt(ListField(g, s), Item(g, s))))
  }

  /** `parse`: the field grammar followed by the end of the input. */
  function ParseField(g: Grammar, s: string): (r: Result<Atom>)
    ensures r.Ok? ==> WellFormedAtom(r.value)
  {
    match Field(g, s)
    case Parsed(a, rest) => if |rest| == 0 then Ok(a) else Err(ParseError)
    case NoMatch => Err(ParseError)
    case Thrown(e) => Err(e)
  }

  // ---------------------------------------------------------------------------------
  // Tokens read back the numbers NatToString writes

  /** The input does not continue with a digit, so a greedy token stops here. */
  predicate NoDigitAhead(s: string)
  {
    |s| == 0 || !IsDigit(s[0])
  }

  /** The largest number a grammar's token can spell. */
  function TokenMax(g: Grammar): int
  {
    match g
    case HoursGrammar => 23
    case DayOfWeekGrammar => 9
    case _ => 99
  }

  /** The text of a number below one hundred, as a cron expression writes it. */
  function Numeral(n: int): (t: string)
    requires 0 <= n <= 99
    ensures 1 <= |t| <= 2 && IsDigit(t[0])
  {
    if n < 10 then [DigitChar(n)] else [DigitChar(n / 10), DigitChar(n % 10)]
  }

  /** The numeral is the decimal text of the number. */
  lemma NumeralIsDecimal(n: int)
    requires 0 <= n <= 99
    ensures Numeral(n) == NatToString(n)
  {
  }

  /** Every grammar's token reads back any number up to its largest, written without
      leading zeros and not followed by another digit. */
  lemma TokenRoundTrip(g: Grammar, n: int, rest: string)
    requires 0 <= n <= TokenMax(g) && NoDigitAhead(rest)
    ensures Token(g, Numeral(n) + rest) == Parsed(n, rest)
  {
    var s := Numeral(n) + rest;
    if n < 10 {
      assert s[1..] == rest;
    } else {
      assert s[2..] == rest;
    }
  }

  /** The hour token never reads a number above 23: on "24" it takes only the "2". */
  lemma HourTokenStopsAtTwentyThree()
    ensures HourToken("24") == Parsed(2, "4")
    ensures forall s :: HourToken(s).Parsed? ==> HourToken(s).value <= 23
  {
    assert "24"[1..] == "4";
  }

  // ---------------------------------------------------------------------------------
  // Printing list items and reading them back

  /** The cron text of a single list item: the syntax the item alternatives accept. */
  function ItemSyntax(a: Atom): string
    requires WellFormedAtom(a)
  {
    match a
    case Value(_, v) => Numeral(v)
    case Range(_, min, max, step) =>
      Numeral(min) + "-" + Numeral(max) + (if step == 1 then "" else "/" + Numeral(step))
    case NearestWeekday(v) => Numeral(v) + "W"
    case LastOfMonth(k) => "L-" + Numeral(k)
    case WeekdayValue(v) => Numeral(v)
    case WeekdayRange(lo, hi) => Numeral(lo) + "-" + Numeral(hi)
    case LastWeekday(v) => Numeral(v) + "L"
    case NthWeekday(v, n) => Numeral(v) + "#" + Numeral(n)
    case _ => ""
  }

  /** The cron text of the further items of a list: each after a comma. */
  function MoreSyntax(items: seq<Atom>): string
    requires forall i :: 0 <= i < |items| ==> WellFormedAtom(items[i])
  {
    if |items| == 0 then "" else "," + ItemSyntax(items[0]) + MoreSyntax(items[1..])
  }

  /** The cron text of a comma list. */
  function ListSyntax(items: seq<Atom>): string
    requires forall i :: 0 <= i < |items| ==> WellFormedAtom(items[i])
  {
    if |items| == 0 then "" else ItemSyntax(items[0]) + MoreSyntax(items[1..])
  }

  /** What may follow an item: the end, a comma, or the space before the next field. */
  predicate ItemEnd(s: string)
  {
    |s| == 0 || s[0] == ',' || s[0] == ' '
  }

  /** What may follow a field: the end, or the space before the next field. */
  predicate FieldEnd(s: string)
  {
    |s| == 0 || s[0] == ' '
  }

  /** A number within a field's bounds reads back as that field's Value atom. */
  lemma ValueItemRoundTrip(g: Grammar, v: int, rest: string)
    requires g != DayOfWeekGrammar && FieldMin(FieldOf(g)) <= v <= FieldMax(FieldOf(g)) && NoDigitAhead(rest)
    ensures ValueItem(g, Numeral(v) + rest) == Parsed(Value(FieldOf(g), v), rest)
  {
    TokenRoundTrip(g, v, rest);
  }

  /** `lo-hi` reads back as the Range atom with step 1. */
  lemma RangeItemRoundTrip(g: Grammar, lo: int, hi: int, rest: string)
    requires g != DayOfWeekGrammar && FieldMin(FieldOf(g)) <= lo <= hi <= FieldMax(FieldOf(g)) && NoDigitAhead(rest)
    ensures RangeItem(g, Numeral(lo) + "-" + Numeral(hi) + rest) == Parsed(Range(FieldOf(g), lo, hi, 1), rest)
  {
    var s := Numeral(lo) + "-" + Numeral(hi) + rest;
    var s1 := "-" + Numeral(hi) + rest;
    assert ValueItem(g, s) == Parsed(Value(FieldOf(g), lo), s1) by {
      assert s == Numeral(lo) + s1;
      ValueItemRoundTrip(g, lo, s1);
    }
    assert ValueItem(g, s1[1..]) == Parsed(Value(FieldOf(g), hi), rest) by {
      assert s1[1..] == Numeral(hi) + rest;
      ValueItemRoundTrip(g, hi, rest);
    }
    RangeItemFromParts(g, s, lo, hi, s1, rest);
  }

  /** A value, "-" and a value in order make a range item. */
  lemma RangeItemFromParts(g: Grammar, s: string, lo: int, hi: int, s1: string, rest: string)
    requires g != DayOfWeekGrammar && FieldMin(FieldOf(g)) <= lo <= hi <= FieldMax(FieldOf(g))
    requires ValueItem(g, s) == Parsed(Value(FieldOf(g), lo), s1)
    requires |s1| > 0 && s1[0] == '-' && ValueItem(g, s1[1..]) == Parsed(Value(FieldOf(g), hi), rest)
    ensures RangeItem(g, s) == Parsed(Range(FieldOf(g), lo, hi, 1), rest)
  {
    assert StartsWith(s1, "-");
  }

  /** `lo-hi/step` reads back as the Range atom with that step. */
  lemma SteppedRangeItemRoundTrip(g: Grammar, lo: int, hi: int, step: int, rest: string)
    requires g != DayOfWeekGrammar && FieldMin(FieldOf(g)) <= lo <= hi <= FieldMax(FieldOf(g))
    requires 1 <= step <= FieldMax(FieldOf(g)) && NoDigitAhead(rest)
    ensures SteppedRangeItem(g, Numeral(lo) + "-" + Numeral(hi) + ("/" + Numeral(step)) + rest)
         == Parsed(Range(FieldOf(g), lo, hi, step), rest)
  {
    var s1 := "/" + Numeral(step) + rest;
    var s := Numeral(lo) + "-" + Numeral(hi) + ("/" + Numeral(step)) + rest;
    SteppedRangeHead(g, lo, hi, step, rest);
    StepTokenRoundTrip(g, step, rest);
    SteppedRangeFromParts(g, s, lo, hi, step, s1, rest);
  }

  /** The range part of `lo-hi/step` reads back, leaving "/" and the step. */
  lemma SteppedRangeHead(g: Grammar, lo: int, hi: int, step: int, rest: string)
    requires g != DayOfWeekGrammar && FieldMin(FieldOf(g)) <= lo <= hi <= FieldMax(FieldOf(g)) && 0 <= step <= 99
    ensures RangeItem(g, Numeral(lo) + "-" + Numeral(hi) + ("/" + Numeral(step)) + rest)
         == Parsed(Range(FieldOf(g), lo, hi, 1), "/" + Numeral(step) + rest)
  {
    var s1 := "/" + Numeral(step) + rest;
    assert Numeral(lo) + "-" + Numeral(hi) + ("/" + Numeral(step)) + rest == Numeral(lo) + "-" + Numeral(hi) + s1;
    RangeItemRoundTrip(g, lo, hi, s1);
  }

  /** "/" and a step token read back as the step. */
  lemma StepTokenRoundTrip(g: Grammar, step: int, rest: string)
    requires g != DayOfWeekGrammar && 1 <= step <= FieldMax(FieldOf(g)) && NoDigitAhead(rest)
    ensures var s1 := "/" + Numeral(step) + rest;
      |s1| > 0 && s1[0] == '/' && Token(g, s1[1..]) == Parsed(step, rest)
  {
    var s1 := "/" + Numeral(step) + rest;
    assert s1[1..] == Numeral(step) + rest;
    TokenRoundTrip(g, step, rest);
  }

  /** A range, "/" and a step token in bounds make a stepped range item. */
  lemma SteppedRangeFromParts(g: Grammar, s: string, lo: int, hi: int, step: int, s1: string, rest: string)
    requires g != DayOfWeekGrammar && FieldMin(FieldOf(g)) <= lo <= hi <= FieldMax(FieldOf(g))
    requires 1 <= step <= FieldMax(FieldOf(g))
    requires RangeItem(g, s) == Parsed(Range(FieldOf(g), lo, hi, 1), s1)
    requires |s1| > 0 && s1[0] == '/' && Token(g, s1[1..]) == Parsed(step, rest)
    ensures SteppedRangeItem(g, s) == Parsed(Range(FieldOf(g), lo, hi, step), rest)
  {
    assert StartsWith(s1, "/");
  }

  /** Text that starts with a digit is not one of the letter-led day-of-month items. */
  lemma NotLetterLed(s: string)
    requires |s| > 0 && IsDigit(s[0])
    ensures LastOfMonthWithOffsetItem(s) == NoMatch
    ensures LastWeekdayOfMonthItem(s) == NoMatch
    ensures LastOfMonthItem(s) == NoMatch
  {
  }

  /** A value of a numeric field, followed by the end of the item, is an item. */
  lemma ValueIsItem(g: Grammar, v: int, rest: string)
    requires g != DayOfWeekGrammar && FieldMin(FieldOf(g)) <= v <= FieldMax(FieldOf(g)) && ItemEnd(rest)
    ensures Item(g, Numeral(v) + rest) == Parsed(Value(FieldOf(g), v), rest)
  {
    var s := Numeral(v) + rest;
    ValueItemRoundTrip(g, v, rest);
    assert RangeItem(g, s) == NoMatch;
    assert SteppedRangeItem(g, s) == NoMatch;
    if g == DayOfMonthGrammar {
      assert NearestWeekdayItem(s) == NoMatch;
      NotLetterLed(s);
    }
  }

  /** `lo-hi`, followed by the end of the item, is an item. */
  lemma RangeIsItem(g: Grammar, lo: int, hi: int, rest: string)
    requires g != DayOfWeekGrammar && FieldMin(FieldOf(g)) <= lo <= hi <= FieldMax(FieldOf(g)) && ItemEnd(rest)
    ensures Item(g, Numeral(lo) + "-" + Numeral(hi) + rest) == Parsed(Range(FieldOf(g), lo, hi, 1), rest)
  {
    var s := Numeral(lo) + "-" + Numeral(hi) + rest;
    RangeItemRoundTrip(g, lo, hi, rest);
    RangeNotStepped(g, s);
  }

  /** A range followed by the end of the item is no stepped range. */
  lemma RangeNotStepped(g: Grammar, s: string)
    requires g != DayOfWeekGrammar && RangeItem(g, s).Parsed? && ItemEnd(RangeItem(g, s).rest)
    ensures SteppedRangeItem(g, s) == NoMatch
  {
    assert !StartsWith(RangeItem(g, s).rest, "/");
  }

  /** `lo-hi/step`, followed by the end of the item, is an item. */
  lemma SteppedRangeIsItem(g: Grammar, lo: int, hi: int, step: int, rest: string)
    requires g != DayOfWeekGrammar && FieldMin(FieldOf(g)) <= lo <= hi <= FieldMax(FieldOf(g))
    requires 1 <= step <= FieldMax(FieldOf(g)) && ItemEnd(rest)
    ensures Item(g, Numeral(lo) + "-" + Numeral(hi) + ("/" + Numeral(step)) + rest) == Parsed(Range(FieldOf(g), lo, hi, step), rest)
  {
    SteppedRangeItemRoundTrip(g, lo, hi, step, rest);
  }

  /** A value or range of a numeric field reads back from its text. */
  lemma NumericItemRoundTrip(g: Grammar, a: Atom, rest: string)
    requires g != DayOfWeekGrammar && WellFormedAtom(a) && (a.Value? || a.Range?) && a.field == FieldOf(g)
    requires ItemEnd(rest)
    ensures Item(g, ItemSyntax(a) + rest) == Parsed(a, rest)
  {
    if a.Value? {
      ValueIsItem(g, a.value, rest);
    } else if a.step == 1 {
      assert ItemSyntax(a) == Numeral(a.min) + "-" + Numeral(a.max);
      RangeIsItem(g, a.min, a.max, rest);
    } else {
      SteppedRangeIsItem(g, a.min, a.max, a.step, rest);
    }
  }

  /** `nW` and `L-k` items read back from their text. */
  lemma DayOfMonthExtensionRoundTrip(a: Atom, rest: string)
    requires WellFormedAtom(a) && (a.NearestWeekday? || a.LastOfMonth?) && ItemEnd(rest)
    ensures Item(DayOfMonthGrammar, ItemSyntax(a) + rest) == Parsed(a, rest)
  {
    var g := DayOfMonthGrammar;
    var s := ItemSyntax(a) + rest;
    if a.NearestWeekday? {
      var s1 := "W" + rest;
      assert s == Numeral(a.day) + s1;
      ValueItemRoundTrip(g, a.day, s1);
      assert RangeItem(g, s) == NoMatch;
      assert SteppedRangeItem(g, s) == NoMatch;
      assert s1[1..] == rest;
    } else {
      assert s == "L-" + (Numeral(a.offset) + rest);
      assert s[2..] == Numeral(a.offset) + rest;
      TokenRoundTrip(g, a.offset, rest);
      assert ValueItem(g, s) == NoMatch;
      assert RangeItem(g, s) == NoMatch;
      assert SteppedRangeItem(g, s) == NoMatch;
      assert NearestWeekdayItem(s) == NoMatch;
    }
  }

  /** A weekday value followed by text that does not go on with a digit. */
  lemma WeekdayValueItemRoundTrip(v: int, rest: string)
    requires MinCronWeekday <= v <= MaxCronWeekday && NoDigitAhead(rest)
    ensures WeekdayValueItem(Numeral(v) + rest) == Parsed(WeekdayValue(v), rest)
  {
    TokenRoundTrip(DayOfWeekGrammar, v, rest);
  }

  /** A weekday value, followed by the end of the item, is an item. */
  lemma WeekdayValueIsItem(v: int, rest: string)
    requires MinCronWeekday <= v <= MaxCronWeekday && ItemEnd(rest)
    ensures Item(DayOfWeekGrammar, Numeral(v) + rest) == Parsed(WeekdayValue(v), rest)
  {
    var s := Numeral(v) + rest;
    WeekdayValueItemRoundTrip(v, rest);
    assert WeekdayRangeItem(s) == NoMatch;
    assert NthWeekdayItem(s) == NoMatch;
    assert LastWeekdayItem(s) == NoMatch;
  }

  /** `lo-hi` of weekdays is an item. */
  lemma WeekdayRangeIsItem(lo: int, hi: int, rest: string)
    requires MinCronWeekday <= lo <= hi <= MaxCronWeekday && ItemEnd(rest)
    ensures Item(DayOfWeekGrammar, Numeral(lo) + "-" + Numeral(hi) + rest) == Parsed(WeekdayRange(lo, hi), rest)
  {
    var s := Numeral(lo) + "-" + Numeral(hi) + rest;
    var s1 := "-" + Numeral(hi) + rest;
    assert s == Numeral(lo) + s1;
    WeekdayValueItemRoundTrip(lo, s1);
    assert s1[1..] == Numeral(hi) + rest;
    WeekdayValueItemRoundTrip(hi, rest);
  }

  /** `vL` is an item. */
  lemma LastWeekdayIsItem(v: int, rest: string)
    requires MinCronWeekday <= v <= MaxCronWeekday && ItemEnd(rest)
    ensures Item(DayOfWeekGrammar, Numeral(v) + "L" + rest) == Parsed(LastWeekday(v), rest)
  {
    var s := Numeral(v) + "L" + rest;
    var s1 := "L" + rest;
    assert s == Numeral(v) + s1;
    WeekdayValueItemRoundTrip(v, s1);
    assert WeekdayRangeItem(s) == NoMatch;
    assert NthWeekdayItem(s) == NoMatch;
    assert s1[1..] == rest;
  }

  /** `v#n` is an item. */
  lemma NthWeekdayIsItem(v: int, n: int, rest: string)
    requires MinCronWeekday <= v <= MaxCronWeekday && 1 <= n <= 5 && ItemEnd(rest)
    ensures Item(DayOfWeekGrammar, Numeral(v) + "#" + Numeral(n) + rest) == Parsed(NthWeekday(v, n), rest)
  {
    var s := Numeral(v) + "#" + Numeral(n) + rest;
    var s1 := "#" + Numeral(n) + rest;
    assert s == Numeral(v) + s1;
    WeekdayValueItemRoundTrip(v, s1);
    assert WeekdayRangeItem(s) == NoMatch;
    assert s1[1..] == Numeral(n) + rest;
    TokenRoundTrip(DayOfWeekGrammar, n, rest);
  }

  /** Day-of-week items read back from their text. */
  lemma WeekdayItemRoundTrip(a: Atom, rest: string)
    requires WellFormedAtom(a) && ItemOf(DayOfWeekGrammar, a) && ItemEnd(rest)
    ensures Item(DayOfWeekGrammar, ItemSyntax(a) + rest) == Parsed(a, rest)
  {
    match a
    case WeekdayValue(v) => WeekdayValueIsItem(v, rest);
    case WeekdayRange(lo, hi) => WeekdayRangeIsItem(lo, hi, rest);
    case LastWeekday(v) => LastWeekdayIsItem(v, rest);
    case NthWeekday(v, n) => NthWeekdayIsItem(v, n, rest);
  }

  /** Every well-formed item of a grammar reads back from its text, through the item
      alternatives in their order. */
  lemma ItemRoundTrip(g: Grammar, a: Atom, rest: string)
    requires WellFormedAtom(a) && ItemOf(g, a) && ItemEnd(rest)
    ensures Item(g, ItemSyntax(a) + rest) == Parsed(a, rest)
  {
    if g == DayOfWeekGrammar {
      WeekdayItemRoundTrip(a, rest);
    } else if a.Value? || a.Range? {
      NumericItemRoundTrip(g, a, rest);
    } else {
      DayOfMonthExtensionRoundTrip(a, rest);
    }
  }

  /** The text of an item is never empty and starts with a digit, or with "L" for `L-k`. */
  lemma ItemSyntaxStart(a: Atom)
    requires WellFormedAtom(a) && !a.Noop? && !a.Or?
    ensures |ItemSyntax(a)| >= 1 && (IsDigit(ItemSyntax(a)[0]) || ItemSyntax(a)[0] == 'L')
  {
  }

  /** `many` stops at the end of the field. */
  lemma MoreItemsStop(g: Grammar, rest: string)
    requires FieldEnd(rest)
    ensures MoreItems(g, rest) == Parsed([], rest)
  {
    assert !StartsWith(rest, ",");
  }

  /** One more step of `many`: a comma, an item, then the further items. */
  lemma MoreItemsStep(g: Grammar, s: string, a: Atom, r1: string, more: seq<Atom>, rest: string)
    requires |s| > 0 && s[0] == ',' && Item(g, s[1..]) == Parsed(a, r1) && MoreItems(g, r1) == Parsed(more, rest)
    ensures MoreItems(g, s) == Parsed([a] + more, rest)
  {
    assert StartsWith(s, ",");
  }

  /** `sepBy` on a first item and the further items. */
  lemma ListItemsStep(g: Grammar, s: string, items: seq<Atom>, r1: string, rest: string)
    requires |items| >= 1 && Item(g, s) == Parsed(items[0], r1) && MoreItems(g, r1) == Parsed(items[1..], rest)
    ensures ListItems(g, s) == Parsed(items, rest)
  {
    assert [items[0]] + items[1..] == items;
  }

  /** The further items of a list are followed by a comma or by the end of the field. */
  lemma MoreSyntaxEnd(items: seq<Atom>, rest: string)
    requires forall i :: 0 <= i < |items| ==> WellFormedAtom(items[i])
    requires FieldEnd(rest)
    ensures ItemEnd(MoreSyntax(items) + rest)
  {
    if |items| == 0 {
      assert MoreSyntax(items) + rest == rest;
    }
  }

  /** One more item, after a comma, in front of text that reads back as further items. */
  lemma MoreItemsCons(g: Grammar, s: string, items: seq<Atom>, tail: string, rest: string)
    requires |items| >= 1 && WellFormedAtom(items[0]) && ItemOf(g, items[0]) && ItemEnd(tail)
    requires |s| > 0 && s[0] == ',' && s[1..] == ItemSyntax(items[0]) + tail
    requires MoreItems(g, tail) == Parsed(items[1..], rest)
    ensures MoreItems(g, s) == Parsed(items, rest)
  {
    ItemRoundTrip(g, items[0], tail);
    MoreItemsStep(g, s, items[0], tail, items[1..], rest);
    assert [items[0]] + items[1..] == items;
  }

  /** Regrouping the text of a list whose first item follows a comma. */
  lemma CommaRegroup(item: string, more: string, rest: string)
    ensures var text := "," + item + more + rest;
      |text| > 0 && text[0] == ',' && text[1..] == item + (more + rest)
  {
  }

  /** The text of the further items of a list, at the end of the field, reads back as those
      items. */
  lemma {:induction false} MoreItemsRoundTrip(g: Grammar, items: seq<Atom>, rest: string)
    requires forall i :: 0 <= i < |items| ==> WellFormedAtom(items[i]) && ItemOf(g, items[i])
    requires FieldEnd(rest)
    ensures MoreItems(g, MoreSyntax(items) + rest) == Parsed(items, rest)
    decreases |items|
  {
    if |items| == 0 {
      assert MoreSyntax(items) + rest == rest;
      MoreItemsStop(g, rest);
    } else {
      var text := MoreSyntax(items) + rest;
      var tail := MoreSyntax(items[1..]) + rest;
      MoreItemsRoundTrip(g, items[1..], rest);
      MoreSyntaxEnd(items[1..], rest);
      CommaRegroup(ItemSyntax(items[0]), MoreSyntax(items[1..]), rest);
      MoreItemsCons(g, text, items, tail, rest);
    }
  }

  /** The first item of a list's text reads back, leaving the further items' text. */
  lemma ListHeadRoundTrip(g: Grammar, items: seq<Atom>, rest: string)
    requires |items| >= 1 && forall i :: 0 <= i < |items| ==> WellFormedAtom(items[i]) && ItemOf(g, items[i])
    requires FieldEnd(rest)
    ensures Item(g, ListSyntax(items) + rest) == Parsed(items[0], MoreSyntax(items[1..]) + rest)
  {
    var r1 := MoreSyntax(items[1..]) + rest;
    assert ListSyntax(items) + rest == ItemSyntax(items[0]) + r1;
    MoreSyntaxEnd(items[1..], rest);
    ItemRoundTrip(g, items[0], r1);
  }

  /** The text of a non-empty list of well-formed items reads back as those items, in order. */
  lemma ListItemsRoundTrip(g: Grammar, items: seq<Atom>, rest: string)
    requires |items| >= 1 && forall i :: 0 <= i < |items| ==> WellFormedAtom(items[i]) && ItemOf(g, items[i])
    requires FieldEnd(rest)
    ensures ListItems(g, ListSyntax(items) + rest) == Parsed(items, rest)
  {
    var r1 := MoreSyntax(items[1..]) + rest;
    ListHeadRoundTrip(g, items, rest);
    MoreItemsRoundTrip(g, items[1..], rest);
    ListItemsStep(g, ListSyntax(items) + rest, items, r1, rest);
  }

  /** Text that starts with neither "*" nor "?" is no wildcard and no blank: the field is
      the list, or the single item when the list does not match. */
  lemma FieldOfList(g: Grammar, s: string)
    requires !StartsWith(s, "*") && !StartsWith(s, "?")
    ensures Field(g, s) == Alt(ListField(g, s), Item(g, s))
  {
    assert BlankField(s) == NoMatch;
    if g == DayOfWeekGrammar {
      assert WeekdayWildcardField(s) == NoMatch;
    } else {
      assert WildcardField(g, s) == NoMatch;
      assert SteppedWildcardField(g, s) == NoMatch;
    }
  }

  /** Parsing the text of a non-empty list of well-formed items gives back the atom of the
      list: the single item itself, or the OR of the items in their order. */
  lemma FieldRoundTrip(g: Grammar, items: seq<Atom>, rest: string)
    requires |items| >= 1 && forall i :: 0 <= i < |items| ==> WellFormedAtom(items[i]) && ItemOf(g, items[i])
    requires FieldEnd(rest)
    ensures Field(g, ListSyntax(items) + rest) == Parsed(ListAtom(items), rest)
  {
    var s := ListSyntax(items) + rest;
    assert !StartsWith(s, "*") && !StartsWith(s, "?") by {
      ItemSyntaxStart(items[0]);
      assert s[0] == ItemSyntax(items[0])[0];
    }
    FieldOfList(g, s);
    assert ListField(g, s) == Parsed(ListAtom(items), rest) by {
      ListItemsRoundTrip(g, items, rest);
    }
  }

  /** A whole field made of the text of a non-empty list parses to the atom of the list. */
  lemma ParseFieldRoundTrip(g: Grammar, items: seq<Atom>)
    requires |items| >= 1 && forall i :: 0 <= i < |items| ==> WellFormedAtom(items[i]) && ItemOf(g, items[i])
    ensures ParseField(g, ListSyntax(items)) == Ok(ListAtom(items))
  {
    FieldRoundTrip(g, items, "");
    assert ListSyntax(items) + "" == ListSyntax(items);
  }

  // ---------------------------------------------------------------------------------
  // Whole fields: wildcards, blanks, the empty field and the error paths

  /** The smallest and largest number a grammar's Value atoms accept. */
  function ValueMin(g: Grammar): int
  {
    if g == DayOfWeekGrammar then MinCronWeekday else FieldMin(FieldOf(g))
  }

  function ValueMax(g: Grammar): int
  {
    if g == DayOfWeekGrammar then MaxCronWeekday else FieldMax(FieldOf(g))
  }

  /** A field whose first character is a digit is never a wildcard or a blank, so an item
      that throws there fails the whole field with the constructor's error. */
  lemma ThrownItemFailsField(g: Grammar, s: string, e: Error)
    requires |s| > 0 && IsDigit(s[0]) && Item(g, s) == Thrown(e)
    ensures ParseField(g, s) == Err(e)
  {
    FieldOfList(g, s);
    assert ListField(g, s) == Thrown(e) by {
      assert ListItems(g, s) == Thrown(e);
    }
  }

  /** A number the token reads but the field does not accept fails the whole field with
      RangeError (minutes "60", day of month "32", month "13", day of week "7"); no later
      alternative is tried after the constructor throws. */
  lemma OutOfRangeValueFails(g: Grammar, n: int)
    requires 0 <= n <= TokenMax(g) && !(ValueMin(g) <= n <= ValueMax(g))
    ensures ParseField(g, Numeral(n)) == Err(RangeError)
  {
    var s := Numeral(n);
    TokenRoundTrip(g, n, "");
    assert s + "" == s;
    if g == DayOfWeekGrammar {
      assert WeekdayValueItem(s) == Thrown(RangeError);
      assert WeekdayRangeItem(s) == Thrown(RangeError);
    } else {
      assert ValueItem(g, s) == Thrown(RangeError);
      assert RangeItem(g, s) == Thrown(RangeError);
      assert SteppedRangeItem(g, s) == Thrown(RangeError);
    }
    ThrownItemFailsField(g, s, RangeError);
  }

  /** The hour token stops after "2" on "24", and the "4" left over makes the field fail
      with a parse error rather than a range error. */
  lemma HourTwentyFourFails()
    ensures ParseField(HoursGrammar, "24") == Err(ParseError)
  {
    var g := HoursGrammar;
    HourTokenStopsAtTwentyThree();
    assert ValueItem(g, "24") == Parsed(Value(HourField, 2), "4");
    assert Item(g, "24") == Parsed(Value(HourField, 2), "4");
    assert MoreItems(g, "4") == Parsed([], "4");
    assert ListField(g, "24") == Parsed(Value(HourField, 2), "4");
    assert Field(g, "24") == Parsed(Value(HourField, 2), "4");
  }

  /** `lo-hi` with both ends accepted but lo above hi fails the whole field with
      InvalidRangeError (minutes "5-3", day of week "5-1"). */
  lemma InvertedRangeFails(g: Grammar, lo: int, hi: int)
    requires ValueMin(g) <= hi < lo <= ValueMax(g)
    ensures ParseField(g, Numeral(lo) + "-" + Numeral(hi)) == Err(InvalidRangeError)
  {
    var s := Numeral(lo) + "-" + Numeral(hi);
    var s1 := "-" + Numeral(hi);
    assert Token(g, s) == Parsed(lo, s1) by {
      assert s == Numeral(lo) + s1;
      TokenRoundTrip(g, lo, s1);
    }
    assert Token(g, s1[1..]) == Parsed(hi, "") by {
      assert s1[1..] == Numeral(hi) + "";
      TokenRoundTrip(g, hi, "");
    }
    assert Item(g, s) == Thrown(InvalidRangeError) by {
      if g == DayOfWeekGrammar {
        assert WeekdayRangeItem(s) == Thrown(InvalidRangeError);
      } else {
        assert RangeItem(g, s) == Thrown(InvalidRangeError);
        assert SteppedRangeItem(g, s) == Thrown(InvalidRangeError);
      }
    }
    ThrownItemFailsField(g, s, InvalidRangeError);
  }

  /** `v#n` with an ordinal outside 1 to 5 fails the field with RangeError ("1#6"). */
  lemma NthOrdinalOutOfRangeFails(v: int, n: int)
    requires MinCronWeekday <= v <= MaxCronWeekday && 0 <= n <= 9 && !(1 <= n <= 5)
    ensures ParseField(DayOfWeekGrammar, Numeral(v) + "#" + Numeral(n)) == Err(RangeError)
  {
    var s := Numeral(v) + "#" + Numeral(n);
    var s1 := "#" + Numeral(n);
    assert s == Numeral(v) + s1 && s1[1..] == Numeral(n) + "";
    WeekdayValueItemRoundTrip(v, s1);
    TokenRoundTrip(DayOfWeekGrammar, n, "");
    assert WeekdayRangeItem(s) == NoMatch;
    assert NthWeekdayItem(s) == Thrown(RangeError);
    ThrownItemFailsField(DayOfWeekGrammar, s, RangeError);
  }

  /** "*" is the full range of the field; for the day of week, every weekday. */
  lemma WildcardParses(g: Grammar)
    ensures ParseField(g, "*") == Ok(if g == DayOfWeekGrammar then WeekdayRange(MinCronWeekday, MaxCronWeekday)
                                     else Range(FieldOf(g), FieldMin(FieldOf(g)), FieldMax(FieldOf(g)), 1))
  {
    assert "*"[1..] == "";
  }

  // A star, a slash and a step k: the full range stepped by k when k lies in 1 to the
  // field's maximum, and a RangeError otherwise (a step of 65 for minutes, or 0).
  lemma SteppedWildcardParses(g: Grammar, step: int)
    requires g != DayOfWeekGrammar && 0 <= step <= TokenMax(g)
    ensures var f := FieldOf(g);
      ParseField(g, "*/" + Numeral(step))
        == if 1 <= step <= FieldMax(f) then Ok(Range(f, FieldMin(f), FieldMax(f), step)) else Err(RangeError)
  {
    var f := FieldOf(g);
    var s := "*/" + Numeral(step);
    assert SteppedWildcardField(g, s) == Construct(MakeRange(f, FieldMin(f), FieldMax(f), step), "") by {
      assert s[1..] == "/" + Numeral(step);
      assert s[1..][1..] == Numeral(step) + "";
      TokenRoundTrip(g, step, "");
    }
  }

  /** "?" is the no-op atom in the two day fields, and no field at all elsewhere. */
  lemma BlankParses(g: Grammar)
    ensures ParseField(g, "?") == if g == DayOfMonthGrammar || g == DayOfWeekGrammar then Ok(Noop) else Err(ParseError)
  {
    assert "?"[1..] == "";
    assert Item(g, "?") == NoMatch;
  }

  /** The list alternative accepts zero items, so an empty field parses, to the OR of nothing,
      which no date satisfies. */
  lemma EmptyFieldParses(g: Grammar)
    ensures ParseField(g, "") == Ok(Or([]))
  {
    assert Item(g, "") == NoMatch;
  }

  // ---------------------------------------------------------------------------------
  // The list result as the grammars write it

  /** What a list maps to in the grammars as written: an atom, or the bare array of items. */
  datatype ListValue = AtomValue(atom: Atom) | BareArray(items: seq<Atom>)

  /** The list mapping as written: minutes.ts unwraps a single item, but hours.ts,
      day-of-month.ts, months.ts and day-of-week.ts return the one-element array itself, which
      has no `isValid` or `getNextDateAfter`. */
  function ListValueAsWritten(g: Grammar, items: seq<Atom>): (r: ListValue)
    ensures r.BareArray? <==> g != MinutesGrammar && |items| == 1
    ensures r.AtomValue? ==> r.atom == ListAtom(items)
  {
    if |items| != 1 then AtomValue(Or(items))
    else if g == MinutesGrammar then AtomValue(items[0])
    else BareArray(items)
  }

  /** The hour field "4" of "0 4 * * *": as written, the list gives a bare one-element array
      instead of an atom; with the single item unwrapped, the field is the Value atom 4. */
  lemma SingleHourAsWritten()
    ensures ListItems(HoursGrammar, "4") == Parsed([Value(HourField, 4)], "")
    ensures ListValueAsWritten(HoursGrammar, [Value(HourField, 4)]) == BareArray([Value(HourField, 4)])
    ensures ParseField(HoursGrammar, "4") == Ok(Value(HourField, 4))
  {
    var items := [Value(HourField, 4)];
    assert ListSyntax(items) == "4" by {
      assert MoreSyntax(items[1..]) == "";
    }
    ListItemsRoundTrip(HoursGrammar, items, "");
    assert "4" + "" == "4";
    ParseFieldRoundTrip(HoursGrammar, items);
  }

  // ---------------------------------------------------------------------------------
  // Lists read and written back

  /** The tail of a list of two more items. */
  lemma TwoItemsMore(c: Atom, d: Atom)
    requires WellFormedAtom(c) && WellFormedAtom(d)
    ensures MoreSyntax([c, d]) == "," + ItemSyntax(c) + ("," + ItemSyntax(d))
  {
    assert [c, d][1..] == [d] && [d][1..] == [];
    assert MoreSyntax([d]) == "," + ItemSyntax(d) + "" == "," + ItemSyntax(d);
  }

  /** The tail of a list of three more items. */
  lemma ThreeItemsMore(b: Atom, c: Atom, d: Atom)
    requires WellFormedAtom(b) && WellFormedAtom(c) && WellFormedAtom(d)
    ensures MoreSyntax([b, c, d]) == "," + ItemSyntax(b) + ("," + ItemSyntax(c) + ("," + ItemSyntax(d)))
  {
    TwoItemsMore(c, d);
    assert [b, c, d][1..] == [c, d];
  }

  /** A four-item list is written as its items' texts with commas between. */
  lemma FourItemsSyntax(a: Atom, b: Atom, c: Atom, d: Atom)
    requires WellFormedAtom(a) && WellFormedAtom(b) && WellFormedAtom(c) && WellFormedAtom(d)
    ensures ListSyntax([a, b, c, d]) == ItemSyntax(a) + ("," + ItemSyntax(b) + ("," + ItemSyntax(c) + ("," + ItemSyntax(d))))
  {
    ThreeItemsMore(b, c, d);
    assert [a, b, c, d][1..] == [b, c, d];
  }

  /** A four-item list reads back, from its items' texts with commas between, as their OR. */
  lemma FourItemsRead(g: Grammar, a: Atom, b: Atom, c: Atom, d: Atom, text: string)
    requires WellFormedAtom(a) && WellFormedAtom(b) && WellFormedAtom(c) && WellFormedAtom(d)
    requires ItemOf(g, a) && ItemOf(g, b) && ItemOf(g, c) && ItemOf(g, d)
    requires text == ItemSyntax(a) + ("," + ItemSyntax(b) + ("," + ItemSyntax(c) + ("," + ItemSyntax(d))))
    ensures ParseField(g, text) == Ok(Or([a, b, c, d]))
  {
    FourItemsSyntax(a, b, c, d);
    ParseFieldRoundTrip(g, [a, b, c, d]);
  }

  /** Proof step for the four Renders lemmas below: unfolds the OR case of Render for a
      four-item list. */
  lemma FourItemsRender(a: Atom, b: Atom, c: Atom, d: Atom)
    ensures Render(Or([a, b, c, d])) == "OR(" + Join([Render(a), Render(b), Render(c), Render(d)]) + ")"
  {
    var items := [a, b, c, d];
    assert seq(|items|, i requires 0 <= i < |items| => Render(items[i])) == [Render(a), Render(b), Render(c), Render(d)];
  }

  /** The minutes field 2,3-15/3,19,23-35 parses to the OR of its four items in order. */
  lemma MinuteListReads()
    ensures ParseField(MinutesGrammar, "2,3-15/3,19,23-35")
         == Ok(Or([Value(MinuteField, 2), Range(MinuteField, 3, 15, 3), Value(MinuteField, 19), Range(MinuteField, 23, 35, 1)]))
  {
    FourItemsRead(MinutesGrammar, Value(MinuteField, 2), Range(MinuteField, 3, 15, 3), Value(MinuteField, 19), Range(MinuteField, 23, 35, 1),
      "2,3-15/3,19,23-35");
  }

  /** That OR is written back as OR(Value(2),Range(3-15/3),Value(19),Range(23-35)): the items' own texts joined by commas. */
  lemma MinuteListRenders()
    ensures Render(Or([Value(MinuteField, 2), Range(MinuteField, 3, 15, 3), Value(MinuteField, 19), Range(MinuteField, 23, 35, 1)]))
         == "OR(" + Join(["Value(2)", "Range(3-15/3)", "Value(19)", "Range(23-35)"]) + ")"
  {
    var items := [Value(MinuteField, 2), Range(MinuteField, 3, 15, 3), Value(MinuteField, 19), Range(MinuteField, 23, 35, 1)];
    NumeralIsDecimal(2); NumeralIsDecimal(3); NumeralIsDecimal(15); NumeralIsDecimal(19); NumeralIsDecimal(23); NumeralIsDecimal(35);
    assert Render(items[0]) == "Value(2)";
    assert Render(items[1]) == "Range(3-15/3)";
    assert Render(items[2]) == "Value(19)";
    assert Render(items[3]) == "Range(23-35)";
    FourItemsRender(Value(MinuteField, 2), Range(MinuteField, 3, 15, 3), Value(MinuteField, 19), Range(MinuteField, 23, 35, 1));
  }

  /** The hours field 2,3-15/3,19,21-23 parses to the OR of its four items in order. */
  lemma HourListReads()
    ensures ParseField(HoursGrammar, "2,3-15/3,19,21-23")
         == Ok(Or([Value(HourField, 2), Range(HourField, 3, 15, 3), Value(HourField, 19), Range(HourField, 21, 23, 1)]))
  {
    FourItemsRead(HoursGrammar, Value(HourField, 2), Range(HourField, 3, 15, 3), Value(HourField, 19), Range(HourField, 21, 23, 1),
      "2,3-15/3,19,21-23");
  }

  /** That OR is written back as OR(Value(2),Range(3-15/3),Value(19),Range(21-23)): the items' own texts joined by commas. */
  lemma HourListRenders()
    ensures Render(Or([Value(HourField, 2), Range(HourField, 3, 15, 3), Value(HourField, 19), Range(HourField, 21, 23, 1)]))
         == "OR(" + Join(["Value(2)", "Range(3-15/3)", "Value(19)", "Range(21-23)"]) + ")"
  {
    var items := [Value(HourField, 2), Range(HourField, 3, 15, 3), Value(HourField, 19), Range(HourField, 21, 23, 1)];
    NumeralIsDecimal(2); NumeralIsDecimal(3); NumeralIsDecimal(15); NumeralIsDecimal(19); NumeralIsDecimal(21); NumeralIsDecimal(23);
    assert Render(items[0]) == "Value(2)";
    assert Render(items[1]) == "Range(3-15/3)";
    assert Render(items[2]) == "Value(19)";
    assert Render(items[3]) == "Range(21-23)";
    FourItemsRender(Value(HourField, 2), Range(HourField, 3, 15, 3), Value(HourField, 19), Range(HourField, 21, 23, 1));
  }

  /** The day-of-month field 2,3-15/3,16W,L-5 parses to the OR of its four items in order. */
  lemma DayOfMonthListReads()
    ensures ParseField(DayOfMonthGrammar, "2,3-15/3,16W,L-5")
         == Ok(Or([Value(DayOfMonthField, 2), Range(DayOfMonthField, 3, 15, 3), NearestWeekday(16), LastOfMonth(5)]))
  {
    FourItemsRead(DayOfMonthGrammar, Value(DayOfMonthField, 2), Range(DayOfMonthField, 3, 15, 3), NearestWeekday(16), LastOfMonth(5),
      "2,3-15/3,16W,L-5");
  }

  /** That OR is written back as OR(Value(2),Range(3-15/3),Weekday(16),LastOfMonth(5)): the items' own texts joined by commas. */
  lemma DayOfMonthListRenders()
    ensures Render(Or([Value(DayOfMonthField, 2), Range(DayOfMonthField, 3, 15, 3), NearestWeekday(16), LastOfMonth(5)]))
         == "OR(" + Join(["Value(2)", "Range(3-15/3)", "Weekday(16)", "LastOfMonth(5)"]) + ")"
  {
    var items := [Value(DayOfMonthField, 2), Range(DayOfMonthField, 3, 15, 3), NearestWeekday(16), LastOfMonth(5)];
    NumeralIsDecimal(2); NumeralIsDecimal(3); NumeralIsDecimal(15); NumeralIsDecimal(16); NumeralIsDecimal(5);
    assert Render(items[0]) == "Value(2)";
    assert Render(items[1]) == "Range(3-15/3)";
    assert Render(items[2]) == "Weekday(16)";
    assert Render(items[3]) == "LastOfMonth(5)";
    FourItemsRender(Value(DayOfMonthField, 2), Range(DayOfMonthField, 3, 15, 3), NearestWeekday(16), LastOfMonth(5));
  }

  /** The day-of-week field 1,3-4,5#3,6L parses to the OR of its four items in order. */
  lemma DayOfWeekListReads()
    ensures ParseField(DayOfWeekGrammar, "1,3-4,5#3,6L")
         == Ok(Or([WeekdayValue(1), WeekdayRange(3, 4), NthWeekday(5, 3), LastWeekday(6)]))
  {
    FourItemsRead(DayOfWeekGrammar, WeekdayValue(1), WeekdayRange(3, 4), NthWeekday(5, 3), LastWeekday(6),
      "1,3-4,5#3,6L");
  }

  /** That OR is written back as OR(Value(1),Range(3-4),NthDayOfWeek(5,3),LastDayOfWeek(6)): the items' own texts joined by commas. */
  lemma DayOfWeekListRenders()
    ensures Render(Or([WeekdayValue(1), WeekdayRange(3, 4), NthWeekday(5, 3), LastWeekday(6)]))
         == "OR(" + Join(["Value(1)", "Range(3-4)", "NthDayOfWeek(5,3)", "LastDayOfWeek(6)"]) + ")"
  {
    var items := [WeekdayValue(1), WeekdayRange(3, 4), NthWeekday(5, 3), LastWeekday(6)];
    NumeralIsDecimal(1); NumeralIsDecimal(3); NumeralIsDecimal(4); NumeralIsDecimal(5); NumeralIsDecimal(6);
    assert Render(items[0]) == "Value(1)";
    assert Render(items[1]) == "Range(3-4)";
    assert Render(items[2]) == "NthDayOfWeek(5,3)";
    assert Render(items[3]) == "LastDayOfWeek(6)";
    FourItemsRender(WeekdayValue(1), WeekdayRange(3, 4), NthWeekday(5, 3), LastWeekday(6));
  }
}
