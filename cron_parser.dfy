/**
  The whole cron expression: five fields separated by single spaces, read left to right by
  `seq`, then the end of the input. The day of month and the day of week are combined into
  one OR atom, so a date matches the days when it satisfies either field.
 */
module CronParser {
  import opened Outcomes
  import opened Atoms
  import opened FieldGrammars

  /** The parsed expression: one atom per constrained field. */
  datatype Schedule = Schedule(minutes: Atom, hours: Atom, days: Atom, months: Atom)

  predicate WellFormedSchedule(s: Schedule)
  {
    WellFormedAtom(s.minutes) && WellFormedAtom(s.hours) && WellFormedAtom(s.days) && WellFormedAtom(s.months)
  }

  /** The grammars of the five fields, left to right. */
  const FieldOrder: seq<Grammar> := [MinutesGrammar, HoursGrammar, DayOfMonthGrammar, MonthsGrammar, DayOfWeekGrammar]

  /** A parser for one field of a given grammar. */
  type FieldParser = (Grammar, string) -> Reply<Atom>

  /** The field parser of the cron expression. */
  function FieldGrammar(): FieldParser
  {
    (g, s) => Field(g, s)
  }

  /** `seq(F1, Space, F2, Space, ...)`: the fields in order, one space between each two; the
      first part that does not match, or throws, ends the sequence. */
  function Fields(field: FieldParser, gs: seq<Grammar>, s: string): (r: Reply<seq<Atom>>)
    ensures r.Parsed? ==> |r.value| == |gs|
    decreases |gs|
  {
    if |gs| == 0 then Parsed([], s)
    else
      match field(gs[0], s)
      case NoMatch => NoMatch
      case Thrown(e) => Thrown(e)
      case Parsed(a, r1) =>
        if |gs| == 1 then Parsed([a], r1)
        else if !StartsWith(r1, " ") then NoMatch
        else
          match Fields(field, gs[1..], r1[1..])
          case Parsed(more, r2) => Parsed([a] + more, r2)
          case NoMatch => NoMatch
          case Thrown(e) => Thrown(e)
  }

  /** Every atom the fields of the cron grammar read is well formed. */
  lemma {:induction false} FieldsWellFormed(gs: seq<Grammar>, s: string)
    ensures var r := Fields(FieldGrammar(), gs, s);
      r.Parsed? ==> forall i :: 0 <= i < |r.value| ==> WellFormedAtom(r.value[i])
    decreases |gs|
  {
    var r := Fields(FieldGrammar(), gs, s);
    if |gs| > 0 && r.Parsed? {
      var head := Field(gs[0], s);
      assert FieldGrammar()(gs[0], s) == head;
      if |gs| > 1 {
        var tail := Fields(FieldGrammar(), gs[1..], head.rest[1..]);
        FieldsWellFormed(gs[1..], head.rest[1..]);
        assert r.value == [head.value] + tail.value;
      }
    }
  }

  /** The five fields read by a given field parser, then the end of the input; the days
      are the OR of the day-of-month and the day-of-week atoms. A constructor error aborts
      with that error; anything else that does not fit is a parse error. */
  function ParseFields(field: FieldParser, s: string): Result<Schedule>
  {
    match Fields(field, FieldOrder, s)
    case Parsed(atoms, rest) =>
      if |rest| == 0 then Ok(Schedule(atoms[0], atoms[1], Or([atoms[2], atoms[4]]), atoms[3]))
      else Err(ParseError)
    case NoMatch => Err(ParseError)
    case Thrown(e) => Err(e)
  }

  /** `Cron.parse`: the five fields of the cron grammar. */
  function ParseCron(s: string): (r: Result<Schedule>)
    ensures r.Ok? ==> WellFormedSchedule(r.value)
  {
    ParseFieldsWellFormed(s);
    ParseFields(FieldGrammar(), s)
  }

  /** The schedule read from five well-formed field atoms is well formed. */
  lemma ParseFieldsWellFormed(s: string)
    ensures var r := ParseFields(FieldGrammar(), s); r.Ok? ==> WellFormedSchedule(r.value)
  {
    var f := Fields(FieldGrammar(), FieldOrder, s);
    if f.Parsed? && |f.rest| == 0 {
      FieldsWellFormed(FieldOrder, s);
      ScheduleWellFormed(f.value);
    }
  }

  /** Five well-formed field atoms make a well-formed schedule. */
  lemma ScheduleWellFormed(atoms: seq<Atom>)
    requires |atoms| == 5 && forall i :: 0 <= i < |atoms| ==> WellFormedAtom(atoms[i])
    ensures WellFormedSchedule(Schedule(atoms[0], atoms[1], Or([atoms[2], atoms[4]]), atoms[3]))
  {
    var days := [atoms[2], atoms[4]];
    assert forall i :: 0 <= i < |days| ==> WellFormedAtom(days[i]);
  }

  // ---------------------------------------------------------------------------------
  // Reading fields back from their text

  /** The text reads as the atom whenever it is followed by the end of the input or by the
      space before the next field. */
  ghost predicate ReadsAs(field: FieldParser, g: Grammar, text: string, a: Atom)
  {
    forall rest :: FieldEnd(rest) ==> field(g, text + rest) == Parsed(a, rest)
  }

  /** A non-empty list of well-formed items reads as the atom of the list. */
  lemma ListReadsAs(g: Grammar, items: seq<Atom>)
    requires |items| >= 1 && forall i :: 0 <= i < |items| ==> WellFormedAtom(items[i]) && ItemOf(g, items[i])
    ensures ReadsAs(FieldGrammar(), g, ListSyntax(items), ListAtom(items))
  {
    forall rest | FieldEnd(rest)
      ensures Field(g, ListSyntax(items) + rest) == Parsed(ListAtom(items), rest)
    {
      FieldRoundTrip(g, items, rest);
    }
  }

  /** The atom "*" stands for in each field. */
  function WildcardAtom(g: Grammar): Atom
  {
    if g == DayOfWeekGrammar then WeekdayRange(0, 6)
    else Range(FieldOf(g), FieldAtoms.FieldMin(FieldOf(g)), FieldAtoms.FieldMax(FieldOf(g)), 1)
  }

  /** "*" reads as the full range of the field, all seven weekdays for the day of week. */
  lemma WildcardReadsAs(g: Grammar)
    ensures ReadsAs(FieldGrammar(), g, "*", WildcardAtom(g))
  {
    forall rest | FieldEnd(rest)
      ensures Field(g, "*" + rest) == Parsed(WildcardAtom(g), rest)
    {
      WildcardFieldReads(g, rest);
    }
  }

  /** "*" before the end of the field is the wildcard alternative. */
  lemma WildcardFieldReads(g: Grammar, rest: string)
    requires FieldEnd(rest)
    ensures Field(g, "*" + rest) == Parsed(WildcardAtom(g), rest)
  {
    var s := "*" + rest;
    assert StartsWith(s, "*") && s[1..] == rest;
    if g == DayOfWeekGrammar {
      assert WeekdayWildcardField(s) == Parsed(WildcardAtom(g), rest);
    } else {
      assert WildcardField(g, s) == Parsed(WildcardAtom(g), rest);
      assert SteppedWildcardField(g, s) == NoMatch by {
        assert !StartsWith(rest, "/");
      }
    }
  }

  /** "?" reads as the no-op atom in the two day fields. */
  lemma BlankReadsAs(g: Grammar)
    requires g == DayOfMonthGrammar || g == DayOfWeekGrammar
    ensures ReadsAs(FieldGrammar(), g, "?", Noop)
  {
    forall rest | FieldEnd(rest)
      ensures Field(g, "?" + rest) == Parsed(Noop, rest)
    {
      var s := "?" + rest;
      assert s[1..] == rest;
      assert Item(g, s) == NoMatch;
    }
  }

  /** The text of several fields: one space between each two. */
  function JoinFields(texts: seq<string>): string
  {
    if |texts| == 0 then "" else if |texts| == 1 then texts[0] else texts[0] + " " + JoinFields(texts[1..])
  }

  /** One more step of `seq`: a field, a space, then the remaining fields. */
  lemma FieldsStep(field: FieldParser, gs: seq<Grammar>, s: string, a: Atom, r1: string, more: seq<Atom>, rest: string)
    requires |gs| >= 2 && field(gs[0], s) == Parsed(a, r1)
    requires |r1| > 0 && r1[0] == ' ' && Fields(field, gs[1..], r1[1..]) == Parsed(more, rest)
    ensures Fields(field, gs, s) == Parsed([a] + more, rest)
  {
    assert StartsWith(r1, " ");
  }

  /** Regrouping the text of several fields. */
  lemma SpaceRegroup(first: string, others: string, rest: string)
    ensures var r1 := " " + others + rest;
      first + " " + others + rest == first + r1 && |r1| > 0 && r1[0] == ' ' && r1[1..] == others + rest
  {
  }

  /** Texts that read as atoms, joined by single spaces, read as those atoms in order. */
  lemma {:induction false} FieldsRoundTrip(field: FieldParser, gs: seq<Grammar>, texts: seq<string>, atoms: seq<Atom>, rest: string)
    requires |gs| == |texts| == |atoms| >= 1
    requires forall i :: 0 <= i < |gs| ==> ReadsAs(field, gs[i], texts[i], atoms[i])
    requires FieldEnd(rest)
    ensures Fields(field, gs, JoinFields(texts) + rest) == Parsed(atoms, rest)
    decreases |gs|
  {
    assert ReadsAs(field, gs[0], texts[0], atoms[0]);
    if |gs| == 1 {
      assert field(gs[0], texts[0] + rest) == Parsed(atoms[0], rest);
      assert [atoms[0]] == atoms;
    } else {
      var r1 := " " + JoinFields(texts[1..]) + rest;
      SpaceRegroup(texts[0], JoinFields(texts[1..]), rest);
      assert field(gs[0], texts[0] + r1) == Parsed(atoms[0], r1);
      FieldsRoundTrip(field, gs[1..], texts[1..], atoms[1..], rest);
      FieldsStep(field, gs, JoinFields(texts) + rest, atoms[0], r1, atoms[1..], rest);
      assert [atoms[0]] + atoms[1..] == atoms;
    }
  }

  /** Texts that read as atoms for fewer fields than the grammars ask for do not match: the
      space before the next field is missing. */
  lemma {:induction false} FieldsMissing(field: FieldParser, gs: seq<Grammar>, texts: seq<string>, atoms: seq<Atom>)
    requires 1 <= |texts| == |atoms| < |gs|
    requires forall i :: 0 <= i < |texts| ==> ReadsAs(field, gs[i], texts[i], atoms[i])
    ensures Fields(field, gs, JoinFields(texts)) == NoMatch
    decreases |texts|
  {
    assert ReadsAs(field, gs[0], texts[0], atoms[0]);
    if |texts| == 1 {
      assert texts[0] + "" == texts[0];
      assert field(gs[0], texts[0] + "") == Parsed(atoms[0], "");
    } else {
      var r1 := " " + JoinFields(texts[1..]) + "";
      SpaceRegroup(texts[0], JoinFields(texts[1..]), "");
      assert JoinFields(texts) + "" == JoinFields(texts);
      assert JoinFields(texts[1..]) + "" == JoinFields(texts[1..]);
      assert field(gs[0], texts[0] + r1) == Parsed(atoms[0], r1);
      FieldsMissing(field, gs[1..], texts[1..], atoms[1..]);
    }
  }

  /** Five field texts that read as atoms make an expression that parses to the schedule of
      those atoms, with the two day fields combined by OR. */
  lemma CronRoundTrip(texts: seq<string>, atoms: seq<Atom>)
    requires |texts| == |atoms| == 5
    requires forall i :: 0 <= i < 5 ==> ReadsAs(FieldGrammar(), FieldOrder[i], texts[i], atoms[i])
    ensures ParseCron(JoinFields(texts)) == Ok(Schedule(atoms[0], atoms[1], Or([atoms[2], atoms[4]]), atoms[3]))
  {
    FieldsRoundTrip(FieldGrammar(), FieldOrder, texts, atoms, "");
    assert JoinFields(texts) + "" == JoinFields(texts);
  }

  /** CronRoundTrip with the five fields named one by one. */
  lemma FiveFieldsParse(minutes: string, hours: string, days: string, months: string, weekdays: string,
                        m: Atom, h: Atom, d: Atom, mo: Atom, w: Atom)
    requires ReadsAs(FieldGrammar(), MinutesGrammar, minutes, m)
    requires ReadsAs(FieldGrammar(), HoursGrammar, hours, h)
    requires ReadsAs(FieldGrammar(), DayOfMonthGrammar, days, d)
    requires ReadsAs(FieldGrammar(), MonthsGrammar, months, mo)
    requires ReadsAs(FieldGrammar(), DayOfWeekGrammar, weekdays, w)
    ensures ParseCron(JoinFields([minutes, hours, days, months, weekdays])) == Ok(Schedule(m, h, Or([d, w]), mo))
  {
    var texts, atoms := [minutes, hours, days, months, weekdays], [m, h, d, mo, w];
    forall i | 0 <= i < 5
      ensures ReadsAs(FieldGrammar(), FieldOrder[i], texts[i], atoms[i])
    {
      if i == 0 {
      } else if i == 1 {
      } else if i == 2 {
      } else if i == 3 {
      }
    }
    CronRoundTrip(texts, atoms);
  }

  /** An expression with fewer than five fields is a parse error ("* * * *"). */
  lemma MissingFieldFails(texts: seq<string>, atoms: seq<Atom>)
    requires 1 <= |texts| == |atoms| < 5
    requires forall i :: 0 <= i < |texts| ==> ReadsAs(FieldGrammar(), FieldOrder[i], texts[i], atoms[i])
    ensures ParseCron(JoinFields(texts)) == Err(ParseError)
  {
    FieldsMissing(FieldGrammar(), FieldOrder, texts, atoms);
  }

  /** An expression with text after the fifth field is a parse error ("* * * * * *"). */
  lemma TrailingTextFails(texts: seq<string>, atoms: seq<Atom>, extra: string)
    requires |texts| == |atoms| == 5
    requires forall i :: 0 <= i < 5 ==> ReadsAs(FieldGrammar(), FieldOrder[i], texts[i], atoms[i])
    ensures ParseCron(JoinFields(texts) + " " + extra) == Err(ParseError)
  {
    FieldsRoundTrip(FieldGrammar(), FieldOrder, texts, atoms, " " + extra);
    assert JoinFields(texts) + " " + extra == JoinFields(texts) + (" " + extra);
  }

  /** Five wildcards parse to the wildcard atom of every field. */
  lemma WildcardsParse()
    ensures ParseCron(JoinFields(["*", "*", "*", "*", "*"])) == Ok(Schedule(WildcardAtom(MinutesGrammar),
      WildcardAtom(HoursGrammar), Or([WildcardAtom(DayOfMonthGrammar), WildcardAtom(DayOfWeekGrammar)]),
      WildcardAtom(MonthsGrammar)))
  {
    var texts := ["*", "*", "*", "*", "*"];
    var atoms := seq(5, i requires 0 <= i < 5 => WildcardAtom(FieldOrder[i]));
    forall i | 0 <= i < 5
      ensures ReadsAs(FieldGrammar(), FieldOrder[i], texts[i], atoms[i])
    {
      WildcardReadsAs(FieldOrder[i]);
    }
    CronRoundTrip(texts, atoms);
  }

  /** "* * * * *": every minute, hour and month, and any day of the month or of the week. */
  lemma EveryMinuteParses()
    ensures ParseCron(JoinFields(["*", "*", "*", "*", "*"])) == Ok(Schedule(
      Range(FieldAtoms.MinuteField, 0, 59, 1), Range(FieldAtoms.HourField, 0, 23, 1),
      Or([Range(FieldAtoms.DayOfMonthField, 1, 31, 1), WeekdayRange(0, 6)]), Range(FieldAtoms.MonthField, 1, 12, 1)))
  {
    WildcardAtomValues();
    WildcardsParse();
  }

  /** The wildcard atoms of the five fields, bound by bound. */
  lemma WildcardAtomValues()
    ensures WildcardAtom(MinutesGrammar) == Range(FieldAtoms.MinuteField, 0, 59, 1)
    ensures WildcardAtom(HoursGrammar) == Range(FieldAtoms.HourField, 0, 23, 1)
    ensures WildcardAtom(DayOfMonthGrammar) == Range(FieldAtoms.DayOfMonthField, 1, 31, 1)
    ensures WildcardAtom(MonthsGrammar) == Range(FieldAtoms.MonthField, 1, 12, 1)
    ensures WildcardAtom(DayOfWeekGrammar) == WeekdayRange(0, 6)
  {
  }

  /** "* * * *": the fifth field is missing. */
  lemma FourFieldsFail()
    ensures ParseCron(JoinFields(["*", "*", "*", "*"])) == Err(ParseError)
  {
    var texts := ["*", "*", "*", "*"];
    var atoms := seq(4, i requires 0 <= i < 4 => WildcardAtom(FieldOrder[i]));
    forall i | 0 <= i < 4
      ensures ReadsAs(FieldGrammar(), FieldOrder[i], texts[i], atoms[i])
    {
      WildcardReadsAs(FieldOrder[i]);
    }
    MissingFieldFails(texts, atoms);
  }

  /** "3-15/3,18,32 * * * *": a minute list of a stepped range and two values. */
  lemma MinuteListParses()
    ensures ParseCron(JoinFields(["3-15/3,18,32", "*", "*", "*", "*"])) == Ok(Schedule(
      Or([Range(FieldAtoms.MinuteField, 3, 15, 3), Value(FieldAtoms.MinuteField, 18), Value(FieldAtoms.MinuteField, 32)]),
      WildcardAtom(HoursGrammar), Or([WildcardAtom(DayOfMonthGrammar), WildcardAtom(DayOfWeekGrammar)]),
      WildcardAtom(MonthsGrammar)))
  {
    var items := [Range(FieldAtoms.MinuteField, 3, 15, 3), Value(FieldAtoms.MinuteField, 18), Value(FieldAtoms.MinuteField, 32)];
    ListReadsAs(MinutesGrammar, items);
    assert ListSyntax(items) == "3-15/3,18,32";
    WildcardReadsAs(HoursGrammar);
    WildcardReadsAs(DayOfMonthGrammar);
    WildcardReadsAs(MonthsGrammar);
    WildcardReadsAs(DayOfWeekGrammar);
    FiveFieldsParse("3-15/3,18,32", "*", "*", "*", "*",
      Or(items), WildcardAtom(HoursGrammar),
      WildcardAtom(DayOfMonthGrammar), WildcardAtom(MonthsGrammar), WildcardAtom(DayOfWeekGrammar));
  }

  /** A single item reads as itself. */
  lemma ItemReadsAs(g: Grammar, a: Atom, text: string)
    requires WellFormedAtom(a) && ItemOf(g, a) && ItemSyntax(a) == text
    ensures ReadsAs(FieldGrammar(), g, text, a)
  {
    assert ListSyntax([a]) == text by {
      assert ListSyntax([a]) == ItemSyntax(a) + MoreSyntax([]);
    }
    forall rest | FieldEnd(rest)
      ensures Field(g, text + rest) == Parsed(a, rest)
    {
      FieldRoundTrip(g, [a], rest);
    }
  }

  /** "2-4,7,12" reads as the OR of a month range and two month values. */
  lemma MonthItemsReadAs()
    ensures ReadsAs(FieldGrammar(), MonthsGrammar, "2-4,7,12",
      Or([Range(FieldAtoms.MonthField, 2, 4, 1), Value(FieldAtoms.MonthField, 7), Value(FieldAtoms.MonthField, 12)]))
  {
    var months := [Range(FieldAtoms.MonthField, 2, 4, 1), Value(FieldAtoms.MonthField, 7), Value(FieldAtoms.MonthField, 12)];
    ListReadsAs(MonthsGrammar, months);
    assert ListSyntax(months) == "2-4,7,12";
  }

  /** "lo-hi,12W,L-4" reads as the OR of a day range, the weekday nearest the 12th and the
      fourth day before the month's last. */
  lemma DayItemsReadAs(lo: int, hi: int, text: string)
    requires 1 <= lo <= hi <= 31 && text == Numeral(lo) + "-" + Numeral(hi) + ",12W,L-4"
    ensures ReadsAs(FieldGrammar(), DayOfMonthGrammar, text,
      Or([Range(FieldAtoms.DayOfMonthField, lo, hi, 1), NearestWeekday(12), LastOfMonth(4)]))
  {
    var items := [Range(FieldAtoms.DayOfMonthField, lo, hi, 1), NearestWeekday(12), LastOfMonth(4)];
    ListReadsAs(DayOfMonthGrammar, items);
    assert ListSyntax(items) == text by {
      assert MoreSyntax(items[2..]) == ",L-4" + MoreSyntax([]);
      assert MoreSyntax(items[1..]) == ",12W" + MoreSyntax(items[2..]);
    }
  }

  /** "30 8 lo-hi,12W,L-4 * ?": 08:30 on the days lo to hi, on the weekday nearest the 12th
      and four days before the month's last, in every month. */
  lemma DayItemListParses(lo: int, hi: int, days: string)
    requires 1 <= lo <= hi <= 31 && days == Numeral(lo) + "-" + Numeral(hi) + ",12W,L-4"
    ensures ParseCron(JoinFields(["30", "8", days, "*", "?"])) == Ok(Schedule(
      Value(FieldAtoms.MinuteField, 30), Value(FieldAtoms.HourField, 8),
      Or([Or([Range(FieldAtoms.DayOfMonthField, lo, hi, 1), NearestWeekday(12), LastOfMonth(4)]), Noop]),
      WildcardAtom(MonthsGrammar)))
  {
    DayItemsReadAs(lo, hi, days);
    assert ReadsAs(FieldGrammar(), MinutesGrammar, "30", Value(FieldAtoms.MinuteField, 30)) by {
      ItemReadsAs(MinutesGrammar, Value(FieldAtoms.MinuteField, 30), "30");
    }
    assert ReadsAs(FieldGrammar(), HoursGrammar, "8", Value(FieldAtoms.HourField, 8)) by {
      ItemReadsAs(HoursGrammar, Value(FieldAtoms.HourField, 8), "8");
    }
    WildcardReadsAs(MonthsGrammar);
    assert ReadsAs(FieldGrammar(), DayOfWeekGrammar, "?", Noop) by {
      BlankReadsAs(DayOfWeekGrammar);
    }
    FiveFieldsParse("30", "8", days, "*", "?",
      Value(FieldAtoms.MinuteField, 30), Value(FieldAtoms.HourField, 8),
      Or([Range(FieldAtoms.DayOfMonthField, lo, hi, 1), NearestWeekday(12), LastOfMonth(4)]), WildcardAtom(MonthsGrammar), Noop);
  }

  /** "30 8 5 2-4,7,12 ?": 08:30 on the fifth of February to April, July and December. */
  lemma MonthListParses()
    ensures ParseCron(JoinFields(["30", "8", "5", "2-4,7,12", "?"])) == Ok(Schedule(
      Value(FieldAtoms.MinuteField, 30), Value(FieldAtoms.HourField, 8),
      Or([Value(FieldAtoms.DayOfMonthField, 5), Noop]),
      Or([Range(FieldAtoms.MonthField, 2, 4, 1), Value(FieldAtoms.MonthField, 7), Value(FieldAtoms.MonthField, 12)])))
  {
    var months := [Range(FieldAtoms.MonthField, 2, 4, 1), Value(FieldAtoms.MonthField, 7), Value(FieldAtoms.MonthField, 12)];
    MonthItemsReadAs();
    assert ReadsAs(FieldGrammar(), MinutesGrammar, "30", Value(FieldAtoms.MinuteField, 30)) by {
      ItemReadsAs(MinutesGrammar, Value(FieldAtoms.MinuteField, 30), "30");
    }
    assert ReadsAs(FieldGrammar(), HoursGrammar, "8", Value(FieldAtoms.HourField, 8)) by {
      ItemReadsAs(HoursGrammar, Value(FieldAtoms.HourField, 8), "8");
    }
    assert ReadsAs(FieldGrammar(), DayOfMonthGrammar, "5", Value(FieldAtoms.DayOfMonthField, 5)) by {
      ItemReadsAs(DayOfMonthGrammar, Value(FieldAtoms.DayOfMonthField, 5), "5");
    }
    assert ReadsAs(FieldGrammar(), DayOfWeekGrammar, "?", Noop) by {
      BlankReadsAs(DayOfWeekGrammar);
    }
    FiveFieldsParse("30", "8", "5", "2-4,7,12", "?",
      Value(FieldAtoms.MinuteField, 30),
      Value(FieldAtoms.HourField, 8), Value(FieldAtoms.DayOfMonthField, 5), Or(months), Noop);
  }

  /** "* * 31 2 ?": every minute of the 31st of February. */
  lemma FebruaryThirtyFirstParses()
    ensures ParseCron(JoinFields(["*", "*", "31", "2", "?"])) == Ok(Schedule(
      WildcardAtom(MinutesGrammar), WildcardAtom(HoursGrammar),
      Or([Value(FieldAtoms.DayOfMonthField, 31), Noop]), Value(FieldAtoms.MonthField, 2)))
  {
    assert ReadsAs(FieldGrammar(), MinutesGrammar, "*", WildcardAtom(MinutesGrammar)) by {
      WildcardReadsAs(MinutesGrammar);
    }
    assert ReadsAs(FieldGrammar(), HoursGrammar, "*", WildcardAtom(HoursGrammar)) by {
      WildcardReadsAs(HoursGrammar);
    }
    assert ReadsAs(FieldGrammar(), DayOfMonthGrammar, "31", Value(FieldAtoms.DayOfMonthField, 31)) by {
      ItemReadsAs(DayOfMonthGrammar, Value(FieldAtoms.DayOfMonthField, 31), "31");
    }
    assert ReadsAs(FieldGrammar(), MonthsGrammar, "2", Value(FieldAtoms.MonthField, 2)) by {
      ItemReadsAs(MonthsGrammar, Value(FieldAtoms.MonthField, 2), "2");
    }
    assert ReadsAs(FieldGrammar(), DayOfWeekGrammar, "?", Noop) by {
      BlankReadsAs(DayOfWeekGrammar);
    }
    FiveFieldsParse("*", "*", "31", "2", "?",
      WildcardAtom(MinutesGrammar), WildcardAtom(HoursGrammar),
      Value(FieldAtoms.DayOfMonthField, 31), Value(FieldAtoms.MonthField, 2), Noop);
  }

  /** "0 0-4 * * *": on the hour, from midnight to four o'clock. */
  lemma EarlyHoursParses()
    ensures ParseCron(JoinFields(["0", "0-4", "*", "*", "*"])) == Ok(Schedule(
      Value(FieldAtoms.MinuteField, 0), Range(FieldAtoms.HourField, 0, 4, 1),
      Or([WildcardAtom(DayOfMonthGrammar), WildcardAtom(DayOfWeekGrammar)]), WildcardAtom(MonthsGrammar)))
  {
    assert ReadsAs(FieldGrammar(), MinutesGrammar, "0", Value(FieldAtoms.MinuteField, 0)) by {
      ItemReadsAs(MinutesGrammar, Value(FieldAtoms.MinuteField, 0), "0");
    }
    assert ReadsAs(FieldGrammar(), HoursGrammar, "0-4", Range(FieldAtoms.HourField, 0, 4, 1)) by {
      ItemReadsAs(HoursGrammar, Range(FieldAtoms.HourField, 0, 4, 1), "0-4");
    }
    assert ReadsAs(FieldGrammar(), DayOfMonthGrammar, "*", WildcardAtom(DayOfMonthGrammar)) by {
      WildcardReadsAs(DayOfMonthGrammar);
    }
    assert ReadsAs(FieldGrammar(), MonthsGrammar, "*", WildcardAtom(MonthsGrammar)) by {
      WildcardReadsAs(MonthsGrammar);
    }
    assert ReadsAs(FieldGrammar(), DayOfWeekGrammar, "*", WildcardAtom(DayOfWeekGrammar)) by {
      WildcardReadsAs(DayOfWeekGrammar);
    }
    FiveFieldsParse("0", "0-4", "*", "*", "*",
      Value(FieldAtoms.MinuteField, 0), Range(FieldAtoms.HourField, 0, 4, 1),
      WildcardAtom(DayOfMonthGrammar), WildcardAtom(MonthsGrammar), WildcardAtom(DayOfWeekGrammar));
  }

  /** "0 1 * * *": at one o'clock every day. */
  lemma OneOClockParses()
    ensures ParseCron(JoinFields(["0", "1", "*", "*", "*"])) == Ok(Schedule(
      Value(FieldAtoms.MinuteField, 0), Value(FieldAtoms.HourField, 1),
      Or([WildcardAtom(DayOfMonthGrammar), WildcardAtom(DayOfWeekGrammar)]), WildcardAtom(MonthsGrammar)))
  {
    assert ReadsAs(FieldGrammar(), MinutesGrammar, "0", Value(FieldAtoms.MinuteField, 0)) by {
      ItemReadsAs(MinutesGrammar, Value(FieldAtoms.MinuteField, 0), "0");
    }
    assert ReadsAs(FieldGrammar(), HoursGrammar, "1", Value(FieldAtoms.HourField, 1)) by {
      ItemReadsAs(HoursGrammar, Value(FieldAtoms.HourField, 1), "1");
    }
    assert ReadsAs(FieldGrammar(), DayOfMonthGrammar, "*", WildcardAtom(DayOfMonthGrammar)) by {
      WildcardReadsAs(DayOfMonthGrammar);
    }
    assert ReadsAs(FieldGrammar(), MonthsGrammar, "*", WildcardAtom(MonthsGrammar)) by {
      WildcardReadsAs(MonthsGrammar);
    }
    assert ReadsAs(FieldGrammar(), DayOfWeekGrammar, "*", WildcardAtom(DayOfWeekGrammar)) by {
      WildcardReadsAs(DayOfWeekGrammar);
    }
    FiveFieldsParse("0", "1", "*", "*", "*",
      Value(FieldAtoms.MinuteField, 0), Value(FieldAtoms.HourField, 1),
      WildcardAtom(DayOfMonthGrammar), WildcardAtom(MonthsGrammar), WildcardAtom(DayOfWeekGrammar));
  }
}
