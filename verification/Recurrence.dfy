/**
 Translation of an Exchange recurrence rule into an iCalendar RRULE. A rule's fields are kept structured;
 the expansion is that of section 3.3.10 of RFC 5545 for the rule parts the translation uses.
 */
module Recurrence {
  import opened Base
  import opened Gregorian

  datatype Pattern =
    | Daily
    | Weekly(days: int)
    | Monthly(day: int)
    | MonthlyRelative(days: int, week: int)
    | Yearly(month: int, day: int)
    | YearlyRelative(month: int, days: int, week: int)

  /** `firstDayOfWeek` counts from Sunday, 0. */
  datatype Rule = Rule(pattern: Pattern, interval: int, firstDayOfWeek: int)

  predicate ValidRule(rule: Rule) {
    && 1 <= rule.interval <= 999 && 0 <= rule.firstDayOfWeek <= 6
    && match rule.pattern
       case Daily => true
       case Weekly(days) => 1 <= days <= 127
       case Monthly(day) => 1 <= day <= 31
       case MonthlyRelative(days, week) => 1 <= days <= 127 && 1 <= week <= 5
       case Yearly(month, day) => Month(month) && 1 <= day <= 31
       case YearlyRelative(month, days, week) => Month(month) && 1 <= days <= 127 && 1 <= week <= 5
  }

  // ----- The translation -----

  datatype Frequency = DAILY | WEEKLY | MONTHLY | YEARLY

  datatype RRule = RRule(
    freq: Frequency, interval: int, wkst: int,
    byMonth: Option<int>, byMonthDay: seq<int>, byDay: seq<int>, bySetPos: Option<int>)

  /** Whether the mask has weekday `w`'s bit, Sunday being the lowest. */
  predicate HasDay(mask: int, w: int) {
    match w
    case 0 => mask % 2 == 1
    case 1 => mask / 2 % 2 == 1
    case 2 => mask / 4 % 2 == 1
    case 3 => mask / 8 % 2 == 1
    case 4 => mask / 16 % 2 == 1
    case 5 => mask / 32 % 2 == 1
    case 6 => mask / 64 % 2 == 1
    case _ => false
  }

  function WeekdaysFrom(mask: int, w: nat): seq<int>
    requires w <= 7
    decreases 7 - w
  {
    if w == 7 then [] else (if HasDay(mask, w) then [w] else []) + WeekdaysFrom(mask, w + 1)
  }

  function Weekdays(mask: int): seq<int> {
    WeekdaysFrom(mask, 0)
  }

  /** The rule parts that name days; frequency, interval and week start are added by `Translate`. */
  const BARE: RRule := RRule(DAILY, 1, 0, None, [], [], None)

  function MonthDay(day: int): RRule {
    if day == 29 then BARE.(byMonthDay := [28, 29], bySetPos := Some(-1))
    else if day == 30 then BARE.(byMonthDay := [28, 29, 30], bySetPos := Some(-1))
    else if day == 31 then BARE.(byMonthDay := [-1])
    else BARE.(byMonthDay := [day])
  }

  function Position(week: int): int {
    if week == 5 then -1 else week
  }

  function GeneralRelative(days: int, week: int): RRule {
    BARE.(byDay := Weekdays(days), bySetPos := Some(Position(week)))
  }

  function Relative(days: int, week: int): RRule {
    if days == 127 then BARE.(byMonthDay := [Position(week)]) else GeneralRelative(days, week)
  }

  function Translate(rule: Rule): RRule {
    var selected :=
      match rule.pattern
      case Daily => BARE
      case Weekly(days) => BARE.(freq := WEEKLY, byDay := Weekdays(days))
      case Monthly(day) => MonthDay(day).(freq := MONTHLY)
      case MonthlyRelative(days, week) => Relative(days, week).(freq := MONTHLY)
      case Yearly(month, day) => MonthDay(day).(freq := YEARLY, byMonth := Some(month))
      case YearlyRelative(month, days, week) => Relative(days, week).(freq := YEARLY, byMonth := Some(month));
    selected.(interval := rule.interval, wkst := rule.firstDayOfWeek)
  }

  // ----- RFC 5545 -----

  predicate NamesDay(byMonthDay: seq<int>, day: int, length: int) {
    day in byMonthDay || day - length - 1 in byMonthDay
  }

  predicate Matches(r: RRule, date: Date) {
    && (r.byMonth.None? || r.byMonth.value == date.month)
    && (r.byMonthDay == [] || NamesDay(r.byMonthDay, date.day, MonthLength(date.year, date.month)))
    && (r.byDay == [] || Gregorian.Weekday(DayNumber(date)) in r.byDay)
  }

  function Candidates(r: RRule, dates: seq<Date>): seq<Date> {
    if dates == [] then []
    else
      var last := dates[|dates|-1];
      Candidates(r, dates[..|dates|-1]) + (if Matches(r, last) then [last] else [])
  }

  /** BYSETPOS: the n-th of the set, from the end when negative. */
  function Positioned(dates: seq<Date>, position: Option<int>): seq<Date> {
    match position
    case None => dates
    case Some(p) =>
      if 1 <= p <= |dates| then [dates[p - 1]] else if 1 <= -p <= |dates| then [dates[|dates| + p]] else []
  }

  function Selected(r: RRule, period: seq<Date>): seq<Date> {
    Positioned(Candidates(r, period), r.bySetPos)
  }

  function DaysOfMonth(year: int, month: int, count: nat): seq<Date> {
    if count == 0 then [] else DaysOfMonth(year, month, count - 1) + [Date(year, month, count)]
  }

  function MonthDates(year: int, month: int): seq<Date> {
    DaysOfMonth(year, month, MonthLength(year, month))
  }

  function MonthsOfYear(year: int, count: nat): seq<Date> {
    if count == 0 then [] else MonthsOfYear(year, count - 1) + MonthDates(year, count)
  }

  function YearDates(year: int): seq<Date> {
    MonthsOfYear(year, 12)
  }

  /** Which day, week, month or year a date lies in; weeks begin on WKST. */
  function PeriodIndex(r: RRule, date: Date): int {
    match r.freq
    case DAILY => DayNumber(date)
    case WEEKLY => (DayNumber(date) - r.wkst) / 7
    case MONTHLY => 12 * date.year + date.month
    case YEARLY => date.year
  }

  /** Daily and weekly rules carry no BYSETPOS here, so their periods select every matching day. */
  predicate SelectedInPeriod(r: RRule, date: Date) {
    match r.freq
    case DAILY => r.bySetPos.None? && Matches(r, date)
    case WEEKLY => r.bySetPos.None? && Matches(r, date)
    case MONTHLY => date in Selected(r, MonthDates(date.year, date.month))
    case YEARLY => date in Selected(r, YearDates(date.year))
  }

  /** Not before the first date, a whole number of intervals after it, and selected there. */
  predicate Recurs(started: bool, distance: int, interval: int, selected: bool)
    requires interval >= 1
  {
    started && distance % interval == 0 && selected
  }

  /** `date` is in the recurrence set of the rule with the given first date. */
  predicate Occurs(r: RRule, start: Date, date: Date)
    requires r.interval >= 1
  {
    Recurs(DayNumber(date) >= DayNumber(start), PeriodIndex(r, date) - PeriodIndex(r, start), r.interval, SelectedInPeriod(r, date))
  }

  // ----- The set of a month, day by day -----

  function DayCandidates(r: RRule, year: int, month: int, count: nat): seq<Date> {
    if count == 0 then []
    else
      DayCandidates(r, year, month, count - 1) +
      (if Matches(r, Date(year, month, count)) then [Date(year, month, count)] else [])
  }

  lemma {:induction false} MonthCandidates(r: RRule, year: int, month: int, count: nat)
    ensures Candidates(r, DaysOfMonth(year, month, count)) == DayCandidates(r, year, month, count)
  {
    if count > 0 {
      MonthCandidates(r, year, month, count - 1);
      var dates := DaysOfMonth(year, month, count);
      assert dates[..|dates|-1] == DaysOfMonth(year, month, count - 1);
    }
  }

  lemma {:induction false} Quiet(r: RRule, year: int, month: int, a: nat, b: nat)
    requires a <= b && forall day | a < day <= b :: !Matches(r, Date(year, month, day))
    ensures DayCandidates(r, year, month, b) == DayCandidates(r, year, month, a)
    decreases b
  {
    if a < b {
      Quiet(r, year, month, a, b - 1);
    }
  }

  /** BYSETPOS=-1 picks the last matching day. */
  lemma PicksLast(r: RRule, year: int, month: int, day: nat)
    requires 1 <= day <= MonthLength(year, month) && Matches(r, Date(year, month, day))
    requires forall later | day < later <= MonthLength(year, month) :: !Matches(r, Date(year, month, later))
    ensures Positioned(Candidates(r, MonthDates(year, month)), Some(-1)) == [Date(year, month, day)]
  {
    MonthCandidates(r, year, month, MonthLength(year, month));
    Quiet(r, year, month, day, MonthLength(year, month));
  }

  lemma PicksOnly(r: RRule, year: int, month: int, day: nat)
    requires 1 <= day <= MonthLength(year, month)
    requires forall other | 1 <= other <= MonthLength(year, month) :: Matches(r, Date(year, month, other)) <==> other == day
    ensures Candidates(r, MonthDates(year, month)) == [Date(year, month, day)]
  {
    Quiet(r, year, month, 0, day - 1);
    MonthCandidates(r, year, month, MonthLength(year, month));
    Quiet(r, year, month, day, MonthLength(year, month));
  }

  // ----- Numbered days -----

  function Clamped(day: int, length: int): int {
    if day <= length then day else length
  }

  /** Only the rule parts that name days matter within a month. */
  ghost predicate SameParts(r: RRule, parts: RRule, month: int) {
    && r.byMonthDay == parts.byMonthDay && r.byDay == parts.byDay && r.bySetPos == parts.bySetPos
    && (r.byMonth.None? || r.byMonth.value == month)
  }

  /** A numbered day selects exactly one date in every month: that day, or the last one of a shorter month. */
  lemma NumberedDay(r: RRule, day: int, year: int, month: int)
    requires Month(month) && 1 <= day <= 31 && SameParts(r, MonthDay(day), month)
    ensures Selected(r, MonthDates(year, month)) == [Date(year, month, Clamped(day, MonthLength(year, month)))]
  {
    var length := MonthLength(year, month);
    if day == 29 || day == 30 {
      PicksLast(r, year, month, Clamped(day, length));
    } else {
      PicksOnly(r, year, month, Clamped(day, length));
    }
  }

  // ----- Ordinal weekdays -----

  predicate InMask(mask: int, year: int, month: int, day: int) {
    HasDay(mask, Gregorian.Weekday(DayNumber(Date(year, month, day))))
  }

  /** Which days of the month have a weekday in the mask; day 1 is at index 0. */
  function Marks(mask: int, year: int, month: int): (marks: seq<bool>)
    ensures |marks| == MonthLength(year, month)
    ensures forall day | 1 <= day <= |marks| :: marks[day - 1] == InMask(mask, year, month, day)
  {
    seq(MonthLength(year, month), k requires 0 <= k => InMask(mask, year, month, k + 1))
  }

  function CountUpTo(marks: seq<bool>, day: nat): nat
    requires day <= |marks|
  {
    if day == 0 then 0 else CountUpTo(marks, day - 1) + (if marks[day - 1] then 1 else 0)
  }

  ghost predicate IsNthMark(marks: seq<bool>, week: int, day: int) {
    && 1 <= day <= |marks| && marks[day - 1]
    && (if week == 5 then forall later | day <= later < |marks| :: !marks[later]
        else CountUpTo(marks, day - 1) == week - 1)
  }

  /** `day` is the week-th day of the month with a weekday in the mask; for 5, the last one. */
  ghost predicate IsNth(mask: int, week: int, year: int, month: int, day: int) {
    IsNthMark(Marks(mask, year, month), week, day)
  }

  lemma {:induction false} CountGrows(marks: seq<bool>, a: nat, b: nat)
    requires a <= b <= |marks|
    ensures CountUpTo(marks, a) <= CountUpTo(marks, b)
    ensures forall k | a <= k < b && marks[k] :: CountUpTo(marks, a) < CountUpTo(marks, b)
    decreases b
  {
    if a < b {
      CountGrows(marks, a, b - 1);
    }
  }

  lemma NthIsUnique(marks: seq<bool>, week: int, a: int, b: int)
    requires IsNthMark(marks, week, a) && IsNthMark(marks, week, b)
    ensures a == b
  {
    if week != 5 {
      if a < b {
        CountGrows(marks, a, b - 1);
      } else if b < a {
        CountGrows(marks, b, a - 1);
      }
    }
  }

  // Every weekday comes once in seven days, so every month has at least four of each.

  lemma {:induction false} WeekdaysFromMask(mask: int, from: nat, w: int)
    requires from <= 7
    ensures w in WeekdaysFrom(mask, from) <==> from <= w < 7 && HasDay(mask, w)
    decreases 7 - from
  {
    if from < 7 {
      WeekdaysFromMask(mask, from + 1, w);
    }
  }

  lemma SomeWeekday(mask: int) returns (w: int)
    requires 1 <= mask <= 127
    ensures 0 <= w < 7 && HasDay(mask, w)
  {
    w := if mask % 2 == 1 then 0
         else if mask / 2 % 2 == 1 then 1
         else if mask / 4 % 2 == 1 then 2
         else if mask / 8 % 2 == 1 then 3
         else if mask / 16 % 2 == 1 then 4
         else if mask / 32 % 2 == 1 then 5
         else 6;
  }

  lemma EveryWeekday(w: int)
    requires 0 <= w < 7
    ensures HasDay(127, w)
  {
  }

  lemma Reaches(first: int, w: int)
    requires 0 <= w < 7
    ensures (first + (w - first) % 7) % 7 == w
  {
  }

  lemma SomeDayInWeek(mask: int, year: int, month: int, from: nat) returns (day: nat)
    requires 1 <= mask <= 127
    ensures from < day <= from + 7 && InMask(mask, year, month, day)
  {
    var w := SomeWeekday(mask);
    var first := DayNumber(Date(year, month, from + 1));
    day := from + 1 + (w - first) % 7;
    Reaches(first, w);
  }

  lemma {:induction false} OncePerWeek(mask: int, year: int, month: int, marks: seq<bool>, weeks: nat)
    requires 1 <= mask <= 127 && 7 * weeks <= |marks| && marks == Marks(mask, year, month)
    ensures CountUpTo(marks, 7 * weeks) >= weeks
  {
    if weeks > 0 {
      OncePerWeek(mask, year, month, marks, weeks - 1);
      var day := SomeDayInWeek(mask, year, month, 7 * (weeks - 1));
      CountGrows(marks, 7 * (weeks - 1), 7 * weeks);
    }
  }

  lemma FourInMonth(mask: int, year: int, month: int)
    requires 1 <= mask <= 127
    ensures CountUpTo(Marks(mask, year, month), MonthLength(year, month)) >= 4
  {
    var weeks := MonthLength(year, month) / 7;
    var marks := Marks(mask, year, month);
    OncePerWeek(mask, year, month, marks, weeks);
    CountGrows(marks, 7 * weeks, |marks|);
  }

  // The dates of the marked days, and which of them BYSETPOS picks.

  function MarkedDates(year: int, month: int, marks: seq<bool>, count: nat): seq<Date>
    requires count <= |marks|
  {
    if count == 0 then []
    else
      MarkedDates(year, month, marks, count - 1) + (if marks[count - 1] then [Date(year, month, count)] else [])
  }

  lemma {:induction false} MarkedCount(year: int, month: int, marks: seq<bool>, n: nat)
    requires n <= |marks|
    ensures |MarkedDates(year, month, marks, n)| == CountUpTo(marks, n)
  {
    if n > 0 {
      MarkedCount(year, month, marks, n - 1);
    }
  }

  /** The i-th marked date is the marked day with i marked days before it. */
  lemma {:induction false} MarkedAt(year: int, month: int, marks: seq<bool>, n: nat, i: nat) returns (day: nat)
    requires n <= |marks| && i < |MarkedDates(year, month, marks, n)|
    ensures 1 <= day <= n && MarkedDates(year, month, marks, n)[i] == Date(year, month, day)
    ensures marks[day - 1] && CountUpTo(marks, day - 1) == i
  {
    if i < |MarkedDates(year, month, marks, n - 1)| {
      day := MarkedAt(year, month, marks, n - 1, i);
    } else {
      MarkedCount(year, month, marks, n - 1);
      day := n;
    }
  }

  /** With at least four marked days, the picked position is the n-th or last marked day. */
  lemma PositionPicks(year: int, month: int, marks: seq<bool>, week: int) returns (day: nat)
    requires CountUpTo(marks, |marks|) >= 4 && 1 <= week <= 5
    ensures Positioned(MarkedDates(year, month, marks, |marks|), Some(Position(week))) == [Date(year, month, day)]
    ensures IsNthMark(marks, week, day)
    ensures var index := if week == 5 then |MarkedDates(year, month, marks, |marks|)| - 1 else week - 1;
            0 <= index < |MarkedDates(year, month, marks, |marks|)|
            && MarkedDates(year, month, marks, |marks|)[index] == Date(year, month, day)
  {
    MarkedCount(year, month, marks, |marks|);
    var n := |MarkedDates(year, month, marks, |marks|)|;
    day := MarkedAt(year, month, marks, |marks|, if week == 5 then n - 1 else week - 1);
    if week == 5 {
      CountGrows(marks, day, |marks|);
    }
  }

  /** Rule `r` matches exactly the marked days. */
  ghost predicate Follows(r: RRule, year: int, month: int, marks: seq<bool>) {
    forall day | 1 <= day <= |marks| :: Matches(r, Date(year, month, day)) == marks[day - 1]
  }

  lemma {:induction false} CandidatesAreMarked(r: RRule, year: int, month: int, marks: seq<bool>, k: nat)
    requires k <= |marks| && Follows(r, year, month, marks)
    ensures DayCandidates(r, year, month, k) == MarkedDates(year, month, marks, k)
  {
    if k > 0 {
      CandidatesAreMarked(r, year, month, marks, k - 1);
    }
  }

  lemma MaskIsFollowed(r: RRule, mask: int, week: int, year: int, month: int)
    requires Month(month) && 1 <= mask <= 127 && SameParts(r, GeneralRelative(mask, week), month)
    ensures Follows(r, year, month, Marks(mask, year, month))
  {
    var w := SomeWeekday(mask);
    WeekdaysFromMask(mask, 0, w);
    forall day | 1 <= day <= MonthLength(year, month)
      ensures Matches(r, Date(year, month, day)) <==> InMask(mask, year, month, day)
    {
      WeekdaysFromMask(mask, 0, Gregorian.Weekday(DayNumber(Date(year, month, day))));
    }
  }

  /** BYSETPOS over the matching days selects exactly the n-th, and every month has one. */
  lemma GeneralSelects(r: RRule, mask: int, week: int, year: int, month: int) returns (day: nat)
    requires Month(month) && 1 <= mask <= 127 && 1 <= week <= 5 && SameParts(r, GeneralRelative(mask, week), month)
    ensures Selected(r, MonthDates(year, month)) == [Date(year, month, day)] && IsNth(mask, week, year, month, day)
  {
    var marks := Marks(mask, year, month);
    MaskIsFollowed(r, mask, week, year, month);
    CandidatesAreMarked(r, year, month, marks, |marks|);
    MonthCandidates(r, year, month, |marks|);
    FourInMonth(mask, year, month);
    day := PositionPicks(year, month, marks, week);
  }

  lemma {:induction false} AllMarkedCount(marks: seq<bool>, day: nat)
    requires day <= |marks| && forall k | 0 <= k < |marks| :: marks[k]
    ensures CountUpTo(marks, day) == day
  {
    if day > 0 {
      AllMarkedCount(marks, day - 1);
    }
  }

  lemma AllDaysMarked(year: int, month: int)
    ensures forall k | 0 <= k < MonthLength(year, month) :: Marks(127, year, month)[k]
  {
    forall k | 0 <= k < MonthLength(year, month) ensures Marks(127, year, month)[k] {
      EveryWeekday(Gregorian.Weekday(DayNumber(Date(year, month, k + 1))));
      assert InMask(127, year, month, k + 1);
    }
  }

  function ShortcutDay(week: int, length: int): int {
    if week == 5 then length else week
  }

  /** The all-days shortcut selects the day the general form would. */
  lemma ShortcutSelects(r: RRule, week: int, year: int, month: int)
    requires Month(month) && 1 <= week <= 5 && SameParts(r, Relative(127, week), month)
    ensures var day := ShortcutDay(week, MonthLength(year, month));
            Selected(r, MonthDates(year, month)) == [Date(year, month, day)] && IsNth(127, week, year, month, day)
  {
    PicksOnly(r, year, month, ShortcutDay(week, MonthLength(year, month)));
    AllDaysMarked(year, month);
    ShortcutIsNth(Marks(127, year, month), week);
  }

  lemma ShortcutIsNth(marks: seq<bool>, week: int)
    requires |marks| >= 28 && 1 <= week <= 5 && forall k | 0 <= k < |marks| :: marks[k]
    ensures IsNthMark(marks, week, ShortcutDay(week, |marks|))
  {
    AllMarkedCount(marks, ShortcutDay(week, |marks|) - 1);
  }

  /**
   For every non-empty mask and every week 1-5 an ordinal-weekday rule selects exactly one date in every
   month: the one day that is the n-th, or for 5 the last, whose weekday is in the mask.
   */
  lemma OrdinalWeekday(r: RRule, mask: int, week: int, year: int, month: int) returns (day: int)
    requires Month(month) && 1 <= mask <= 127 && 1 <= week <= 5 && SameParts(r, Relative(mask, week), month)
    ensures Selected(r, MonthDates(year, month)) == [Date(year, month, day)]
    ensures forall other :: IsNth(mask, week, year, month, other) <==> other == day
  {
    if mask == 127 {
      ShortcutSelects(r, week, year, month);
      day := ShortcutDay(week, MonthLength(year, month));
    } else {
      day := GeneralSelects(r, mask, week, year, month);
    }
    forall other | IsNth(mask, week, year, month, other) ensures other == day {
      NthIsUnique(Marks(mask, year, month), week, other, day);
    }
  }

  /** Fast form and general form of the all-days rule select the same dates. */
  lemma ShortcutEqualsGeneral(fast: RRule, general: RRule, week: int, year: int, month: int)
    requires Month(month) && 1 <= week <= 5
    requires SameParts(fast, Relative(127, week), month) && SameParts(general, GeneralRelative(127, week), month)
    ensures Selected(fast, MonthDates(year, month)) == Selected(general, MonthDates(year, month))
  {
    ShortcutSelects(fast, week, year, month);
    var day := GeneralSelects(general, 127, week, year, month);
    NthIsUnique(Marks(127, year, month), week, day, ShortcutDay(week, MonthLength(year, month)));
  }

  // ----- Yearly rules -----

  lemma {:induction false} CandidatesConcat(r: RRule, a: seq<Date>, b: seq<Date>)
    ensures Candidates(r, a + b) == Candidates(r, a) + Candidates(r, b)
  {
    if b == [] {
      assert a + b == a;
    } else {
      assert (a + b)[..|a + b| - 1] == a + b[..|b|-1];
      CandidatesConcat(r, a, b[..|b|-1]);
    }
  }

  lemma OtherMonthIsQuiet(r: RRule, year: int, month: int)
    requires r.byMonth.Some? && r.byMonth.value != month
    ensures Candidates(r, MonthDates(year, month)) == []
  {
    MonthCandidates(r, year, month, MonthLength(year, month));
    Quiet(r, year, month, 0, MonthLength(year, month));
  }

  lemma OneMoreMonth(r: RRule, year: int, count: nat)
    requires count > 0
    ensures Candidates(r, MonthsOfYear(year, count)) ==
              Candidates(r, MonthsOfYear(year, count - 1)) + Candidates(r, MonthDates(year, count))
  {
    CandidatesConcat(r, MonthsOfYear(year, count - 1), MonthDates(year, count));
  }

  lemma {:induction false} QuietMonths(r: RRule, year: int, start: nat, upto: nat)
    requires r.byMonth.Some? && start <= upto && !(start < r.byMonth.value <= upto)
    ensures Candidates(r, MonthsOfYear(year, upto)) == Candidates(r, MonthsOfYear(year, start))
    decreases upto
  {
    if start < upto {
      OneMoreMonth(r, year, upto);
      OtherMonthIsQuiet(r, year, upto);
      QuietMonths(r, year, start, upto - 1);
    }
  }

  lemma OneMonthCounts(r: RRule, year: int, count: nat)
    requires r.byMonth.Some? && 1 <= r.byMonth.value <= count
    ensures Candidates(r, MonthsOfYear(year, count)) == Candidates(r, MonthDates(year, r.byMonth.value))
  {
    var month := r.byMonth.value;
    QuietMonths(r, year, month, count);
    OneMoreMonth(r, year, month);
    QuietMonths(r, year, 0, month - 1);
  }

  /** BYMONTH makes a year's set that of its one month. */
  lemma YearIsItsMonth(r: RRule, year: int)
    requires r.byMonth.Some? && Month(r.byMonth.value)
    ensures Selected(r, YearDates(year)) == Selected(r, MonthDates(year, r.byMonth.value))
  {
    OneMonthCounts(r, year, 12);
  }

  // ----- The repository's own expansion of the Exchange rule -----

  function WeekStart(number: int, firstWeekday: int): int {
    number - (7 + Gregorian.Weekday(number) - firstWeekday) % 7
  }

  function MonthDelta(start: Date, end: Date): int {
    (end.year * 12 + end.month) - (start.year * 12 + start.month)
  }

  /** The one date of a month that a monthly or yearly pattern means. */
  ghost predicate Means(pattern: Pattern, date: Date) {
    match pattern
    case Daily => true
    case Weekly(days) => HasDay(days, Gregorian.Weekday(DayNumber(date)))
    case Monthly(day) => date.day == Clamped(day, MonthLength(date.year, date.month))
    case MonthlyRelative(days, week) => IsNth(days, week, date.year, date.month, date.day)
    case Yearly(month, day) => date.month == month && date.day == Clamped(day, MonthLength(date.year, date.month))
    case YearlyRelative(month, days, week) => date.month == month && IsNth(days, week, date.year, date.month, date.day)
  }

  /** How many days, weeks, months or years after the master's a date is. */
  function Distance(rule: Rule, master: Date, date: Date): int {
    match rule.pattern
    case Daily => DayNumber(date) - DayNumber(master)
    case Weekly(_) =>
      (WeekStart(DayNumber(date), rule.firstDayOfWeek) - WeekStart(DayNumber(master), rule.firstDayOfWeek)) / 7
    case Monthly(_) => MonthDelta(master, date)
    case MonthlyRelative(_, _) => MonthDelta(master, date)
    case Yearly(_, _) => date.year - master.year
    case YearlyRelative(_, _, _) => date.year - master.year
  }

  ghost predicate Expands(rule: Rule, master: Date, date: Date)
    requires ValidRule(rule)
  {
    Recurs(DayNumber(date) >= DayNumber(master), Distance(rule, master, date), rule.interval, Means(rule.pattern, date))
  }

  lemma WeekStartIsFloor(number: int, first: int)
    requires 0 <= first <= 6
    ensures WeekStart(number, first) == 7 * ((number - first) / 7) + first
  {
  }

  lemma WeeksApart(a: int, b: int, first: int)
    requires 0 <= first <= 6
    ensures (WeekStart(a, first) - WeekStart(b, first)) / 7 == (a - first) / 7 - (b - first) / 7
  {
    WeekStartIsFloor(a, first);
    WeekStartIsFloor(b, first);
  }

  lemma MonthSelectsMeant(rule: Rule, date: Date)
    requires ValidRule(rule) && Valid(date) && (rule.pattern.Monthly? || rule.pattern.MonthlyRelative?)
    ensures date in Selected(Translate(rule), MonthDates(date.year, date.month)) <==> Means(rule.pattern, date)
  {
    match rule.pattern
    case Monthly(day) =>
      NumberedDay(Translate(rule), day, date.year, date.month);
    case MonthlyRelative(days, week) =>
      var nth := OrdinalWeekday(Translate(rule), days, week, date.year, date.month);
  }

  lemma YearSelectsMeant(rule: Rule, date: Date)
    requires ValidRule(rule) && Valid(date) && (rule.pattern.Yearly? || rule.pattern.YearlyRelative?)
    ensures date in Selected(Translate(rule), YearDates(date.year)) <==> Means(rule.pattern, date)
  {
    YearIsItsMonth(Translate(rule), date.year);
    match rule.pattern
    case Yearly(month, day) =>
      NumberedDay(Translate(rule), day, date.year, month);
    case YearlyRelative(month, days, week) =>
      var nth := OrdinalWeekday(Translate(rule), days, week, date.year, month);
  }

  lemma SelectsMeant(rule: Rule, date: Date)
    requires ValidRule(rule) && Valid(date)
    ensures SelectedInPeriod(Translate(rule), date) <==> Means(rule.pattern, date)
  {
    match rule.pattern
    case Daily =>
    case Weekly(days) =>
      var w := SomeWeekday(days);
      WeekdaysFromMask(days, 0, w);
      WeekdaysFromMask(days, 0, Gregorian.Weekday(DayNumber(date)));
    case Monthly(_) => MonthSelectsMeant(rule, date);
    case MonthlyRelative(_, _) => MonthSelectsMeant(rule, date);
    case Yearly(_, _) => YearSelectsMeant(rule, date);
    case YearlyRelative(_, _, _) => YearSelectsMeant(rule, date);
  }

  /**
   The translation preserves meaning: for every valid rule, first date and date, the date is in the RFC 5545
   recurrence set of the translated rule exactly when the repository's own expansion of the original has it.
   */
  lemma TranslationPreservesMeaning(rule: Rule, master: Date, date: Date)
    requires ValidRule(rule) && Valid(master) && Valid(date)
    ensures Occurs(Translate(rule), master, date) <==> Expands(rule, master, date)
  {
    SelectsMeant(rule, date);
    SameDistance(rule, master, date);
  }

  lemma SameDistance(rule: Rule, master: Date, date: Date)
    requires ValidRule(rule)
    ensures PeriodIndex(Translate(rule), date) - PeriodIndex(Translate(rule), master) == Distance(rule, master, date)
  {
    if rule.pattern.Weekly? {
      WeeksApart(DayNumber(date), DayNumber(master), rule.firstDayOfWeek);
    }
  }

  // ----- The loop that finds the repository's own n-th date -----

  function ExactDate(year: int, month: int, day: int): Option<Date> {
    if Valid(Date(year, month, day)) then Some(Date(year, month, day)) else None
  }

  /** Clamps to the day before the next month's first. */
  function CalendarDay(year: int, month: int, day: int): Option<Date>
    requires Month(month)
  {
    if !(1 <= day <= 31) then None
    else
      var next := if month == 12 then Date(year + 1, 1, 1) else Date(year, month + 1, 1);
      var last := PlusDays(next, -1).day;
      ExactDate(year, month, if day <= last then day else last)
  }

  lemma CalendarDayClamps(year: int, month: int, day: int)
    requires Month(month) && 1 <= day <= 31
    ensures CalendarDay(year, month, day) == Some(Date(year, month, Clamped(day, MonthLength(year, month))))
  {
    var last := Date(year, month, MonthLength(year, month));
    DayBeforeNext(last);
  }

  method NthDate(year: int, month: int, mask: int, nth: int) returns (r: Result<Option<Date>, ErrorCode>)
    requires Month(month)
    ensures mask != 127 && !(1 <= nth <= 5 && 1 <= mask <= 127) ==> r == Err(ProtocolError)
    ensures mask == 127 && !(1 <= nth <= 5) ==> r == Ok(ExactDate(year, month, nth))
    ensures 1 <= nth <= 5 && 1 <= mask <= 127 ==>
              r.Ok? && r.value.Some? && r.value.value.year == year && r.value.value.month == month
              && IsNth(mask, nth, year, month, r.value.value.day)
  {
    if mask == 127 {
      if 1 <= nth <= 5 {
        ShortcutSelects(Relative(127, nth), nth, year, month);
      }
      if nth == 5 {
        CalendarDayClamps(year, month, 31);
        return Ok(CalendarDay(year, month, 31));
      }
      return Ok(ExactDate(year, month, nth));
    }
    if !(1 <= nth <= 5) || mask <= 0 || mask > 127 {
      return Err(ProtocolError);
    }
    var matches := MatchingDates(year, month, mask);
    FourInMonth(mask, year, month);
    ghost var day := PositionPicks(year, month, Marks(mask, year, month), nth);
    var index := if nth == 5 then |matches| - 1 else nth - 1;
    return Ok(if 0 <= index < |matches| then Some(matches[index]) else None);
  }

  method MatchingDates(year: int, month: int, mask: int) returns (matches: seq<Date>)
    requires Month(month)
    ensures matches == MarkedDates(year, month, Marks(mask, year, month), MonthLength(year, month))
  {
    var next := if month == 12 then Date(year + 1, 1, 1) else Date(year, month + 1, 1);
    ghost var length := MonthLength(year, month);
    ghost var marks := Marks(mask, year, month);
    matches := [];
    var date := Date(year, month, 1);
    ghost var k := 1;
    while Earlier(date, next)
      invariant 1 <= k <= length + 1
      invariant date == if k <= length then Date(year, month, k) else next
      invariant matches == MarkedDates(year, month, marks, k - 1)
      decreases length + 1 - k
    {
      if HasDay(mask, Gregorian.Weekday(DayNumber(date))) {
        matches := matches + [date];
      }
      date := Next(date);
      k := k + 1;
    }
  }
}
