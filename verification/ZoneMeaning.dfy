/** What a reader of the TimeZone structure understands, against the zone it was made from. */
module ZoneMeaning {
  import opened Base
  import opened Gregorian
  import opened Recurrence
  import opened ZoneScan
  import opened ZoneEncoding

  // ----- The rule of a packed date -----

  /** The day a rule names in a year: the n-th such weekday of its month, counted from the end for week 5. */
  function RuleDay(year: int, month: int, weekday: int, week: int): int {
    var first := DayNumber(Date(year, month, 1));
    var last := DayNumber(Date(year, month, MonthLength(year, month)));
    if week < 5 then first + (7 + weekday - Gregorian.Weekday(first)) % 7 + 7 * (week - 1)
    else last - (7 + Gregorian.Weekday(last) - weekday) % 7
  }

  /** Every date is the one its packed month, weekday and week name in its year. */
  lemma DateIsItsRule(date: Date)
    requires Valid(date)
    ensures RuleDay(date.year, date.month, Gregorian.Weekday(DayNumber(date)), TransitionWeek(date)) == DayNumber(date)
  {
    var first := DayNumber(Date(date.year, date.month, 1));
    var length := MonthLength(date.year, date.month);
    assert DayNumber(date) == first + date.day - 1;
    if TransitionWeek(date) < 5 {
      CountsForward(first, date.day - 1);
    } else {
      CountsBack(first + length - 1, length - date.day);
    }
  }

  lemma CountsForward(first: int, days: int)
    requires 0 <= days
    ensures first + (7 + Gregorian.Weekday(first + days) - Gregorian.Weekday(first)) % 7 + 7 * (days / 7) == first + days
  {
    ModDifference(first, days);
    SevenMore(Gregorian.Weekday(first + days) - Gregorian.Weekday(first));
  }

  lemma CountsBack(last: int, days: int)
    requires 0 <= days < 7
    ensures last - (7 + Gregorian.Weekday(last) - Gregorian.Weekday(last - days)) % 7 == last - days
  {
    ModDifference(last - days, days);
    SevenMore(Gregorian.Weekday(last) - Gregorian.Weekday(last - days));
  }

  lemma SevenMore(x: int)
    ensures (7 + x) % 7 == x % 7
  {
  }

  lemma ModDifference(a: int, d: int)
    ensures ((a + d) % 7 - a % 7) % 7 == d % 7
  {
  }

  /** The mask of a single weekday. */
  function SingleDay(weekday: int): int {
    match weekday
    case 0 => 1
    case 1 => 2
    case 2 => 4
    case 3 => 8
    case 4 => 16
    case 5 => 32
    case _ => 64
  }

  lemma SingleDayHasOne(weekday: int, w: int)
    requires 0 <= weekday < 7 && 0 <= w < 7
    ensures HasDay(SingleDay(weekday), w) <==> w == weekday
  {
  }

  lemma OneInSeven(n: int, r: int)
    requires 0 <= r < 7 && n > 0
    ensures (n + 6 - r) / 7 == (n + 5 - r) / 7 + (if (n - 1) % 7 == r then 1 else 0)
  {
    var q := (n - 1) / 7;
    assert n - 1 == 7 * q + (n - 1) % 7;
  }

  /** Marks seven days apart, counted. */
  lemma {:induction false} WeeklyCount(marks: seq<bool>, r: int, n: nat)
    requires 0 <= r < 7 && n <= |marks|
    requires forall k | 0 <= k < |marks| :: marks[k] <==> k % 7 == r
    ensures CountUpTo(marks, n) == (n + 6 - r) / 7
  {
    if n > 0 {
      WeeklyCount(marks, r, n - 1);
      OneInSeven(n, r);
    }
  }

  lemma WeekdayMarks(date: Date, k: int)
    requires Valid(date) && 0 <= k < MonthLength(date.year, date.month)
    ensures var weekday := Gregorian.Weekday(DayNumber(date));
            Marks(SingleDay(weekday), date.year, date.month)[k] <==> k % 7 == (date.day - 1) % 7
  {
    var weekday := Gregorian.Weekday(DayNumber(date));
    var other := Gregorian.Weekday(DayNumber(Date(date.year, date.month, k + 1)));
    SingleDayHasOne(weekday, other);
    assert InMask(SingleDay(weekday), date.year, date.month, k + 1) <==> other == weekday;
    SameWeekday(DayNumber(date), k - (date.day - 1), k, date.day - 1);
  }

  lemma SameWeekday(number: int, d: int, a: int, b: int)
    requires d == a - b
    ensures Gregorian.Weekday(number + d) == Gregorian.Weekday(number) <==> a % 7 == b % 7
  {
    SevenDivides(number + d, number);
    SevenDivides(a, b);
  }

  lemma SevenDivides(x: int, y: int)
    ensures x % 7 == y % 7 <==> (x - y) % 7 == 0
  {
    assert x - y == 7 * (x / 7 - y / 7) + (x % 7 - y % 7);
  }

  /** The packed week counts weekdays: the date is the one n-th such weekday of its month, or for 5 the last. */
  lemma WeekCountsWeekdays(date: Date, other: int)
    requires Valid(date)
    ensures IsNth(SingleDay(Gregorian.Weekday(DayNumber(date))), TransitionWeek(date), date.year, date.month, other)
            <==> other == date.day
  {
    var marks := Marks(SingleDay(Gregorian.Weekday(DayNumber(date))), date.year, date.month);
    forall k | 0 <= k < |marks| ensures marks[k] <==> k % 7 == (date.day - 1) % 7 {
      WeekdayMarks(date, k);
    }
    WeekIsNth(marks, date);
    if IsNthMark(marks, TransitionWeek(date), other) {
      NthIsUnique(marks, TransitionWeek(date), other, date.day);
    }
  }

  /** And it is 5 exactly when the weekday does not come again in the month. */
  lemma FiveIsTheLast(date: Date)
    requires Valid(date)
    ensures TransitionWeek(date) == 5 <==>
              forall later | date.day < later <= MonthLength(date.year, date.month) ::
                Gregorian.Weekday(DayNumber(Date(date.year, date.month, later))) != Gregorian.Weekday(DayNumber(date))
  {
    var n := DayNumber(date);
    forall later | date.day < later <= MonthLength(date.year, date.month)
      ensures DayNumber(Date(date.year, date.month, later)) == n + (later - date.day)
    {
    }
    if TransitionWeek(date) == 5 {
      forall later | date.day < later <= MonthLength(date.year, date.month)
        ensures Gregorian.Weekday(DayNumber(Date(date.year, date.month, later))) != Gregorian.Weekday(n)
      {
        WeekApart(n, later - date.day);
      }
    } else {
      WeekApart(n, 7);
      assert Gregorian.Weekday(DayNumber(Date(date.year, date.month, date.day + 7))) == Gregorian.Weekday(n);
    }
  }

  lemma WeekApart(n: int, days: int)
    requires 0 < days <= 7
    ensures Gregorian.Weekday(n + days) == Gregorian.Weekday(n) <==> days == 7
  {
  }

  lemma WeekIsNth(marks: seq<bool>, date: Date)
    requires Valid(date) && |marks| == MonthLength(date.year, date.month)
    requires forall k | 0 <= k < |marks| :: marks[k] <==> k % 7 == (date.day - 1) % 7
    ensures IsNthMark(marks, TransitionWeek(date), date.day)
  {
    WeeklyCount(marks, (date.day - 1) % 7, date.day - 1);
  }

  /** The local second a packed date names in a year. */
  function ResolveLocal(year: int, fields: seq<Unit>): int
    requires |fields| == 8
  {
    var month: int, weekday: int, week: int := fields[1], fields[2], fields[3];
    var hour: int, minute: int, second: int := fields[4], fields[5], fields[6];
    DAY * RuleDay(year, month, weekday, week) + 3600 * hour + 60 * minute + second
  }

  lemma TimeOfDay(time: int)
    requires 0 <= time < DAY
    ensures 3600 * (time / 3600) + 60 * (time / 60 % 60) + time % 60 == time
  {
    assert time / 60 % 60 == time / 60 - 60 * (time / 3600);
  }

  predicate ValidRule(fields: seq<Unit>)
    requires |fields| == 8
  {
    1 <= fields[1] <= 12 && fields[2] <= 6 && 1 <= fields[3] <= 5
  }

  lemma SystemTimeIsRule(local: int)
    ensures ValidRule(SystemTime(Some(local)))
  {
    WeekFits(LocalDate(local));
  }

  /** A packed local second resolves, in its own year, to that very second. */
  lemma SystemTimeResolves(local: int)
    ensures ResolveLocal(LocalDate(local).year, SystemTime(Some(local))) == local
  {
    var date := LocalDate(local);
    DateIsItsRule(date);
    TimeOfDay(local % DAY);
    WeekFits(date);
    assert DayNumber(date) == local / DAY;
  }

  // ----- The repository's own reader -----

  const MAX_OFFSET_MINUTES: int := 1440

  /** Offsets in seconds, and the two rules when the zone has daylight time. */
  datatype EasZone = EasZone(standardOffset: int, daylightOffset: int, rules: Option<(seq<Unit>, seq<Unit>)>)

  function MinutesOf(bias: int, seasonal: int): Option<int> {
    if -MAX_OFFSET_MINUTES <= bias + seasonal <= MAX_OFFSET_MINUTES then Some(-(bias + seasonal)) else None
  }

  predicate HasDates(s: Structure) {
    |s.standardDate| == 8 && |s.daylightDate| == 8
  }

  function ParseZone(s: Structure): Option<EasZone>
    requires HasDates(s)
  {
    var standard, daylight := MinutesOf(s.bias, s.standardBias), MinutesOf(s.bias, s.daylightBias);
    if standard.None? || daylight.None? then None
    else if s.standardDate[1] == 0 && s.daylightDate[1] == 0 then Some(EasZone(60 * standard.value, 60 * daylight.value, None))
    else if s.standardDate[1] == 0 || s.daylightDate[1] == 0 || !ValidRule(s.standardDate) || !ValidRule(s.daylightDate) then None
    else Some(EasZone(60 * standard.value, 60 * daylight.value, Some((s.standardDate, s.daylightDate))))
  }

  /** Standard time outside the daylight period, whichever half of the year that is. */
  function Regime(toDaylight: int, toStandard: int, standard: int, daylight: int, t: int): int {
    var inDaylight := if toDaylight < toStandard then toDaylight <= t < toStandard else t >= toDaylight || t < toStandard;
    if inDaylight then daylight else standard
  }

  /** The UTC offset of an instant, by the rules of the instant's own UTC year. */
  function ZoneOffset(z: EasZone, t: int): int
    requires z.rules.Some? ==> |z.rules.value.0| == 8 && |z.rules.value.1| == 8
  {
    if z.rules.None? then z.standardOffset
    else
      var year := LocalDate(t).year;
      Regime(ResolveLocal(year, z.rules.value.1) - z.standardOffset, ResolveLocal(year, z.rules.value.0) - z.daylightOffset,
             z.standardOffset, z.daylightOffset, t)
  }

  /** None when the structure is refused. */
  function ReaderOffset(s: Structure, t: int): Option<int>
    requires HasDates(s)
  {
    match ParseZone(s)
    case None => None
    case Some(z) => Some(ZoneOffset(z, t))
  }

  // ----- What it understands -----

  /** A change in the scanned range falls in the local year exactly when it falls inside the UTC year. */
  ghost predicate YearsAgree(zone: Zone, first: int, last: int, start: int, end: int) {
    forall c | start < c <= end && Change(zone, c) :: InYear(zone, first, last, c) <==> first < c < last
  }

  ghost predicate Additive(zone: Zone, first: int, last: int) {
    forall t | first <= t < last :: zone(t).total == zone(t).base + zone(t).dst
  }

  /** The zone ends the year as it began it; one that never changes is on standard time. */
  predicate ComesBack(zone: Zone, found: seq<Transition>, first: int, last: int) {
    if found == [] then zone(first).dst == 0 else zone(first).total == zone(last - 1).total
  }

  ghost predicate Understood(zone: Zone, s: Structure, first: int, last: int)
    requires HasDates(s)
  {
    forall t | first <= t < last :: ReaderOffset(s, t) == Some(zone(t).total)
  }

  /** The offset is `a` until `p`, `b` until `q` and `c` from then on. */
  ghost predicate Piecewise(zone: Zone, first: int, last: int, p: int, q: int, a: int, b: int, c: int) {
    && first < p < q < last && a != b && b != c
    && forall t | first <= t < last :: zone(t).total == (if t < p then a else if t < q then b else c)
  }

  /** The scanned range reaches beyond the year on both sides. */
  ghost predicate Around(first: int, last: int, start: int, end: int) {
    start <= first < last <= end
  }

  lemma TwoChanges(zone: Zone, first: int, last: int, start: int, end: int, points: seq<int>)
    requires Scanned(zone, first, last, start, end, points) && YearsAgree(zone, first, last, start, end)
    requires Around(first, last, start, end) && |points| == 2
    ensures Piecewise(zone, first, last, points[0], points[1],
                      zone(first).total, zone(points[0]).total, zone(points[1]).total)
    ensures zone(points[0] - 1).total == zone(first).total && zone(points[1] - 1).total == zone(points[0]).total
  {
    var p, q := points[0], points[1];
    assert p in points && q in points;
    forall c | first < c < last && c != p && c != q ensures !Change(zone, c) {
      assert c !in points;
    }
    forall t | first <= t < last
      ensures zone(t).total == (if t < p then zone(first).total else if t < q then zone(p).total else zone(q).total)
    {
      Steady(zone, if t < p then first else if t < q then p else q, t);
    }
  }

  /** Two regimes read back right exactly when the first and the last offset agree. */
  lemma RegimesAgree(zone: Zone, first: int, last: int, p: int, q: int, a: int, b: int, c: int)
    requires Piecewise(zone, first, last, p, q, a, b, c)
    ensures (forall t | first <= t < last :: zone(t).total == Regime(p + a - c, q, c, b, t)) <==> a == c
    ensures (forall t | first <= t < last :: zone(t).total == Regime(q, p + a - c, b, c, t)) <==> a == c
  {
    assert zone(first).total == a;
    assert Regime(p + a - c, q, c, b, first) in {b, c} && Regime(q, p + a - c, b, c, first) in {b, c};
  }

  lemma OneOfEach(found: seq<Transition>, base: Offset)
    requires |found| == 2 && Encodable(found, base)
    ensures base % 60 == 0
    ensures found[0].dst != 0 ==>
              found[1].dst == 0 && found[0].dst % 60 == 0
              && FirstWith(found, true) == Some(found[0]) && FirstWith(found, false) == Some(found[1])
    ensures found[0].dst == 0 ==>
              found[1].dst != 0 && found[1].dst % 60 == 0
              && FirstWith(found, true) == Some(found[1]) && FirstWith(found, false) == Some(found[0])
  {
    var rest := found[1..];
    assert rest == [found[1]] && rest[1..] == [];
    assert FirstWith(rest, true) == if found[1].dst != 0 then Some(found[1]) else None;
    assert FirstWith(rest, false) == if found[1].dst != 0 then None else Some(found[1]);
  }

  lemma Minutes(base: Offset, dst: Offset)
    requires base % 60 == 0 && dst % 60 == 0 && -DAY < base < DAY && -DAY < base + dst < DAY
    ensures MinutesOf(-(base / 60), 0) == Some(base / 60) && 60 * (base / 60) == base
    ensures MinutesOf(-(base / 60), -(dst / 60)) == Some(base / 60 + dst / 60) && 60 * (base / 60 + dst / 60) == base + dst
  {
  }

  /** A structure with two rules is accepted, with the offsets of both halves of the year. */
  lemma ParsesRules(s: Structure, base: int, dst: int, standard: seq<Unit>, daylight: seq<Unit>)
    requires |standard| == 8 && |daylight| == 8 && ValidRule(standard) && ValidRule(daylight)
    requires s.standardDate == standard && s.daylightDate == daylight && s.bias == -base && s.standardBias == 0 && s.daylightBias == -dst
    requires MinutesOf(-base, 0) == Some(base) && MinutesOf(-base, -dst) == Some(base + dst)
    ensures ParseZone(s) == Some(EasZone(60 * base, 60 * (base + dst), Some((standard, daylight))))
  {
  }

  /** The offset a reader gives when there are two changes. */
  function PairOffset(base: int, standard: int, daylight: int, dst: int, t: int): int {
    Regime(daylight - base, standard - (base + dst), base, base + dst, t)
  }

  lemma RulesRead(z: EasZone, year: int, standard: seq<Unit>, daylight: seq<Unit>, dst: int, t: int)
    requires |standard| == 8 && |daylight| == 8 && z.rules == Some((standard, daylight))
    requires LocalDate(t).year == year && z.daylightOffset == z.standardOffset + dst
    ensures ZoneOffset(z, t)
            == PairOffset(z.standardOffset, ResolveLocal(year, standard), ResolveLocal(year, daylight), dst, t)
  {
  }

  lemma ReadsPair(year: int, base: Offset, standard: Transition, daylight: Transition, t: int)
    requires base % 60 == 0 && daylight.dst % 60 == 0 && -DAY < base < DAY && -DAY < base + daylight.dst < DAY
    requires LocalDate(standard.localBefore).year == year && LocalDate(daylight.localBefore).year == year
    requires LocalDate(t).year == year
    ensures ReaderOffset(Expected(base, Some(standard), Some(daylight)), t)
            == Some(PairOffset(base, standard.localBefore, daylight.localBefore, daylight.dst, t))
  {
    var s := Expected(base, Some(standard), Some(daylight));
    SystemTimeIsRule(standard.localBefore);
    SystemTimeIsRule(daylight.localBefore);
    SystemTimeResolves(standard.localBefore);
    SystemTimeResolves(daylight.localBefore);
    ReadsRules(s, year, base, daylight.dst, s.standardDate, s.daylightDate, t);
  }

  lemma ReadsRules(s: Structure, year: int, base: Offset, dst: Offset, standard: seq<Unit>, daylight: seq<Unit>, t: int)
    requires base % 60 == 0 && dst % 60 == 0 && -DAY < base < DAY && -DAY < base + dst < DAY && LocalDate(t).year == year
    requires |standard| == 8 && |daylight| == 8 && ValidRule(standard) && ValidRule(daylight)
    requires s.standardDate == standard && s.daylightDate == daylight
    requires s.bias == -(base / 60) && s.standardBias == 0 && s.daylightBias == -(dst / 60)
    ensures ReaderOffset(s, t) == Some(PairOffset(base, ResolveLocal(year, standard), ResolveLocal(year, daylight), dst, t))
  {
    Minutes(base, dst);
    ParsesRules(s, base / 60, dst / 60, standard, daylight);
    RulesRead(EasZone(base, base + dst, Some((standard, daylight))), year, standard, daylight, dst, t);
  }

  /**
   For every regular zone whose offsets are base plus daylight saving, and whose changes belong to the UTC year
   exactly when they belong to the local one, a successful encoding gives every instant of the year the zone's
   own offset exactly when the zone comes back: it ends the year on the offset it began with, and is on standard
   time when it never changes.
   */
  lemma StructureMeansZone(zone: Zone, year: int, found: seq<Transition>, points: seq<int>)
    requires Regular(zone, year) && Describes(zone, points, found)
    requires Scanned(zone, YearStart(year), YearStart(year + 1), ScanStart(year), ScanEnd(year), points)
    requires YearsAgree(zone, YearStart(year), YearStart(year + 1), ScanStart(year), ScanEnd(year))
    requires Additive(zone, YearStart(year), YearStart(year + 1)) && Encodable(found, BaseOffset(zone, year))
    ensures var s := Expected(BaseOffset(zone, year), FirstWith(found, false), FirstWith(found, true));
            Understood(zone, s, YearStart(year), YearStart(year + 1))
            <==> ComesBack(zone, found, YearStart(year), YearStart(year + 1))
  {
    SampleInRange(year);
    LocalYears(year);
    MeansBetween(zone, year, YearStart(year), YearStart(year + 1), ScanStart(year), ScanEnd(year),
                 found, points, BaseOffset(zone, year));
  }

  lemma SampleInRange(year: int)
    ensures YearStart(year) <= DAY * DayNumber(Date(year, 1, 15)) < YearStart(year + 1)
    ensures Around(YearStart(year), YearStart(year + 1), ScanStart(year), ScanEnd(year))
  {
    YearStep(year);
    assert DayNumber(Date(year, 1, 15)) == DayNumber(Date(year, 1, 1)) + 14;
  }

  lemma MeansBetween(zone: Zone, year: int, first: int, last: int, start: int, end: int,
                     found: seq<Transition>, points: seq<int>, base: Offset)
    requires Around(first, last, start, end) && Describes(zone, points, found) && Scanned(zone, first, last, start, end, points)
    requires YearsAgree(zone, first, last, start, end) && Additive(zone, first, last)
    requires Encodable(found, base) && forall t | first <= t < last :: zone(t).base == base
    requires forall local :: LocalDate(local).year == year <==> first <= local < last
    ensures var s := Expected(base, FirstWith(found, false), FirstWith(found, true));
            Understood(zone, s, first, last) <==> ComesBack(zone, found, first, last)
  {
    if found == [] {
      MeansConstant(zone, first, last, start, end, points, base);
    } else {
      TwoChanges(zone, first, last, start, end, points);
      FoundAt(zone, year, first, last, start, end, found, points, base, 0);
      FoundAt(zone, year, first, last, start, end, found, points, base, 1);
      MeansTwo(zone, year, first, last, found, points[0], points[1], base);
    }
  }

  lemma FoundAt(zone: Zone, year: int, first: int, last: int, start: int, end: int,
                found: seq<Transition>, points: seq<int>, base: Offset, i: nat)
    requires Describes(zone, points, found) && Scanned(zone, first, last, start, end, points) && i < |points|
    requires YearsAgree(zone, first, last, start, end) && Additive(zone, first, last)
    requires forall t | first <= t < last :: zone(t).base == base
    requires forall local :: LocalDate(local).year == year <==> first <= local < last
    ensures LocalDate(found[i].localBefore).year == year
    ensures found[i].localBefore == points[i] + zone(points[i] - 1).total
    ensures zone(points[i]).total == base + found[i].dst
  {
    assert points[i] in points;
  }

  lemma MeansTwo(zone: Zone, year: int, first: int, last: int, found: seq<Transition>, p: int, q: int, base: Offset)
    requires |found| == 2 && Encodable(found, base)
    requires LocalDate(found[0].localBefore).year == year && LocalDate(found[1].localBefore).year == year
    requires found[0].localBefore == p + zone(first).total && found[1].localBefore == q + zone(p).total
    requires zone(p).total == base + found[0].dst && zone(q).total == base + found[1].dst
    requires Piecewise(zone, first, last, p, q, zone(first).total, zone(p).total, zone(q).total)
    requires forall t | first <= t < last :: LocalDate(t).year == year
    ensures var s := Expected(base, FirstWith(found, false), FirstWith(found, true));
            Understood(zone, s, first, last) <==> zone(first).total == zone(last - 1).total
  {
    OneOfEach(found, base);
    if found[0].dst != 0 {
      MeansPair(zone, year, first, last, p, q, base, found[1], found[0]);
    } else {
      MeansPair(zone, year, first, last, p, q, base, found[0], found[1]);
    }
  }

  lemma MeansPair(zone: Zone, year: int, first: int, last: int, p: int, q: int, base: Offset,
                  standard: Transition, daylight: Transition)
    requires Piecewise(zone, first, last, p, q, zone(first).total, zone(p).total, zone(q).total)
    requires base % 60 == 0 && daylight.dst % 60 == 0
    requires LocalDate(standard.localBefore).year == year && LocalDate(daylight.localBefore).year == year
    requires forall t | first <= t < last :: LocalDate(t).year == year
    requires var (early, late) := (p + zone(first).total, q + zone(p).total);
             || (daylight.localBefore == early && standard.localBefore == late
                 && zone(p).total == base + daylight.dst && zone(q).total == base)
             || (standard.localBefore == early && daylight.localBefore == late
                 && zone(p).total == base && zone(q).total == base + daylight.dst)
    ensures Understood(zone, Expected(base, Some(standard), Some(daylight)), first, last)
            <==> zone(first).total == zone(last - 1).total
  {
    PairUnderstood(zone, year, first, last, base, standard, daylight);
    RegimesAgree(zone, first, last, p, q, zone(first).total, zone(p).total, zone(q).total);
    assert zone(last - 1).total == zone(q).total;
  }

  lemma PairUnderstood(zone: Zone, year: int, first: int, last: int, base: Offset, standard: Transition, daylight: Transition)
    requires base % 60 == 0 && daylight.dst % 60 == 0 && -DAY < base < DAY && -DAY < base + daylight.dst < DAY
    requires LocalDate(standard.localBefore).year == year && LocalDate(daylight.localBefore).year == year
    requires forall t | first <= t < last :: LocalDate(t).year == year
    ensures Understood(zone, Expected(base, Some(standard), Some(daylight)), first, last)
            <==> forall t | first <= t < last ::
                   zone(t).total == PairOffset(base, standard.localBefore, daylight.localBefore, daylight.dst, t)
  {
    forall t | first <= t < last
      ensures ReaderOffset(Expected(base, Some(standard), Some(daylight)), t)
              == Some(PairOffset(base, standard.localBefore, daylight.localBefore, daylight.dst, t))
    {
      ReadsPair(year, base, standard, daylight, t);
    }
  }

  lemma MeansConstant(zone: Zone, first: int, last: int, start: int, end: int, points: seq<int>, base: Offset)
    requires Around(first, last, start, end) && points == [] && Scanned(zone, first, last, start, end, points)
    requires YearsAgree(zone, first, last, start, end) && Additive(zone, first, last)
    requires base % 60 == 0 && zone(first).base == base
    ensures Understood(zone, Expected(base, None, None), first, last) <==> zone(first).dst == 0
  {
    var s := Expected(base, None, None);
    forall t | first <= t < last ensures zone(t).total == zone(first).total {
      assert forall c | first < c <= t :: !Change(zone, c);
      Steady(zone, first, t);
    }
    assert s.standardDate[1] == 0 && s.daylightDate[1] == 0 && 60 * (base / 60) == base;
    assert forall t :: ReaderOffset(s, t) == if -DAY <= base <= DAY then Some(base) else None;
  }

  // ----- Two zones -----

  /** Always in daylight time, like New York throughout 1943. */
  function WarTime(): Zone {
    t => Snapshot(-14400, -18000, 3600, [])
  }

  /** A zone in daylight time all year is encoded without complaint, and misread by an hour at every instant. */
  lemma PermanentDaylightIsMisread(year: int)
    ensures var zone := WarTime();
            && Regular(zone, year) && YearsAgree(zone, YearStart(year), YearStart(year + 1), ScanStart(year), ScanEnd(year))
            && Additive(zone, YearStart(year), YearStart(year + 1)) && Encodable([], BaseOffset(zone, year))
            && Scanned(zone, YearStart(year), YearStart(year + 1), ScanStart(year), ScanEnd(year), [])
            && forall t :: ReaderOffset(Expected(BaseOffset(zone, year), None, None), t) == Some(zone(t).total - 3600)
  {
    var s := Expected(-18000, None, None);
    assert s.bias == 300 && s.standardDate[1] == 0;
  }

  /** In daylight time from `from` until `until`. */
  function Summer(from: int, until: int): Zone {
    t => if from <= t < until then Snapshot(7200, 3600, 3600, []) else Snapshot(3600, 3600, 0, [])
  }

  /** A zone with a summer inside the year is found, encoded and read back right at every instant of the year. */
  lemma SummerTimeIsUnderstood(year: int, p: int, q: int)
    requires YearStart(year) <= p - DAY && p + PROBE <= q && q + DAY <= YearStart(year + 1)
    ensures var zone, points := Summer(p, q), [p, q];
            var found := [Seen(zone, p), Seen(zone, q)];
            && Regular(zone, year) && Describes(zone, points, found)
            && Scanned(zone, YearStart(year), YearStart(year + 1), ScanStart(year), ScanEnd(year), points)
            && Encodable(found, BaseOffset(zone, year))
            && Understood(zone, Expected(BaseOffset(zone, year), FirstWith(found, false), FirstWith(found, true)),
                          YearStart(year), YearStart(year + 1))
  {
    var zone, points := Summer(p, q), [p, q];
    var found := [Seen(zone, p), Seen(zone, q)];
    SummerIsScanned(year, p, q);
    assert FirstWith(found, true) == Some(found[0]);
    assert found[1..] == [found[1]] && FirstWith([found[1]], false) == Some(found[1]);
    StructureMeansZone(zone, year, found, points);
  }

  lemma SummerIsScanned(year: int, p: int, q: int)
    requires YearStart(year) <= p - DAY && p + PROBE <= q && q + DAY <= YearStart(year + 1)
    ensures var zone := Summer(p, q);
            && Regular(zone, year) && Additive(zone, YearStart(year), YearStart(year + 1))
            && YearsAgree(zone, YearStart(year), YearStart(year + 1), ScanStart(year), ScanEnd(year))
            && Scanned(zone, YearStart(year), YearStart(year + 1), ScanStart(year), ScanEnd(year), [p, q])
  {
    SummerChanges(Summer(p, q), ScanStart(year), p, q);
  }

  lemma SummerChanges(zone: Zone, start: int, p: int, q: int)
    requires zone == Summer(p, q) && p + PROBE <= q
    ensures forall c :: Change(zone, c) <==> c == p || c == q
    ensures OncePerProbe(zone, start)
  {
  }
}
