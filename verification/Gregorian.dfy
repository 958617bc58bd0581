/** The proleptic Gregorian calendar: dates, day numbers and weekdays. */
module Gregorian {
  datatype Date = Date(year: int, month: int, day: int)

  predicate Leap(year: int) {
    year % 4 == 0 && (year % 100 != 0 || year % 400 == 0)
  }

  function YearLength(year: int): int {
    if Leap(year) then 366 else 365
  }

  predicate Month(month: int) {
    1 <= month <= 12
  }

  function MonthLength(year: int, month: int): (length: int)
    ensures 28 <= length <= 31
  {
    if month == 2 then (if Leap(year) then 29 else 28)
    else if month in {4, 6, 9, 11} then 30
    else 31
  }

  predicate Valid(date: Date) {
    Month(date.month) && 1 <= date.day <= MonthLength(date.year, date.month)
  }

  predicate Earlier(a: Date, b: Date) {
    a.year < b.year || (a.year == b.year && (a.month < b.month || (a.month == b.month && a.day < b.day)))
  }

  /** The day after. */
  function Next(date: Date): Date {
    if date.day < MonthLength(date.year, date.month) then Date(date.year, date.month, date.day + 1)
    else if date.month < 12 then Date(date.year, date.month + 1, 1)
    else Date(date.year + 1, 1, 1)
  }

  // ----- Day numbers: 0001-01-01 is day 1 -----

  function DaysBeforeYear(year: int): int {
    365 * (year - 1) + (year - 1) / 4 - (year - 1) / 100 + (year - 1) / 400
  }

  function DaysBeforeMonth(year: int, month: int): int
    decreases month
  {
    if month <= 1 then 0 else DaysBeforeMonth(year, month - 1) + MonthLength(year, month - 1)
  }

  function DayNumber(date: Date): int {
    DaysBeforeYear(date.year) + DaysBeforeMonth(date.year, date.month) + date.day
  }

  /** 0 is Sunday. */
  function Weekday(number: int): (weekday: int)
    ensures 0 <= weekday < 7
  {
    number % 7
  }

  lemma FloorStep(p: int, q: int)
    requires q in {4, 100, 400}
    ensures (p + 1) / q == p / q + (if (p + 1) % q == 0 then 1 else 0)
  {
  }

  lemma Hundreds(k: int)
    ensures (100 * k) % 100 == 0 && (4 * k) % 4 == 0
  {
  }

  lemma Divisibility(year: int)
    ensures year % 400 == 0 ==> year % 100 == 0
    ensures year % 100 == 0 ==> year % 4 == 0
  {
    var q, c := year / 400, year / 100;
    Hundreds(4 * q);
    Hundreds(25 * c);
    assert year % 400 == 0 ==> year == 100 * (4 * q);
    assert year % 100 == 0 ==> year == 4 * (25 * c);
  }

  lemma YearStep(year: int)
    ensures DaysBeforeYear(year + 1) == DaysBeforeYear(year) + YearLength(year)
  {
    FloorStep(year - 1, 4);
    FloorStep(year - 1, 100);
    FloorStep(year - 1, 400);
    Divisibility(year);
    var by4 := if year % 4 == 0 then 1 else 0;
    var by100 := if year % 100 == 0 then 1 else 0;
    var by400 := if year % 400 == 0 then 1 else 0;
    assert YearLength(year) == 365 + by4 - by100 + by400;
  }

  lemma YearIsItsMonths(year: int)
    ensures DaysBeforeMonth(year, 12) + MonthLength(year, 12) == YearLength(year)
  {
    assert DaysBeforeMonth(year, 4) == MonthLength(year, 1) + MonthLength(year, 2) + MonthLength(year, 3);
    assert DaysBeforeMonth(year, 7) == DaysBeforeMonth(year, 4) + 91;
    assert DaysBeforeMonth(year, 10) == DaysBeforeMonth(year, 7) + 92;
    assert DaysBeforeMonth(year, 12) == DaysBeforeMonth(year, 10) + 61;
  }

  /** Day numbers count days: the next date has the next number. */
  lemma NextIsNext(date: Date)
    requires Valid(date)
    ensures Valid(Next(date)) && DayNumber(Next(date)) == DayNumber(date) + 1
  {
    if date.day == MonthLength(date.year, date.month) && date.month == 12 {
      YearIsItsMonths(date.year);
      YearStep(date.year);
    }
  }

  lemma {:induction false} MonthsGrow(year: int, a: int, b: int)
    requires 1 <= a < b <= 13
    ensures DaysBeforeMonth(year, a) + MonthLength(year, a) <= DaysBeforeMonth(year, b)
    decreases b
  {
    if a + 1 < b {
      MonthsGrow(year, a, b - 1);
    }
  }

  lemma {:induction false} YearsGrow(a: int, b: int)
    requires a < b
    ensures DaysBeforeYear(a) + YearLength(a) <= DaysBeforeYear(b)
    decreases b - a
  {
    YearStep(b - 1);
    if a + 1 < b {
      YearsGrow(a, b - 1);
    }
  }

  lemma WithinYear(date: Date)
    requires Valid(date)
    ensures DaysBeforeYear(date.year) < DayNumber(date) <= DaysBeforeYear(date.year) + YearLength(date.year)
  {
    YearIsItsMonths(date.year);
    if date.month < 12 {
      MonthsGrow(date.year, date.month, 12);
    }
    if 1 < date.month {
      MonthsGrow(date.year, 1, date.month);
    }
  }

  lemma EarlierIsLess(a: Date, b: Date)
    requires Valid(a) && Valid(b) && Earlier(a, b)
    ensures DayNumber(a) < DayNumber(b)
  {
    if a.year < b.year {
      WithinYear(a);
      WithinYear(b);
      YearsGrow(a.year, b.year);
    } else if a.month < b.month {
      MonthsGrow(a.year, a.month, b.month);
    }
  }

  /** A date is its day number: order and equality are the same on both. */
  lemma NumberIsFaithful(a: Date, b: Date)
    requires Valid(a) && Valid(b)
    ensures DayNumber(a) < DayNumber(b) <==> Earlier(a, b)
    ensures DayNumber(a) == DayNumber(b) <==> a == b
  {
    if Earlier(a, b) {
      EarlierIsLess(a, b);
    } else if Earlier(b, a) {
      EarlierIsLess(b, a);
    }
  }

  // ----- From a day number back to its date -----

  function YearFrom(number: int, year: int): (r: int)
    requires DaysBeforeYear(year) < number
    ensures DaysBeforeYear(r) < number <= DaysBeforeYear(r + 1)
    decreases number - DaysBeforeYear(year)
  {
    YearStep(year);
    if number <= DaysBeforeYear(year + 1) then year else YearFrom(number, year + 1)
  }

  function MonthFrom(year: int, number: int, month: int): (r: int)
    requires Month(month) && DaysBeforeMonth(year, month) < number <= DaysBeforeMonth(year, 12) + MonthLength(year, 12)
    ensures Month(r) && DaysBeforeMonth(year, r) < number <= DaysBeforeMonth(year, r) + MonthLength(year, r)
    decreases 12 - month
  {
    if number <= DaysBeforeMonth(year, month) + MonthLength(year, month) then month
    else MonthFrom(year, number, month + 1)
  }

  lemma EarlyYear(number: int)
    ensures DaysBeforeYear(if number >= 1 then 1 else number / 365) < number
  {
    if number < 1 {
      var p := number / 365 - 1;
      assert p / 4 <= p / 100 && p / 400 <= 0;
    }
  }

  function DateOf(number: int): (date: Date)
    ensures Valid(date) && DayNumber(date) == number
  {
    EarlyYear(number);
    var year := YearFrom(number, if number >= 1 then 1 else number / 365);
    YearStep(year);
    YearIsItsMonths(year);
    var month := MonthFrom(year, number - DaysBeforeYear(year), 1);
    Date(year, month, number - DaysBeforeYear(year) - DaysBeforeMonth(year, month))
  }

  /** The date some days later. */
  function PlusDays(date: Date, days: int): Date {
    DateOf(DayNumber(date) + days)
  }

  lemma DayBeforeNext(date: Date)
    requires Valid(date)
    ensures PlusDays(Next(date), -1) == date
  {
    NextIsNext(date);
    NumberIsFaithful(DateOf(DayNumber(date)), date);
  }

  /** What anchors the weekdays: 1970-01-01 was a Thursday. */
  lemma Epoch()
    ensures Weekday(DayNumber(Date(1970, 1, 1))) == 4
  {
    assert DaysBeforeYear(1970) == 719162;
  }
}
