/**
 The position of an occurrence in its series, which decides a COUNT: the repository computes it in closed
 form for days and weeks and by a loop over cycles for months and years.
 */
module Occurrences {
  import opened Base
  import opened Gregorian
  import opened Recurrence

  // ----- Counting -----

  /** How many of the days from `m` to `n` are in the set. */
  ghost function Count(falls: int -> bool, m: int, n: int): nat
    decreases n - m + 1
  {
    if n < m then 0 else Count(falls, m, n - 1) + Bit(falls(n))
  }

  function Bit(b: bool): nat {
    if b then 1 else 0
  }

  lemma {:induction false} CountQuiet(falls: int -> bool, m: int, a: int, b: int)
    requires a <= b && forall n | a < n <= b && m <= n :: !falls(n)
    ensures Count(falls, m, b) == Count(falls, m, a)
    decreases b - a
  {
    if a < b {
      CountQuiet(falls, m, a, b - 1);
    }
  }

  /** Only `b` is in the set after `a` up to it. */
  lemma CountOne(falls: int -> bool, m: int, a: int, b: int)
    requires a < b && m <= b && forall n | a < n <= b && m <= n :: falls(n) <==> n == b
    ensures Count(falls, m, b) == Count(falls, m, a) + 1
  {
    CountQuiet(falls, m, a, b - 1);
  }

  /** The days on which the recurrence falls. */
  ghost function Falls(rule: Rule, master: Date): int -> bool
    requires ValidRule(rule)
  {
    n => Expands(rule, master, DateOf(n))
  }

  /** How many occurrences there are from the master's date to day `n`. */
  ghost function CountTo(rule: Rule, master: Date, n: int): nat
    requires ValidRule(rule)
  {
    Count(Falls(rule, master), DayNumber(master), n)
  }

  // ----- Quotients -----

  lemma SmallMultiple(i: int, k: int)
    requires i >= 1 && -i < i * k < i
    ensures k == 0
  {
    assert k >= 1 ==> i * k >= i * 1;
    assert k <= -1 ==> i * k <= i * -1;
  }

  lemma Quotient(x: int, i: int, q: int, r: int)
    requires i >= 1 && x == i * q + r && 0 <= r < i
    ensures x / i == q && x % i == r
  {
    var k := x / i - q;
    assert x == i * (x / i) + x % i;
    assert i * k == i * (x / i) - i * q;
    SmallMultiple(i, k);
  }

  /** The quotient grows by one exactly at the multiples. */
  lemma QuotientStep(x: int, i: int)
    requires i >= 1
    ensures x / i == (x - 1) / i + (if x % i == 0 then 1 else 0)
  {
    var q, r := (x - 1) / i, (x - 1) % i;
    assert x - 1 == i * q + r;
    if r + 1 < i {
      Quotient(x, i, q, r + 1);
    } else {
      assert x == i * (q + 1) + 0;
      Quotient(x, i, q + 1, 0);
    }
  }

  // ----- Days -----

  function DailyOrdinal(interval: int, m: int, n: int): Option<int>
    requires interval >= 1
  {
    if (n - m) % interval != 0 then None else Some((n - m) / interval + 1)
  }

  lemma NumberedBack(n: int)
    ensures Valid(DateOf(n)) && DayNumber(DateOf(n)) == n
  {
  }

  predicate DailyDay(interval: int, m: int, n: int)
    requires interval >= 1
  {
    (n - m) % interval == 0
  }

  lemma {:induction false} MultiplesCount(falls: int -> bool, m: int, interval: int, n: int)
    requires interval >= 1 && m <= n && forall k | m <= k :: falls(k) <==> DailyDay(interval, m, k)
    ensures Count(falls, m, n) == (n - m) / interval + 1
    decreases n - m
  {
    var x := n - m;
    if x == 0 {
      Quotient(0, interval, 0, 0);
    } else {
      MultiplesCount(falls, m, interval, n - 1);
      QuotientStep(x, interval);
    }
  }

  /** The answer for day `n`: its number in the series, or none. */
  ghost predicate Numbers(falls: int -> bool, m: int, n: int, answer: Option<int>) {
    answer == if falls(n) then Some(Count(falls, m, n)) else None
  }

  lemma DailyDaysNumbers(falls: int -> bool, interval: int, m: int, n: int)
    requires interval >= 1 && m <= n && forall k | m <= k :: falls(k) <==> DailyDay(interval, m, k)
    ensures Numbers(falls, m, n, DailyOrdinal(interval, m, n))
  {
    MultiplesCount(falls, m, interval, n);
  }

  lemma DailyFalls(rule: Rule, master: Date, n: int)
    requires ValidRule(rule) && rule.pattern.Daily? && DayNumber(master) <= n
    ensures Falls(rule, master)(n) <==> DailyDay(rule.interval, DayNumber(master), n)
  {
    NumberedBack(n);
  }

  lemma DailyNumbers(rule: Rule, master: Date, n: int)
    requires ValidRule(rule) && rule.pattern.Daily? && DayNumber(master) <= n
    ensures Numbers(Falls(rule, master), DayNumber(master), n, DailyOrdinal(rule.interval, DayNumber(master), n))
  {
    forall k | DayNumber(master) <= k ensures Falls(rule, master)(k) <==> DailyDay(rule.interval, DayNumber(master), k) {
      DailyFalls(rule, master, k);
    }
    DailyDaysNumbers(Falls(rule, master), rule.interval, DayNumber(master), n);
  }

  // ----- Weeks -----

  /** Which days of the week that starts at `start` are selected. */
  function Row(start: int, mask: int): (row: seq<bool>)
    ensures |row| == 7
  {
    seq(7, k requires 0 <= k => HasDay(mask, Gregorian.Weekday(start + k)))
  }

  function Marked(row: seq<bool>, begin: nat, end: nat): nat
    requires end <= |row|
    decreases end
  {
    if end <= begin then 0 else Marked(row, begin, end - 1) + Bit(row[end - 1])
  }

  lemma {:induction false} MarkedFirst(row: seq<bool>, begin: nat, end: nat)
    requires begin < end <= |row|
    ensures Marked(row, begin, end) == Bit(row[begin]) + Marked(row, begin + 1, end)
    decreases end
  {
    if begin + 1 < end {
      MarkedFirst(row, begin, end - 1);
    }
  }

  function Listed(start: int, row: seq<bool>, from: nat): seq<int>
    requires from <= |row|
    decreases |row| - from
  {
    if from == |row| then [] else (if row[from] then [start + from] else []) + Listed(start, row, from + 1)
  }

  /** The selected days of the week that starts at `start`, in order; days are their numbers. */
  function SelectedWeekdays(start: int, mask: int): seq<int> {
    Listed(start, Row(start, mask), 0)
  }

  function NotBefore(days: seq<int>, master: int): seq<int> {
    if days == [] then [] else (if days[0] >= master then [days[0]] else []) + NotBefore(days[1..], master)
  }

  function PositionOf(days: seq<int>, day: int): Option<int> {
    if days == [] then None
    else if days[0] == day then Some(1)
    else
      var rest := PositionOf(days[1..], day);
      if rest.None? then None else Some(rest.value + 1)
  }

  function Bits(mask: int): (bits: seq<bool>)
    ensures |bits| == 7
  {
    seq(7, w requires 0 <= w => HasDay(mask, w))
  }

  /** How many bits of a weekday mask are set. */
  function Ones(mask: int): nat {
    Marked(Bits(mask), 0, 7)
  }

  /** `m` and `n` number the master's day and the asked one. */
  function WeeklyOrdinal(firstWeekday: int, mask: int, interval: int, m: int, n: int): Result<Option<int>, ErrorCode>
    requires interval >= 1
  {
    if !HasDay(mask, Gregorian.Weekday(n)) then Ok(None)
    else OrdinalInWeek(mask, interval, m, n, WeekStart(m, firstWeekday), WeekStart(n, firstWeekday))
  }

  /** `anchor` and `candidate` start the weeks of the two days. */
  function OrdinalInWeek(mask: int, interval: int, m: int, n: int, anchor: int, candidate: int)
    : Result<Option<int>, ErrorCode>
    requires interval >= 1
  {
    var weeks := (candidate - anchor) / 7;
    if weeks < 0 || weeks % interval != 0 then Ok(None)
    else
      var cycle := weeks / interval;
      var first := NotBefore(SelectedWeekdays(anchor, mask), m);
      if cycle == 0 then Ok(PositionOf(first, n))
      else
        var position := PositionOf(SelectedWeekdays(candidate, mask), n);
        if position.None? then Err(ProtocolError)
        else Ok(Some((cycle - 1) * Ones(mask) + |first| + position.value))
  }

  /** A week's list has its selected days, each at the place its count says. */
  lemma {:induction false} ListedAt(start: int, row: seq<bool>, from: nat, k: nat)
    requires from <= k < |row| && row[k]
    ensures PositionOf(Listed(start, row, from), start + k) == Some(Marked(row, from, k + 1))
    decreases |row| - from
  {
    var week, rest := Listed(start, row, from), Listed(start, row, from + 1);
    MarkedFirst(row, from, k + 1);
    if row[from] {
      assert week[0] == start + from && week[1..] == rest;
    } else {
      assert week == rest;
    }
    if from < k {
      ListedAt(start, row, from + 1, k);
    }
  }

  lemma {:induction false} ListedCount(start: int, row: seq<bool>, from: nat)
    requires from <= |row|
    ensures |Listed(start, row, from)| == Marked(row, from, |row|)
    decreases |row| - from
  {
    if from < |row| {
      MarkedFirst(row, from, |row|);
      ListedCount(start, row, from + 1);
    }
  }

  lemma {:induction false} LateDaysStay(start: int, row: seq<bool>, from: nat, b: nat)
    requires b <= from <= |row|
    ensures NotBefore(Listed(start, row, from), start + b) == Listed(start, row, from)
    decreases |row| - from
  {
    if from < |row| {
      var days, rest := Listed(start, row, from), Listed(start, row, from + 1);
      LateDaysStay(start, row, from + 1, b);
      if row[from] {
        assert days == [start + from] + rest && days[1..] == rest;
      } else {
        assert days == rest;
      }
    }
  }

  /** In the first week the days before the master's are dropped. */
  lemma {:induction false} FirstWeek(start: int, row: seq<bool>, from: nat, b: nat)
    requires from <= b <= |row|
    ensures NotBefore(Listed(start, row, from), start + b) == Listed(start, row, b)
    decreases |row| - from
  {
    if from == b {
      LateDaysStay(start, row, b, b);
    } else {
      var days, rest := Listed(start, row, from), Listed(start, row, from + 1);
      FirstWeek(start, row, from + 1, b);
      if row[from] {
        assert days == [start + from] + rest && days[1..] == rest;
      } else {
        assert days == rest;
      }
    }
  }

  /** Occurrences up to day `x` when the count starts with day `b` of the first week. */
  function WeeklyTotal(row: seq<bool>, interval: int, b: nat, x: nat): int
    requires interval >= 1 && |row| == 7
  {
    var w, j := x / 7, x % 7;
    if w == 0 then Marked(row, b, j + 1)
    else if w % interval == 0 then Marked(row, b, 7) + (w / interval - 1) * Marked(row, 0, 7) + Marked(row, 0, j + 1)
    else Marked(row, b, 7) + w / interval * Marked(row, 0, 7)
  }

  lemma WeekEnd(row: seq<bool>, interval: int, b: nat, w: nat)
    requires interval >= 1 && |row| == 7
    ensures WeeklyTotal(row, interval, b, 7 * w + 6) == Marked(row, b, 7) + w / interval * Marked(row, 0, 7)
  {
    Quotient(0, interval, 0, 0);
    Quotient(7 * w + 6, 7, w, 6);
  }

  lemma WeeklyStep(row: seq<bool>, interval: int, b: nat, x: nat)
    requires interval >= 1 && |row| == 7 && b < x
    ensures WeeklyTotal(row, interval, b, x) ==
              WeeklyTotal(row, interval, b, x - 1) + Bit(OnDay(row, interval, x))
  {
    var w, j := x / 7, x % 7;
    if j == 0 {
      NewWeek(row, interval, b, w);
    } else {
      Quotient(x - 1, 7, w, j - 1);
    }
  }

  lemma NewWeek(row: seq<bool>, interval: int, b: nat, w: nat)
    requires interval >= 1 && |row| == 7 && w >= 1
    ensures WeeklyTotal(row, interval, b, 7 * w) ==
              WeeklyTotal(row, interval, b, 7 * w - 1) + Bit(w % interval == 0 && row[0])
  {
    WeekEnd(row, interval, b, w - 1);
    QuotientStep(w, interval);
    Quotient(7 * w, 7, w, 0);
    assert Marked(row, 0, 1) == Bit(row[0]);
  }

  lemma WeekOf(number: int, firstWeekday: int)
    requires 0 <= firstWeekday <= 6
    ensures WeekStart(number, firstWeekday) <= number < WeekStart(number, firstWeekday) + 7
    ensures WeekStart(number, firstWeekday) % 7 == firstWeekday
  {
  }

  /** Day `number` lies in the week `x / 7` weeks after the one that starts at `anchor`. */
  lemma WeekAfter(anchor: int, number: int, firstWeekday: int)
    requires 0 <= firstWeekday <= 6 && anchor % 7 == firstWeekday && anchor <= number
    ensures var x := number - anchor; WeekStart(number, firstWeekday) == anchor + 7 * (x / 7) && x % 7 == number - WeekStart(number, firstWeekday)
  {
    WeekOf(number, firstWeekday);
    var start := WeekStart(number, firstWeekday);
    var k := (start - anchor) / 7;
    assert start == anchor + 7 * k;
    Quotient(number - anchor, 7, k, number - start);
  }

  lemma RowsAgree(a: int, b: int, mask: int)
    requires a % 7 == b % 7
    ensures Row(a, mask) == Row(b, mask)
  {
    forall k | 0 <= k < 7 ensures Row(a, mask)[k] == Row(b, mask)[k] {
      assert Gregorian.Weekday(a + k) == Gregorian.Weekday(b + k);
    }
  }

  function Turned(d: int, k: int): int {
    if d + k < 7 then d + k else d + k - 7
  }

  lemma RowTurns(start: int, mask: int, k: int)
    requires 0 <= k < 7
    ensures Row(start, mask)[k] == Bits(mask)[Turned(start % 7, k)]
  {
    assert Gregorian.Weekday(start + k) == Turned(start % 7, k);
    assert Row(start, mask)[k] == HasDay(mask, Gregorian.Weekday(start + k));
  }

  function SumOfSeven(row: seq<bool>): nat
    requires |row| == 7
  {
    Bit(row[0]) + Bit(row[1]) + Bit(row[2]) + Bit(row[3]) + Bit(row[4]) + Bit(row[5]) + Bit(row[6])
  }

  lemma MarkedSeven(row: seq<bool>)
    requires |row| == 7
    ensures Marked(row, 0, 7) == SumOfSeven(row)
  {
    assert Marked(row, 0, 4) == Bit(row[0]) + Bit(row[1]) + Bit(row[2]) + Bit(row[3]);
  }

  lemma TurnedSum(row: seq<bool>, bits: seq<bool>, d: int)
    requires |row| == |bits| == 7 && 0 <= d < 7 && forall k | 0 <= k < 7 :: row[k] == bits[Turned(d, k)]
    ensures SumOfSeven(row) == SumOfSeven(bits)
  {
  }

  /** A week has every selected weekday once, whichever day it begins on. */
  lemma WholeWeek(start: int, mask: int)
    ensures Marked(Row(start, mask), 0, 7) == Ones(mask)
  {
    var row, bits, d := Row(start, mask), Bits(mask), start % 7;
    forall k | 0 <= k < 7 ensures row[k] == bits[Turned(d, k)] {
      RowTurns(start, mask, k);
    }
    TurnedSum(row, bits, d);
    MarkedSeven(row);
    MarkedSeven(bits);
  }

  predicate OnDay(row: seq<bool>, interval: int, x: int)
    requires interval >= 1 && |row| == 7
  {
    x / 7 % interval == 0 && row[x % 7]
  }

  lemma FirstDay(row: seq<bool>, interval: int, b: nat)
    requires interval >= 1 && |row| == 7 && b < 7
    ensures WeeklyTotal(row, interval, b, b) == Bit(OnDay(row, interval, b))
  {
    Quotient(b, 7, 0, b);
    Quotient(0, interval, 0, 0);
    assert Marked(row, b, b) == 0;
  }

  lemma {:induction false} TotalCounts(falls: int -> bool, anchor: int, row: seq<bool>, interval: int, b: nat, x: nat)
    requires interval >= 1 && |row| == 7 && b < 7 && b <= x
    requires forall n | anchor + b <= n :: falls(n) <==> OnDay(row, interval, n - anchor)
    ensures Count(falls, anchor + b, anchor + x) == WeeklyTotal(row, interval, b, x)
    decreases x
  {
    if x == b {
      FirstDay(row, interval, b);
    } else {
      TotalCounts(falls, anchor, row, interval, b, x - 1);
      WeeklyStep(row, interval, b, x);
    }
  }

  /** The repository's test of a day against a weekly rule whose master lies on day `m`. */
  predicate WeeklyDay(first: int, mask: int, interval: int, m: int, n: int)
    requires interval >= 1
  {
    (WeekStart(n, first) - WeekStart(m, first)) / 7 % interval == 0 && HasDay(mask, Gregorian.Weekday(n))
  }

  lemma WeeklyDayIsOnDay(first: int, mask: int, interval: int, m: int, n: int)
    requires 0 <= first <= 6 && interval >= 1 && m <= n
    ensures var anchor := WeekStart(m, first);
            WeeklyDay(first, mask, interval, m, n) <==> OnDay(Row(anchor, mask), interval, n - anchor)
  {
    var anchor := WeekStart(m, first);
    WeekOf(m, first);
    WeekAfter(anchor, n, first);
    var x := n - anchor;
    Quotient(WeekStart(n, first) - anchor, 7, x / 7, 0);
    SameTurn(anchor, x);
    assert Row(anchor, mask)[x % 7] == HasDay(mask, Gregorian.Weekday(anchor + x % 7));
  }

  lemma SameTurn(anchor: int, x: int)
    ensures Gregorian.Weekday(anchor + x % 7) == Gregorian.Weekday(anchor + x)
  {
  }

  lemma WeeklyDaysCount(falls: int -> bool, first: int, mask: int, interval: int, m: int, n: int)
    requires 0 <= first <= 6 && interval >= 1 && m <= n
    requires forall k | m <= k :: falls(k) <==> WeeklyDay(first, mask, interval, m, k)
    ensures var anchor := WeekStart(m, first);
            0 <= m - anchor < 7 && Count(falls, m, n) == WeeklyTotal(Row(anchor, mask), interval, m - anchor, n - anchor)
  {
    var anchor := WeekStart(m, first);
    WeekOf(m, first);
    forall k | m <= k ensures falls(k) <==> OnDay(Row(anchor, mask), interval, k - anchor) {
      WeeklyDayIsOnDay(first, mask, interval, m, k);
    }
    TotalCounts(falls, anchor, Row(anchor, mask), interval, m - anchor, n - anchor);
  }

  lemma WeeklyFalls(rule: Rule, master: Date, n: int)
    requires ValidRule(rule) && rule.pattern.Weekly? && DayNumber(master) <= n
    ensures Falls(rule, master)(n) <==>
              WeeklyDay(rule.firstDayOfWeek, rule.pattern.days, rule.interval, DayNumber(master), n)
  {
    NumberedBack(n);
  }

  /** The closed form over a week's row, for day `j` of week `w`. */
  function RowOrdinal(anchor: int, row: seq<bool>, interval: int, b: nat, w: int, j: int): Option<int>
    requires interval >= 1 && |row| == 7 && b < 7
  {
    var position := PositionOf(Listed(anchor + 7 * w, row, 0), anchor + 7 * w + j);
    if w / interval == 0 then PositionOf(Listed(anchor, row, b), anchor + 7 * w + j)
    else if position.None? then None
    else Some((w / interval - 1) * Marked(row, 0, 7) + |Listed(anchor, row, b)| + position.value)
  }

  lemma RowOrdinalIsTotal(anchor: int, row: seq<bool>, interval: int, b: nat, w: nat, j: nat)
    requires interval >= 1 && |row| == 7 && b < 7 && j < 7 && w % interval == 0 && row[j] && (w == 0 ==> b <= j)
    ensures RowOrdinal(anchor, row, interval, b, w, j) == Some(WeeklyTotal(row, interval, b, 7 * w + j))
  {
    TotalAt(row, interval, b, w, j);
    assert w == interval * (w / interval);
    if w == 0 {
      ListedAt(anchor, row, b, j);
    } else {
      ListedAt(anchor + 7 * w, row, 0, j);
      ListedCount(anchor, row, b);
    }
  }

  lemma TotalAt(row: seq<bool>, interval: int, b: nat, w: nat, j: nat)
    requires interval >= 1 && |row| == 7 && j < 7 && w % interval == 0
    ensures WeeklyTotal(row, interval, b, 7 * w + j) ==
              if w == 0 then Marked(row, b, j + 1)
              else Marked(row, b, 7) + (w / interval - 1) * Marked(row, 0, 7) + Marked(row, 0, j + 1)
  {
    Quotient(7 * w + j, 7, w, j);
  }

  lemma OrdinalByRow(mask: int, interval: int, m: int, n: int, anchor: int, w: nat)
    requires interval >= 1 && anchor <= m < anchor + 7 && w % interval == 0
    ensures var position := RowOrdinal(anchor, Row(anchor, mask), interval, m - anchor, w, n - anchor - 7 * w);
            position.Some? ==> OrdinalInWeek(mask, interval, m, n, anchor, anchor + 7 * w) == Ok(position)
  {
    Quotient(7 * w, 7, w, 0);
    RowsAgree(anchor, anchor + 7 * w, mask);
    WholeWeek(anchor, mask);
    FirstWeek(anchor, Row(anchor, mask), 0, m - anchor);
  }

  /** The closed form is the count of occurrences, week by week. */
  lemma WeeklyOrdinalIsTotal(first: int, mask: int, interval: int, m: int, n: int)
    requires 0 <= first <= 6 && interval >= 1 && m <= n && WeeklyDay(first, mask, interval, m, n)
    ensures 0 <= m - WeekStart(m, first) < 7
    ensures var anchor := WeekStart(m, first);
            WeeklyOrdinal(first, mask, interval, m, n) ==
              Ok(Some(WeeklyTotal(Row(anchor, mask), interval, m - anchor, n - anchor)))
  {
    var anchor := WeekStart(m, first);
    WeekOf(m, first);
    WeekAfter(anchor, n, first);
    var x := n - anchor;
    Quotient(WeekStart(n, first) - anchor, 7, x / 7, 0);
    WeeklyDayIsOnDay(first, mask, interval, m, n);
    OrdinalByRow(mask, interval, m, n, anchor, x / 7);
    RowOrdinalIsTotal(anchor, Row(anchor, mask), interval, m - anchor, x / 7, x % 7);
  }

  lemma WeeklyDaysNumbers(falls: int -> bool, first: int, mask: int, interval: int, m: int, n: int)
    requires 0 <= first <= 6 && interval >= 1 && m <= n
    requires forall k | m <= k :: falls(k) <==> WeeklyDay(first, mask, interval, m, k)
    ensures var r := WeeklyOrdinal(first, mask, interval, m, n); r.Ok? && Numbers(falls, m, n, r.value)
  {
    if falls(n) {
      WeeklyDaysCount(falls, first, mask, interval, m, n);
      WeeklyOrdinalIsTotal(first, mask, interval, m, n);
    }
  }

  lemma WeeklyNumbers(rule: Rule, master: Date, n: int)
    requires ValidRule(rule) && rule.pattern.Weekly? && DayNumber(master) <= n
    ensures var r := WeeklyOrdinal(rule.firstDayOfWeek, rule.pattern.days, rule.interval, DayNumber(master), n);
            r.Ok? && Numbers(Falls(rule, master), DayNumber(master), n, r.value)
  {
    forall k | DayNumber(master) <= k
      ensures Falls(rule, master)(k) <==>
                WeeklyDay(rule.firstDayOfWeek, rule.pattern.days, rule.interval, DayNumber(master), k)
    {
      WeeklyFalls(rule, master, k);
    }
    WeeklyDaysNumbers(
      Falls(rule, master), rule.firstDayOfWeek, rule.pattern.days, rule.interval, DayNumber(master), n);
  }

  // ----- Months and years: one occurrence a cycle -----

  predicate Calendar(rule: Rule) {
    ValidRule(rule) && !rule.pattern.Daily? && !rule.pattern.Weekly?
  }

  predicate Annual(pattern: Pattern) {
    pattern.Yearly? || pattern.YearlyRelative?
  }

  function Stride(rule: Rule): int {
    rule.interval * if Annual(rule.pattern) then 12 else 1
  }

  /** Months since year 0. */
  function Absolute(date: Date): int {
    date.year * 12 + date.month - 1
  }

  function CycleYear(rule: Rule, master: Date, k: int): int {
    (Absolute(master) + k * Stride(rule)) / 12
  }

  function CycleMonth(rule: Rule, master: Date, k: int): int {
    if Annual(rule.pattern) then rule.pattern.month else (Absolute(master) + k * Stride(rule)) % 12 + 1
  }

  ghost predicate MeansDay(pattern: Pattern, year: int, month: int, day: int)
    requires !pattern.Daily? && !pattern.Weekly?
  {
    match pattern
    case Monthly(d) => day == Clamped(d, MonthLength(year, month))
    case Yearly(_, d) => day == Clamped(d, MonthLength(year, month))
    case MonthlyRelative(days, week) => IsNth(days, week, year, month, day)
    case YearlyRelative(_, days, week) => IsNth(days, week, year, month, day)
  }

  ghost predicate OnlyMeantDay(pattern: Pattern, year: int, month: int, day: int)
    requires !pattern.Daily? && !pattern.Weekly?
  {
    Valid(Date(year, month, day)) && forall other :: MeansDay(pattern, year, month, other) <==> other == day
  }

  lemma OneMeantDay(rule: Rule, year: int, month: int)
    requires Calendar(rule) && Month(month)
    ensures exists day :: OnlyMeantDay(rule.pattern, year, month, day)
  {
    match rule.pattern
    case Monthly(d) =>
      assert OnlyMeantDay(rule.pattern, year, month, Clamped(d, MonthLength(year, month)));
    case Yearly(_, d) =>
      assert OnlyMeantDay(rule.pattern, year, month, Clamped(d, MonthLength(year, month)));
    case MonthlyRelative(days, week) =>
      var day := OrdinalWeekday(Relative(days, week), days, week, year, month);
      assert IsNth(days, week, year, month, day);
      assert OnlyMeantDay(rule.pattern, year, month, day);
    case YearlyRelative(_, days, week) =>
      var day := OrdinalWeekday(Relative(days, week), days, week, year, month);
      assert IsNth(days, week, year, month, day);
      assert OnlyMeantDay(rule.pattern, year, month, day);
  }

  ghost function MeantDay(rule: Rule, year: int, month: int): (day: int)
    requires Calendar(rule) && Month(month)
    ensures OnlyMeantDay(rule.pattern, year, month, day)
  {
    OneMeantDay(rule, year, month);
    var day :| OnlyMeantDay(rule.pattern, year, month, day);
    day
  }

  /** The one date of cycle `k`, counted from the master's. */
  ghost function MeantDate(rule: Rule, master: Date, k: int): (date: Date)
    requires Calendar(rule)
    ensures Valid(date)
  {
    var year, month := CycleYear(rule, master, k), CycleMonth(rule, master, k);
    Date(year, month, MeantDay(rule, year, month))
  }

  /** A cycle of years is in the year `k` intervals later, one of months in the month `k` intervals later. */
  lemma CyclePlace(rule: Rule, master: Date, k: int)
    requires Calendar(rule) && Valid(master)
    ensures var date := MeantDate(rule, master, k);
            if Annual(rule.pattern) then date.year == master.year + k * rule.interval && date.month == rule.pattern.month
            else Absolute(date) == Absolute(master) + k * rule.interval
  {
    if Annual(rule.pattern) {
      var y := master.year + k * rule.interval;
      assert Absolute(master) + k * Stride(rule) == 12 * y + (master.month - 1) by {
        assert k * (rule.interval * 12) == 12 * (k * rule.interval);
      }
      Quotient(Absolute(master) + k * Stride(rule), 12, y, master.month - 1);
    }
  }

  lemma Product(i: int, a: int, b: int)
    requires i >= 1 && a < b
    ensures a * i < b * i
  {
    var d := b - a;
    assert (d - 1) * i >= 0;
    assert (a + d) * i == a * i + d * i;
  }

  lemma CyclesAscend(rule: Rule, master: Date, a: int, b: int)
    requires Calendar(rule) && Valid(master) && a < b
    ensures DayNumber(MeantDate(rule, master, a)) < DayNumber(MeantDate(rule, master, b))
  {
    CyclePlace(rule, master, a);
    CyclePlace(rule, master, b);
    Product(rule.interval, a, b);
    EarlierIsLess(MeantDate(rule, master, a), MeantDate(rule, master, b));
  }

  lemma NotBeforeMaster(rule: Rule, master: Date, date: Date)
    requires Calendar(rule) && Valid(master) && Valid(date) && DayNumber(master) <= DayNumber(date)
    ensures Distance(rule, master, date) >= 0 && MonthDelta(master, date) >= 0
  {
    if Earlier(date, master) {
      EarlierIsLess(date, master);
    }
  }

  lemma MeansItsDay(pattern: Pattern, date: Date)
    requires !pattern.Daily? && !pattern.Weekly?
    ensures Means(pattern, date) <==>
              (Annual(pattern) ==> date.month == pattern.month) && MeansDay(pattern, date.year, date.month, date.day)
  {
  }

  lemma OnlyDate(rule: Rule, master: Date, date: Date, k: int)
    requires Calendar(rule) && Valid(master) && Valid(date) && Distance(rule, master, date) == k * rule.interval
    requires Annual(rule.pattern) ==> date.month == rule.pattern.month
    requires MeansDay(rule.pattern, date.year, date.month, date.day)
    ensures date == MeantDate(rule, master, k)
  {
    CyclePlace(rule, master, k);
    var meant := MeantDate(rule, master, k);
    assert meant.year == date.year && meant.month == date.month;
    assert OnlyMeantDay(rule.pattern, date.year, date.month, meant.day);
  }

  /** An expanded date is the one of its cycle. */
  lemma ExpandedIsMeant(rule: Rule, master: Date, date: Date) returns (k: int)
    requires Calendar(rule) && Valid(master) && Valid(date) && Expands(rule, master, date)
    ensures k >= 0 && Distance(rule, master, date) == k * rule.interval && date == MeantDate(rule, master, k)
  {
    NotBeforeMaster(rule, master, date);
    MeansItsDay(rule.pattern, date);
    k := WholeIntervals(Distance(rule, master, date), rule.interval);
    OnlyDate(rule, master, date, k);
  }

  lemma WholeIntervals(distance: int, interval: int) returns (k: int)
    requires interval >= 1 && distance >= 0 && distance % interval == 0
    ensures k >= 0 && distance == k * interval
  {
    k := distance / interval;
    assert distance == interval * k;
  }

  lemma MeantExpands(rule: Rule, master: Date, k: int)
    requires Calendar(rule) && Valid(master) && DayNumber(master) <= DayNumber(MeantDate(rule, master, k))
    ensures Expands(rule, master, MeantDate(rule, master, k))
  {
    var date := MeantDate(rule, master, k);
    CyclePlace(rule, master, k);
    assert Distance(rule, master, date) == rule.interval * k + 0;
    Quotient(Distance(rule, master, date), rule.interval, k, 0);
    assert MeansDay(rule.pattern, date.year, date.month, date.day);
  }

  lemma LaterCycle(rule: Rule, master: Date, k: int)
    requires Calendar(rule) && Valid(master) && k >= 1
    ensures DayNumber(master) < DayNumber(MeantDate(rule, master, k))
  {
    CyclePlace(rule, master, k);
    Product(rule.interval, 0, k);
    EarlierIsLess(master, MeantDate(rule, master, k));
  }

  ghost function CycleDay(rule: Rule, master: Date, k: int): int
    requires Calendar(rule)
  {
    DayNumber(MeantDate(rule, master, k))
  }

  lemma NumberedMeant(rule: Rule, master: Date, k: int)
    requires Calendar(rule)
    ensures DateOf(CycleDay(rule, master, k)) == MeantDate(rule, master, k)
  {
    NumberIsFaithful(DateOf(CycleDay(rule, master, k)), MeantDate(rule, master, k));
  }

  /** The set has one day for each cycle, ascending, only the first of which may precede `m`. */
  ghost predicate OneEach(falls: int -> bool, m: int, days: int -> int, cycle: int -> int) {
    && (forall a, b | 0 <= a < b :: days(a) < days(b))
    && (forall k | 1 <= k :: m < days(k))
    && (forall k | 0 <= k && m <= days(k) :: falls(days(k)))
    && (forall n | m <= n && falls(n) :: 0 <= cycle(n) && days(cycle(n)) == n)
  }

  lemma {:induction false} OneEachCount(falls: int -> bool, m: int, days: int -> int, cycle: int -> int, k: nat)
    requires OneEach(falls, m, days, cycle)
    ensures Count(falls, m, days(k)) == k + Bit(m <= days(0))
    decreases k
  {
    var before := if k == 0 then m - 1 else days(k - 1);
    if k > 0 {
      OneEachCount(falls, m, days, cycle, k - 1);
    }
    if m <= days(k) {
      forall n | before < n <= days(k) && m <= n ensures falls(n) <==> n == days(k) {
        assert falls(n) ==> days(cycle(n)) == n;
      }
      CountOne(falls, m, before, days(k));
    }
  }

  ghost function CycleDays(rule: Rule, master: Date): int -> int
    requires Calendar(rule)
  {
    k => CycleDay(rule, master, k)
  }

  /** The cycle a day lies in. */
  ghost function CycleIndex(rule: Rule, master: Date): int -> int
    requires Calendar(rule)
  {
    n => Distance(rule, master, DateOf(n)) / rule.interval
  }

  lemma FallsInItsCycle(rule: Rule, master: Date, n: int)
    requires Calendar(rule) && Valid(master) && Falls(rule, master)(n)
    ensures var k := CycleIndex(rule, master)(n); 0 <= k && CycleDays(rule, master)(k) == n
  {
    NumberedBack(n);
    var k := ExpandedIsMeant(rule, master, DateOf(n));
    assert Distance(rule, master, DateOf(n)) == rule.interval * k + 0;
    Quotient(Distance(rule, master, DateOf(n)), rule.interval, k, 0);
  }

  lemma CycleFalls(rule: Rule, master: Date, k: int)
    requires Calendar(rule) && Valid(master) && DayNumber(master) <= CycleDay(rule, master, k)
    ensures Falls(rule, master)(CycleDay(rule, master, k))
  {
    NumberedMeant(rule, master, k);
    MeantExpands(rule, master, k);
  }

  lemma CyclesAreOneEach(rule: Rule, master: Date)
    requires Calendar(rule) && Valid(master)
    ensures OneEach(Falls(rule, master), DayNumber(master), CycleDays(rule, master), CycleIndex(rule, master))
  {
    var falls, m, days, cycle := Falls(rule, master), DayNumber(master), CycleDays(rule, master), CycleIndex(rule, master);
    forall a, b | 0 <= a < b ensures days(a) < days(b) {
      CyclesAscend(rule, master, a, b);
    }
    forall k | 1 <= k ensures m < days(k) {
      LaterCycle(rule, master, k);
    }
    forall k | 0 <= k && m <= days(k) ensures falls(days(k)) {
      CycleFalls(rule, master, k);
    }
    forall n | m <= n && falls(n) ensures 0 <= cycle(n) && days(cycle(n)) == n {
      FallsInItsCycle(rule, master, n);
    }
  }

  /** Whether the master's own cycle has its date on or after the master. */
  ghost function FirstCycle(rule: Rule, master: Date): nat
    requires Calendar(rule)
  {
    Bit(DayNumber(master) <= CycleDay(rule, master, 0))
  }

  lemma CycleCount(rule: Rule, master: Date, k: nat)
    requires Calendar(rule) && Valid(master)
    ensures CountTo(rule, master, CycleDay(rule, master, k)) == k + FirstCycle(rule, master)
  {
    CyclesAreOneEach(rule, master);
    OneEachCount(Falls(rule, master), DayNumber(master), CycleDays(rule, master), CycleIndex(rule, master), k);
  }

  /** The month of a yearly rule comes before the master's: the case in which the number of cycles is one short. */
  predicate MonthBefore(rule: Rule, master: Date) {
    Annual(rule.pattern) && rule.pattern.month < master.month
  }

  function Cycles(rule: Rule, master: Date, date: Date): int
    requires ValidRule(rule)
  {
    MonthDelta(master, date) / Stride(rule)
  }

  lemma CyclesOf(rule: Rule, master: Date, k: nat)
    requires Calendar(rule) && Valid(master) && DayNumber(master) <= CycleDay(rule, master, k)
    ensures Cycles(rule, master, MeantDate(rule, master, k)) == k - Bit(MonthBefore(rule, master)) >= 0
  {
    var date := MeantDate(rule, master, k);
    CyclePlace(rule, master, k);
    NotBeforeMaster(rule, master, date);
    if Annual(rule.pattern) {
      YearlyCycles(rule.interval, k, rule.pattern.month - master.month);
    } else {
      Quotient(MonthDelta(master, date), Stride(rule), k, 0);
    }
  }

  lemma YearlyCycles(interval: int, k: nat, months: int)
    requires 1 <= interval && -11 <= months <= 11 && 12 * (k * interval) + months >= 0
    ensures (12 * (k * interval) + months) / (interval * 12) == k - Bit(months < 0) >= 0
  {
    var stride := interval * 12;
    assert 12 * (k * interval) == stride * k;
    if months < 0 {
      assert k > 0;
      assert stride * k == stride * (k - 1) + stride;
      Quotient(12 * (k * interval) + months, stride, k - 1, stride + months);
    } else {
      Quotient(12 * (k * interval) + months, stride, k, months);
    }
  }

  lemma MonthBeforeStartsLater(rule: Rule, master: Date)
    requires Calendar(rule) && Valid(master) && MonthBefore(rule, master)
    ensures FirstCycle(rule, master) == 0
  {
    CyclePlace(rule, master, 0);
    EarlierIsLess(MeantDate(rule, master, 0), master);
  }

  /** The cycle's date; a valid rule's selectors are never rejected. */
  method Candidate(rule: Rule, year: int, month: int) returns (r: Option<Date>)
    requires Calendar(rule) && Month(month)
    ensures r == Some(Date(year, month, MeantDay(rule, year, month)))
  {
    match rule.pattern
    case Monthly(day) => r := NumberedCandidate(rule, day, year, month);
    case Yearly(_, day) => r := NumberedCandidate(rule, day, year, month);
    case MonthlyRelative(days, week) => r := RelativeCandidate(rule, days, week, year, month);
    case YearlyRelative(_, days, week) => r := RelativeCandidate(rule, days, week, year, month);
  }

  method NumberedCandidate(rule: Rule, day: int, year: int, month: int) returns (r: Option<Date>)
    requires Calendar(rule) && Month(month) && (rule.pattern == Monthly(day) || (rule.pattern.Yearly? && rule.pattern.day == day))
    ensures r == Some(Date(year, month, MeantDay(rule, year, month)))
  {
    CalendarDayClamps(year, month, day);
    assert MeansDay(rule.pattern, year, month, Clamped(day, MonthLength(year, month)));
    r := CalendarDay(year, month, day);
  }

  method RelativeCandidate(rule: Rule, days: int, week: int, year: int, month: int) returns (r: Option<Date>)
    requires Calendar(rule) && Month(month)
    requires (rule.pattern.MonthlyRelative? || rule.pattern.YearlyRelative?) && rule.pattern.days == days && rule.pattern.week == week
    ensures r == Some(Date(year, month, MeantDay(rule, year, month)))
  {
    var nth := NthDate(year, month, days, week);
    assert MeansDay(rule.pattern, year, month, nth.value.value.day);
    r := nth.value;
  }

  /** What the loop over cycles has counted before cycle `index`. */
  ghost function Counted(rule: Rule, master: Date, index: int): int
    requires Calendar(rule)
  {
    if index <= 0 then 0 else index - 1 + FirstCycle(rule, master)
  }

  const MAX_CYCLES := 120000

  predicate TooFar(rule: Rule, master: Date, date: Date)
    requires ValidRule(rule)
  {
    Calendar(rule) && Cycles(rule, master, date) > 120_000
  }

  /**
   The position of a date in the series: the number of occurrences up to it, but one less when a yearly rule's
   month comes before the master's.
   */
  ghost function SeriesPosition(rule: Rule, master: Date, date: Date): int
    requires ValidRule(rule)
  {
    CountTo(rule, master, DayNumber(date)) - Bit(MonthBefore(rule, master))
  }

  ghost predicate IsOrdinal(rule: Rule, master: Date, date: Date, r: Result<Option<int>, ErrorCode>)
    requires ValidRule(rule)
  {
    if !Expands(rule, master, date) then r == Ok(None)
    else if TooFar(rule, master, date) then r == Err(ProtocolError)
    else r == Ok(Some(SeriesPosition(rule, master, date)))
  }

  lemma InCycle(rule: Rule, master: Date, index: nat, k: nat)
    requires Calendar(rule) && Valid(master) && index <= k
    ensures !Earlier(MeantDate(rule, master, k), MeantDate(rule, master, index))
    ensures Counted(rule, master, index + 1) ==
              Counted(rule, master, index) + Bit(!Earlier(MeantDate(rule, master, index), master))
  {
    NumberIsFaithful(MeantDate(rule, master, index), master);
    NumberIsFaithful(MeantDate(rule, master, k), MeantDate(rule, master, index));
    if index < k {
      CyclesAscend(rule, master, index, k);
    }
    if index > 0 {
      LaterCycle(rule, master, index);
    }
  }

  /** The loop's count is the position. */
  lemma CountedPosition(rule: Rule, master: Date, k: nat)
    requires Calendar(rule) && Valid(master) && DayNumber(master) <= CycleDay(rule, master, k)
    ensures var date := MeantDate(rule, master, k); var cycles := Cycles(rule, master, date);
            0 <= cycles <= k && Counted(rule, master, cycles + 1) == SeriesPosition(rule, master, date)
  {
    CyclesOf(rule, master, k);
    CycleCount(rule, master, k);
    if MonthBefore(rule, master) {
      MonthBeforeStartsLater(rule, master);
    }
  }

  /** Counts the cycles' dates from the master to the asked date, which is cycle `k`'s. */
  method CountCandidates(rule: Rule, master: Date, date: Date, cycles: nat, ghost k: nat) returns (count: int)
    requires Calendar(rule) && Valid(master) && cycles <= k && date == MeantDate(rule, master, k)
    ensures count == Counted(rule, master, cycles + 1)
  {
    var anchor := master.year * 12 + (master.month - 1);
    count := 0;
    for index := 0 to cycles + 1
      invariant count == Counted(rule, master, index)
    {
      var absolute := anchor + index * Stride(rule);
      var month := if Annual(rule.pattern) then rule.pattern.month else absolute % 12 + 1;
      var candidate := Candidate(rule, absolute / 12, month);
      InCycle(rule, master, index, k);
      if candidate.Some? && !Earlier(candidate.value, master) && !Earlier(date, candidate.value) {
        count := count + 1;
      }
    }
  }

  method CalendarOrdinal(rule: Rule, master: Date, date: Date, expected: Option<Date>)
    returns (r: Result<Option<int>, ErrorCode>)
    requires Calendar(rule) && Valid(master) && Valid(date)
    requires expected == Some(date) <==> Expands(rule, master, date)
    ensures IsOrdinal(rule, master, date, r)
  {
    if expected != Some(date) {
      return Ok(None);
    }
    var cycles := Cycles(rule, master, date);
    if cycles > MAX_CYCLES {
      return Err(ProtocolError);
    }
    ghost var k := ExpandedIsMeant(rule, master, date);
    CountedPosition(rule, master, k);
    var count := CountCandidates(rule, master, date, cycles, k);
    r := Ok(Some(count));
  }

  /** The date is the one its cycle means exactly when the rule expands to it. */
  lemma ExpectedIffExpanded(rule: Rule, master: Date, date: Date)
    requires Calendar(rule) && Valid(master) && Valid(date) && DayNumber(master) <= DayNumber(date)
    requires Distance(rule, master, date) % rule.interval == 0
    ensures var month := if Annual(rule.pattern) then rule.pattern.month else date.month;
            date == Date(date.year, month, MeantDay(rule, date.year, month)) <==> Expands(rule, master, date)
  {
    MeansItsDay(rule.pattern, date);
    var month := if Annual(rule.pattern) then rule.pattern.month else date.month;
    assert OnlyMeantDay(rule.pattern, date.year, month, MeantDay(rule, date.year, month));
  }

  method MonthlyOrdinal(rule: Rule, master: Date, date: Date) returns (r: Result<Option<int>, ErrorCode>)
    requires Calendar(rule) && !Annual(rule.pattern) && Valid(master) && Valid(date) && DayNumber(master) <= DayNumber(date)
    ensures IsOrdinal(rule, master, date, r)
  {
    NotBeforeMaster(rule, master, date);
    var months := MonthDelta(master, date);
    if months < 0 || months % rule.interval != 0 {
      return Ok(None);
    }
    var expected := Candidate(rule, date.year, date.month);
    ExpectedIffExpanded(rule, master, date);
    r := CalendarOrdinal(rule, master, date, expected);
  }

  method YearlyOrdinal(rule: Rule, master: Date, date: Date) returns (r: Result<Option<int>, ErrorCode>)
    requires Calendar(rule) && Annual(rule.pattern) && Valid(master) && Valid(date) && DayNumber(master) <= DayNumber(date)
    ensures IsOrdinal(rule, master, date, r)
  {
    NotBeforeMaster(rule, master, date);
    var years := date.year - master.year;
    if years < 0 || years % rule.interval != 0 {
      return Ok(None);
    }
    var expected := Candidate(rule, date.year, rule.pattern.month);
    ExpectedIffExpanded(rule, master, date);
    r := CalendarOrdinal(rule, master, date, expected);
  }

  /** Days and weeks have no limit and no exception. */
  lemma NumbersIsOrdinal(rule: Rule, master: Date, date: Date, answer: Option<int>)
    requires ValidRule(rule) && (rule.pattern.Daily? || rule.pattern.Weekly?) && Valid(date)
    requires Numbers(Falls(rule, master), DayNumber(master), DayNumber(date), answer)
    ensures IsOrdinal(rule, master, date, Ok(answer))
  {
    NumberIsFaithful(DateOf(DayNumber(date)), date);
  }

  lemma BeforeMaster(rule: Rule, master: Date, date: Date)
    requires ValidRule(rule) && Valid(master) && Valid(date)
    ensures Earlier(date, master) <==> DayNumber(date) < DayNumber(master)
    ensures Earlier(date, master) ==> IsOrdinal(rule, master, date, Ok(None))
  {
    NumberIsFaithful(date, master);
  }

  /** The position the repository computes for any date against any valid rule. */
  method Ordinal(rule: Rule, master: Date, date: Date) returns (r: Result<Option<int>, ErrorCode>)
    requires ValidRule(rule) && Valid(master) && Valid(date)
    ensures IsOrdinal(rule, master, date, r)
  {
    BeforeMaster(rule, master, date);
    if Earlier(date, master) {
      return Ok(None);
    }
    if rule.pattern.Daily? {
      DailyNumbers(rule, master, DayNumber(date));
      r := Ok(DailyOrdinal(rule.interval, DayNumber(master), DayNumber(date)));
      NumbersIsOrdinal(rule, master, date, r.value);
    } else if rule.pattern.Weekly? {
      WeeklyNumbers(rule, master, DayNumber(date));
      r := WeeklyOrdinal(rule.firstDayOfWeek, rule.pattern.days, rule.interval, DayNumber(master), DayNumber(date));
      NumbersIsOrdinal(rule, master, date, r.value);
    } else if Annual(rule.pattern) {
      r := YearlyOrdinal(rule, master, date);
    } else {
      r := MonthlyOrdinal(rule, master, date);
    }
  }

  // ----- COUNT -----

  ghost function RfcDays(r: RRule, start: Date): int -> bool
    requires r.interval >= 1
  {
    n => Occurs(r, start, DateOf(n))
  }

  /** `date` is in the recurrence set of the rule bounded by COUNT. */
  ghost predicate InCountedSet(r: RRule, total: int, start: Date, date: Date)
    requires r.interval >= 1
  {
    Occurs(r, start, date) && Count(RfcDays(r, start), DayNumber(start), DayNumber(date)) <= total
  }

  /** The repository keeps the date of a series of `total` occurrences. */
  ghost predicate Allowed(rule: Rule, total: int, master: Date, date: Date)
    requires ValidRule(rule)
  {
    Expands(rule, master, date) && SeriesPosition(rule, master, date) <= total
  }

  lemma {:induction false} SameCount(f: int -> bool, g: int -> bool, m: int, n: int)
    requires forall k :: f(k) == g(k)
    ensures Count(f, m, n) == Count(g, m, n)
    decreases n - m + 1
  {
    if m <= n {
      SameCount(f, g, m, n - 1);
    }
  }

  lemma CountsAgree(rule: Rule, master: Date, date: Date)
    requires ValidRule(rule) && Valid(master) && Valid(date)
    ensures Occurs(Translate(rule), master, date) <==> Expands(rule, master, date)
    ensures Count(RfcDays(Translate(rule), master), DayNumber(master), DayNumber(date)) ==
              CountTo(rule, master, DayNumber(date))
  {
    var f, g := RfcDays(Translate(rule), master), Falls(rule, master);
    forall k ensures f(k) == g(k) {
      TranslationPreservesMeaning(rule, master, DateOf(k));
    }
    SameCount(f, g, DayNumber(master), DayNumber(date));
    TranslationPreservesMeaning(rule, master, date);
  }

  /** The second occurrence is at position 1, so a series of one occurrence keeps it. */
  lemma SecondIsKept(rule: Rule, master: Date)
    requires Calendar(rule) && Valid(master) && MonthBefore(rule, master)
    ensures var date := MeantDate(rule, master, 2);
            Allowed(rule, 1, master, date) && !InCountedSet(Translate(rule), 1, master, date)
  {
    var date := MeantDate(rule, master, 2);
    LaterCycle(rule, master, 2);
    MeantExpands(rule, master, 2);
    CycleCount(rule, master, 2);
    MonthBeforeStartsLater(rule, master);
    CountsAgree(rule, master, date);
  }

  /**
   A COUNT bounds the translated RRULE and the repository's own expansion to the same dates, for every count and
   date, exactly when the rule is not a yearly one whose month comes before the first date's.
   */
  lemma CountIsKeptIff(rule: Rule, master: Date)
    requires ValidRule(rule) && Valid(master)
    ensures (forall date, total | Valid(date) && 1 <= total ::
               Allowed(rule, total, master, date) <==> InCountedSet(Translate(rule), total, master, date))
            <==> !MonthBefore(rule, master)
  {
    if MonthBefore(rule, master) {
      SecondIsKept(rule, master);
    } else {
      forall date, total | Valid(date) && 1 <= total
        ensures Allowed(rule, total, master, date) <==> InCountedSet(Translate(rule), total, master, date)
      {
        CountsAgree(rule, master, date);
      }
    }
  }

  /**
   A series that starts on its own first occurrence, as every series the repository writes does, numbers that
   one 1 and is never the exceptional kind.
   */
  lemma OwnSeriesStartAtOne(rule: Rule, master: Date)
    requires ValidRule(rule) && Valid(master)
    ensures Expands(rule, master, master) ==> !MonthBefore(rule, master) && SeriesPosition(rule, master, master) == 1
  {
    NumberIsFaithful(DateOf(DayNumber(master)), master);
    assert Count(Falls(rule, master), DayNumber(master), DayNumber(master) - 1) == 0;
  }

  /** No date within a COUNT, which is at most 65535, is refused as too far away. */
  lemma CountedIsNotTooFar(rule: Rule, total: int, master: Date, date: Date)
    requires ValidRule(rule) && Valid(master) && Valid(date) && total <= 65535 && Allowed(rule, total, master, date)
    ensures !TooFar(rule, master, date)
  {
    if Calendar(rule) {
      var k := ExpandedIsMeant(rule, master, date);
      CyclesOf(rule, master, k);
      CycleCount(rule, master, k);
    }
  }
}
