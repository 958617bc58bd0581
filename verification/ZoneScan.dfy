/**
 Finding a zone's offset changes in one year. Times are seconds; second 0 of day n of the calendar is
 86400 n. A zone is any function from UTC seconds to what holds there.
 */
module ZoneScan {
  import opened Base
  import opened Gregorian

  const DAY: int := 86400
  const PROBE: int := 21600

  type Unit = u: int | 0 <= u < 0x10000
  /** Offsets are 32-bit seconds, and the one in force is less than a day. */
  type Offset = s: int | -0x8000_0000 <= s < 0x8000_0000
  type Fixed = s: int | -86400 < s < 86400
  /** `name` in UTF-16 code units. */
  datatype Snapshot = Snapshot(total: Fixed, base: Offset, dst: Offset, name: seq<Unit>)
  type Zone = int -> Snapshot

  /** A change as it is encoded: its local time by the old offset, and what holds after it. */
  datatype Transition = Transition(localBefore: int, dst: Offset, name: seq<Unit>)

  function YearStart(year: int): int {
    DAY * DayNumber(Date(year, 1, 1))
  }

  function LocalDate(local: int): Date {
    DateOf(local / DAY)
  }

  function ScanStart(year: int): int {
    YearStart(year) - 2 * DAY
  }

  function ScanEnd(year: int): int {
    YearStart(year + 1) + 2 * DAY
  }

  // ----- What there is to find -----

  predicate Change(zone: Zone, c: int) {
    zone(c - 1).total != zone(c).total
  }

  function LocalBefore(zone: Zone, c: int): int {
    c + zone(c - 1).total
  }

  /** Its old local time lies in [first, last): the seconds of the year. */
  predicate InYear(zone: Zone, first: int, last: int, c: int) {
    first <= LocalBefore(zone, c) < last
  }

  function Seen(zone: Zone, c: int): Transition {
    Transition(LocalBefore(zone, c), zone(c).dst, zone(c).name)
  }

  predicate InWindow(start: int, k: int, c: int) {
    start + PROBE * k < c <= start + PROBE * (k + 1)
  }

  /** At most one change between two neighbouring probes. */
  ghost predicate OncePerProbe(zone: Zone, start: int) {
    forall k, c, d | InWindow(start, k, c) && InWindow(start, k, d) && Change(zone, c) && Change(zone, d) :: c == d
  }

  ghost predicate ConstantBase(zone: Zone, start: int, end: int) {
    forall t | start <= t <= end :: zone(t).base == zone(start).base
  }

  ghost predicate RegularBetween(zone: Zone, start: int, end: int) {
    OncePerProbe(zone, start) && ConstantBase(zone, start, end)
  }

  ghost predicate Regular(zone: Zone, year: int) {
    RegularBetween(zone, ScanStart(year), ScanEnd(year))
  }

  ghost predicate Increasing(points: seq<int>) {
    forall i, j | 0 <= i < j < |points| :: points[i] < points[j]
  }

  ghost predicate Describes(zone: Zone, points: seq<int>, found: seq<Transition>) {
    |found| == |points| && forall i | 0 <= i < |points| :: found[i] == Seen(zone, points[i])
  }

  /** `points` are, in order, the changes after `start` and up to `cursor` whose old local time is in the year. */
  ghost predicate Scanned(zone: Zone, first: int, last: int, start: int, cursor: int, points: seq<int>) {
    && Increasing(points)
    && (forall c | c in points :: start < c <= cursor && Change(zone, c) && InYear(zone, first, last, c))
    && (forall c | start < c <= cursor && Change(zone, c) && InYear(zone, first, last, c) :: c in points)
  }

  // ----- The scan -----

  /** Binary search to one second. */
  method LocateTransition(zone: Zone, from: int, until: int, oldOffset: int) returns (high: int)
    requires from < until
    ensures from < high <= until
    ensures zone(from).total == oldOffset && zone(until).total != oldOffset ==>
              zone(high - 1).total == oldOffset && zone(high).total != oldOffset
  {
    var low := from;
    high := until;
    while high - low > 1
      invariant from <= low < high <= until
      invariant zone(from).total == oldOffset ==> zone(low).total == oldOffset
      invariant zone(until).total != oldOffset ==> zone(high).total != oldOffset
      decreases high - low
    {
      var middle := low + (high - low) / 2;
      if zone(middle).total == oldOffset {
        low := middle;
      } else {
        high := middle;
      }
    }
  }

  /** Where the loop stands: all it needs to know of a regular zone. */
  ghost predicate Standing(zone: Zone, first: int, last: int, start: int, cursor: int, previous: Snapshot,
                           points: seq<int>, output: seq<Transition>) {
    && previous.total == zone(cursor).total && previous.base == zone(start).base
    && Describes(zone, points, output) && Scanned(zone, first, last, start, cursor, points)
  }

  /**
   For every regular zone, exactly the changes whose old local time falls in the year, in order; `points`
   are the instants they happen at.
   */
  method Transitions(zone: Zone, year: int) returns (r: Result<seq<Transition>, ErrorCode>, ghost points: seq<int>)
    ensures r.Err? ==> r.error == ValidationFailed
    ensures Regular(zone, year) ==>
              && r.Ok? && Describes(zone, points, r.value)
              && Scanned(zone, YearStart(year), YearStart(year + 1), ScanStart(year), ScanEnd(year), points)
  {
    ScanLength(year);
    LocalYears(year);
    r, points := Scan(zone, year, ScanStart(year), ScanEnd(year), YearStart(year), YearStart(year + 1), 4 * (YearLength(year) + 4));
  }

  /** The loop; `probes` and the bounds of the year serve only to state what it computes. */
  method Scan(zone: Zone, year: int, start: int, end: int, ghost first: int, ghost last: int, ghost probes: int)
    returns (r: Result<seq<Transition>, ErrorCode>, ghost points: seq<int>)
    requires probes >= 0 && end == start + PROBE * probes
    requires forall local :: LocalDate(local).year == year <==> first <= local < last
    ensures r.Err? ==> r.error == ValidationFailed
    ensures RegularBetween(zone, start, end) ==>
              r.Ok? && Describes(zone, points, r.value) && Scanned(zone, first, last, start, end, points)
  {
    var cursor := start;
    var previous := zone(cursor);
    var output: seq<Transition> := [];
    points := [];
    ghost var k := 0;
    while cursor < end
      invariant start <= cursor <= end && cursor == start + PROBE * k
      invariant RegularBetween(zone, start, end) ==> Standing(zone, first, last, start, cursor, previous, points, output)
      decreases end - cursor
    {
      assert k + 1 <= probes;
      var next := if cursor + PROBE <= end then cursor + PROBE else end;
      var current := zone(next);
      if current.total != previous.total {
        var transition := LocateTransition(zone, cursor, next, previous.total);
        var after := zone(transition);
        var localBefore := transition + previous.total;
        var inYear := LocalDate(localBefore).year == year;
        if RegularBetween(zone, start, end) {
          StandsAfterChange(zone, first, last, start, end, k, previous, points, output, transition);
        }
        if inYear {
          if after.base != previous.base {
            return Err(ValidationFailed), points;
          }
          output := output + [Transition(localBefore, after.dst, after.name)];
          points := points + [transition];
        }
        previous := after;
      } else {
        if RegularBetween(zone, start, end) {
          StandsWithoutChange(zone, first, last, start, end, k, previous, points, output);
        }
        previous := current;
      }
      cursor := next;
      k := k + 1;
    }
    return Ok(output), points;
  }

  // ----- Why it is exact -----

  lemma ScanLength(year: int)
    ensures ScanEnd(year) == ScanStart(year) + PROBE * (4 * (YearLength(year) + 4))
  {
    YearStep(year);
  }

  /** Which year a local second lies in. */
  lemma LocalYear(local: int, year: int)
    ensures LocalDate(local).year == year <==> YearStart(year) <= local < YearStart(year + 1)
  {
    var date := LocalDate(local);
    YearFollows(local, date, year);
    YearFollows(local, date, year + 1);
  }

  lemma YearFollows(local: int, date: Date, year: int)
    requires Valid(date) && DayNumber(date) == local / DAY
    ensures date.year >= year <==> YearStart(year) <= local
  {
    var first := Date(year, 1, 1);
    DayBounds(local, DayNumber(first));
    NumberIsFaithful(date, first);
    assert Earlier(date, first) <==> date.year < year;
  }

  lemma LocalYears(year: int)
    ensures forall local :: LocalDate(local).year == year <==> YearStart(year) <= local < YearStart(year + 1)
  {
    forall local ensures LocalDate(local).year == year <==> YearStart(year) <= local < YearStart(year + 1) {
      LocalYear(local, year);
    }
  }

  lemma DayBounds(local: int, day: int)
    ensures local < DAY * day <==> local / DAY < day
  {
  }

  /** Without a change in between, the offset stays. */
  lemma {:induction false} Steady(zone: Zone, a: int, b: int)
    requires a <= b && forall c | a < c <= b :: !Change(zone, c)
    ensures zone(b).total == zone(a).total
    decreases b - a
  {
    if a < b {
      Steady(zone, a, b - 1);
      assert !Change(zone, b);
    }
  }

  /** Between two probes that agree there is no change. */
  lemma NoChange(zone: Zone, start: int, k: int)
    requires OncePerProbe(zone, start)
    requires zone(start + PROBE * (k + 1)).total == zone(start + PROBE * k).total
    ensures forall c | InWindow(start, k, c) :: !Change(zone, c)
  {
    var a, b := start + PROBE * k, start + PROBE * (k + 1);
    forall c | InWindow(start, k, c) ensures !Change(zone, c) {
      if Change(zone, c) {
        assert forall d | a < d <= b && d != c :: InWindow(start, k, d) && !Change(zone, d);
        Steady(zone, a, c - 1);
        Steady(zone, c, b);
      }
    }
  }

  /** Between two probes that differ the located change is the only one. */
  lemma OneChange(zone: Zone, start: int, k: int, h: int)
    requires OncePerProbe(zone, start) && InWindow(start, k, h) && Change(zone, h)
    ensures forall c | InWindow(start, k, c) && Change(zone, c) :: c == h
    ensures zone(start + PROBE * (k + 1)).total == zone(h).total
  {
    assert forall c | h < c <= start + PROBE * (k + 1) :: InWindow(start, k, c);
    Steady(zone, h, start + PROBE * (k + 1));
  }

  lemma StandsWithoutChange(zone: Zone, first: int, last: int, start: int, end: int, k: int, previous: Snapshot,
                            points: seq<int>, output: seq<Transition>)
    requires RegularBetween(zone, start, end) && k >= 0 && start + PROBE * (k + 1) <= end
    requires Standing(zone, first, last, start, start + PROBE * k, previous, points, output)
    requires zone(start + PROBE * (k + 1)).total == previous.total
    ensures Standing(zone, first, last, start, start + PROBE * (k + 1), zone(start + PROBE * (k + 1)), points, output)
  {
    NoChange(zone, start, k);
    var a, b := start + PROBE * k, start + PROBE * (k + 1);
    forall c | start < c <= b && Change(zone, c) && InYear(zone, first, last, c) ensures c in points {
      assert InWindow(start, k, c) <==> a < c;
    }
  }

  lemma StandsAfterChange(zone: Zone, first: int, last: int, start: int, end: int, k: int, previous: Snapshot,
                          points: seq<int>, output: seq<Transition>, h: int)
    requires RegularBetween(zone, start, end) && k >= 0 && start + PROBE * (k + 1) <= end
    requires Standing(zone, first, last, start, start + PROBE * k, previous, points, output)
    requires InWindow(start, k, h) && zone(h - 1).total == previous.total != zone(h).total
    ensures zone(h).base == previous.base
    ensures var b := start + PROBE * (k + 1);
            if first <= h + previous.total < last
            then Standing(zone, first, last, start, b, zone(h), points + [h],
                          output + [Transition(h + previous.total, zone(h).dst, zone(h).name)])
            else Standing(zone, first, last, start, b, zone(h), points, output)
  {
    OneChange(zone, start, k, h);
    var a, b := start + PROBE * k, start + PROBE * (k + 1);
    Extended(zone, first, last, start, a, b, points, h) by {
      forall c | a < c <= b && Change(zone, c) ensures c == h {
        assert InWindow(start, k, c);
      }
    }
  }

  lemma Extended(zone: Zone, first: int, last: int, start: int, cursor: int, next: int, points: seq<int>, h: int)
    requires Scanned(zone, first, last, start, cursor, points) && start <= cursor < h <= next
    requires Change(zone, h) && forall c | cursor < c <= next && Change(zone, c) :: c == h
    ensures Scanned(zone, first, last, start, next, if InYear(zone, first, last, h) then points + [h] else points)
  {
    forall i | 0 <= i < |points| ensures points[i] < h {
      assert points[i] in points;
    }
    assert forall c :: c in points + [h] <==> c in points || c == h;
  }

  /** The scanned range misses nothing: every change with old local time in the year is in it. */
  lemma NothingOutside(zone: Zone, year: int, points: seq<int>, c: int)
    requires Scanned(zone, YearStart(year), YearStart(year + 1), ScanStart(year), ScanEnd(year), points)
    ensures c in points <==> Change(zone, c) && InYear(zone, YearStart(year), YearStart(year + 1), c)
  {
    assert -DAY < zone(c - 1).total < DAY;
  }
}
