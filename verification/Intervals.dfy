/**
 Merging of status intervals: the canonical form of a set of availability intervals. An instant is a number
 of milliseconds, and an interval holds its start but not its end.
 */
module Intervals {
  import opened Base

  datatype Status = Free | Tentative | Busy | OutOfOffice | NoData
  datatype Interval = Interval(start: int, end: int)
  datatype StatusInterval = StatusInterval(range: Interval, status: Status)

  predicate Covers(range: Interval, t: int) {
    range.start <= t < range.end
  }

  /** Some interval of `values` gives instant `t` the status `s`. */
  ghost predicate StatusAt(values: seq<StatusInterval>, t: int, s: Status) {
    exists i :: 0 <= i < |values| && Covers(values[i].range, t) && values[i].status == s
  }

  ghost predicate Proper(values: seq<StatusInterval>) {
    forall i | 0 <= i < |values| :: values[i].range.start < values[i].range.end
  }

  /** Two overlapping intervals disagree. */
  ghost predicate Conflict(values: seq<StatusInterval>) {
    exists t, s, s' :: s != s' && StatusAt(values, t, s) && StatusAt(values, t, s')
  }

  ghost predicate SameStatuses(a: seq<StatusInterval>, b: seq<StatusInterval>) {
    forall t, s :: StatusAt(a, t, s) <==> StatusAt(b, t, s)
  }

  /** Non-empty, in order, disjoint, and no touching neighbours share a status. */
  ghost predicate Canonical(values: seq<StatusInterval>) {
    && Proper(values)
    && (forall i, j | 0 <= i < j < |values| :: values[i].range.end <= values[j].range.start)
    && (forall i | 0 < i < |values| ::
          values[i-1].range.end == values[i].range.start ==> values[i-1].status != values[i].status)
  }

  // ----- The stable sort by start -----

  predicate Sorted(values: seq<StatusInterval>) {
    forall i, j | 0 <= i < j < |values| :: values[i].range.start <= values[j].range.start
  }

  function Insert(v: StatusInterval, sorted: seq<StatusInterval>): seq<StatusInterval> {
    if sorted == [] || v.range.start <= sorted[0].range.start then [v] + sorted
    else [sorted[0]] + Insert(v, sorted[1..])
  }

  function SortByStart(values: seq<StatusInterval>): seq<StatusInterval> {
    if values == [] then [] else Insert(values[0], SortByStart(values[1..]))
  }

  lemma {:induction false} InsertElements(v: StatusInterval, sorted: seq<StatusInterval>)
    ensures multiset(Insert(v, sorted)) == multiset([v]) + multiset(sorted)
  {
    if sorted != [] && v.range.start > sorted[0].range.start {
      InsertElements(v, sorted[1..]);
      assert sorted == [sorted[0]] + sorted[1..];
    }
  }

  lemma {:induction false} InsertSorted(v: StatusInterval, sorted: seq<StatusInterval>)
    requires Sorted(sorted)
    ensures Sorted(Insert(v, sorted))
    ensures forall k | 0 <= k < |Insert(v, sorted)| :: Insert(v, sorted)[k] == v || Insert(v, sorted)[k] in sorted
  {
    if sorted != [] && v.range.start > sorted[0].range.start {
      InsertSorted(v, sorted[1..]);
      var rest := Insert(v, sorted[1..]);
      forall k | 0 <= k < |rest| ensures sorted[0].range.start <= rest[k].range.start {
        assert rest[k] == v || rest[k] in sorted[1..];
      }
    }
  }

  lemma {:induction false} SortKeeps(values: seq<StatusInterval>)
    ensures Sorted(SortByStart(values)) && multiset(SortByStart(values)) == multiset(values)
  {
    if values != [] {
      SortKeeps(values[1..]);
      InsertElements(values[0], SortByStart(values[1..]));
      InsertSorted(values[0], SortByStart(values[1..]));
      assert values == [values[0]] + values[1..];
    }
  }

  lemma SameElements(a: seq<StatusInterval>, b: seq<StatusInterval>)
    requires multiset(a) == multiset(b)
    ensures SameStatuses(a, b) && (Proper(a) <==> Proper(b))
  {
    assert forall x :: x in a <==> x in multiset(a);
    assert forall x :: x in b <==> x in multiset(b);
    assert (forall i | 0 <= i < |a| :: a[i] in b) && (forall i | 0 <= i < |b| :: b[i] in a);
    forall t, s ensures StatusAt(a, t, s) <==> StatusAt(b, t, s) {
      if StatusAt(a, t, s) {
        var i :| 0 <= i < |a| && Covers(a[i].range, t) && a[i].status == s;
        assert a[i] in b;
      }
      if StatusAt(b, t, s) {
        var i :| 0 <= i < |b| && Covers(b[i].range, t) && b[i].status == s;
        assert b[i] in a;
      }
    }
  }

  // ----- The merge -----

  function Later(a: int, b: int): int {
    if a >= b then a else b
  }

  /** One turn of the loop: refuse, extend the last interval, or append. */
  function Absorb(output: seq<StatusInterval>, value: StatusInterval): Option<seq<StatusInterval>> {
    if output == [] then Some([value])
    else
      var last := output[|output|-1];
      if value.range.start < last.range.end && value.status != last.status then None
      else if value.status == last.status && value.range.start <= last.range.end then
        Some(output[|output|-1 :=
          StatusInterval(Interval(last.range.start, Later(last.range.end, value.range.end)), last.status)])
      else Some(output + [value])
  }

  function Absorbed(sorted: seq<StatusInterval>): Option<seq<StatusInterval>> {
    if sorted == [] then Some([])
    else
      match Absorbed(sorted[..|sorted|-1])
      case None => None
      case Some(output) => Absorb(output, sorted[|sorted|-1])
  }

  function Merged(values: seq<StatusInterval>): Option<seq<StatusInterval>> {
    Absorbed(SortByStart(values))
  }

  lemma {:induction false} FailureStays(sorted: seq<StatusInterval>, n: nat)
    requires n <= |sorted| && Absorbed(sorted[..n]).None?
    ensures Absorbed(sorted).None?
    decreases |sorted|
  {
    if n < |sorted| {
      assert sorted[..|sorted|-1][..n] == sorted[..n];
      FailureStays(sorted[..|sorted|-1], n);
    } else {
      assert sorted[..n] == sorted;
    }
  }

  method MergeStatusIntervals(values: seq<StatusInterval>) returns (r: Option<seq<StatusInterval>>)
    ensures r == Merged(values)
  {
    var sorted := SortByStart(values);
    var output: seq<StatusInterval> := [];
    var i := 0;
    while i < |sorted|
      invariant 0 <= i <= |sorted| && Absorbed(sorted[..i]) == Some(output)
    {
      var value := sorted[i];
      ghost var before := output;
      assert sorted[..i+1][..i] == sorted[..i];
      if output != [] && value.range.start < output[|output|-1].range.end && value.status != output[|output|-1].status {
        FailureStays(sorted, i + 1);
        return None;
      }
      if output != [] && value.status == output[|output|-1].status && value.range.start <= output[|output|-1].range.end {
        var last := output[|output|-1];
        var end := Later(last.range.end, value.range.end);
        output := output[|output|-1 := StatusInterval(Interval(last.range.start, end), last.status)];
      } else {
        output := output + [value];
      }
      assert before == [] ==> output == [value];
      i := i + 1;
    }
    assert sorted[..i] == sorted;
    return Some(output);
  }

  // ----- Correctness -----

  /** What is so far absorbed starts no later than `start`. */
  ghost predicate StartsBy(output: seq<StatusInterval>, start: int) {
    forall i | 0 <= i < |output| :: output[i].range.start <= start
  }

  lemma AbsorbKeeps(output: seq<StatusInterval>, value: StatusInterval)
    requires Canonical(output) && StartsBy(output, value.range.start) && value.range.start < value.range.end
    ensures Absorb(output, value).Some? ==>
              var out := Absorb(output, value).value;
              Canonical(out) && StartsBy(out, value.range.start) && SameStatuses(out, output + [value])
    ensures Absorb(output, value).None? ==> Conflict(output + [value])
  {
    SameAsItself(output + [value]);
    if output == [] {
      assert output + [value] == [value];
      assert Canonical([value]);
    } else if Absorb(output, value).None? {
      RefusedConflicts(output, value);
    } else if value.status == output[|output|-1].status && value.range.start <= output[|output|-1].range.end {
      ExtendKeeps(output, value);
    } else {
      AppendKeeps(output, value);
    }
  }

  lemma SameAsItself(values: seq<StatusInterval>)
    ensures SameStatuses(values, values)
  {
  }

  lemma RefusedConflicts(output: seq<StatusInterval>, value: StatusInterval)
    requires StartsBy(output, value.range.start) && value.range.start < value.range.end
    requires Absorb(output, value).None?
    ensures Conflict(output + [value])
  {
    var n := |output|;
    var both := output + [value];
    assert both[n-1] == output[n-1] && both[n] == value;
    assert StatusAt(both, value.range.start, output[n-1].status) && StatusAt(both, value.range.start, value.status);
  }

  lemma AppendKeeps(output: seq<StatusInterval>, value: StatusInterval)
    requires output != [] && Canonical(output) && StartsBy(output, value.range.start) && value.range.start < value.range.end
    requires output[|output|-1].range.end <= value.range.start
    requires output[|output|-1].range.end == value.range.start ==> output[|output|-1].status != value.status
    ensures Canonical(output + [value]) && StartsBy(output + [value], value.range.start)
  {
    var n := |output|;
    forall i | 0 <= i < n ensures output[i].range.end <= value.range.start {
      assert i < n - 1 ==> output[i].range.end <= output[n-1].range.start;
    }
  }

  lemma ExtendKeeps(output: seq<StatusInterval>, value: StatusInterval)
    requires output != [] && Canonical(output) && StartsBy(output, value.range.start) && value.range.start < value.range.end
    requires value.status == output[|output|-1].status && value.range.start <= output[|output|-1].range.end
    ensures Absorb(output, value).Some?
    ensures Canonical(Absorb(output, value).value) && StartsBy(Absorb(output, value).value, value.range.start)
    ensures SameStatuses(Absorb(output, value).value, output + [value])
  {
    var n := |output|;
    var out := Absorb(output, value).value;
    var both := output + [value];
    forall t, s ensures StatusAt(out, t, s) <==> StatusAt(both, t, s) {
      if StatusAt(out, t, s) {
        var i :| 0 <= i < n && Covers(out[i].range, t) && out[i].status == s;
        assert Covers(both[i].range, t) || (i == n - 1 && Covers(both[n].range, t));
      }
      if StatusAt(both, t, s) {
        var i :| 0 <= i <= n && Covers(both[i].range, t) && both[i].status == s;
        var k := if i == n then n - 1 else i;
        assert Covers(out[k].range, t) && out[k].status == s;
      }
    }
  }

  /** A canonical list gives an instant at most one status. */
  lemma CanonicalAgrees(values: seq<StatusInterval>)
    requires Canonical(values)
    ensures !Conflict(values)
  {
    forall t, s, s' | StatusAt(values, t, s) && StatusAt(values, t, s') ensures s == s' {
      var i :| 0 <= i < |values| && Covers(values[i].range, t) && values[i].status == s;
      var j :| 0 <= j < |values| && Covers(values[j].range, t) && values[j].status == s';
      assert i == j;
    }
  }

  /** Adding one value to lists that agree keeps them agreeing. */
  lemma AppendSame(a: seq<StatusInterval>, b: seq<StatusInterval>, value: StatusInterval)
    requires SameStatuses(a, b)
    ensures SameStatuses(a + [value], b + [value])
  {
    forall t, s ensures StatusAt(a + [value], t, s) <==> StatusAt(b + [value], t, s) {
      AppendStatus(a, value, t, s);
      AppendStatus(b, value, t, s);
      assert StatusAt(a, t, s) <==> StatusAt(b, t, s);
    }
  }

  lemma AppendStatus(a: seq<StatusInterval>, value: StatusInterval, t: int, s: Status)
    ensures StatusAt(a + [value], t, s) <==> StatusAt(a, t, s) || (Covers(value.range, t) && value.status == s)
  {
    var all := a + [value];
    if StatusAt(a, t, s) {
      var i :| 0 <= i < |a| && Covers(a[i].range, t) && a[i].status == s;
      assert all[i] == a[i];
    }
    if Covers(value.range, t) && value.status == s {
      assert all[|a|] == value;
    }
  }

  lemma SameConflict(a: seq<StatusInterval>, b: seq<StatusInterval>)
    requires SameStatuses(a, b) && Conflict(a)
    ensures Conflict(b)
  {
    var t, s, s' :| s != s' && StatusAt(a, t, s) && StatusAt(a, t, s');
    assert StatusAt(b, t, s) && StatusAt(b, t, s');
  }

  lemma {:induction false} AbsorbedKeeps(sorted: seq<StatusInterval>)
    requires Sorted(sorted) && Proper(sorted)
    ensures Absorbed(sorted).Some? ==>
              && Canonical(Absorbed(sorted).value) && SameStatuses(Absorbed(sorted).value, sorted)
              && (sorted != [] ==> StartsBy(Absorbed(sorted).value, sorted[|sorted|-1].range.start))
    ensures Absorbed(sorted).None? ==> Conflict(sorted)
  {
    if sorted != [] {
      var n := |sorted| - 1;
      var before, value := sorted[..n], sorted[n];
      assert sorted == before + [value];
      AbsorbedKeeps(before);
      if Absorbed(before).Some? {
        var output := Absorbed(before).value;
        AbsorbKeeps(output, value);
        AppendSame(output, before, value);
        if Absorb(output, value).None? {
          SameConflict(output + [value], sorted);
        }
      } else {
        ConflictGrows(before, value);
      }
    }
  }

  lemma ConflictGrows(a: seq<StatusInterval>, value: StatusInterval)
    requires Conflict(a)
    ensures Conflict(a + [value])
  {
    var t, s, s' :| s != s' && StatusAt(a, t, s) && StatusAt(a, t, s');
    AppendStatus(a, value, t, s);
    AppendStatus(a, value, t, s');
    assert StatusAt(a + [value], t, s) && StatusAt(a + [value], t, s');
  }

  /**
   On non-empty intervals, which is all its callers build, the merge fails exactly when two overlapping
   intervals disagree, and otherwise returns a canonical list that gives every instant exactly the status
   the input gives it.
   */
  lemma MergeIsCanonical(values: seq<StatusInterval>)
    requires Proper(values)
    ensures Merged(values).None? <==> Conflict(values)
    ensures Merged(values).Some? ==> Canonical(Merged(values).value) && SameStatuses(Merged(values).value, values)
  {
    SortKeeps(values);
    var sorted := SortByStart(values);
    SameElements(sorted, values);
    AbsorbedKeeps(sorted);
    if Merged(values).Some? {
      var out := Merged(values).value;
      if Conflict(values) {
        SameConflict(values, out);
        CanonicalAgrees(out);
      }
    } else {
      SameConflict(sorted, values);
    }
  }

  // ----- Uniqueness -----

  lemma FirstCovers(a: seq<StatusInterval>)
    requires Canonical(a) && a != []
    ensures StatusAt(a, a[0].range.start, a[0].status)
  {
    assert Covers(a[0].range, a[0].range.start);
  }

  /** The first interval of a canonical list begins at its least covered instant. */
  lemma FirstIsEarliest(a: seq<StatusInterval>, t: int, s: Status)
    requires Canonical(a) && StatusAt(a, t, s)
    ensures a != [] && a[0].range.start <= t
    ensures t == a[0].range.start ==> s == a[0].status
    ensures t == a[0].range.end ==> s != a[0].status
  {
    var i :| 0 <= i < |a| && Covers(a[i].range, t) && a[i].status == s;
    if i > 1 {
      assert a[0].range.end <= a[1].range.start < a[1].range.end <= a[i].range.start;
    }
  }

  lemma FirstEnds(a: seq<StatusInterval>, b: seq<StatusInterval>)
    requires Canonical(a) && Canonical(b) && SameStatuses(a, b) && a != [] && b != []
    requires a[0].range.start == b[0].range.start && a[0].status == b[0].status
    ensures a[0].range.end >= b[0].range.end
  {
    if a[0].range.end < b[0].range.end {
      assert Covers(b[0].range, a[0].range.end);
      assert StatusAt(b, a[0].range.end, b[0].status);
      assert StatusAt(a, a[0].range.end, b[0].status);
      FirstIsEarliest(a, a[0].range.end, b[0].status);
      assert false;
    }
  }

  lemma TailStatus(a: seq<StatusInterval>, t: int, s: Status)
    requires Canonical(a) && a != []
    ensures Canonical(a[1..])
    ensures StatusAt(a[1..], t, s) <==> StatusAt(a, t, s) && t >= a[0].range.end
  {
    if StatusAt(a[1..], t, s) {
      var i :| 0 <= i < |a[1..]| && Covers(a[1..][i].range, t) && a[1..][i].status == s;
      assert a[i+1] == a[1..][i];
    }
    if StatusAt(a, t, s) && t >= a[0].range.end {
      var i :| 0 <= i < |a| && Covers(a[i].range, t) && a[i].status == s;
      assert a[1..][i-1] == a[i];
    }
  }

  /** Canonical lists that agree everywhere are equal. */
  lemma {:induction false} CanonicalIsUnique(a: seq<StatusInterval>, b: seq<StatusInterval>)
    requires Canonical(a) && Canonical(b) && SameStatuses(a, b)
    ensures a == b
  {
    if a == [] {
      if b != [] {
        FirstCovers(b);
        assert false;
      }
    } else {
      FirstCovers(a);
      assert StatusAt(b, a[0].range.start, a[0].status);
      FirstIsEarliest(b, a[0].range.start, a[0].status);
      FirstCovers(b);
      assert StatusAt(a, b[0].range.start, b[0].status);
      FirstIsEarliest(a, b[0].range.start, b[0].status);
      FirstEnds(a, b);
      FirstEnds(b, a);
      TailsAgree(a, b);
      CanonicalIsUnique(a[1..], b[1..]);
      assert a == [a[0]] + a[1..] && b == [b[0]] + b[1..];
    }
  }

  lemma TailsAgree(a: seq<StatusInterval>, b: seq<StatusInterval>)
    requires Canonical(a) && Canonical(b) && SameStatuses(a, b) && a != [] && b != [] && a[0] == b[0]
    ensures Canonical(a[1..]) && Canonical(b[1..]) && SameStatuses(a[1..], b[1..])
  {
    forall t, s ensures StatusAt(a[1..], t, s) <==> StatusAt(b[1..], t, s) {
      TailStatus(a, t, s);
      TailStatus(b, t, s);
      assert StatusAt(a, t, s) <==> StatusAt(b, t, s);
    }
    TailStatus(a, 0, Free);
    TailStatus(b, 0, Free);
  }

  /** The outcome depends only on what the intervals say: any reordering of the input merges to the same result. */
  lemma MergeIgnoresOrder(a: seq<StatusInterval>, b: seq<StatusInterval>)
    requires Proper(a) && Proper(b) && SameStatuses(a, b)
    ensures Merged(a) == Merged(b)
  {
    MergeIsCanonical(a);
    MergeIsCanonical(b);
    if Merged(a).None? {
      SameConflict(a, b);
    } else if Merged(b).None? {
      SameConflict(b, a);
    } else {
      var x, y := Merged(a).value, Merged(b).value;
      forall t, s ensures StatusAt(x, t, s) <==> StatusAt(y, t, s) {
        assert StatusAt(x, t, s) <==> StatusAt(a, t, s);
        assert StatusAt(y, t, s) <==> StatusAt(b, t, s);
        assert StatusAt(a, t, s) <==> StatusAt(b, t, s);
      }
      CanonicalIsUnique(x, y);
    }
  }

  lemma PermutationMergesAlike(a: seq<StatusInterval>, b: seq<StatusInterval>)
    requires multiset(a) == multiset(b) && Proper(a)
    ensures Merged(a) == Merged(b)
  {
    SameElements(a, b);
    MergeIgnoresOrder(a, b);
  }

  // ----- Empty intervals -----

  /** An interval begins inside an earlier one of another status. */
  ghost predicate Clash(sorted: seq<StatusInterval>) {
    exists i, j :: 0 <= i < j < |sorted| && ClashAt(sorted, i, j)
  }

  ghost predicate ClashAt(sorted: seq<StatusInterval>, i: int, j: int)
    requires 0 <= i < j < |sorted|
  {
    sorted[j].range.start < sorted[i].range.end && sorted[i].status != sorted[j].status
  }

  /** The interval that begins there is empty, so nothing overlaps. */
  ghost predicate Spurious(sorted: seq<StatusInterval>) {
    exists i, j :: 0 <= i < j < |sorted| && ClashAt(sorted, i, j) && sorted[j].range.end <= sorted[j].range.start
  }

  /** What the last output interval knows of everything absorbed, empty or not. */
  ghost predicate LastCovers(output: seq<StatusInterval>, sorted: seq<StatusInterval>) {
    && (output == [] <==> sorted == [])
    && (output != [] ==>
          var last := output[|output|-1];
          && last.range.start <= sorted[|sorted|-1].range.start
          && (forall i | 0 <= i < |sorted| ::
                sorted[i].range.end <= last.range.start || (sorted[i].status == last.status && sorted[i].range.end <= last.range.end))
          && (exists i :: 0 <= i < |sorted| && sorted[i].status == last.status && sorted[i].range.end == last.range.end))
  }

  lemma AbsorbTracks(output: seq<StatusInterval>, sorted: seq<StatusInterval>, value: StatusInterval)
    requires Sorted(sorted + [value]) && LastCovers(output, sorted) && !Clash(sorted)
    ensures Absorb(output, value).None? <==> Clash(sorted + [value])
    ensures Absorb(output, value).Some? ==> LastCovers(Absorb(output, value).value, sorted + [value])
  {
    var n, all := |sorted|, sorted + [value];
    if output != [] {
      var last := output[|output|-1];
      assert all[n-1] == sorted[n-1] && all[n] == value;
      var w :| 0 <= w < n && sorted[w].status == last.status && sorted[w].range.end == last.range.end;
      assert all[w] == sorted[w];
      if Clash(all) {
        var i, j :| 0 <= i < j < |all| && ClashAt(all, i, j);
        assert j < n ==> ClashAt(sorted, i, j);
        assert all[i] == sorted[i];
      }
      if value.range.start < last.range.end && value.status != last.status {
        assert ClashAt(all, w, n);
      } else {
        TracksOn(output, sorted, value, w);
      }
    } else {
      assert all == [value];
    }
  }

  lemma TracksOn(output: seq<StatusInterval>, sorted: seq<StatusInterval>, value: StatusInterval, w: int)
    requires Sorted(sorted + [value]) && LastCovers(output, sorted) && output != [] && Absorb(output, value).Some?
    requires 0 <= w < |sorted| && sorted[w].status == output[|output|-1].status
    requires sorted[w].range.end == output[|output|-1].range.end
    ensures LastCovers(Absorb(output, value).value, sorted + [value])
  {
    var n, all := |sorted|, sorted + [value];
    var next := Absorb(output, value).value[|Absorb(output, value).value|-1];
    assert all[n-1].range.start <= all[n].range.start;
    forall i | 0 <= i < |all|
      ensures all[i].range.end <= next.range.start || (all[i].status == next.status && all[i].range.end <= next.range.end)
    {
      assert i < n ==> all[i] == sorted[i];
    }
    var k := if next.range.end == value.range.end && next.status == value.status then n else w;
    assert all[k].status == next.status && all[k].range.end == next.range.end;
  }

  lemma {:induction false} AbsorbedTracks(sorted: seq<StatusInterval>)
    requires Sorted(sorted)
    ensures Absorbed(sorted).None? <==> Clash(sorted)
    ensures Absorbed(sorted).Some? ==> LastCovers(Absorbed(sorted).value, sorted)
  {
    if sorted != [] {
      var before, value := sorted[..|sorted|-1], sorted[|sorted|-1];
      assert sorted == before + [value];
      AbsorbedTracks(before);
      if Absorbed(before).Some? {
        AbsorbTracks(Absorbed(before).value, before, value);
      } else {
        var i, j :| 0 <= i < j < |before| && ClashAt(before, i, j);
        assert ClashAt(sorted, i, j);
      }
    }
  }

  lemma ClashIsConflictOrSpurious(sorted: seq<StatusInterval>)
    requires Sorted(sorted)
    ensures Clash(sorted) <==> Conflict(sorted) || Spurious(sorted)
  {
    if Clash(sorted) {
      var i, j :| 0 <= i < j < |sorted| && ClashAt(sorted, i, j);
      if sorted[j].range.start < sorted[j].range.end {
        var t := sorted[j].range.start;
        assert StatusAt(sorted, t, sorted[i].status) && StatusAt(sorted, t, sorted[j].status);
      }
    }
    if Conflict(sorted) {
      var t, s, s' :| s != s' && StatusAt(sorted, t, s) && StatusAt(sorted, t, s');
      var i :| 0 <= i < |sorted| && Covers(sorted[i].range, t) && sorted[i].status == s;
      var j :| 0 <= j < |sorted| && Covers(sorted[j].range, t) && sorted[j].status == s';
      assert if i < j then ClashAt(sorted, i, j) else ClashAt(sorted, j, i);
    }
  }

  /**
   For all inputs: the merge fails exactly when overlapping intervals disagree or an empty interval begins
   inside an earlier one of another status. So it reports a conflict only where there is one exactly when
   no such empty interval exists or there is a conflict anyway.
   */
  lemma FailsExactly(values: seq<StatusInterval>)
    ensures Merged(values).None? <==> Conflict(values) || Spurious(SortByStart(values))
    ensures (Merged(values).None? <==> Conflict(values)) <==> (Conflict(values) || !Spurious(SortByStart(values)))
  {
    SortKeeps(values);
    var sorted := SortByStart(values);
    SameElements(sorted, values);
    AbsorbedTracks(sorted);
    ClashIsConflictOrSpurious(sorted);
    if Conflict(sorted) {
      SameConflict(sorted, values);
    } else if Conflict(values) {
      SameConflict(values, sorted);
    }
  }

  /** Intervals that start together are the same. */
  ghost predicate TiesEqual(values: seq<StatusInterval>) {
    forall i, j | 0 <= i < |values| && 0 <= j < |values| && values[i].range.start == values[j].range.start :: values[i] == values[j]
  }

  lemma SameFirst(a: seq<StatusInterval>, b: seq<StatusInterval>)
    requires Sorted(a) && Sorted(b) && multiset(a) == multiset(b) && TiesEqual(a) && a != []
    ensures b != [] && a[0] == b[0]
  {
    assert |multiset(a)| == |multiset(b)|;
    assert a[0] in multiset(b) && b[0] in multiset(a);
    var i :| 0 <= i < |b| && b[i] == a[0];
    var j :| 0 <= j < |a| && a[j] == b[0];
    assert b[0].range.start <= b[i].range.start && a[0].range.start <= a[j].range.start;
  }

  lemma SameTails(a: seq<StatusInterval>, b: seq<StatusInterval>)
    requires multiset(a) == multiset(b) && a != [] && b != [] && a[0] == b[0]
    ensures multiset(a[1..]) == multiset(b[1..])
  {
    assert a == [a[0]] + a[1..] && b == [b[0]] + b[1..];
    assert multiset(a[1..]) == multiset(a) - multiset{a[0]};
  }

  /** Two orders of one multiset, both sorted, differ only among intervals that start together. */
  lemma {:induction false} SortedIsUnique(a: seq<StatusInterval>, b: seq<StatusInterval>)
    requires Sorted(a) && Sorted(b) && multiset(a) == multiset(b) && TiesEqual(a)
    ensures a == b
  {
    if a == [] {
      assert |multiset(b)| == 0;
    } else {
      SameFirst(a, b);
      SameTails(a, b);
      SortedIsUnique(a[1..], b[1..]);
      assert a == [a[0]] + a[1..] && b == [b[0]] + b[1..];
    }
  }

  /**
   For all inputs, empty intervals included: reordering changes nothing when different intervals start at
   different times. So only different intervals with one start, an empty one among them, can make it matter.
   */
  lemma OrderMattersOnlyAtTies(a: seq<StatusInterval>, b: seq<StatusInterval>)
    requires multiset(a) == multiset(b) && (Proper(a) || TiesEqual(a))
    ensures Merged(a) == Merged(b)
  {
    if Proper(a) {
      PermutationMergesAlike(a, b);
    } else {
      SortKeeps(a);
      SortKeeps(b);
      TiesStayEqual(a, SortByStart(a));
      SortedIsUnique(SortByStart(a), SortByStart(b));
    }
  }

  lemma TiesStayEqual(a: seq<StatusInterval>, b: seq<StatusInterval>)
    requires multiset(a) == multiset(b) && TiesEqual(a)
    ensures TiesEqual(b)
  {
    forall i, j | 0 <= i < |b| && 0 <= j < |b| && b[i].range.start == b[j].range.start ensures b[i] == b[j] {
      assert b[i] in multiset(a) && b[j] in multiset(a);
    }
  }

  /** Such a tie: the order decides, and a conflict is reported where nothing overlaps. */
  lemma EmptyIntervalsDependOnOrder()
    ensures var empty := StatusInterval(Interval(5, 5), Busy);
            var full := StatusInterval(Interval(5, 10), Free);
            && !Conflict([full, empty])
            && Merged([full, empty]).None? && Merged([empty, full]) == Some([empty, full])
  {
    var empty := StatusInterval(Interval(5, 5), Busy);
    var full := StatusInterval(Interval(5, 10), Free);
    assert SortByStart([empty]) == [empty] && SortByStart([full]) == [full] by {
      assert [empty][1..] == [] && [full][1..] == [];
    }
    assert [full, empty][1..] == [empty] && [empty, full][1..] == [full];
    assert SortByStart([full, empty]) == [full, empty] && SortByStart([empty, full]) == [empty, full];
    assert [full, empty][..1] == [full] && [full][..0] == [];
    assert [empty, full][..1] == [empty] && [empty][..0] == [];
    assert Absorbed([full]) == Some([full]) && Absorbed([empty]) == Some([empty]);
  }
}
