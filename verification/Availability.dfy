/** Assembly of one participant's availability from the pages of 30-minute slots Exchange returns. */
module Availability {
  import opened Base
  import opened Intervals

  const SLOT: nat := 1_800_000

  datatype Resolution = Resolved | Ambiguous | AmbiguousPartial | NotFound
  datatype Reason = TooManyRecipients | DistributionListTooLarge | TransientFailure | Failure | Missing
  datatype CandidateAvailability = Slots(values: seq<Status>) | NoSlots(reason: Reason)
  datatype AvailabilityState = Available | Unavailable(reason: Reason)

  datatype Candidate = Candidate(displayName: Text, email: Text, availability: CandidateAvailability)
  /** `echoed`: the response names the participant that was asked for; `total` counts all its candidates. */
  datatype Response = Response(echoed: bool, resolution: Resolution, total: nat, candidates: seq<Candidate>)
  datatype Page = Page(range: Interval, response: Response)

  /** How many slots a request for `range` asks for. */
  function SlotCount(range: Interval): nat
    requires range.start <= range.end
  {
    (range.end - range.start + (SLOT - 1)) / SLOT
  }

  function Lowered(email: Text): Text {
    seq(|email|, i requires 0 <= i < |email| => if 0x41 <= email[i] <= 0x5A then email[i] + 0x20 else email[i])
  }

  predicate Letter(b: Byte) {
    0x41 <= b <= 0x5A || 0x61 <= b <= 0x7A
  }

  /** Same as another but for the case of ASCII letters. */
  lemma SameIgnoringCase(a: Text, b: Text)
    ensures Lowered(a) == Lowered(b) <==>
              |a| == |b| && forall i | 0 <= i < |a| :: a[i] == b[i] || (Letter(a[i]) && Letter(b[i]) && a[i] % 32 == b[i] % 32)
  {
    if |a| == |b| {
      forall i | 0 <= i < |a|
        ensures Lowered(a)[i] == Lowered(b)[i] <==> a[i] == b[i] || (Letter(a[i]) && Letter(b[i]) && a[i] % 32 == b[i] % 32)
      {
      }
      assert Lowered(a) == Lowered(b) <==> forall i | 0 <= i < |a| :: Lowered(a)[i] == Lowered(b)[i];
    } else {
      assert |Lowered(a)| != |Lowered(b)|;
    }
  }

  // ----- Clipping and tiling -----

  function Intersect(left: Interval, right: Interval): Option<Interval> {
    var start := Later(left.start, right.start);
    var end := if left.end <= right.end then left.end else right.end;
    if start < end then Some(Interval(start, end)) else None
  }

  function ClipToWorking(slot: Interval, working: seq<Interval>, status: Status): seq<StatusInterval> {
    if working == [] then []
    else
      (match Intersect(slot, working[0])
       case Some(range) => [StatusInterval(range, status)]
       case None => []) + ClipToWorking(slot, working[1..], status)
  }

  function SlotRange(range: Interval, index: nat): Interval {
    var start := range.start + index * SLOT;
    Interval(start, if start + SLOT <= range.end then start + SLOT else range.end)
  }

  function SlotIntervals(range: Interval, values: seq<Status>, working: seq<Interval>): seq<StatusInterval> {
    if values == [] then []
    else
      var n := |values| - 1;
      SlotIntervals(range, values[..n], working) + ClipToWorking(SlotRange(range, n), working, values[n])
  }

  // ----- Candidates of an ambiguous name -----

  const MAX_CANDIDATES: nat := 10

  /** A candidate as it is listed for the caller. */
  datatype Listed = Listed(displayName: Text, email: Text)

  predicate IsListed(listed: seq<Listed>, email: Text) {
    exists i | 0 <= i < |listed| :: Lowered(listed[i].email) == Lowered(email)
  }

  function ListedWith(target: seq<Listed>, values: seq<Candidate>): seq<Listed> {
    if values == [] then target
    else
      var before, value := ListedWith(target, values[..|values|-1]), values[|values|-1];
      if IsListed(before, value.email) then before else before + [Listed(value.displayName, value.email)]
  }

  function FirstOf<T>(s: seq<T>, n: nat): seq<T> {
    if |s| <= n then s else s[..n]
  }

  function CandidatesMerged(target: seq<Listed>, values: seq<Candidate>): seq<Listed> {
    FirstOf(ListedWith(target, FirstOf(values, MAX_CANDIDATES)), MAX_CANDIDATES)
  }

  method MergeCandidates(target: seq<Listed>, values: seq<Candidate>) returns (merged: seq<Listed>)
    ensures merged == CandidatesMerged(target, values)
  {
    merged := target;
    var taken := FirstOf(values, MAX_CANDIDATES);
    for i := 0 to |taken|
      invariant merged == ListedWith(target, taken[..i])
    {
      assert taken[..i + 1][..i] == taken[..i];
      if !IsListed(merged, taken[i].email) {
        merged := merged + [Listed(taken[i].displayName, taken[i].email)];
      }
    }
    assert taken[..|taken|] == taken;
    merged := FirstOf(merged, MAX_CANDIDATES);
  }

  /** No email twice, whatever its case. */
  ghost predicate DistinctEmails(listed: seq<Listed>) {
    forall i, j | 0 <= i < j < |listed| :: Lowered(listed[i].email) != Lowered(listed[j].email)
  }

  lemma {:induction false} ListedKeeps(target: seq<Listed>, values: seq<Candidate>)
    requires DistinctEmails(target)
    ensures DistinctEmails(ListedWith(target, values)) && target <= ListedWith(target, values)
    decreases |values|
  {
    if values != [] {
      ListedKeeps(target, values[..|values|-1]);
    }
  }

  predicate From(values: seq<Candidate>, entry: Listed) {
    exists k :: 0 <= k < |values| && entry == Listed(values[k].displayName, values[k].email)
  }

  lemma {:induction false} AllListed(target: seq<Listed>, values: seq<Candidate>)
    ensures forall k | 0 <= k < |values| :: IsListed(ListedWith(target, values), values[k].email)
    decreases |values|
  {
    if values != [] {
      AllListed(target, values[..|values|-1]);
      AddedListed(ListedWith(target, values[..|values|-1]), ListedWith(target, values), values);
    }
  }

  lemma {:induction false} NothingElseListed(target: seq<Listed>, values: seq<Candidate>)
    ensures target <= ListedWith(target, values)
    ensures forall i | |target| <= i < |ListedWith(target, values)| :: From(values, ListedWith(target, values)[i])
    decreases |values|
  {
    if values != [] {
      NothingElseListed(target, values[..|values|-1]);
      AddedFrom(ListedWith(target, values[..|values|-1]), ListedWith(target, values), values, |target|);
    }
  }

  /** Every value is listed, and everything added is one of the values. */
  lemma ListedExactly(target: seq<Listed>, values: seq<Candidate>)
    ensures target <= ListedWith(target, values)
    ensures forall k | 0 <= k < |values| :: IsListed(ListedWith(target, values), values[k].email)
    ensures forall i | |target| <= i < |ListedWith(target, values)| :: From(values, ListedWith(target, values)[i])
  {
    AllListed(target, values);
    NothingElseListed(target, values);
  }

  predicate Added(before: seq<Listed>, all: seq<Listed>, value: Candidate) {
    all == if IsListed(before, value.email) then before else before + [Listed(value.displayName, value.email)]
  }

  lemma AddedListed(before: seq<Listed>, all: seq<Listed>, values: seq<Candidate>)
    requires values != [] && Added(before, all, values[|values|-1])
    requires forall k | 0 <= k < |values| - 1 :: IsListed(before, values[k].email)
    ensures forall k | 0 <= k < |values| :: IsListed(all, values[k].email)
  {
    var n := |values| - 1;
    forall k | 0 <= k < |values| ensures IsListed(all, values[k].email) {
      if k < n {
        var i :| 0 <= i < |before| && Lowered(before[i].email) == Lowered(values[k].email);
        assert all[i] == before[i];
      } else if !IsListed(before, values[n].email) {
        assert all[|before|].email == values[n].email;
      }
    }
  }

  lemma AddedFrom(before: seq<Listed>, all: seq<Listed>, values: seq<Candidate>, n: nat)
    requires values != [] && Added(before, all, values[|values|-1])
    requires forall i | n <= i < |before| :: From(values[..|values|-1], before[i])
    ensures forall i | n <= i < |all| :: From(values, all[i])
  {
    var last := |values| - 1;
    forall i | n <= i < |all| ensures From(values, all[i]) {
      if i < |before| {
        var k :| 0 <= k < |values[..last]| && before[i] == Listed(values[..last][k].displayName, values[..last][k].email);
        assert all[i] == Listed(values[k].displayName, values[k].email);
      } else {
        assert all[i] == Listed(values[last].displayName, values[last].email);
      }
    }
  }

  /**
   Pages only ever add candidates, up to ten, and never one email twice; what they add comes from the page, and
   while there is room every one of the page's first ten is listed.
   */
  lemma CandidatesAreDistinct(target: seq<Listed>, values: seq<Candidate>)
    requires DistinctEmails(target) && |target| <= MAX_CANDIDATES
    ensures var merged := CandidatesMerged(target, values); var taken := FirstOf(values, MAX_CANDIDATES);
            && DistinctEmails(merged) && target <= merged && |merged| <= MAX_CANDIDATES
            && (forall i | |target| <= i < |merged| :: From(taken, merged[i]))
            && (|merged| < MAX_CANDIDATES ==> forall k | 0 <= k < |taken| :: IsListed(merged, taken[k].email))
  {
    ListedKeeps(target, FirstOf(values, MAX_CANDIDATES));
    ListedExactly(target, FirstOf(values, MAX_CANDIDATES));
  }

  /** The candidate comes first with its email, whatever its case. */
  ghost predicate IsFirst(values: seq<Candidate>, k: nat) {
    k < |values| && forall j | 0 <= j < k :: Lowered(values[j].email) != Lowered(values[k].email)
  }

  /** The places of the candidates that come first with their emails, in order. */
  ghost function Firsts(values: seq<Candidate>): seq<nat> {
    if values == [] then []
    else
      var n := |values| - 1;
      Firsts(values[..n]) + if IsFirst(values, n) then [n] else []
  }

  lemma {:induction false} FirstsExact(values: seq<Candidate>)
    ensures forall k: nat :: k in Firsts(values) <==> IsFirst(values, k)
    ensures forall i, j | 0 <= i < j < |Firsts(values)| :: Firsts(values)[i] < Firsts(values)[j]
    decreases |values|
  {
    if values != [] {
      var n := |values| - 1;
      FirstsExact(values[..n]);
      forall k: nat | k < n ensures IsFirst(values, k) <==> IsFirst(values[..n], k) {
      }
      assert forall i | 0 <= i < |Firsts(values[..n])| :: Firsts(values[..n])[i] in Firsts(values[..n]);
    }
  }

  function EntryOf(value: Candidate): Listed {
    Listed(value.displayName, value.email)
  }

  /** `listed` are the candidates that come first with their emails, in order, and none past the limit. */
  ghost predicate ListsFirsts(listed: seq<Listed>, values: seq<Candidate>, limit: nat) {
    var firsts := Firsts(values);
    && |listed| == (if |firsts| <= limit then |firsts| else limit)
    && forall i | 0 <= i < |listed| :: firsts[i] < |values| && listed[i] == EntryOf(values[firsts[i]])
  }

  lemma ListedOrNot(values: seq<Candidate>)
    requires values != []
    ensures IsListed(ListedWith([], values[..|values|-1]), values[|values|-1].email) <==> !IsFirst(values, |values| - 1)
  {
    var n := |values| - 1;
    var before := ListedWith([], values[..n]);
    ListedExactly([], values[..n]);
    if IsListed(before, values[n].email) {
      var i :| 0 <= i < |before| && Lowered(before[i].email) == Lowered(values[n].email);
      assert From(values[..n], before[i]);
      var k :| 0 <= k < n && before[i] == Listed(values[..n][k].displayName, values[..n][k].email);
      assert Lowered(values[k].email) == Lowered(values[n].email);
    }
    if !IsFirst(values, n) {
      var j :| 0 <= j < n && Lowered(values[j].email) == Lowered(values[n].email);
      assert IsListed(before, values[..n][j].email);
    }
  }

  lemma {:induction false} ListedAreFirsts(values: seq<Candidate>)
    ensures ListsFirsts(ListedWith([], values), values, |values|)
    ensures |Firsts(values)| <= |values|
    decreases |values|
  {
    if values != [] {
      var n := |values| - 1;
      ListedAreFirsts(values[..n]);
      ListedOrNot(values);
    }
  }

  lemma {:induction false} ListedTwice(target: seq<Listed>, a: seq<Candidate>, b: seq<Candidate>)
    ensures ListedWith(ListedWith(target, a), b) == ListedWith(target, a + b)
    decreases |b|
  {
    if b == [] {
      assert a + b == a;
    } else {
      assert (a + b)[..|a + b| - 1] == a + b[..|b|-1];
      ListedTwice(target, a, b[..|b|-1]);
    }
  }

  lemma {:induction false} ListedExtends(target: seq<Listed>, values: seq<Candidate>)
    ensures target <= ListedWith(target, values)
    decreases |values|
  {
    if values != [] {
      ListedExtends(target, values[..|values|-1]);
    }
  }

  /** Cutting the list off before more is added changes nothing of what is kept. */
  lemma CutEarly(target: seq<Listed>, values: seq<Candidate>, limit: nat)
    ensures FirstOf(ListedWith(FirstOf(target, limit), values), limit) == FirstOf(ListedWith(target, values), limit)
  {
    if |target| > limit {
      ListedExtends(target[..limit], values);
      ListedExtends(target, values);
    }
  }

  // ----- The accumulator -----

  datatype Acc = Acc(
    resolution: Option<Resolution>, total: nat, candidates: seq<Listed>, displayName: Option<Text>, email: Option<Text>,
    availability: Option<AvailabilityState>, intervals: seq<StatusInterval>)

  const EMPTY: Acc := Acc(None, 0, [], None, None, None, [])

  function Larger(a: nat, b: nat): nat {
    if a >= b then a else b
  }

  function WithAvailability(acc: Acc, working: seq<Interval>, range: Interval, availability: CandidateAvailability): Acc {
    match availability
    case NoSlots(reason) => acc.(availability := Some(Unavailable(reason)), intervals := [])
    case Slots(values) =>
      if acc.availability.Some? && acc.availability.value != Available then acc
      else acc.(availability := Some(Available), intervals := acc.intervals + SlotIntervals(range, values, working))
  }

  function WithPage(acc: Acc, working: seq<Interval>, page: Page): Result<Acc, ErrorCode> {
    var response := page.response;
    var acc := acc.(total := Larger(acc.total, response.total));
    if !response.echoed then Err(ProtocolError)
    else if acc.resolution.Some? && acc.resolution.value != response.resolution then Err(ProtocolError)
    else if response.resolution != Resolved then
      Ok(acc.(resolution := Some(response.resolution), candidates := CandidatesMerged(acc.candidates, response.candidates),
              availability := Some(Unavailable(Missing))))
    else if response.candidates == [] then Err(ProtocolError)
    else
      var candidate := response.candidates[0];
      if acc.email.Some? && Lowered(acc.email.value) != Lowered(candidate.email) then Err(ProtocolError)
      else
        Ok(WithAvailability(acc.(resolution := Some(Resolved), displayName := Some(candidate.displayName), email := Some(candidate.email)),
                            working, page.range, candidate.availability))
  }

  function Assembled(working: seq<Interval>, pages: seq<Page>): Result<Acc, ErrorCode> {
    if pages == [] then Ok(EMPTY)
    else
      match Assembled(working, pages[..|pages|-1])
      case Err(e) => Err(e)
      case Ok(acc) => WithPage(acc, working, pages[|pages|-1])
  }

  /** What the participant is told. */
  datatype Schedule = Schedule(
    resolution: Resolution, total: nat, candidates: seq<Listed>, displayName: Option<Text>, email: Option<Text>,
    availability: AvailabilityState, intervals: seq<StatusInterval>)

  function StateOf(availability: Option<AvailabilityState>): AvailabilityState {
    if availability.Some? then availability.value else Unavailable(Missing)
  }

  function Finalized(acc: Acc): Result<Schedule, ErrorCode> {
    if acc.resolution.None? then Err(Other([]))
    else
      match Merged(acc.intervals)
      case None => Err(ProtocolError)
      case Some(intervals) =>
        Ok(Schedule(acc.resolution.value, acc.total, acc.candidates, acc.displayName, acc.email, StateOf(acc.availability), intervals))
  }

  lemma SlotsNext(range: Interval, values: seq<Status>, working: seq<Interval>, n: nat)
    requires n < |values|
    ensures SlotIntervals(range, values[..n + 1], working) ==
              SlotIntervals(range, values[..n], working) + ClipToWorking(SlotRange(range, n), working, values[n])
  {
    assert values[..n + 1][..n] == values[..n];
  }

  lemma SlotsAppended(a: seq<StatusInterval>, b: seq<StatusInterval>, c: seq<StatusInterval>)
    ensures a + b + c == a + (b + c)
  {
  }

  class Accumulator {
    var resolution: Option<Resolution>
    var total: nat
    var candidates: seq<Listed>
    var displayName: Option<Text>
    var email: Option<Text>
    var availability: Option<AvailabilityState>
    var intervals: seq<StatusInterval>

    ghost function View(): Acc
      reads this
    {
      Acc(resolution, total, candidates, displayName, email, availability, intervals)
    }

    constructor ()
      ensures View() == EMPTY
    {
      resolution, total, candidates, displayName, email := None, 0, [], None, None;
      availability, intervals := None, [];
    }

    method MergeCandidateAvailability(working: seq<Interval>, range: Interval, candidate: CandidateAvailability)
      modifies this
      ensures View() == WithAvailability(old(View()), working, range, candidate)
    {
      if candidate.NoSlots? {
        availability := Some(Unavailable(candidate.reason));
        intervals := [];
        return;
      }
      if availability.Some? && availability.value != Available {
        return;
      }
      availability := Some(Available);
      var values := candidate.values;
      for index := 0 to |values|
        invariant View() == old(View()).(availability := Some(Available),
                                         intervals := old(intervals) + SlotIntervals(range, values[..index], working))
      {
        SlotsNext(range, values, working, index);
        var start := range.start + index * SLOT;
        var slot := Interval(start, if start + SLOT <= range.end then start + SLOT else range.end);
        assert slot == SlotRange(range, index);
        SlotsAppended(old(intervals), SlotIntervals(range, values[..index], working), ClipToWorking(slot, working, values[index]));
        intervals := intervals + ClipToWorking(slot, working, values[index]);
      }
      assert values[..|values|] == values;
    }

    method MergeResponse(working: seq<Interval>, page: Page) returns (r: Result<(), ErrorCode>)
      modifies this
      ensures r.Ok? <==> WithPage(old(View()), working, page).Ok?
      ensures r.Ok? ==> WithPage(old(View()), working, page) == Ok(View())
      ensures r.Err? ==> r.error == ProtocolError && WithPage(old(View()), working, page) == Err(ProtocolError)
    {
      var response := page.response;
      if !response.echoed {
        return Err(ProtocolError);
      }
      if resolution.Some? && resolution.value != response.resolution {
        return Err(ProtocolError);
      }
      resolution := Some(response.resolution);
      total := Larger(total, response.total);
      if response.resolution != Resolved {
        candidates := MergeCandidates(candidates, response.candidates);
        availability := Some(Unavailable(Missing));
        return Ok(());
      }
      if response.candidates == [] {
        return Err(ProtocolError);
      }
      var candidate := response.candidates[0];
      if email.Some? && Lowered(email.value) != Lowered(candidate.email) {
        return Err(ProtocolError);
      }
      displayName := Some(candidate.displayName);
      email := Some(candidate.email);
      MergeCandidateAvailability(working, page.range, candidate.availability);
      return Ok(());
    }
  }

  function Prepared(working: seq<Interval>, pages: seq<Page>): Result<Schedule, ErrorCode> {
    match Assembled(working, pages)
    case Err(e) => Err(e)
    case Ok(acc) => Finalized(acc)
  }

  // ----- All participants -----

  const MAX_AVAILABILITY_BYTES: nat := 262144

  /** One page of Exchange's answer: a response for every participant asked for. */
  datatype Reply = Reply(range: Interval, responses: seq<Response>)

  ghost predicate AllAnswered(requested: nat, replies: seq<Reply>) {
    forall k | 0 <= k < |replies| :: |replies[k].responses| == requested
  }

  /** What the pages say of participant `i`. */
  function Column(replies: seq<Reply>, i: nat): seq<Page>
    requires forall k | 0 <= k < |replies| :: i < |replies[k].responses|
  {
    if replies == [] then []
    else
      var last := replies[|replies|-1];
      Column(replies[..|replies|-1], i) + [Page(last.range, last.responses[i])]
  }

  lemma {:induction false} ColumnAt(replies: seq<Reply>, i: nat, k: nat)
    requires k < |replies| && forall n | 0 <= n < |replies| :: i < |replies[n].responses|
    ensures |Column(replies, i)| == |replies| && Column(replies, i)[k] == Page(replies[k].range, replies[k].responses[i])
    decreases |replies|
  {
    if k < |replies| - 1 {
      ColumnAt(replies[..|replies|-1], i, k);
    } else if k > 0 {
      ColumnAt(replies[..|replies|-1], i, 0);
    }
  }

  /** Every participant is prepared on its own; one failure fails the whole request. */
  ghost predicate AllPrepared(working: seq<Interval>, requested: nat, replies: seq<Reply>, size: seq<Schedule> -> nat,
                              r: Result<seq<Schedule>, ErrorCode>) {
    if !AllAnswered(requested, replies) then r == Err(ProtocolError)
    else
      match r
      case Ok(schedules) =>
        && |schedules| == requested && size(schedules) <= 256 * 1024
        && forall i | 0 <= i < requested :: Prepared(working, Column(replies, i)) == Ok(schedules[i])
      case Err(ResultTooLarge) =>
        exists schedules: seq<Schedule> ::
          && |schedules| == requested && size(schedules) > 256 * 1024
          && forall i | 0 <= i < requested :: Prepared(working, Column(replies, i)) == Ok(schedules[i])
      case Err(e) => exists i :: 0 <= i < requested && Prepared(working, Column(replies, i)) == Err(e)
  }

  /** The accumulators' contents after some pages. */
  ghost predicate Assembling(views: seq<Acc>, working: seq<Interval>, requested: nat, replies: seq<Reply>) {
    && AllAnswered(requested, replies) && |views| == requested
    && forall i | 0 <= i < requested :: Assembled(working, Column(replies, i)) == Ok(views[i])
  }

  ghost predicate Apart(accumulators: seq<Accumulator>) {
    forall i, j | 0 <= i < j < |accumulators| :: accumulators[i] != accumulators[j]
  }

  ghost predicate Holds(accumulators: seq<Accumulator>, views: seq<Acc>)
    reads accumulators
  {
    |views| == |accumulators| && forall i | 0 <= i < |views| :: accumulators[i].View() == views[i]
  }

  /** `apply_page`: the responses in the order of the participants; `views` is what the accumulators hold. */
  method ApplyPage(accumulators: seq<Accumulator>, working: seq<Interval>, reply: Reply, ghost views: seq<Acc>)
    returns (r: Result<(), ErrorCode>, ghost after: seq<Acc>)
    requires Apart(accumulators) && Holds(accumulators, views)
    modifies accumulators
    ensures r.Err? ==> r.error == ProtocolError
    ensures r.Ok? ==> |reply.responses| == |views| && Holds(accumulators, after) && PageApplied(views, working, reply, after)
    ensures r.Err? && |reply.responses| == |views| ==> exists i :: 0 <= i < |views| && PageRefused(views, working, reply, i)
  {
    after := views;
    if |reply.responses| != |accumulators| {
      return Err(ProtocolError), after;
    }
    for i := 0 to |accumulators|
      invariant Holds(accumulators, after)
      invariant forall j | 0 <= j < i :: WithPage(views[j], working, Page(reply.range, reply.responses[j])) == Ok(after[j])
      invariant forall j | i <= j < |views| :: after[j] == views[j]
    {
      var merged := accumulators[i].MergeResponse(working, Page(reply.range, reply.responses[i]));
      if merged.Err? {
        assert PageRefused(views, working, reply, i);
        return Err(merged.error), after;
      }
      after := after[i := accumulators[i].View()];
    }
    return Ok(()), after;
  }

  ghost predicate PageApplied(views: seq<Acc>, working: seq<Interval>, reply: Reply, after: seq<Acc>)
    requires |reply.responses| == |views|
  {
    && |after| == |views|
    && forall i | 0 <= i < |views| :: WithPage(views[i], working, Page(reply.range, reply.responses[i])) == Ok(after[i])
  }

  ghost predicate PageRefused(views: seq<Acc>, working: seq<Interval>, reply: Reply, i: nat)
    requires i < |views| == |reply.responses|
  {
    WithPage(views[i], working, Page(reply.range, reply.responses[i])) == Err(ProtocolError)
  }

  lemma ColumnsGrow(before: seq<Reply>, requested: nat, reply: Reply, i: nat)
    requires AllAnswered(requested, before) && |reply.responses| == requested && i < requested
    ensures AllAnswered(requested, before + [reply])
    ensures Column(before + [reply], i) == Column(before, i) + [Page(reply.range, reply.responses[i])]
  {
    assert (before + [reply])[..|before|] == before;
  }

  lemma AssembledGrows(working: seq<Interval>, before: seq<Page>, page: Page)
    requires Assembled(working, before).Ok?
    ensures Assembled(working, before + [page]) == WithPage(Assembled(working, before).value, working, page)
  {
    assert (before + [page])[..|before|] == before;
  }

  lemma AssemblyGoesOn(views: seq<Acc>, working: seq<Interval>, requested: nat, before: seq<Reply>, reply: Reply, after: seq<Acc>)
    requires Assembling(views, working, requested, before) && |reply.responses| == requested
    requires PageApplied(views, working, reply, after)
    ensures Assembling(after, working, requested, before + [reply])
  {
    forall i | 0 <= i < requested
      ensures AllAnswered(requested, before + [reply])
      ensures Assembled(working, Column(before + [reply], i)) == Ok(after[i])
    {
      ColumnsGrow(before, requested, reply, i);
      AssembledGrows(working, Column(before, i), Page(reply.range, reply.responses[i]));
    }
  }

  lemma {:induction false} ColumnPrefix(replies: seq<Reply>, n: nat, i: nat)
    requires n <= |replies| && forall k | 0 <= k < |replies| :: i < |replies[k].responses|
    ensures |Column(replies, i)| == |replies| && Column(replies[..n], i) == Column(replies, i)[..n]
    decreases |replies|
  {
    if n < |replies| {
      assert replies[..|replies|-1][..n] == replies[..n];
      ColumnPrefix(replies[..|replies|-1], n, i);
    } else {
      assert replies[..n] == replies;
      if replies != [] {
        ColumnPrefix(replies[..|replies|-1], n - 1, i);
      }
    }
  }

  lemma PageFails(views: seq<Acc>, working: seq<Interval>, requested: nat, replies: seq<Reply>, n: nat, i: nat)
    requires AllAnswered(requested, replies) && n < |replies| && i < requested
    requires Assembling(views, working, requested, replies[..n]) && PageRefused(views, working, replies[n], i)
    ensures Prepared(working, Column(replies, i)) == Err(ProtocolError)
  {
    assert replies[..n] + [replies[n]] == replies[..n + 1];
    ColumnsGrow(replies[..n], requested, replies[n], i);
    AssembledGrows(working, Column(replies[..n], i), Page(replies[n].range, replies[n].responses[i]));
    ColumnPrefix(replies, n + 1, i);
    AssemblyStops(working, Column(replies, i), n + 1);
  }

  /** `finalize`: every accumulator's intervals are merged. */
  method Finalize(accumulators: seq<Accumulator>) returns (r: Result<seq<Schedule>, ErrorCode>)
    ensures r.Ok? ==> |r.value| == |accumulators|
                      && forall i | 0 <= i < |accumulators| :: Finalized(accumulators[i].View()) == Ok(r.value[i])
    ensures r.Err? ==> exists i :: 0 <= i < |accumulators| && Finalized(accumulators[i].View()) == Err(r.error)
    ensures r.Err? ==> r.error == ProtocolError || r.error == Other([])
  {
    var schedules: seq<Schedule> := [];
    for i := 0 to |accumulators|
      invariant |schedules| == i
      invariant forall j | 0 <= j < i :: Finalized(accumulators[j].View()) == Ok(schedules[j])
    {
      var value := accumulators[i];
      if value.resolution.None? {
        assert Finalized(value.View()) == Err(Other([]));
        return Err(Other([]));
      }
      var intervals := MergeStatusIntervals(value.intervals);
      if intervals.None? {
        assert Finalized(value.View()) == Err(ProtocolError);
        return Err(ProtocolError);
      }
      schedules := schedules + [Schedule(value.resolution.value, value.total, value.candidates, value.displayName, value.email,
                                         StateOf(value.availability), intervals.value)];
    }
    return Ok(schedules);
  }

  /** All pages for all participants; `size` is the length of the result as JSON. */
  method Prepare(working: seq<Interval>, requested: nat, replies: seq<Reply>, size: seq<Schedule> -> nat)
    returns (r: Result<seq<Schedule>, ErrorCode>)
    ensures AllPrepared(working, requested, replies, size, r)
  {
    var accumulators := NewAccumulators(requested);
    ghost var views := seq(requested, _ => EMPTY);
    for n := 0 to |replies|
      invariant Holds(accumulators, views) && Assembling(views, working, requested, replies[..n])
    {
      assert replies[..n + 1] == replies[..n] + [replies[n]];
      var applied;
      ghost var before := views;
      applied, views := ApplyPage(accumulators, working, replies[n], views);
      if applied.Err? {
        RefusedIsRight(before, working, requested, replies, n, size);
        return Err(ProtocolError);
      }
      AssemblyGoesOn(before, working, requested, replies[..n], replies[n], views);
    }
    assert replies[..|replies|] == replies;
    r := Finalize(accumulators);
    FinalizedIsPrepared(accumulators, views, working, requested, replies);
    FinalizedIsRight(working, requested, replies, size, r);
    if r.Ok? && size(r.value) > MAX_AVAILABILITY_BYTES {
      r := Err(ResultTooLarge);
    }
  }

  lemma RefusedIsRight(views: seq<Acc>, working: seq<Interval>, requested: nat, replies: seq<Reply>, n: nat, size: seq<Schedule> -> nat)
    requires n < |replies| && Assembling(views, working, requested, replies[..n])
    requires AllAnswered(requested, replies) ==> exists i :: 0 <= i < requested && PageRefused(views, working, replies[n], i)
    ensures AllPrepared(working, requested, replies, size, Err(ProtocolError))
  {
    if AllAnswered(requested, replies) {
      var i :| 0 <= i < requested && PageRefused(views, working, replies[n], i);
      PageFails(views, working, requested, replies, n, i);
    }
  }

  lemma FinalizedIsRight(working: seq<Interval>, requested: nat, replies: seq<Reply>, size: seq<Schedule> -> nat,
                         prepared: Result<seq<Schedule>, ErrorCode>)
    requires AllAnswered(requested, replies)
    requires prepared.Ok? ==> |prepared.value| == requested
                              && forall i | 0 <= i < requested :: Prepared(working, Column(replies, i)) == Ok(prepared.value[i])
    requires prepared.Err? ==> prepared.error != ResultTooLarge
                               && exists i :: 0 <= i < requested && Prepared(working, Column(replies, i)) == Err(prepared.error)
    ensures AllPrepared(working, requested, replies, size,
                        if prepared.Ok? && size(prepared.value) > 256 * 1024 then Err(ResultTooLarge) else prepared)
  {
  }

  lemma FinalizedIsPrepared(accumulators: seq<Accumulator>, views: seq<Acc>, working: seq<Interval>, requested: nat, replies: seq<Reply>)
    requires Holds(accumulators, views) && Assembling(views, working, requested, replies)
    ensures forall i | 0 <= i < requested :: Finalized(accumulators[i].View()) == Prepared(working, Column(replies, i))
  {
  }

  method NewAccumulators(requested: nat) returns (accumulators: seq<Accumulator>)
    ensures |accumulators| == requested && Apart(accumulators)
    ensures forall i | 0 <= i < requested :: fresh(accumulators[i]) && accumulators[i].View() == EMPTY
  {
    accumulators := [];
    for i := 0 to requested
      invariant |accumulators| == i && Apart(accumulators)
      invariant forall j | 0 <= j < i :: fresh(accumulators[j]) && accumulators[j].View() == EMPTY
    {
      var next := new Accumulator();
      accumulators := accumulators + [next];
    }
  }

  lemma {:induction false} AssemblyError(working: seq<Interval>, pages: seq<Page>)
    ensures Assembled(working, pages).Err? ==> Assembled(working, pages).error == ProtocolError
  {
    if pages != [] {
      AssemblyError(working, pages[..|pages|-1]);
    }
  }

  lemma {:induction false} AssemblyStops(working: seq<Interval>, pages: seq<Page>, n: nat)
    requires n <= |pages| && Assembled(working, pages[..n]).Err?
    ensures Assembled(working, pages) == Err(ProtocolError)
    decreases |pages|
  {
    AssemblyError(working, pages);
    if n < |pages| {
      assert pages[..|pages|-1][..n] == pages[..n];
      AssemblyStops(working, pages[..|pages|-1], n);
    } else {
      assert pages[..n] == pages;
    }
  }

  // ----- Slots tile the page -----

  ghost predicate InWorking(working: seq<Interval>, t: int) {
    exists i :: 0 <= i < |working| && Covers(working[i], t)
  }

  /** The page says `s` about instant `t`: the slot that many whole half hours into the range. */
  ghost predicate SaysAt(range: Interval, values: seq<Status>, t: int, s: Status) {
    && Covers(range, t) && (t - range.start) / (30 * 60 * 1000) < |values|
    && values[(t - range.start) / (30 * 60 * 1000)] == s
  }

  lemma SlotHolds(range: Interval, k: nat, t: int)
    ensures Covers(SlotRange(range, k), t) <==> Covers(range, t) && (t - range.start) / SLOT == k
  {
  }

  /** With the requested number of slots, every instant of the range has one. */
  lemma SlotsTile(range: Interval, t: int)
    requires Covers(range, t)
    ensures 0 <= (t - range.start) / SLOT < SlotCount(range)
    ensures Covers(SlotRange(range, (t - range.start) / SLOT), t)
    ensures forall k: nat | k < SlotCount(range) ::
              SlotRange(range, k).start < SlotRange(range, k).end <= range.end
              && SlotRange(range, k).end == (if k + 1 < SlotCount(range) then SlotRange(range, k + 1).start else range.end)
  {
    forall k: nat | k < SlotCount(range)
      ensures SlotRange(range, k).start < SlotRange(range, k).end <= range.end
      ensures SlotRange(range, k).end == (if k + 1 < SlotCount(range) then SlotRange(range, k + 1).start else range.end)
    {
    }
  }

  lemma {:induction false} ClipStatus(slot: Interval, working: seq<Interval>, status: Status, t: int, s: Status)
    ensures Proper(ClipToWorking(slot, working, status))
    ensures StatusAt(ClipToWorking(slot, working, status), t, s) <==> s == status && Covers(slot, t) && InWorking(working, t)
  {
    if working != [] {
      ClipStatus(slot, working[1..], status, t, s);
      var first := match Intersect(slot, working[0]) case Some(range) => [StatusInterval(range, status)] case None => [];
      var rest := ClipToWorking(slot, working[1..], status);
      ConcatStatus(first, rest, t, s);
      assert StatusAt(first, t, s) <==> s == status && Covers(slot, t) && Covers(working[0], t) by {
        if s == status && Covers(slot, t) && Covers(working[0], t) {
          assert Covers(first[0].range, t);
        }
      }
      WorkingSplit(working, t);
    }
  }

  lemma WorkingSplit(working: seq<Interval>, t: int)
    requires working != []
    ensures InWorking(working, t) <==> Covers(working[0], t) || InWorking(working[1..], t)
  {
    if InWorking(working[1..], t) {
      var i :| 0 <= i < |working[1..]| && Covers(working[1..][i], t);
      assert working[i+1] == working[1..][i];
    }
    if InWorking(working, t) && !Covers(working[0], t) {
      var i :| 0 <= i < |working| && Covers(working[i], t);
      assert working[1..][i-1] == working[i];
    }
  }

  lemma ConcatStatus(a: seq<StatusInterval>, b: seq<StatusInterval>, t: int, s: Status)
    ensures StatusAt(a + b, t, s) <==> StatusAt(a, t, s) || StatusAt(b, t, s)
  {
    if StatusAt(a, t, s) {
      var i :| 0 <= i < |a| && Covers(a[i].range, t) && a[i].status == s;
      assert (a + b)[i] == a[i];
    }
    if StatusAt(b, t, s) {
      var i :| 0 <= i < |b| && Covers(b[i].range, t) && b[i].status == s;
      assert (a + b)[|a| + i] == b[i];
    }
  }

  /** One page's intervals say about each working instant what the page says, and nothing elsewhere. */
  lemma {:induction false} SlotsStatus(range: Interval, values: seq<Status>, working: seq<Interval>, t: int, s: Status)
    ensures Proper(SlotIntervals(range, values, working))
    ensures StatusAt(SlotIntervals(range, values, working), t, s) <==> SaysAt(range, values, t, s) && InWorking(working, t)
  {
    if values != [] {
      var n := |values| - 1;
      SlotsStatus(range, values[..n], working, t, s);
      ClipStatus(SlotRange(range, n), working, values[n], t, s);
      ConcatStatus(SlotIntervals(range, values[..n], working), ClipToWorking(SlotRange(range, n), working, values[n]), t, s);
      SlotHolds(range, n, t);
    }
  }

  // ----- All pages -----

  ghost predicate AllSlots(pages: seq<Page>) {
    forall i | 0 <= i < |pages| :: GaveSlots(pages[i])
  }

  /** The pages agree on who the participant is. */
  ghost predicate Consistent(pages: seq<Page>) {
    && (forall i | 0 <= i < |pages| :: pages[i].response.echoed)
    && (forall i, j | 0 <= i < |pages| && 0 <= j < |pages| :: pages[i].response.resolution == pages[j].response.resolution)
    && (forall i | 0 <= i < |pages| :: pages[i].response.resolution == Resolved ==> pages[i].response.candidates != [])
    && (forall i, j | 0 <= i < |pages| && 0 <= j < |pages| && pages[i].response.resolution == pages[j].response.resolution == Resolved
          && pages[i].response.candidates != [] && pages[j].response.candidates != [] ::
          Lowered(pages[i].response.candidates[0].email) == Lowered(pages[j].response.candidates[0].email))
  }

  ghost predicate SomePageSays(pages: seq<Page>, t: int, s: Status) {
    exists i :: 0 <= i < |pages| && PageSays(pages[i], t, s)
  }

  ghost predicate PageSays(page: Page, t: int, s: Status) {
    && page.response.candidates != [] && page.response.candidates[0].availability.Slots?
    && SaysAt(page.range, page.response.candidates[0].availability.values, t, s)
  }

  /** What the accumulator knows after some pages. */
  ghost predicate Tracks(acc: Acc, working: seq<Interval>, pages: seq<Page>) {
    && (pages == [] <==> acc.resolution.None?)
    && (pages == [] ==> acc == EMPTY)
    && (pages != [] ==> acc.resolution == Some(pages[|pages|-1].response.resolution))
    && (acc.resolution == Some(Resolved) ==>
          && pages[|pages|-1].response.candidates != []
          && acc.email == Some(pages[|pages|-1].response.candidates[0].email)
          && acc.availability.Some? && (acc.availability.value == Available <==> AllSlots(pages)))
    && (acc.resolution.Some? && acc.resolution.value != Resolved ==>
          acc.email == None && acc.availability == Some(Unavailable(Missing)))
    && (acc.availability != Some(Available) ==> acc.intervals == [])
  }

  lemma {:induction false} AssembledTracks(working: seq<Interval>, pages: seq<Page>)
    ensures Assembled(working, pages).Ok? <==> Consistent(pages)
    ensures Assembled(working, pages).Ok? ==> Tracks(Assembled(working, pages).value, working, pages)
  {
    if pages != [] {
      var before, page := pages[..|pages|-1], pages[|pages|-1];
      AssembledTracks(working, before);
      assert pages == before + [page];
      if Assembled(working, before).Ok? {
        PageTracks(Assembled(working, before).value, working, before, page);
      }
    }
  }

  lemma PageTracks(acc: Acc, working: seq<Interval>, before: seq<Page>, page: Page)
    requires Tracks(acc, working, before) && Consistent(before)
    ensures WithPage(acc, working, page).Ok? <==> Consistent(before + [page])
    ensures WithPage(acc, working, page).Ok? ==> Tracks(WithPage(acc, working, page).value, working, before + [page])
  {
    var pages := before + [page];
    var n := |before|;
    assert pages[n] == page && (n > 0 ==> pages[n-1] == before[n-1]);
    AllSlotsSplit(before, page);
  }

  predicate GaveSlots(page: Page) {
    page.response.candidates != [] && page.response.candidates[0].availability.Slots?
  }

  lemma AllSlotsSplit(before: seq<Page>, page: Page)
    ensures AllSlots(before + [page]) <==> AllSlots(before) && GaveSlots(page)
  {
    var pages := before + [page];
    assert pages[|before|] == page;
    assert forall i | 0 <= i < |before| :: pages[i] == before[i];
  }

  /** The intervals speak for the pages, as long as every page gave slots. */
  ghost predicate Speaks(acc: Acc, working: seq<Interval>, pages: seq<Page>, t: int, s: Status) {
    && Proper(acc.intervals)
    && (acc.availability == Some(Available) ==>
          (StatusAt(acc.intervals, t, s) <==> SomePageSays(pages, t, s) && InWorking(working, t)))
  }

  lemma PageSpeaks(acc: Acc, working: seq<Interval>, before: seq<Page>, page: Page, t: int, s: Status)
    requires Speaks(acc, working, before, t, s) && Tracks(acc, working, before) && WithPage(acc, working, page).Ok?
    ensures Speaks(WithPage(acc, working, page).value, working, before + [page], t, s)
  {
    var next := WithPage(acc, working, page).value;
    if next.availability == Some(Available) {
      SomePageSplit(before, page, t, s);
      var values := page.response.candidates[0].availability.values;
      SlotsStatus(page.range, values, working, t, s);
      ConcatStatus(acc.intervals, SlotIntervals(page.range, values, working), t, s);
      if acc.availability.None? {
        assert before == [] && !SomePageSays(before, t, s);
      }
    }
  }

  lemma {:induction false} AssembledStatus(working: seq<Interval>, pages: seq<Page>, t: int, s: Status)
    requires Assembled(working, pages).Ok?
    ensures Speaks(Assembled(working, pages).value, working, pages, t, s)
  {
    if pages != [] {
      var before, page := pages[..|pages|-1], pages[|pages|-1];
      AssembledStatus(working, before, t, s);
      AssembledTracks(working, before);
      assert pages == before + [page];
      PageSpeaks(Assembled(working, before).value, working, before, page, t, s);
    }
  }

  lemma SomePageSplit(before: seq<Page>, page: Page, t: int, s: Status)
    ensures SomePageSays(before + [page], t, s) <==> SomePageSays(before, t, s) || PageSays(page, t, s)
  {
    var pages := before + [page];
    if SomePageSays(before, t, s) {
      var i :| 0 <= i < |before| && PageSays(before[i], t, s);
      assert pages[i] == before[i];
    }
    if PageSays(page, t, s) {
      assert pages[|before|] == page;
    }
  }

  /** Two pages disagree about a working instant. */
  ghost predicate PagesConflict(working: seq<Interval>, pages: seq<Page>) {
    exists t, s, s' :: s != s' && InWorking(working, t) && SomePageSays(pages, t, s) && SomePageSays(pages, t, s')
  }

  /**
   A participant resolved on every page ends Available exactly when every page gave slots; then the result
   fails exactly when pages disagree about a working instant, and otherwise is the canonical list giving
   each working instant the status of its half-hour slot. In every other case there are no intervals.
   */
  lemma AvailabilityIsPointwise(working: seq<Interval>, pages: seq<Page>)
    requires pages != []
    ensures !Consistent(pages) ==> Prepared(working, pages) == Err(ProtocolError)
    ensures Consistent(pages) && !(pages[0].response.resolution == Resolved && AllSlots(pages)) ==>
              Prepared(working, pages).Ok? && Prepared(working, pages).value.availability != Available
              && Prepared(working, pages).value.intervals == []
    ensures Consistent(pages) && pages[0].response.resolution == Resolved && AllSlots(pages) ==>
              && (PagesConflict(working, pages) <==> Prepared(working, pages) == Err(ProtocolError))
              && (!PagesConflict(working, pages) ==>
                    && Prepared(working, pages).Ok? && Prepared(working, pages).value.availability == Available
                    && Canonical(Prepared(working, pages).value.intervals)
                    && forall t, s :: StatusAt(Prepared(working, pages).value.intervals, t, s)
                                      <==> SomePageSays(pages, t, s) && InWorking(working, t))
  {
    AssembledTracks(working, pages);
    AssemblyError(working, pages);
    if Consistent(pages) {
      var acc := Assembled(working, pages).value;
      assert acc.resolution == Some(pages[0].response.resolution);
      AssembledStatus(working, pages, 0, Free);
      MergeIsCanonical(acc.intervals);
      if acc.availability == Some(Available) {
        AvailableStatuses(working, pages);
      } else {
        assert SortByStart([]) == [];
      }
    }
  }

  lemma AvailableStatuses(working: seq<Interval>, pages: seq<Page>)
    requires Assembled(working, pages).Ok? && Assembled(working, pages).value.availability == Some(Available)
    ensures forall t, s :: StatusAt(Assembled(working, pages).value.intervals, t, s)
                           <==> SomePageSays(pages, t, s) && InWorking(working, t)
    ensures Conflict(Assembled(working, pages).value.intervals) <==> PagesConflict(working, pages)
  {
    var intervals := Assembled(working, pages).value.intervals;
    forall t, s ensures StatusAt(intervals, t, s) <==> SomePageSays(pages, t, s) && InWorking(working, t) {
      AssembledStatus(working, pages, t, s);
    }
    if Conflict(intervals) {
      var t, s, s' :| s != s' && StatusAt(intervals, t, s) && StatusAt(intervals, t, s');
      assert SomePageSays(pages, t, s) && SomePageSays(pages, t, s');
    }
    if PagesConflict(working, pages) {
      var t, s, s' :| s != s' && InWorking(working, t) && SomePageSays(pages, t, s) && SomePageSays(pages, t, s');
      assert StatusAt(intervals, t, s) && StatusAt(intervals, t, s');
    }
  }

  ghost predicate SamePages(a: seq<Page>, b: seq<Page>) {
    && (forall i | 0 <= i < |a| :: a[i] in b)
    && (forall i | 0 <= i < |b| :: b[i] in a)
  }

  lemma SlotsMakeAvailable(working: seq<Interval>, pages: seq<Page>)
    requires Consistent(pages) && AllSlots(pages) && pages != [] && pages[|pages|-1].response.resolution == Resolved
    ensures Assembled(working, pages).Ok?
    ensures var acc := Assembled(working, pages).value;
            acc.resolution == Some(Resolved) && acc.availability == Some(Available) && Proper(acc.intervals)
  {
    AssembledTracks(working, pages);
    AssembledStatus(working, pages, 0, Free);
  }

  // ----- What else the pages decide -----

  /** The count told is the largest any page gave. */
  ghost predicate IsLargest(total: nat, pages: seq<Page>) {
    && (forall i | 0 <= i < |pages| :: pages[i].response.total <= total)
    && (total == 0 || exists i :: 0 <= i < |pages| && pages[i].response.total == total)
  }

  lemma {:induction false} TotalIsLargest(working: seq<Interval>, pages: seq<Page>)
    requires Assembled(working, pages).Ok?
    ensures IsLargest(Assembled(working, pages).value.total, pages)
  {
    if pages != [] {
      var before, page := pages[..|pages|-1], pages[|pages|-1];
      TotalIsLargest(working, before);
      var total := Assembled(working, before).value.total;
      if total > page.response.total {
        var i :| 0 <= i < |before| && before[i].response.total == total;
        assert pages[i] == before[i];
      }
      forall i | 0 <= i < |pages| ensures pages[i].response.total <= Larger(total, page.response.total) {
        assert i < |before| ==> pages[i] == before[i];
      }
    }
  }

  /** The candidates that count, page after page: the first ten of each. */
  function AllCandidates(pages: seq<Page>): seq<Candidate> {
    if pages == [] then []
    else AllCandidates(pages[..|pages|-1]) + FirstOf(pages[|pages|-1].response.candidates, MAX_CANDIDATES)
  }

  /** Who the accumulator holds after pages that agree: the last page's identity, or everybody the name may mean. */
  ghost predicate HoldsWho(acc: Acc, pages: seq<Page>) {
    if pages == [] then acc == EMPTY
    else
      var last := pages[|pages|-1].response;
      && acc.resolution == Some(last.resolution)
      && if last.resolution == Resolved then
           last.candidates != [] && acc.candidates == []
           && acc.displayName == Some(last.candidates[0].displayName) && acc.email == Some(last.candidates[0].email)
         else
           acc.displayName == None && acc.email == None
           && acc.candidates == FirstOf(ListedWith([], AllCandidates(pages)), MAX_CANDIDATES)
  }

  lemma {:induction false} AssembledWho(working: seq<Interval>, pages: seq<Page>)
    requires Assembled(working, pages).Ok?
    ensures HoldsWho(Assembled(working, pages).value, pages)
    decreases |pages|
  {
    if pages != [] {
      var n := |pages| - 1;
      var values := FirstOf(pages[n].response.candidates, MAX_CANDIDATES);
      AssembledWho(working, pages[..n]);
      CutEarly(ListedWith([], AllCandidates(pages[..n])), values, MAX_CANDIDATES);
      ListedTwice([], AllCandidates(pages[..n]), values);
    }
  }

  /**
   What a participant is told besides availability, from its pages alone: the resolution they agree on and the largest
   total; for a resolved name the display name and email of the last page's first candidate; for any other name
   the candidates of the pages' first tens that come first with their emails, in order, and at most ten.
   */
  lemma ScheduleNames(working: seq<Interval>, pages: seq<Page>)
    requires pages != [] && Prepared(working, pages).Ok?
    ensures Consistent(pages)
    ensures var schedule := Prepared(working, pages).value; var last := pages[|pages|-1].response;
            && schedule.resolution == pages[0].response.resolution && IsLargest(schedule.total, pages)
            && (schedule.resolution == Resolved ==>
                  && last.candidates != [] && schedule.candidates == []
                  && schedule.displayName == Some(last.candidates[0].displayName)
                  && schedule.email == Some(last.candidates[0].email))
            && (schedule.resolution != Resolved ==>
                  && schedule.displayName == None && schedule.email == None
                  && ListsFirsts(schedule.candidates, AllCandidates(pages), 10))
  {
    AssembledTracks(working, pages);
    AssembledWho(working, pages);
    TotalIsLargest(working, pages);
    ListedAreFirsts(AllCandidates(pages));
  }

  /** The reason of the last page without slots. */
  function LastTrouble(pages: seq<Page>): Option<Reason> {
    if pages == [] then None
    else
      var page := pages[|pages|-1];
      if page.response.candidates != [] && page.response.candidates[0].availability.NoSlots?
      then Some(page.response.candidates[0].availability.reason)
      else LastTrouble(pages[..|pages|-1])
  }

  lemma {:induction false} AssembledReason(working: seq<Interval>, pages: seq<Page>)
    requires Assembled(working, pages).Ok? && pages != [] && pages[|pages|-1].response.resolution == Resolved
    ensures Assembled(working, pages).value.availability
            == Some(match LastTrouble(pages) case None => Available case Some(reason) => Unavailable(reason))
  {
    var before := pages[..|pages|-1];
    AssembledTracks(working, pages);
    AssembledTracks(working, before);
    if before != [] {
      assert before[|before|-1].response.resolution == Resolved;
      AssembledReason(working, before);
    }
  }

  /**
   Why a participant has no intervals depends on the order of the pages: it is the reason of the last page
   without slots, and Missing for a name that is not resolved.
   */
  lemma ReasonIsTheLast(working: seq<Interval>, pages: seq<Page>)
    requires pages != [] && Consistent(pages)
    ensures pages[0].response.resolution != Resolved ==>
              Prepared(working, pages).Ok? && Prepared(working, pages).value.availability == Unavailable(Missing)
    ensures pages[0].response.resolution == Resolved && LastTrouble(pages).Some? ==>
              Prepared(working, pages).Ok? && Prepared(working, pages).value.availability == Unavailable(LastTrouble(pages).value)
    ensures pages[0].response.resolution == Resolved ==> (LastTrouble(pages).None? <==> AllSlots(pages))
  {
    AssembledTracks(working, pages);
    AvailabilityIsPointwise(working, pages);
    assert pages[|pages|-1].response.resolution == pages[0].response.resolution;
    if pages[0].response.resolution == Resolved {
      AssembledReason(working, pages);
    }
  }

  function SlotlessPage(range: Interval, email: Text, reason: Reason): Page {
    Page(range, Response(true, Resolved, 1, [Candidate([], email, NoSlots(reason))]))
  }

  /** Two pages without slots, swapped: the reason told is the other one. */
  lemma ReasonDependsOnOrder(working: seq<Interval>, range: Interval, email: Text, first: Reason, last: Reason)
    ensures var pages := [SlotlessPage(range, email, first), SlotlessPage(range, email, last)];
            Prepared(working, pages).Ok? && Prepared(working, pages).value.availability == Unavailable(last)
  {
    var pages := [SlotlessPage(range, email, first), SlotlessPage(range, email, last)];
    assert LastTrouble(pages) == Some(last);
    assert Consistent(pages);
    ReasonIsTheLast(working, pages);
  }

  /**
   Pages may arrive in any order: when every page of a resolved participant gave slots, the intervals, the
   availability and the count, or the failure, are the same. Only the spelling of the name may differ.
   */
  lemma PageOrderIsIrrelevant(working: seq<Interval>, a: seq<Page>, b: seq<Page>)
    requires multiset(a) == multiset(b) && Consistent(a) && AllSlots(a) && a != [] && a[0].response.resolution == Resolved
    ensures match Prepared(working, a)
            case Err(e) => Prepared(working, b) == Err(e)
            case Ok(x) =>
              Prepared(working, b).Ok?
              && var y := Prepared(working, b).value;
                 x.resolution == y.resolution && x.availability == y.availability && x.intervals == y.intervals && x.total == y.total
  {
    assert forall x :: x in a <==> x in multiset(a);
    assert forall x :: x in b <==> x in multiset(b);
    assert SamePages(a, b);
    SamePagesAgree(a, b);
    SlotsMakeAvailable(working, a);
    SlotsMakeAvailable(working, b);
    TotalIsLargest(working, a);
    TotalIsLargest(working, b);
    SameLargest(Assembled(working, a).value.total, Assembled(working, b).value.total, a, b);
    SameIntervals(working, a, b);
  }

  lemma SameIntervals(working: seq<Interval>, a: seq<Page>, b: seq<Page>)
    requires SamePages(a, b) && Assembled(working, a).Ok? && Assembled(working, b).Ok?
    requires Assembled(working, a).value.availability == Some(Available) && Proper(Assembled(working, a).value.intervals)
    requires Assembled(working, b).value.availability == Some(Available) && Proper(Assembled(working, b).value.intervals)
    ensures Merged(Assembled(working, a).value.intervals) == Merged(Assembled(working, b).value.intervals)
  {
    var x, y := Assembled(working, a).value, Assembled(working, b).value;
    AvailableStatuses(working, a);
    AvailableStatuses(working, b);
    forall t, s ensures StatusAt(x.intervals, t, s) <==> StatusAt(y.intervals, t, s) {
      if SomePageSays(a, t, s) {
        SameSays(a, b, t, s);
      }
      if SomePageSays(b, t, s) {
        SameSays(b, a, t, s);
      }
    }
    MergeIgnoresOrder(x.intervals, y.intervals);
  }

  lemma SameLargest(x: nat, y: nat, a: seq<Page>, b: seq<Page>)
    requires IsLargest(x, a) && IsLargest(y, b) && SamePages(a, b)
    ensures x == y
  {
    if x > 0 {
      var i :| 0 <= i < |a| && a[i].response.total == x;
      assert a[i] in b;
    }
    if y > 0 {
      var i :| 0 <= i < |b| && b[i].response.total == y;
      assert b[i] in a;
    }
  }

  lemma SamePagesAgree(a: seq<Page>, b: seq<Page>)
    requires SamePages(a, b) && Consistent(a) && AllSlots(a) && a != [] && a[0].response.resolution == Resolved
    ensures Consistent(b) && AllSlots(b) && b != [] && b[|b|-1].response.resolution == Resolved
  {
    assert a[0] in b;
    forall j | 0 <= j < |b|
      ensures b[j].response.echoed && b[j].response.resolution == Resolved && b[j].response.candidates != []
      ensures b[j].response.candidates[0].availability.Slots?
      ensures Lowered(b[j].response.candidates[0].email) == Lowered(a[0].response.candidates[0].email)
    {
      var i :| 0 <= i < |a| && a[i] == b[j];
    }
  }

  lemma SameSays(a: seq<Page>, b: seq<Page>, t: int, s: Status)
    requires SamePages(a, b) && SomePageSays(a, t, s)
    ensures SomePageSays(b, t, s)
  {
    var i :| 0 <= i < |a| && PageSays(a[i], t, s);
    var j :| 0 <= j < |b| && b[j] == a[i];
  }
}
