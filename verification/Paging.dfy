/**
 Concurrent callers of the cursor store. Each step below is one critical section of the store's lock, so a
 page in flight is a call between consuming its cursor (or getting its fresh listing) and storing the next.
 */
module Paging {
  import opened Base
  import opened CursorStore

  type CallId = nat

  /** A call that holds the right to deliver `snapshot.items[start..end]`. */
  datatype Flight = Flight(snapshot: Snapshot, start: nat, end: nat)
  datatype Range = Range(start: nat, end: nat)

  /** `issued` and `listed` record which cursor ids and listings have existed; `delivered` the pages returned. */
  datatype State = State(
    store: Store,
    flights: map<CallId, Flight>,
    issued: set<Id>,
    listed: map<nat, Snapshot>,
    delivered: map<nat, seq<Range>>)

  datatype Label =
    | Open(call: CallId, snapshot: Snapshot, limit: nat)
    | Take(call: CallId, id: Id, limit: nat, now: Time)
    | Deliver(call: CallId, newId: Id, now: Time)
    | Fail(call: CallId)
    | Purge

  const START: State := State(Store(map[], [], None), map[], {}, map[], map[])

  /** Calls and listings are new, and the generator's ids are fresh. */
  ghost predicate Enabled(s: State, l: Label) {
    match l
    case Open(call, snapshot, _) => call !in s.flights && snapshot.tag !in s.listed
    case Take(call, _, _, _) => call !in s.flights
    case Deliver(call, newId, _) => call in s.flights && newId !in s.issued
    case Fail(call) => call in s.flights
    case Purge => true
  }

  /** The page of one delivery, stored on to the next cursor when items remain. */
  function Delivered(s: State, f: Flight, newId: Id, now: Time): State {
    var tag := f.snapshot.tag;
    var earlier := if tag in s.delivered then s.delivered[tag] else [];
    var store := if f.end < |f.snapshot.items| then Stored(s.store, newId, Cursor(f.snapshot, f.end), now) else s.store;
    s.(store := store, issued := s.issued + {newId},
       delivered := s.delivered[tag := earlier + [Range(f.start, f.end)]])
  }

  ghost predicate Step(s: State, l: Label, t: State) {
    && Enabled(s, l)
    && match l
       case Open(call, snapshot, limit) =>
         t == s.(flights := s.flights[call := Flight(snapshot, 0, PageEnd(0, limit, |snapshot.items|))],
                 listed := s.listed[snapshot.tag := snapshot], delivered := s.delivered[snapshot.tag := []])
       case Take(call, id, limit, now) =>
         (match Found(s.store, id, now)
          case None => t == s.(store := Taken(s.store, id, now))
          case Some(c) =>
            t == s.(store := Taken(s.store, id, now),
                    flights := s.flights[call := Flight(c.snapshot, c.offset, PageEnd(c.offset, limit, |c.snapshot.items|))]))
       case Deliver(call, newId, now) =>
         t == Delivered(s.(flights := s.flights - {call}), s.flights[call], newId, now)
       case Fail(call) => t == s.(flights := s.flights - {call})
       case Purge => t == s.(store := Store(map[], [], s.store.lastPruned))
  }

  ghost predicate Run(states: seq<State>, labels: seq<Label>) {
    && |states| == |labels| + 1 && states[0] == START
    && forall i | 0 <= i < |labels| :: Step(states[i], labels[i], states[i+1])
  }

  // ----- What delivered pages look like -----

  /** Consecutive disjoint ranges from index 0. */
  ghost predicate Consecutive(ranges: seq<Range>, length: nat) {
    && (ranges != [] ==> ranges[0].start == 0)
    && (forall i | 0 <= i < |ranges| :: ranges[i].start <= ranges[i].end <= length)
    && (forall i | 0 < i < |ranges| :: ranges[i].start == ranges[i-1].end)
  }

  function Reached(ranges: seq<Range>): nat {
    if ranges == [] then 0 else ranges[|ranges|-1].end
  }

  // ----- The invariant -----

  /** A cursor or flight continues its listing exactly where the delivered pages stopped. */
  ghost predicate Continues(s: State, snapshot: Snapshot, offset: nat) {
    && snapshot.tag in s.listed && s.listed[snapshot.tag] == snapshot
    && snapshot.tag in s.delivered && Reached(s.delivered[snapshot.tag]) == offset
  }

  ghost predicate CursorsContinue(s: State) {
    forall id | id in s.store.cursors ::
      id in s.issued && Continues(s, s.store.cursors[id].cursor.snapshot, s.store.cursors[id].cursor.offset)
  }

  ghost predicate FlightsContinue(s: State) {
    forall c | c in s.flights ::
      Continues(s, s.flights[c].snapshot, s.flights[c].start) && s.flights[c].start <= s.flights[c].end <= |s.flights[c].snapshot.items|
  }

  /** At most one cursor, stored or in flight, per listing. */
  ghost predicate OneCursorPerListing(s: State) {
    && (forall i, j | i in s.store.cursors && j in s.store.cursors && i != j ::
          s.store.cursors[i].cursor.snapshot.tag != s.store.cursors[j].cursor.snapshot.tag)
    && (forall c, d | c in s.flights && d in s.flights && c != d ::
          s.flights[c].snapshot.tag != s.flights[d].snapshot.tag)
    && (forall i, c | i in s.store.cursors && c in s.flights ::
          s.store.cursors[i].cursor.snapshot.tag != s.flights[c].snapshot.tag)
  }

  ghost predicate PagesConsecutive(s: State) {
    && s.listed.Keys == s.delivered.Keys
    && forall tag | tag in s.delivered :: s.listed[tag].tag == tag && Consecutive(s.delivered[tag], |s.listed[tag].items|)
  }

  ghost predicate Inv(s: State) {
    Valid(s.store) && CursorsContinue(s) && FlightsContinue(s) && OneCursorPerListing(s) && PagesConsecutive(s)
  }

  /** What storing may do to the other cursors: drop them, never change them. */
  lemma StoredCursors(s: Store, id: Id, cursor: Cursor, now: Time)
    requires Valid(s) && id !in s.cursors && cursor.offset < |cursor.snapshot.items|
    ensures Valid(Stored(s, id, cursor, now))
    ensures id in Stored(s, id, cursor, now).cursors && Stored(s, id, cursor, now).cursors[id] == Timed(now + LIFETIME, cursor)
    ensures forall other | other in Stored(s, id, cursor, now).cursors && other != id ::
              other in s.cursors && Stored(s, id, cursor, now).cursors[other] == s.cursors[other]
  {
    StoredValid(s, id, cursor, now);
    PrunedValid(s, now);
    YoungestIsTail(MaybePruned(s, now), MAX_SNAPSHOTS - 1);
  }

  /** What consuming does: the found cursor goes, and the others stay as they were or expire. */
  lemma TakenCursors(s: Store, id: Id, now: Time)
    requires Valid(s)
    ensures Valid(Taken(s, id, now))
    ensures forall other | other in Taken(s, id, now).cursors ::
              other in s.cursors && other != id && Taken(s, id, now).cursors[other] == s.cursors[other]
    ensures Found(s, id, now).Some? ==> id in s.cursors && s.cursors[id].cursor == Found(s, id, now).value
  {
    TakenValid(s, id, now);
  }

  /** Every cursor was there before, with the same value, unless it is the one just stored. */
  ghost predicate OnlyAdds(before: Store, after: Store, added: Option<(Id, Cursor)>) {
    forall id | id in after.cursors ::
      if added.Some? && id == added.value.0 then after.cursors[id].cursor == added.value.1
      else id in before.cursors && after.cursors[id] == before.cursors[id]
  }

  lemma OpenKeeps(s: State, l: Label, t: State)
    requires Inv(s) && Step(s, l, t) && l.Open?
    ensures Inv(t)
  {
    var f := Flight(l.snapshot, 0, PageEnd(0, l.limit, |l.snapshot.items|));
    NewListing(s, t, l.call, f);
    assert PagesConsecutive(t);
  }

  lemma NewListing(s: State, t: State, call: CallId, f: Flight)
    requires CursorsContinue(s) && FlightsContinue(s) && OneCursorPerListing(s)
    requires f.start == 0 <= f.end <= |f.snapshot.items| && f.snapshot.tag !in s.listed
    requires t.store == s.store && t.issued == s.issued && t.flights == s.flights[call := f] && call !in s.flights
    requires t.listed == s.listed[f.snapshot.tag := f.snapshot] && t.delivered == s.delivered[f.snapshot.tag := []]
    ensures CursorsContinue(t) && FlightsContinue(t) && OneCursorPerListing(t)
  {
    forall id | id in t.store.cursors
      ensures Continues(t, t.store.cursors[id].cursor.snapshot, t.store.cursors[id].cursor.offset)
    {
      assert Continues(s, t.store.cursors[id].cursor.snapshot, t.store.cursors[id].cursor.offset);
    }
    forall c | c in s.flights ensures Continues(t, s.flights[c].snapshot, s.flights[c].start) {
      assert Continues(s, s.flights[c].snapshot, s.flights[c].start);
    }
  }

  lemma TakeKeeps(s: State, l: Label, t: State)
    requires Inv(s) && Step(s, l, t) && l.Take?
    ensures Inv(t)
  {
    TakenCursors(s.store, l.id, l.now);
    assert OnlyAdds(s.store, t.store, None) && l.id !in t.store.cursors;
    TakeKeepsCursors(s, t);
    if t.flights != s.flights {
      var c := s.store.cursors[l.id].cursor;
      var f := t.flights[l.call];
      assert t.flights == s.flights[l.call := f] && f.snapshot == c.snapshot && f.start == c.offset;
      FlightTakesOver(s, t, l.id, l.call, f);
    }
  }

  lemma TakeKeepsCursors(s: State, t: State)
    requires Inv(s) && OnlyAdds(s.store, t.store, None)
    requires t.listed == s.listed && t.delivered == s.delivered && t.issued == s.issued
    ensures CursorsContinue(t)
    ensures t.flights == s.flights ==> FlightsContinue(t) && OneCursorPerListing(t)
  {
  }

  lemma FlightTakesOver(s: State, t: State, id: Id, call: CallId, f: Flight)
    requires CursorsContinue(s) && FlightsContinue(s) && OneCursorPerListing(s)
    requires id in s.store.cursors && id !in t.store.cursors && OnlyAdds(s.store, t.store, None)
    requires call !in s.flights && t.flights == s.flights[call := f]
    requires f.snapshot == s.store.cursors[id].cursor.snapshot && f.start == s.store.cursors[id].cursor.offset
    requires f.start <= f.end <= |f.snapshot.items|
    requires t.listed == s.listed && t.delivered == s.delivered
    ensures FlightsContinue(t) && OneCursorPerListing(t)
  {
  }

  lemma DeliverKeeps(s: State, l: Label, t: State)
    requires Inv(s) && Step(s, l, t) && l.Deliver?
    ensures Inv(t)
  {
    var f := s.flights[l.call];
    assert f.snapshot.tag in s.delivered;
    var added := if f.end < |f.snapshot.items| then Some((l.newId, Cursor(f.snapshot, f.end))) else None;
    if added.Some? {
      StoredCursors(s.store, l.newId, added.value.1, l.now);
    }
    assert OnlyAdds(s.store, t.store, added);
    var earlier := s.delivered[f.snapshot.tag];
    assert t.delivered == s.delivered[f.snapshot.tag := earlier + [Range(f.start, f.end)]];
    assert t.flights == s.flights - {l.call};
    CursorTakesOver(s, t, l.call, f, l.newId, added);
    DeliveredOneMore(s, t, l.call, f);
  }

  lemma CursorTakesOver(s: State, t: State, call: CallId, f: Flight, newId: Id, added: Option<(Id, Cursor)>)
    requires CursorsContinue(s) && FlightsContinue(s) && OneCursorPerListing(s)
    requires call in s.flights && s.flights[call] == f && t.flights == s.flights - {call}
    requires OnlyAdds(s.store, t.store, added)
    requires added.Some? ==> added.value == (newId, Cursor(f.snapshot, f.end))
    requires t.listed == s.listed && t.issued == s.issued + {newId} && f.snapshot.tag in s.delivered
    requires t.delivered == s.delivered[f.snapshot.tag := s.delivered[f.snapshot.tag] + [Range(f.start, f.end)]]
    ensures CursorsContinue(t) && FlightsContinue(t) && OneCursorPerListing(t)
  {
    forall id | id in t.store.cursors
      ensures id in t.issued && Continues(t, t.store.cursors[id].cursor.snapshot, t.store.cursors[id].cursor.offset)
    {
    }
    forall c | c in t.flights ensures Continues(t, t.flights[c].snapshot, t.flights[c].start) {
    }
  }

  lemma ConsecutiveMore(ranges: seq<Range>, next: Range, length: nat)
    requires Consecutive(ranges, length) && next.start == Reached(ranges) && next.start <= next.end <= length
    ensures Consecutive(ranges + [next], length)
  {
  }

  lemma DeliveredOneMore(s: State, t: State, call: CallId, f: Flight)
    requires PagesConsecutive(s) && FlightsContinue(s)
    requires call in s.flights && s.flights[call] == f && t.listed == s.listed && f.snapshot.tag in s.delivered
    requires t.delivered == s.delivered[f.snapshot.tag := s.delivered[f.snapshot.tag] + [Range(f.start, f.end)]]
    ensures PagesConsecutive(t)
  {
    var tag := f.snapshot.tag;
    assert Continues(s, f.snapshot, f.start);
    ConsecutiveMore(s.delivered[tag], Range(f.start, f.end), |s.listed[tag].items|);
    forall other | other in t.delivered
      ensures t.listed[other].tag == other && Consecutive(t.delivered[other], |t.listed[other].items|)
    {
      assert other != tag ==> t.delivered[other] == s.delivered[other];
    }
  }

  lemma StepKeeps(s: State, l: Label, t: State)
    requires Inv(s) && Step(s, l, t)
    ensures Inv(t)
  {
    match l
    case Open(_, _, _) => OpenKeeps(s, l, t);
    case Take(_, _, _, _) => TakeKeeps(s, l, t);
    case Deliver(_, _, _) => DeliverKeeps(s, l, t);
    case Fail(_) =>
    case Purge =>
  }

  lemma {:induction false} InvHolds(states: seq<State>, labels: seq<Label>, i: nat)
    requires Run(states, labels) && i < |states|
    ensures Inv(states[i])
  {
    if i > 0 {
      InvHolds(states, labels, i - 1);
      StepKeeps(states[i-1], labels[i-1], states[i]);
    }
  }

  // ----- Pages are the snapshot -----

  function Items(snapshot: Snapshot, ranges: seq<Range>): seq<Item>
    requires forall i | 0 <= i < |ranges| :: ranges[i].start <= ranges[i].end <= |snapshot.items|
  {
    if ranges == [] then []
    else Items(snapshot, ranges[..|ranges|-1]) + snapshot.items[ranges[|ranges|-1].start..ranges[|ranges|-1].end]
  }

  lemma {:induction false} ConsecutiveItems(snapshot: Snapshot, ranges: seq<Range>)
    requires Consecutive(ranges, |snapshot.items|)
    ensures Items(snapshot, ranges) == snapshot.items[..Reached(ranges)]
  {
    if ranges != [] {
      ConsecutiveItems(snapshot, ranges[..|ranges|-1]);
      var last := ranges[|ranges|-1];
      assert snapshot.items[..last.start] + snapshot.items[last.start..last.end] == snapshot.items[..last.end];
    }
  }

  /**
   However callers interleave, evict, let expire and purge: every listing has at most one cursor stored or in
   flight, the store never holds more than 32, and the pages delivered from it are consecutive from index 0,
   so together they are exactly a prefix of it, each item once and in order.
   */
  lemma PagingIsExact(states: seq<State>, labels: seq<Label>, i: nat, tag: nat)
    requires Run(states, labels) && i < |states| && tag in states[i].delivered
    ensures OneCursorPerListing(states[i]) && |states[i].store.order| <= MAX_SNAPSHOTS
    ensures tag in states[i].listed
    ensures var snapshot := states[i].listed[tag];
            var ranges := states[i].delivered[tag];
            && Consecutive(ranges, |snapshot.items|)
            && Items(snapshot, ranges) == snapshot.items[..Reached(ranges)]
  {
    InvHolds(states, labels, i);
    ConsecutiveItems(states[i].listed[tag], states[i].delivered[tag]);
  }

  /** A consumed cursor never delivers again: no later step finds the same id. */
  lemma {:induction false} CursorsAreOneShot(states: seq<State>, labels: seq<Label>, i: nat, j: nat)
    requires Run(states, labels) && i < j < |labels|
    requires labels[i].Take? && labels[j].Take? && labels[i].id == labels[j].id
    requires Found(states[i].store, labels[i].id, labels[i].now).Some?
    ensures Found(states[j].store, labels[j].id, labels[j].now).None?
  {
    InvHolds(states, labels, i);
    TakenCursors(states[i].store, labels[i].id, labels[i].now);
    StaysGone(states, labels, labels[i].id, i + 1, j);
  }

  lemma {:induction false} StaysGone(states: seq<State>, labels: seq<Label>, id: Id, from: nat, k: nat)
    requires Run(states, labels) && from <= k < |states|
    requires id in states[from].issued && id !in states[from].store.cursors
    ensures id in states[k].issued && id !in states[k].store.cursors
  {
    if from < k {
      StaysGone(states, labels, id, from, k - 1);
      InvHolds(states, labels, k - 1);
      var s, l := states[k-1], labels[k-1];
      assert Step(s, l, states[k]);
      if l.Take? {
        TakenCursors(s.store, l.id, l.now);
      } else if l.Deliver? {
        var f := s.flights[l.call];
        if f.end < |f.snapshot.items| {
          StoredCursors(s.store, l.newId, Cursor(f.snapshot, f.end), l.now);
        }
      }
    }
  }

  // ----- An undisturbed drain -----

  /** One call of a drain: consume the cursor at `taken`, store the next one under `id` at `stored`. */
  datatype Turn = Turn(limit: nat, taken: Time, stored: Time, id: Id)

  /** The items the calls return one after the other, and the cursor left at the end. */
  function Drain(store: Store, id: Id, turns: seq<Turn>): (r: (seq<Item>, Option<Id>))
    decreases |turns|
  {
    if turns == [] then ([], Some(id))
    else
      var turn := turns[0];
      match Found(store, id, turn.taken)
      case None => ([], None)
      case Some(c) =>
        if c.offset > |c.snapshot.items| then ([], None) else
        var end := PageEnd(c.offset, turn.limit, |c.snapshot.items|);
        var page := c.snapshot.items[c.offset..end];
        if end == |c.snapshot.items| then (page, None)
        else
          var rest := Drain(Stored(Taken(store, id, turn.taken), turn.id, Cursor(c.snapshot, end), turn.stored), turn.id, turns[1..]);
          (page + rest.0, rest.1)
  }

  /** Positive limits, fresh ids, and each call made before the cursor it uses expires. */
  ghost predicate Prompt(store: Store, turns: seq<Turn>, deadline: Time) {
    && (forall i | 0 <= i < |turns| :: turns[i].limit >= 1 && turns[i].id !in store.cursors)
    && (forall i, j | 0 <= i < j < |turns| :: turns[i].id != turns[j].id)
    && (turns != [] ==> turns[0].taken < deadline)
    && (forall i | 0 < i < |turns| :: turns[i].taken < turns[i-1].stored + LIFETIME)
  }

  lemma PromptRest(store: Store, next: Store, turns: seq<Turn>, deadline: Time, nextDeadline: Time)
    requires turns != [] && Prompt(store, turns, deadline) && nextDeadline == turns[0].stored + LIFETIME
    requires forall id | id in next.cursors :: id in store.cursors || id == turns[0].id
    ensures Prompt(next, turns[1..], nextDeadline)
  {
  }

  /** An undisturbed drain ends within as many calls as items are left and returns exactly those items. */
  lemma {:induction false} DrainIsComplete(store: Store, id: Id, turns: seq<Turn>)
    requires Valid(store) && id in store.cursors
    requires Prompt(store, turns, store.cursors[id].expiresAt)
    requires |turns| >= |store.cursors[id].cursor.snapshot.items| - store.cursors[id].cursor.offset
    ensures var c := store.cursors[id].cursor;
            Drain(store, id, turns) == (c.snapshot.items[c.offset..], None)
    decreases |turns|
  {
    var c := store.cursors[id].cursor;
    var turn := turns[0];
    var end := PageEnd(c.offset, turn.limit, |c.snapshot.items|);
    assert Found(store, id, turn.taken) == Some(c);
    if end == |c.snapshot.items| {
      assert c.snapshot.items[c.offset..end] == c.snapshot.items[c.offset..];
    } else {
      TakenCursors(store, id, turn.taken);
      var next := Cursor(c.snapshot, end);
      StoredCursors(Taken(store, id, turn.taken), turn.id, next, turn.stored);
      var store' := Stored(Taken(store, id, turn.taken), turn.id, next, turn.stored);
      PromptRest(store, store', turns, store.cursors[id].expiresAt, turn.stored + LIFETIME);
      DrainIsComplete(store', turn.id, turns[1..]);
      assert c.snapshot.items[c.offset..end] + c.snapshot.items[end..] == c.snapshot.items[c.offset..];
    }
  }

  /** First page and undisturbed drain together return exactly the snapshot. */
  lemma ListingIsComplete(store: Store, snapshot: Snapshot, limit: nat, id: Id, now: Time, turns: seq<Turn>)
    requires Valid(store) && id !in store.cursors && 1 <= limit < |snapshot.items|
    requires Prompt(Stored(store, id, Cursor(snapshot, limit), now), turns, now + LIFETIME)
    requires |turns| >= |snapshot.items| - limit
    ensures var drained := Drain(Stored(store, id, Cursor(snapshot, limit), now), id, turns);
            snapshot.items[..limit] + drained.0 == snapshot.items && drained.1.None?
  {
    StoredCursors(store, id, Cursor(snapshot, limit), now);
    DrainIsComplete(Stored(store, id, Cursor(snapshot, limit), now), id, turns);
  }
}
