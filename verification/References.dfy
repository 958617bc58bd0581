/**
 The process-local store of one-shot pagination cursors: a bounded FIFO with expiry. `References` works
 on its fields in place; the functions before it say what each operation makes of the whole state.
 */
module CursorStore {
  import opened Base

  const MAX_SNAPSHOTS: nat := 32
  const SECOND: nat := 1_000_000_000
  const LIFETIME: nat := 15 * 60 * SECOND
  const PRUNE_INTERVAL_SECONDS: nat := 60

  type Id = Text
  /** UTC nanoseconds; the clock may step backwards. */
  type Time = int
  /** A mail summary, which the store never looks into. */
  type Item = nat

  /** The shared result list of one listing; `tag` is its identity. */
  datatype Snapshot = Snapshot(tag: nat, items: seq<Item>)
  datatype Cursor = Cursor(snapshot: Snapshot, offset: nat)
  datatype Timed = Timed(expiresAt: Time, cursor: Cursor)
  datatype Store = Store(cursors: map<Id, Timed>, order: seq<Id>, lastPruned: Option<Time>)
  datatype Page = Page(snapshot: Snapshot, start: nat, end: nat, next: Option<Id>)

  function PageEnd(offset: nat, limit: nat, length: nat): nat {
    if offset + limit <= length then offset + limit else length
  }

  // ----- Specification -----

  function Unexpired(cursors: map<Id, Timed>, now: Time): map<Id, Timed> {
    map id | id in cursors && cursors[id].expiresAt > now :: cursors[id]
  }

  function Retained(order: seq<Id>, ids: set<Id>): seq<Id> {
    if order == [] then [] else (if order[0] in ids then [order[0]] else []) + Retained(order[1..], ids)
  }

  function Pruned(s: Store, now: Time): Store {
    var cursors := Unexpired(s.cursors, now);
    Store(cursors, Retained(s.order, cursors.Keys), Some(now))
  }

  /** Whole seconds between two times, whichever comes first. */
  function SecondsApart(a: Time, b: Time): nat {
    (if a <= b then b - a else a - b) / SECOND
  }

  predicate PruneDue(s: Store, now: Time) {
    s.lastPruned.None? || SecondsApart(s.lastPruned.value, now) >= PRUNE_INTERVAL_SECONDS
  }

  function MaybePruned(s: Store, now: Time): Store {
    if PruneDue(s, now) then Pruned(s, now) else s
  }

  /** Drops the oldest cursors until `room` are left. */
  function Youngest(s: Store, room: nat): Store
    decreases |s.order|
  {
    if |s.order| <= room then s
    else Youngest(Store(s.cursors - {s.order[0]}, s.order[1..], s.lastPruned), room)
  }

  function Stored(s: Store, id: Id, cursor: Cursor, now: Time): Store {
    var kept := Youngest(MaybePruned(s, now), MAX_SNAPSHOTS - 1);
    Store(kept.cursors[id := Timed(now + LIFETIME, cursor)], kept.order + [id], kept.lastPruned)
  }

  function Found(s: Store, id: Id, now: Time): Option<Cursor> {
    if id in s.cursors && s.cursors[id].expiresAt > now then Some(s.cursors[id].cursor) else None
  }

  function Taken(s: Store, id: Id, now: Time): Store {
    var pruned := Pruned(s, now);
    if Found(s, id, now).None? then pruned
    else Store(pruned.cursors - {id}, Retained(pruned.order, pruned.cursors.Keys - {id}), pruned.lastPruned)
  }

  // ----- Invariant -----

  ghost predicate Distinct(order: seq<Id>) {
    forall i, j | 0 <= i < j < |order| :: order[i] != order[j]
  }

  /** The queue lists exactly the stored cursors, each once, and every cursor still has items to show. */
  ghost predicate Valid(s: Store) {
    && Distinct(s.order) && |s.order| <= MAX_SNAPSHOTS
    && (forall id :: id in s.order <==> id in s.cursors)
    && (forall id | id in s.cursors :: s.cursors[id].cursor.offset < |s.cursors[id].cursor.snapshot.items|)
  }

  lemma {:induction false} RetainedContents(order: seq<Id>, ids: set<Id>)
    requires Distinct(order)
    ensures Distinct(Retained(order, ids)) && |Retained(order, ids)| <= |order|
    ensures forall id :: id in Retained(order, ids) <==> id in order && id in ids
  {
    if order != [] {
      RetainedContents(order[1..], ids);
      assert order == [order[0]] + order[1..];
      assert order[0] !in order[1..];
    }
  }

  lemma PrunedValid(s: Store, now: Time)
    requires Valid(s)
    ensures Valid(Pruned(s, now))
  {
    RetainedContents(s.order, Unexpired(s.cursors, now).Keys);
  }

  function Surplus(s: Store, room: nat): nat {
    if |s.order| > room then |s.order| - room else 0
  }

  lemma OldestDropped(s: Store)
    requires Valid(s) && s.order != []
    ensures Valid(Store(s.cursors - {s.order[0]}, s.order[1..], s.lastPruned))
  {
    assert s.order == [s.order[0]] + s.order[1..];
    assert s.order[0] !in s.order[1..];
  }

  /** Eviction leaves the tail of the queue, with its cursors untouched. */
  lemma {:induction false} YoungestIsTail(s: Store, room: nat)
    requires Valid(s)
    ensures Valid(Youngest(s, room)) && Youngest(s, room).order == s.order[Surplus(s, room)..]
    ensures forall id | id in Youngest(s, room).cursors ::
              id in s.cursors && Youngest(s, room).cursors[id] == s.cursors[id]
    decreases |s.order|
  {
    if |s.order| > room {
      var rest := Store(s.cursors - {s.order[0]}, s.order[1..], s.lastPruned);
      OldestDropped(s);
      YoungestIsTail(rest, room);
    }
  }

  /** Storing under a fresh id keeps the invariant, whatever it prunes and evicts. */
  lemma StoredValid(s: Store, id: Id, cursor: Cursor, now: Time)
    requires Valid(s) && id !in s.cursors && cursor.offset < |cursor.snapshot.items|
    ensures Valid(Stored(s, id, cursor, now))
  {
    PrunedValid(s, now);
    var kept := Youngest(MaybePruned(s, now), MAX_SNAPSHOTS - 1);
    YoungestIsTail(MaybePruned(s, now), MAX_SNAPSHOTS - 1);
    assert id !in kept.order;
  }

  /** Consuming a cursor removes it and the expired ones and leaves the rest; an expired cursor is never found. */
  lemma TakenValid(s: Store, id: Id, now: Time)
    requires Valid(s)
    ensures Valid(Taken(s, id, now)) && id !in Taken(s, id, now).cursors
    ensures forall other | other in s.cursors && other != id && s.cursors[other].expiresAt > now ::
              other in Taken(s, id, now).cursors && Taken(s, id, now).cursors[other] == s.cursors[other]
  {
    PrunedValid(s, now);
    RetainedContents(Pruned(s, now).order, Pruned(s, now).cursors.Keys - {id});
  }

  ghost predicate Before(order: seq<Id>, first: Id, second: Id) {
    exists i, j :: 0 <= i < j < |order| && order[i] == first && order[j] == second
  }

  lemma EvictedBeforeKept(s: Store, room: nat, dropped: Id, kept: Id)
    requires Valid(s)
    requires dropped in s.cursors && dropped !in Youngest(s, room).cursors && kept in Youngest(s, room).cursors
    ensures |s.order| > room && Before(s.order, dropped, kept)
  {
    YoungestIsTail(s, room);
    var surplus := Surplus(s, room);
    assert dropped in s.order && kept in Youngest(s, room).order;
    var i :| 0 <= i < |s.order| && s.order[i] == dropped;
    var j :| 0 <= j < |s.order[surplus..]| && s.order[surplus..][j] == kept;
    assert dropped !in s.order[surplus..];
    assert s.order[surplus + j] == kept && surplus <= surplus + j < |s.order|;
  }

  /** First in, first out: storing drops unexpired cursors only from the old end, and only when 32 are held. */
  lemma EvictionIsFifo(s: Store, id: Id, cursor: Cursor, now: Time, dropped: Id, kept: Id)
    requires Valid(s) && id !in s.cursors
    requires dropped in s.cursors && dropped !in Stored(s, id, cursor, now).cursors && s.cursors[dropped].expiresAt > now
    requires kept in s.cursors && kept in Stored(s, id, cursor, now).cursors
    ensures |s.order| == 32 && Before(s.order, dropped, kept)
  {
    var p := MaybePruned(s, now);
    PrunedValid(s, now);
    EvictedBeforeKept(p, MAX_SNAPSHOTS - 1, dropped, kept);
    if PruneDue(s, now) {
      RetainedContents(s.order, Unexpired(s.cursors, now).Keys);
      var i, j :| 0 <= i < j < |p.order| && p.order[i] == dropped && p.order[j] == kept;
      RetainedOrder(s.order, Unexpired(s.cursors, now).Keys, i, j);
    }
  }

  lemma {:induction false} RetainedOrder(order: seq<Id>, ids: set<Id>, i: nat, j: nat)
    requires i < j < |Retained(order, ids)|
    ensures Before(order, Retained(order, ids)[i], Retained(order, ids)[j])
  {
    var rest := Retained(order[1..], ids);
    var shift := if order[0] in ids then 1 else 0;
    assert forall k | shift <= k < |Retained(order, ids)| :: Retained(order, ids)[k] == rest[k - shift];
    if i < shift {
      RetainedMember(order[1..], ids, j - shift);
      var b :| 0 <= b < |order[1..]| && order[1..][b] == rest[j - shift];
      assert order[0] == Retained(order, ids)[i] && order[b + 1] == Retained(order, ids)[j];
    } else {
      RetainedOrder(order[1..], ids, i - shift, j - shift);
      var a, b :| 0 <= a < b < |order[1..]| && order[1..][a] == rest[i - shift] && order[1..][b] == rest[j - shift];
      assert order[a + 1] == Retained(order, ids)[i] && order[b + 1] == Retained(order, ids)[j];
    }
  }

  lemma {:induction false} RetainedMember(order: seq<Id>, ids: set<Id>, k: nat)
    requires k < |Retained(order, ids)|
    ensures Retained(order, ids)[k] in order
  {
    if order[0] !in ids {
      RetainedMember(order[1..], ids, k);
    } else if k > 0 {
      RetainedMember(order[1..], ids, k - 1);
    }
  }

  /** No held cursor had expired at the last prune. */
  ghost predicate FreshAtPrune(s: Store) {
    if s.lastPruned.None? then s.cursors == map[]
    else forall id | id in s.cursors :: s.cursors[id].expiresAt > s.lastPruned.value
  }

  lemma PrunedIsFresh(s: Store, now: Time)
    ensures FreshAtPrune(Pruned(s, now))
  {
  }

  lemma {:induction false} YoungestIsPart(s: Store, room: nat)
    ensures Youngest(s, room).lastPruned == s.lastPruned && Youngest(s, room).cursors.Keys <= s.cursors.Keys
    ensures forall id | id in Youngest(s, room).cursors :: Youngest(s, room).cursors[id] == s.cursors[id]
    decreases |s.order|
  {
    if |s.order| > room {
      YoungestIsPart(Store(s.cursors - {s.order[0]}, s.order[1..], s.lastPruned), room);
    }
  }

  /** Pruning once a minute is enough: right after a cursor is stored, none held has been expired for a minute. */
  lemma StaleForLessThanAMinute(s: Store, id: Id, cursor: Cursor, now: Time, other: Id)
    requires FreshAtPrune(s) && other in Stored(s, id, cursor, now).cursors
    ensures FreshAtPrune(Stored(s, id, cursor, now))
    ensures Stored(s, id, cursor, now).cursors[other].expiresAt > now - 60 * 1_000_000_000
  {
    var p := MaybePruned(s, now);
    PrunedIsFresh(s, now);
    YoungestIsPart(p, MAX_SNAPSHOTS - 1);
    assert now - 60 * SECOND < p.lastPruned.value < now + 60 * SECOND;
  }

  /** A stored cursor is found as it is for exactly fifteen minutes, unless it is evicted, consumed or purged before. */
  lemma LivesFifteenMinutes(s: Store, id: Id, cursor: Cursor, now: Time, later: Time)
    ensures Found(Stored(s, id, cursor, now), id, later) == if later < now + 15 * 60 * 1_000_000_000 then Some(cursor) else None
  {
  }

  /** Within a minute of the last prune, and below 32 cursors, storing drops nothing, expired or not. */
  lemma NothingDroppedInBetween(s: Store, id: Id, cursor: Cursor, now: Time)
    requires s.lastPruned.Some? && |s.order| < 32
    requires s.lastPruned.value - 60 * 1_000_000_000 < now < s.lastPruned.value + 60 * 1_000_000_000
    ensures Stored(s, id, cursor, now) == Store(s.cursors[id := Timed(now + 15 * 60 * 1_000_000_000, cursor)], s.order + [id], s.lastPruned)
  {
    assert SecondsApart(s.lastPruned.value, now) < 60;
  }

  /** What every operation of the store keeps. */
  ghost predicate Kept(s: Store) {
    Valid(s) && FreshAtPrune(s)
  }

  lemma StoredKept(s: Store, id: Id, cursor: Cursor, now: Time)
    requires Kept(s) && id !in s.cursors && cursor.offset < |cursor.snapshot.items|
    ensures Kept(Stored(s, id, cursor, now))
  {
    StoredValid(s, id, cursor, now);
    StaleForLessThanAMinute(s, id, cursor, now, id);
  }

  // ----- The store -----

  class References {
    var cursors: map<Id, Timed>
    var order: seq<Id>
    var lastPruned: Option<Time>

    ghost function View(): Store
      reads this
    {
      Store(cursors, order, lastPruned)
    }

    constructor ()
      ensures View() == Store(map[], [], None) && Kept(View())
    {
      cursors, order, lastPruned := map[], [], None;
    }

    method Prune(now: Time)
      modifies this
      ensures View() == Pruned(old(View()), now)
    {
      cursors := map id | id in cursors && cursors[id].expiresAt > now :: cursors[id];
      order := Retained(order, cursors.Keys);
      lastPruned := Some(now);
    }

    method MaybePrune(now: Time)
      modifies this
      ensures View() == MaybePruned(old(View()), now)
    {
      if lastPruned.None? || SecondsApart(lastPruned.value, now) >= PRUNE_INTERVAL_SECONDS {
        Prune(now);
      }
    }

    /** The generator's `id` is fresh: the store holds no cursor under it. */
    method StoreCursor(cursor: Cursor, id: Id, now: Time)
      requires Kept(View()) && id !in cursors && cursor.offset < |cursor.snapshot.items|
      modifies this
      ensures View() == Stored(old(View()), id, cursor, now) && Kept(View())
    {
      StoredKept(View(), id, cursor, now);
      MaybePrune(now);
      ghost var kept := Youngest(View(), MAX_SNAPSHOTS - 1);
      while |order| >= MAX_SNAPSHOTS
        invariant Youngest(View(), MAX_SNAPSHOTS - 1) == kept
        decreases |order|
      {
        var oldest := order[0];
        order := order[1..];
        cursors := cursors - {oldest};
      }
      order := order + [id];
      cursors := cursors[id := Timed(now + LIFETIME, cursor)];
    }

    method FirstPage(snapshot: Snapshot, limit: nat, id: Id, now: Time) returns (page: Page)
      requires Kept(View()) && id !in cursors
      modifies this
      ensures Kept(View())
      ensures page.snapshot == snapshot && page.start == 0
      ensures page.end == if limit <= |snapshot.items| then limit else |snapshot.items|
      ensures page.end == |snapshot.items| ==> page.next.None? && View() == old(View())
      ensures page.end < |snapshot.items| ==>
                page.next == Some(id) && View() == Stored(old(View()), id, Cursor(snapshot, page.end), now)
    {
      var end := if |snapshot.items| <= limit then |snapshot.items| else limit;
      if end < |snapshot.items| {
        StoreCursor(Cursor(snapshot, end), id, now);
        page := Page(snapshot, 0, end, Some(id));
      } else {
        page := Page(snapshot, 0, end, None);
      }
    }

    /** The lock is free between consuming the cursor at `now` and storing the next one at `later`. */
    method TakeCursor(cursorId: Id, now: Time) returns (cursor: Option<Cursor>)
      requires Kept(View())
      modifies this
      ensures Kept(View())
      ensures cursor == Found(old(View()), cursorId, now) && View() == Taken(old(View()), cursorId, now)
    {
      TakenValid(View(), cursorId, now);
      Prune(now);
      if cursorId !in cursors {
        return None;
      }
      cursor := Some(cursors[cursorId].cursor);
      assert cursors.Keys - {cursorId} == (cursors - {cursorId}).Keys;
      cursors := cursors - {cursorId};
      order := Retained(order, cursors.Keys);
    }

    method NextPage(cursorId: Id, limit: nat, id: Id, now: Time, later: Time) returns (page: Result<Page, ErrorCode>)
      requires Kept(View()) && id !in cursors
      modifies this
      ensures Kept(View())
      ensures page.Ok? <==> Found(old(View()), cursorId, now).Some?
      ensures page.Err? ==> page.error == ReferenceExpired && View() == Taken(old(View()), cursorId, now)
      ensures page.Ok? ==>
                var cursor := Found(old(View()), cursorId, now).value;
                var length := |cursor.snapshot.items|;
                var end := if cursor.offset + limit <= length then cursor.offset + limit else length;
                var more := end < length;
                && page.value == Page(cursor.snapshot, cursor.offset, end, if more then Some(id) else None)
                && View() == (if more then Stored(Taken(old(View()), cursorId, now), id, Cursor(cursor.snapshot, end), later)
                              else Taken(old(View()), cursorId, now))
    {
      var cursor := TakeCursor(cursorId, now);
      if cursor.None? {
        return Err(ReferenceExpired);
      }
      var snapshot := cursor.value.snapshot;
      var end := if cursor.value.offset + limit <= |snapshot.items| then cursor.value.offset + limit else |snapshot.items|;
      if end < |snapshot.items| {
        StoreCursor(Cursor(snapshot, end), id, later);
        page := Ok(Page(snapshot, cursor.value.offset, end, Some(id)));
      } else {
        page := Ok(Page(snapshot, cursor.value.offset, end, None));
      }
    }

    method PurgeAccount()
      modifies this
      ensures View() == Store(map[], [], old(lastPruned)) && Kept(View())
    {
      cursors := map[];
      order := [];
    }
  }
}
