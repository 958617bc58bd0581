/**
 The durable operation journal: one row per operation UUID.

 The functions give each statement's effect on the rows. `Journal` is the mutable store; its
 methods are proved against those functions, and the write protocol is stated over them.
 */
module JournalModel {
  import opened Base

  /** Succeeded and Failed rows are kept this long after their last update. */
  const RETENTION_SECONDS: int := 7776000
  const MAX_LOCATOR_BYTES: nat := 8192

  datatype Status = Pending | Succeeded | Failed | Partial | Unknown

  /** The three execution shapes behind the operation kinds. */
  datatype Kind = Mail(name: Text) | Calendar(name: Text) | AutoReply

  /** Content-free row. The payload HMAC is modelled as the payload itself. */
  datatype Record = Record(account: Text, kind: Kind, payload: Text, status: Status, steps: bv32)

  datatype Locator = Locator(folderId: Text, serverId: Text)

  datatype Entry = Entry(record: Record, createdAt: int, updatedAt: int, locator: Option<Locator>)

  type Rows = map<Text, Entry>

  datatype BeginReply = BeginReply(record: Record, inserted: bool)

  predicate ValidLocator(l: Locator) {
    ValidRequired(l.folderId, MAX_LOCATOR_BYTES) && ValidRequired(l.serverId, MAX_LOCATOR_BYTES)
  }

  predicate SameOperation(existing: Record, candidate: Record) {
    existing.account == candidate.account && SameInput(existing, candidate)
  }

  /** What a replay compares: it does not know the account. */
  predicate SameInput(existing: Record, candidate: Record) {
    existing.kind == candidate.kind && existing.payload == candidate.payload
  }

  function BeginRows(rows: Rows, id: Text, r: Record, now: int): Rows {
    if id in rows then rows
    else rows[id := Entry(r.(status := Pending), now, now, None)]
  }

  function BeginResult(rows: Rows, id: Text, r: Record): Result<BeginReply, ErrorCode> {
    if id !in rows then Ok(BeginReply(r, true))
    else if SameOperation(rows[id].record, r) then Ok(BeginReply(rows[id].record, false))
    else Err(IdempotencyConflict)
  }

  predicate CanCheckpoint(rows: Rows, id: Text) {
    id in rows && rows[id].record.status == Pending
  }

  function CheckpointRows(rows: Rows, id: Text, steps: bv32, now: int): Rows {
    if CanCheckpoint(rows, id)
    then rows[id := rows[id].(record := rows[id].record.(steps := steps), updatedAt := now)]
    else rows
  }

  predicate LocatorAccepted(status: Status, locator: Option<Locator>) {
    locator.Some? ==> status == Succeeded && ValidLocator(locator.value)
  }

  predicate CanFinish(rows: Rows, id: Text, status: Status, locator: Option<Locator>) {
    status != Pending && LocatorAccepted(status, locator) && id in rows
  }

  /** `finish` updates whatever row has the UUID: neither its status nor its account is checked. */
  function FinishRows(rows: Rows, id: Text, status: Status, steps: bv32, locator: Option<Locator>, now: int): Rows {
    if CanFinish(rows, id, status, locator)
    then rows[id := rows[id].(record := rows[id].record.(status := status, steps := steps),
                              updatedAt := now, locator := locator)]
    else rows
  }

  function FinishResult(rows: Rows, id: Text, status: Status, locator: Option<Locator>): Result<(), ErrorCode> {
    if status == Pending then Err(StorageError)
    else if !LocatorAccepted(status, locator) then Err(ValidationFailed)
    else if id in rows then Ok(())
    else Err(StorageError)
  }

  predicate Orphan(e: Entry, account: Text) {
    e.record.account == account && e.record.status == Pending
  }

  function RecoverEntry(e: Entry, account: Text, now: int): Entry {
    if Orphan(e, account) then e.(record := e.record.(status := Unknown), updatedAt := now) else e
  }

  function RecoverRows(rows: Rows, account: Text, now: int): Rows {
    map id | id in rows :: RecoverEntry(rows[id], account, now)
  }

  predicate Prunable(e: Entry, now: int) {
    (e.record.status == Succeeded || e.record.status == Failed) && e.updatedAt < now - RETENTION_SECONDS
  }

  function PrunableRows(rows: Rows, now: int): Rows {
    map id | id in rows && Prunable(rows[id], now) :: rows[id]
  }

  function AccountRows(rows: Rows, account: Text): Rows {
    map id | id in rows && rows[id].record.account == account :: rows[id]
  }

  /** The replay check: nothing is written, whatever the answer. */
  function ReplayResult(rows: Rows, id: Text, candidate: Record): Result<Option<Record>, ErrorCode> {
    if id !in rows then Ok(None)
    else if SameInput(rows[id].record, candidate) then Ok(Some(rows[id].record))
    else Err(IdempotencyConflict)
  }

  /** The rows after an account is purged, unless the journal fails to. */
  function PurgedRows(rows: Rows, account: Text, fails: bool): Rows {
    if fails then rows else rows - AccountRows(rows, account).Keys
  }

  /** The journal as its callers see it, with storage faults that may be injected. */
  class Journal {
    var rows: Rows
    var now: int
    var failCheckpoint: bool
    var failFinish: bool
    var failPurge: bool
    /** The account's references or attachments cannot be purged. */
    var failCleanup: bool

    constructor ()
      ensures rows == map[]
    {
      rows, now := map[], 1700000000;
      failCheckpoint, failFinish, failPurge, failCleanup := false, false, false, false;
    }

    method Lookup(id: Text) returns (r: Option<Record>)
      ensures r.None? <==> id !in rows
      ensures r.Some? ==> r.value == rows[id].record
    {
      r := if id in rows then Some(rows[id].record) else None;
    }

    method Replay(id: Text, candidate: Record) returns (r: Result<Option<Record>, ErrorCode>)
      ensures r == ReplayResult(rows, id, candidate)
    {
      var existing := Lookup(id);
      if existing.None? {
        return Ok(None);
      }
      if existing.value.kind != candidate.kind || existing.value.payload != candidate.payload {
        return Err(IdempotencyConflict);
      }
      return Ok(existing);
    }

    method Begin(id: Text, r: Record) returns (reply: Result<BeginReply, ErrorCode>)
      modifies this`rows
      ensures rows == BeginRows(old(rows), id, r, now)
      ensures reply == BeginResult(old(rows), id, r)
    {
      if id in rows {
        var existing := rows[id].record;
        if existing.account != r.account || existing.kind != r.kind || existing.payload != r.payload {
          return Err(IdempotencyConflict);
        }
        return Ok(BeginReply(existing, false));
      }
      rows := rows[id := Entry(r.(status := Pending), now, now, None)];
      return Ok(BeginReply(r, true));
    }

    method Checkpoint(id: Text, steps: bv32) returns (ok: bool)
      modifies this`rows
      ensures ok == (!failCheckpoint && CanCheckpoint(old(rows), id))
      ensures rows == if failCheckpoint then old(rows) else CheckpointRows(old(rows), id, steps, now)
    {
      if failCheckpoint || id !in rows || rows[id].record.status != Pending {
        return false;
      }
      var entry := rows[id];
      rows := rows[id := entry.(record := entry.record.(steps := steps), updatedAt := now)];
      return true;
    }

    method Finish(id: Text, status: Status, steps: bv32, locator: Option<Locator>)
      returns (reply: Result<(), ErrorCode>)
      modifies this`rows
      ensures reply == if failFinish then Err(StorageError) else FinishResult(old(rows), id, status, locator)
      ensures rows == if failFinish then old(rows) else FinishRows(old(rows), id, status, steps, locator, now)
    {
      if failFinish || status == Pending {
        return Err(StorageError);
      }
      if locator.Some? && (status != Succeeded || !ValidLocator(locator.value)) {
        return Err(ValidationFailed);
      }
      if id !in rows {
        return Err(StorageError);
      }
      var entry := rows[id];
      rows := rows[id := entry.(record := entry.record.(status := status, steps := steps),
                                updatedAt := now, locator := locator)];
      return Ok(());
    }

    /** Visits every row; the caller must hold the account's write lock. */
    method RecoverAccount(account: Text) returns (changed: nat)
      modifies this`rows
      ensures rows == RecoverRows(old(rows), account, now)
      ensures changed == |set id | id in old(rows) && Orphan(old(rows)[id], account)|
    {
      ghost var before := rows;
      var left := rows.Keys;
      changed := 0;
      ghost var hit: set<Text> := {};
      while left != {}
        invariant left <= before.Keys && rows.Keys == before.Keys
        invariant forall id | id in left :: rows[id] == before[id]
        invariant forall id | id in before && id !in left :: rows[id] == RecoverEntry(before[id], account, now)
        invariant hit == set id | id in before && id !in left && Orphan(before[id], account)
        invariant changed == |hit|
      {
        var id :| id in left;
        left := left - {id};
        var entry := rows[id];
        assert (set x | x in before && x !in left && Orphan(before[x], account)) ==
                 if Orphan(before[id], account) then hit + {id} else hit;
        if entry.record.account == account && entry.record.status == Pending {
          rows := rows[id := entry.(record := entry.record.(status := Unknown), updatedAt := now)];
          changed := changed + 1;
          hit := hit + {id};
        }
      }
      assert hit == set id | id in before && Orphan(before[id], account);
    }

    method Prune() returns (removed: nat)
      modifies this`rows
      ensures rows == old(rows) - PrunableRows(old(rows), now).Keys
      ensures removed == |PrunableRows(old(rows), now)|
    {
      var expired := map id | id in rows && Prunable(rows[id], now) :: rows[id];
      assert expired == PrunableRows(rows, now);
      rows := rows - expired.Keys;
      removed := |expired|;
    }

    method PurgeAccount(account: Text) returns (removed: Result<nat, ErrorCode>)
      modifies this`rows
      ensures rows == PurgedRows(old(rows), account, failPurge)
      ensures removed == if failPurge then Err(StorageError) else Ok(|AccountRows(old(rows), account)|)
    {
      if failPurge {
        return Err(StorageError);
      }
      var mine := map id | id in rows && rows[id].record.account == account :: rows[id];
      assert mine == AccountRows(rows, account);
      rows := rows - mine.Keys;
      removed := Ok(|mine|);
    }

    /** The runtime's purge: every store is tried, and any failure is reported. */
    method ForgetAccount(account: Text) returns (done: bool)
      modifies this`rows
      ensures rows == PurgedRows(old(rows), account, failPurge)
      ensures done == Forgets(this)
    {
      var removed := PurgeAccount(account);
      done := removed.Ok? && !failCleanup;
    }
  }

  /** Which local operations fail: the journal's checkpoint, finish and purge, and the purge of the other stores. */
  datatype Faults = Faults(checkpoint: bool, finish: bool, purge: bool, cleanup: bool)

  ghost function FaultsOf(journal: Journal): Faults
    reads journal
  {
    Faults(journal.failCheckpoint, journal.failFinish, journal.failPurge, journal.failCleanup)
  }

  /** The rows found, and one written now. */
  function WithRow(rows: Rows, id: Text, record: Record, now: int, locator: Option<Locator>): Rows {
    rows[id := Entry(record, now, now, locator)]
  }

  /** What a remote wipe is told as, and what it leaves of the rows found and the write's own. */
  ghost predicate WipeOutcome(before: Rows, after: Rows, id: Text, record: Record, now: int, faults: Faults, told: ErrorCode) {
    && told == (if faults.purge || faults.cleanup then OutcomeUnknown else RemoteWipe)
    && after == if faults.purge then WithRow(before, id, record, now, None)
                else before - AccountRows(before, record.account).Keys
  }

  /** Purging the account also forgets a row just inserted for it. */
  lemma WipeForgets(before: Rows, id: Text, record: Record, now: int)
    requires id !in before
    ensures PurgedRows(WithRow(before, id, record, now, None), record.account, false) == before - AccountRows(before, record.account).Keys
  {
  }

  lemma FinishedRow(before: Rows, id: Text, record: Record, now: int, status: Status, steps: bv32, locator: Option<Locator>)
    requires status != Pending && LocatorAccepted(status, locator)
    ensures FinishRows(WithRow(before, id, record, now, None), id, status, steps, locator, now) ==
              WithRow(before, id, record.(status := status, steps := steps), now, locator)
  {
  }

  /** A row is pruned only as Succeeded or Failed, and not before ninety days after it was finished. */
  lemma KeptNinetyDays(rows: Rows, id: Text, status: Status, steps: bv32, locator: Option<Locator>, now: int, later: int)
    requires CanFinish(rows, id, status, locator)
    ensures var after := FinishRows(rows, id, status, steps, locator, now);
            id in PrunableRows(after, later) <==> status in {Succeeded, Failed} && later - now > 90 * 24 * 60 * 60
  {
  }

  /** A purge removes all local data of an account. */
  predicate Forgets(journal: Journal)
    reads journal
  {
    !journal.failPurge && !journal.failCleanup
  }

  /** What the caller is told of a remote wipe: a failed purge leaves the outcome unknown. */
  function WipeError(forgotten: bool): ErrorCode {
    if forgotten then RemoteWipe else OutcomeUnknown
  }
}
