/** Writes with one external step, and the recovery pass that startup and readers make over orphaned rows. */
module SingleWrites {
  import opened Base
  import opened JournalModel

  /** What a caller is told; `Partial` only ever describes automatic replies. */
  datatype Told = ToldSucceeded | ToldPartial | ToldFailed | ToldUnknown

  /** The state of an existing operation as a send, reply, forward or read mark reports it. */
  function ExistingSend(status: Status): Told {
    match status
    case Succeeded => ToldSucceeded
    case Failed => ToldFailed
    case Partial => ToldFailed
    case Pending => ToldUnknown
    case Unknown => ToldUnknown
  }

  /** And as an automatic reply reports it. */
  function ExistingAutoReply(status: Status): Told {
    if status == Partial then ToldPartial else ExistingSend(status)
  }

  function ReplayTold(rows: Rows, id: Text, candidate: Record, existing: Status -> Told): Result<Option<Told>, ErrorCode> {
    match ReplayResult(rows, id, candidate)
    case Err(e) => Err(e)
    case Ok(None) => Ok(None)
    case Ok(Some(record)) => Ok(Some(existing(record.status)))
  }

  /** The row as it is now answers every later replay of the same input, in any process, with `told`. */
  ghost predicate Replays(rows: Rows, id: Text, kind: Kind, payload: Text, existing: Status -> Told, told: Told) {
    && id in rows
    && forall later: Rows, asker: Record ::
         id in later && later[id] == rows[id] && asker.kind == kind && asker.payload == payload ==>
           ReplayTold(later, id, asker, existing) == Ok(Some(told))
  }

  /** Answers a UUID that is already in the journal, without any other effect. */
  ghost predicate AnswersReplay(before: Rows, after: Rows, id: Text, candidate: Record, existing: Status -> Told,
                                r: Result<Told, ErrorCode>) {
    && after == before
    && ReplayTold(before, id, candidate, existing) == match r case Ok(told) => Ok(Some(told)) case Err(e) => Err(e)
  }

  /** A row stored by this call answers later replays by its status. */
  lemma RowReplays(rows: Rows, id: Text, record: Record, existing: Status -> Told)
    requires id in rows && rows[id].record.kind == record.kind && rows[id].record.payload == record.payload
    ensures Replays(rows, id, record.kind, record.payload, existing, existing(rows[id].record.status))
  {
  }

  // ----- One external step -----

  /** Stores the reply to the one external step. */
  method FinishWrite(journal: Journal, id: Text, account: Text, reply: Result<(), ErrorCode>) returns (r: Result<Told, ErrorCode>)
    requires id in journal.rows
    modifies journal`rows
    ensures reply == Err(RemoteWipe) ==>
              r == Err(WipeError(Forgets(journal))) && journal.rows == PurgedRows(old(journal.rows), account, journal.failPurge)
    ensures reply != Err(RemoteWipe) && journal.failFinish ==> r == Err(OutcomeUnknown) && journal.rows == old(journal.rows)
    ensures reply != Err(RemoteWipe) && !journal.failFinish ==>
              match reply
              case Ok(_) => r == Ok(ToldSucceeded) && journal.rows == FinishRows(old(journal.rows), id, Succeeded, 1, None, journal.now)
              case Err(code) =>
                r == Err(code) && journal.rows == FinishRows(old(journal.rows), id, if code == OutcomeUnknown then Unknown else Failed,
                                                             0, None, journal.now)
  {
    match reply
    case Ok(_) =>
      var stored := journal.Finish(id, Succeeded, 1, None);
      r := if stored.Ok? then Ok(ToldSucceeded) else Err(OutcomeUnknown);
    case Err(code) =>
      if code == RemoteWipe {
        var forgotten := journal.ForgetAccount(account);
        return Err(WipeError(forgotten));
      }
      var stored := journal.Finish(id, if code == OutcomeUnknown then Unknown else Failed, 0, None);
      r := if stored.Ok? then Err(code) else Err(OutcomeUnknown);
  }

  /** The write's row has this status and mask, and so every later replay is told `told`. */
  ghost predicate RowTells(before: Rows, after: Rows, id: Text, record: Record, now: int, status: Status, steps: bv32,
                           existing: Status -> Told, told: Told) {
    && after == WithRow(before, id, record.(status := status, steps := steps), now, None)
    && Replays(after, id, record.kind, record.payload, existing, told)
  }

  lemma StatusTells(before: Rows, id: Text, record: Record, now: int, status: Status, steps: bv32, existing: Status -> Told)
    ensures RowTells(before, WithRow(before, id, record.(status := status, steps := steps), now, None), id, record, now,
                     status, steps, existing, existing(status))
  {
    RowReplays(WithRow(before, id, record.(status := status, steps := steps), now, None), id, record, existing);
  }

  /** What the reply to an attempted write makes of the caller's answer, the row, and every later replay. */
  ghost predicate WriteOutcome(before: Rows, after: Rows, id: Text, record: Record, now: int, faults: Faults,
                               existing: Status -> Told, reply: Result<(), ErrorCode>, r: Result<Told, ErrorCode>) {
    if reply == Err(RemoteWipe) then
      && r.Err? && WipeOutcome(before, after, id, record, now, faults, r.error)
      && (faults.purge ==> Replays(after, id, record.kind, record.payload, existing, ToldUnknown))
    else if faults.finish then r == Err(OutcomeUnknown) && RowTells(before, after, id, record, now, Pending, 0, existing, ToldUnknown)
    else if reply.Ok? then r == Ok(ToldSucceeded) && RowTells(before, after, id, record, now, Succeeded, 1, existing, ToldSucceeded)
    else if reply.error == OutcomeUnknown then
      r == Err(OutcomeUnknown) && RowTells(before, after, id, record, now, Unknown, 0, existing, ToldUnknown)
    else r == Err(reply.error) && RowTells(before, after, id, record, now, Failed, 0, existing, ToldFailed)
  }

  /** How the statuses of a send, and those of an automatic reply but Partial, are told. */
  ghost predicate TellsPlainly(existing: Status -> Told) {
    && existing(Succeeded) == ToldSucceeded && existing(Failed) == ToldFailed
    && existing(Pending) == ToldUnknown && existing(Unknown) == ToldUnknown
  }

  /** Stores the reply of an attempted write in the row just inserted for it. */
  method Settle(journal: Journal, id: Text, reply: Result<(), ErrorCode>, account: Text, ghost before: Rows, ghost record: Record,
                ghost existing: Status -> Told)
    returns (r: Result<Told, ErrorCode>)
    requires id !in before && record.status == Pending && record.steps == 0 && record.account == account && TellsPlainly(existing)
    requires journal.rows == WithRow(before, id, record, journal.now, None)
    modifies journal`rows
    ensures WriteOutcome(before, journal.rows, id, record, journal.now, FaultsOf(journal), existing, reply, r)
  {
    WipeForgets(before, id, record, journal.now);
    StatusTells(before, id, record, journal.now, Pending, 0, existing);
    ghost var status := if reply.Ok? then Succeeded else if reply.error == OutcomeUnknown then Unknown else Failed;
    ghost var steps: bv32 := if reply.Ok? then 1 else 0;
    FinishedRow(before, id, record, journal.now, status, steps, None);
    StatusTells(before, id, record, journal.now, status, steps, existing);
    r := FinishWrite(journal, id, account, reply);
  }

  /**
   One send. `admitted` is the outcome of what precedes `begin`: message checks, permission, the lock and the
   preview. The request is made exactly for a new UUID that is admitted. What the caller is told, what the row
   says and what every later replay is told follow from the reply and the local faults alone, and agree.
   */
  method Send(journal: Journal, id: Text, kind: Kind, payload: Text, account: Text, admitted: Result<(), ErrorCode>,
              reply: Result<(), ErrorCode>)
    returns (r: Result<Told, ErrorCode>, attempted: bool)
    modifies journal`rows
    ensures attempted <==> id !in old(journal.rows) && admitted.Ok?
    ensures id in old(journal.rows) ==>
              AnswersReplay(old(journal.rows), journal.rows, id, Record(account, kind, payload, Pending, 0), ExistingSend, r)
    ensures id !in old(journal.rows) && admitted.Err? ==> r == Err(admitted.error) && journal.rows == old(journal.rows)
    ensures attempted ==>
              WriteOutcome(old(journal.rows), journal.rows, id, Record(account, kind, payload, Pending, 0), journal.now,
                           FaultsOf(journal), ExistingSend, reply, r)
  {
    var candidate := Record(account, kind, payload, Pending, 0);
    var found := journal.Replay(id, candidate);
    if found.Err? {
      return Err(found.error), false;
    }
    if found.value.Some? {
      return Ok(ExistingSend(found.value.value.status)), false;
    }
    if admitted.Err? {
      return Err(admitted.error), false;
    }
    var begun := journal.Begin(id, candidate);
    attempted := true;
    r := Settle(journal, id, reply, account, old(journal.rows), candidate, ExistingSend);
  }

  // ----- Automatic replies -----

  /** What the read-back of an acknowledged update makes of the caller's answer, the row, and every later replay. */
  ghost predicate VerifyOutcome(before: Rows, after: Rows, id: Text, record: Record, now: int, faults: Faults,
                                readBack: Result<bool, ErrorCode>, r: Result<Told, ErrorCode>) {
    if readBack == Err(RemoteWipe) then
      && r.Err? && WipeOutcome(before, after, id, record.(status := Partial, steps := 1), now, faults, r.error)
      && (faults.purge ==> Replays(after, id, record.kind, record.payload, ExistingAutoReply, ToldPartial))
    else if readBack == Ok(true) && !faults.finish then
      r == Ok(ToldSucceeded) && RowTells(before, after, id, record, now, Succeeded, 1, ExistingAutoReply, ToldSucceeded)
    else
      && r == (if readBack == Ok(true) then Err(OutcomeUnknown) else Ok(ToldPartial))
      && RowTells(before, after, id, record, now, Partial, 1, ExistingAutoReply, ToldPartial)
  }

  /** The read-back after an acknowledged update; the journal may have begun to fail by then. */
  method VerifyAutoReply(journal: Journal, id: Text, account: Text, readBack: Result<bool, ErrorCode>, ghost before: Rows,
                         ghost record: Record)
    returns (r: Result<Told, ErrorCode>)
    requires id !in before && record.account == account
    requires journal.rows == WithRow(before, id, record.(status := Partial, steps := 1), journal.now, None)
    modifies journal`rows
    ensures VerifyOutcome(before, journal.rows, id, record, journal.now, FaultsOf(journal), readBack, r)
  {
    WipeForgets(before, id, record.(status := Partial, steps := 1), journal.now);
    StatusTells(before, id, record, journal.now, Partial, 1, ExistingAutoReply);
    FinishedRow(before, id, record.(status := Partial, steps := 1), journal.now, Succeeded, 1, None);
    StatusTells(before, id, record, journal.now, Succeeded, 1, ExistingAutoReply);
    match readBack
    case Ok(true) =>
      var confirmed := journal.Finish(id, Succeeded, 1, None);
      r := if confirmed.Ok? then Ok(ToldSucceeded) else Err(OutcomeUnknown);
    case Err(RemoteWipe) =>
      var forgotten := journal.ForgetAccount(account);
      r := Err(WipeError(forgotten));
    case _ =>
      r := Ok(ToldPartial);
  }

  /** An attempted update: a reply that is not stored as acknowledged, or the read-back after it. */
  ghost predicate AutoReplyOutcome(before: Rows, after: Rows, id: Text, record: Record, now: int, faults: Faults, failsLater: bool,
                                   reply: Result<(), ErrorCode>, readBack: Result<bool, ErrorCode>, r: Result<Told, ErrorCode>) {
    if reply.Ok? && !faults.finish then VerifyOutcome(before, after, id, record, now, faults.(finish := failsLater), readBack, r)
    else WriteOutcome(before, after, id, record, now, faults, ExistingAutoReply, reply, r)
  }

  /** After `begin`: the request, the acknowledgement, and the read-back. */
  method UpdateAutoReply(journal: Journal, id: Text, account: Text, reply: Result<(), ErrorCode>, readBack: Result<bool, ErrorCode>,
                         failsLater: bool, ghost before: Rows, ghost record: Record)
    returns (r: Result<Told, ErrorCode>, ghost acknowledged: Option<Rows>)
    requires id !in before && record.status == Pending && record.steps == 0 && record.account == account
    requires journal.rows == WithRow(before, id, record, journal.now, None)
    modifies journal`rows, journal`failFinish
    ensures AutoReplyOutcome(before, journal.rows, id, record, journal.now, old(FaultsOf(journal)), failsLater, reply, readBack, r)
    ensures acknowledged == if reply.Ok? && !old(journal.failFinish)
                            then Some(WithRow(before, id, record.(status := Partial, steps := 1), journal.now, None)) else None
  {
    acknowledged := None;
    if reply.Err? {
      r := Settle(journal, id, reply, account, before, record, ExistingAutoReply);
      return;
    }
    FinishedRow(before, id, record, journal.now, Partial, 1, None);
    StatusTells(before, id, record, journal.now, Pending, 0, ExistingAutoReply);
    var stored := journal.Finish(id, Partial, 1, None);
    if stored.Err? {
      return Err(OutcomeUnknown), acknowledged;
    }
    acknowledged := Some(journal.rows);
    journal.failFinish := failsLater;
    r := VerifyAutoReply(journal, id, account, readBack, before, record);
  }

  /**
   One automatic-reply update. `admitted` is the outcome of the checks, the permission and the lock,
   `previewed` of the read for a confirmation preview, whose wipe purges the account. After Exchange
   acknowledges the update the row is Partial before anything else happens, so no later call sends it again;
   only a matching read-back makes it Succeeded. `readBack` is whether the settings read back match, or the
   read's error; `failsLater` makes the journal fail from then on.
   */
  method SetAutoReply(journal: Journal, id: Text, payload: Text, account: Text, admitted: Result<(), ErrorCode>,
                      previewed: Result<(), ErrorCode>, reply: Result<(), ErrorCode>, readBack: Result<bool, ErrorCode>,
                      failsLater: bool)
    returns (r: Result<Told, ErrorCode>, attempted: bool, ghost acknowledged: Option<Rows>)
    modifies journal`rows, journal`failFinish
    ensures attempted <==> id !in old(journal.rows) && admitted.Ok? && previewed.Ok?
    ensures id in old(journal.rows) ==>
              AnswersReplay(old(journal.rows), journal.rows, id, Record(account, AutoReply, payload, Pending, 0), ExistingAutoReply, r)
    ensures id !in old(journal.rows) && admitted.Err? ==> r == Err(admitted.error) && journal.rows == old(journal.rows)
    ensures id !in old(journal.rows) && admitted.Ok? && previewed.Err? ==>
              if previewed.error != RemoteWipe then r == Err(previewed.error) && journal.rows == old(journal.rows)
              else r == Err(if Forgets(journal) then RemoteWipe else StorageError)
                   && journal.rows == PurgedRows(old(journal.rows), account, journal.failPurge)
    ensures attempted ==>
              AutoReplyOutcome(old(journal.rows), journal.rows, id, Record(account, AutoReply, payload, Pending, 0), journal.now,
                               old(FaultsOf(journal)), failsLater, reply, readBack, r)
    ensures acknowledged == if attempted && reply.Ok? && !old(journal.failFinish)
                            then Some(WithRow(old(journal.rows), id, Record(account, AutoReply, payload, Partial, 1), journal.now, None))
                            else None
  {
    var candidate := Record(account, AutoReply, payload, Pending, 0);
    attempted, acknowledged := false, None;
    var found := journal.Replay(id, candidate);
    if found.Err? {
      r := Err(found.error);
    } else if found.value.Some? {
      r := Ok(ExistingAutoReply(found.value.value.status));
    } else if admitted.Err? {
      r := Err(admitted.error);
    } else if previewed.Err? {
      r := AccountError(journal, account, previewed.error);
    } else {
      var begun := journal.Begin(id, candidate);
      attempted := true;
      r, acknowledged := UpdateAutoReply(journal, id, account, reply, readBack, failsLater, old(journal.rows), candidate);
    }
  }

  /** `account_result`: an error before any request; a wipe purges the account first, and a failed purge replaces it. */
  method AccountError<T>(journal: Journal, account: Text, code: ErrorCode) returns (r: Result<T, ErrorCode>)
    modifies journal`rows
    ensures code != RemoteWipe ==> r == Err(code) && journal.rows == old(journal.rows)
    ensures code == RemoteWipe ==>
              r == Err(if Forgets(journal) then RemoteWipe else StorageError)
              && journal.rows == PurgedRows(old(journal.rows), account, journal.failPurge)
  {
    if code == RemoteWipe {
      var forgotten := journal.ForgetAccount(account);
      if !forgotten {
        return Err(StorageError);
      }
    }
    return Err(code);
  }

  // ----- Recovery of orphans -----

  /** Accounts with a Pending row. */
  function PendingAccounts(rows: Rows): set<Text> {
    set id | id in rows && rows[id].record.status == Pending :: rows[id].record.account
  }

  /** Recovery may touch the account: it is asked for and nobody holds its write lock. */
  predicate Recoverable(account: Text, held: set<Text>, only: Option<Text>) {
    account !in held && (only.None? || only.value == account)
  }

  function Recovered(e: Entry, held: set<Text>, only: Option<Text>, now: int): Entry {
    if Recoverable(e.record.account, held, only) then RecoverEntry(e, e.record.account, now) else e
  }

  /**
   Startup recovery, or a reader's with `only` one account: exactly the Pending rows of the accounts asked for
   whose write lock is free become Unknown. A row whose account is locked is left to its owner.
   */
  method RecoverPending(journal: Journal, held: set<Text>, only: Option<Text>)
    modifies journal`rows
    ensures journal.rows.Keys == old(journal.rows).Keys
    ensures forall id | id in journal.rows ::
              var e := old(journal.rows)[id];
              journal.rows[id] == if e.record.status == Pending && e.record.account !in held && (only.None? || only.value == e.record.account)
                                  then e.(record := e.record.(status := Unknown), updatedAt := journal.now) else e
  {
    ghost var before := journal.rows;
    var left := PendingAccounts(journal.rows);
    ghost var seen: set<Text> := {};
    while left != {}
      invariant journal.rows.Keys == before.Keys && left + seen == PendingAccounts(before) && left !! seen
      invariant forall id | id in before ::
                  journal.rows[id] == if before[id].record.account in seen then Recovered(before[id], held, only, journal.now) else before[id]
      decreases left
    {
      var account :| account in left;
      left := left - {account};
      seen := seen + {account};
      if (only.None? || only.value == account) && account !in held {
        var _ := journal.RecoverAccount(account);
      }
    }
    forall id | id in before
      ensures journal.rows[id] == Recovered(before[id], held, only, journal.now)
    {
      if before[id].record.status == Pending {
        assert before[id].record.account in PendingAccounts(before);
      }
    }
  }
}
