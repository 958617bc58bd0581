/** Single-message writes: one external step, and for moves a locator that later replays return. */
module MailMutation {
  import opened Base
  import opened JournalModel
  import opened ReferenceCodec
  import opened SingleWrites

  datatype MutationResult = MutationResult(state: Told, mailRef: Option<string>)

  function LocatedMail(account: Text, l: Locator): MailItem {
    MailItem(account, l.folderId, Item(l.folderId, l.serverId), [])
  }

  /** What a repeated UUID is told, from the stored row alone. */
  function ReplayAnswer(rows: Rows, f: Formats, id: Text, candidate: Record): Result<Option<MutationResult>, ErrorCode> {
    match ReplayResult(rows, id, candidate)
    case Err(e) => Err(e)
    case Ok(None) => Ok(None)
    case Ok(Some(record)) =>
      if record.status == Pending || record.status == Unknown then Err(OutcomeUnknown)
      else if rows[id].locator.None? then Ok(Some(MutationResult(ExistingSend(record.status), None)))
      else
        match EncodeMail(f, LocatedMail(record.account, rows[id].locator.value))
        case Err(e) => Err(e)
        case Ok(ref) => Ok(Some(MutationResult(ExistingSend(record.status), Some(ref))))
  }

  method Replay(journal: Journal, f: Formats, id: Text, candidate: Record)
    returns (r: Result<Option<MutationResult>, ErrorCode>)
    ensures r == ReplayAnswer(journal.rows, f, id, candidate)
  {
    var found := journal.Replay(id, candidate);
    if found.Err? {
      return Err(found.error);
    }
    if found.value.None? {
      return Ok(None);
    }
    var record := found.value.value;
    if record.status == Pending || record.status == Unknown {
      return Err(OutcomeUnknown);
    }
    var entry := journal.rows[id];
    var ref: Option<string> := None;
    if entry.locator.Some? {
      var encoded := EncodeMail(f, LocatedMail(record.account, entry.locator.value));
      if encoded.Err? {
        return Err(encoded.error);
      }
      ref := Some(encoded.value);
    }
    return Ok(Some(MutationResult(ExistingSend(record.status), ref)));
  }

  /** Stores the reply to the one external step. */
  method Finish(journal: Journal, f: Formats, id: Text, mail: MailItem, reply: Result<MailSource, ErrorCode>)
    returns (r: Result<MutationResult, ErrorCode>)
    modifies journal`rows
    ensures reply.Err? && reply.error == RemoteWipe ==>
              r == Err(WipeError(Forgets(journal))) && journal.rows == PurgedRows(old(journal.rows), mail.account, journal.failPurge)
    ensures reply.Err? && reply.error != RemoteWipe ==>
              var status := if reply.error == OutcomeUnknown then Unknown else Failed;
              if journal.failFinish || id !in old(journal.rows) then r == Err(OutcomeUnknown) && journal.rows == old(journal.rows)
              else r == Err(reply.error) && journal.rows == FinishRows(old(journal.rows), id, status, 0, None, journal.now)
    ensures reply.Ok? && reply.value.LongId? ==> r == Err(OutcomeUnknown) && journal.rows == old(journal.rows)
    ensures reply.Ok? && reply.value.Item? ==>
              var l := Locator(reply.value.folderId, reply.value.serverId);
              && journal.rows == (if journal.failFinish then old(journal.rows)
                                  else FinishRows(old(journal.rows), id, Succeeded, 1, Some(l), journal.now))
              && r == if journal.failFinish || !CanFinish(old(journal.rows), id, Succeeded, Some(l)) then Err(OutcomeUnknown)
                      else match EncodeMail(f, LocatedMail(mail.account, l))
                           case Ok(ref) => Ok(MutationResult(ToldSucceeded, Some(ref)))
                           case Err(_) => Err(OutcomeUnknown)
  {
    match reply
    case Err(code) =>
      if code == RemoteWipe {
        var forgotten := journal.ForgetAccount(mail.account);
        return Err(WipeError(forgotten));
      }
      var status := if code == OutcomeUnknown then Unknown else Failed;
      var stored := journal.Finish(id, status, 0, None);
      if stored.Err? {
        return Err(OutcomeUnknown);
      }
      return Err(code);
    case Ok(source) =>
      if source.LongId? {
        return Err(OutcomeUnknown);
      }
      var locator := Locator(source.folderId, source.serverId);
      var stored := journal.Finish(id, Succeeded, 1, Some(locator));
      if stored.Err? {
        return Err(OutcomeUnknown);
      }
      var moved := mail.(folderId := source.folderId, source := source);
      var ref := EncodeMail(f, moved);
      if ref.Err? {
        return Err(OutcomeUnknown);
      }
      return Ok(MutationResult(ToldSucceeded, Some(ref.value)));
  }

  /** A locator is stored with a confirmed success only, and is always a valid one. */
  ghost predicate LocatorsConfirmed(rows: Rows) {
    forall id | id in rows && rows[id].locator.Some? ::
      rows[id].record.status == Succeeded && ValidLocator(rows[id].locator.value)
  }

  lemma LocatorsStayConfirmed(rows: Rows, id: Text, r: Record, status: Status, steps: bv32, l: Option<Locator>,
                              account: Text, now: int)
    requires LocatorsConfirmed(rows)
    ensures LocatorsConfirmed(BeginRows(rows, id, r, now))
    ensures LocatorsConfirmed(CheckpointRows(rows, id, steps, now))
    ensures LocatorsConfirmed(FinishRows(rows, id, status, steps, l, now))
    ensures LocatorsConfirmed(RecoverRows(rows, account, now))
    ensures LocatorsConfirmed(rows - PrunableRows(rows, now).Keys)
    ensures LocatorsConfirmed(rows - AccountRows(rows, account).Keys)
  {
  }

  /** The row answers every later replay of the same input, in any process, like this. */
  ghost predicate Answers(rows: Rows, f: Formats, id: Text, record: Record, answer: Result<Option<MutationResult>, ErrorCode>) {
    && id in rows
    && forall later: Rows, asker: Record ::
         id in later && later[id] == rows[id] && SameInput(record, asker) ==> ReplayAnswer(later, f, id, asker) == answer
  }

  /** The row stays Pending, and the outcome is unknown now and in every later replay. */
  ghost predicate LeftUnknown(before: Rows, after: Rows, f: Formats, id: Text, record: Record, now: int,
                              r: Result<MutationResult, ErrorCode>) {
    r == Err(OutcomeUnknown) && after == WithRow(before, id, record, now, None) && Answers(after, f, id, record, Err(OutcomeUnknown))
  }

  /** What the reply to an attempted write makes of the caller's answer, the row, and every later replay. */
  ghost predicate MutateOutcome(before: Rows, after: Rows, f: Formats, id: Text, record: Record, now: int, faults: Faults,
                                reply: Result<MailSource, ErrorCode>, r: Result<MutationResult, ErrorCode>) {
    match reply
    case Err(code) =>
      if code == RemoteWipe then
        && r.Err? && WipeOutcome(before, after, id, record, now, faults, r.error)
        && (faults.purge ==> Answers(after, f, id, record, Err(OutcomeUnknown)))
      else if faults.finish then LeftUnknown(before, after, f, id, record, now, r)
      else if code == OutcomeUnknown then
        && r == Err(OutcomeUnknown) && after == WithRow(before, id, record.(status := Unknown), now, None)
        && Answers(after, f, id, record, Err(OutcomeUnknown))
      else
        && r == Err(code) && after == WithRow(before, id, record.(status := Failed), now, None)
        && Answers(after, f, id, record, Ok(Some(MutationResult(ToldFailed, None))))
    case Ok(source) =>
      if source.LongId? || faults.finish || !ValidRequired(source.folderId, 8192) || !ValidRequired(source.serverId, 8192) then
        LeftUnknown(before, after, f, id, record, now, r)
      else
        && after == WithRow(before, id, record.(status := Succeeded, steps := 1), now, Some(Locator(source.folderId, source.serverId)))
        && Referenced(after, f, id, record, source, r)
  }

  /** The new place's reference is returned now and by every later replay; one that does not encode is unknown now. */
  ghost predicate Referenced(after: Rows, f: Formats, id: Text, record: Record, source: MailSource,
                             r: Result<MutationResult, ErrorCode>)
    requires source.Item?
  {
    var encoded := EncodeMail(f, MailItem(record.account, source.folderId, source, []));
    if encoded.Ok? then
      && r == Ok(MutationResult(ToldSucceeded, Some(encoded.value)))
      && Answers(after, f, id, record, Ok(Some(MutationResult(ToldSucceeded, Some(encoded.value)))))
    else r == Err(OutcomeUnknown) && Answers(after, f, id, record, Err(encoded.error))
  }

  /** The replies of a row are decided by its status and locator. */
  lemma RowAnswers(rows: Rows, f: Formats, id: Text, record: Record)
    requires id in rows && SameInput(rows[id].record, record)
    ensures rows[id].record.status in {Pending, Unknown} ==> Answers(rows, f, id, record, Err(OutcomeUnknown))
    ensures rows[id].record.status == Failed && rows[id].locator.None? ==>
              Answers(rows, f, id, record, Ok(Some(MutationResult(ToldFailed, None))))
    ensures rows[id].record.status == Succeeded && rows[id].locator.Some? ==>
              var encoded := EncodeMail(f, LocatedMail(rows[id].record.account, rows[id].locator.value));
              Answers(rows, f, id, record, if encoded.Err? then Err(encoded.error)
                                           else Ok(Some(MutationResult(ToldSucceeded, Some(encoded.value)))))
  {
  }

  ghost predicate NewRecord(before: Rows, id: Text, record: Record) {
    id !in before && record.status == Pending && record.steps == 0
  }

  lemma UnknownSettles(before: Rows, f: Formats, id: Text, record: Record, now: int)
    requires NewRecord(before, id, record)
    ensures LeftUnknown(before, WithRow(before, id, record, now, None), f, id, record, now, Err(OutcomeUnknown))
  {
    RowAnswers(WithRow(before, id, record, now, None), f, id, record);
  }

  lemma FailureSettles(before: Rows, f: Formats, id: Text, record: Record, now: int, faults: Faults, code: ErrorCode)
    requires NewRecord(before, id, record) && code != RemoteWipe && !faults.finish
    ensures var status := if code == OutcomeUnknown then Unknown else Failed;
            MutateOutcome(before, FinishRows(WithRow(before, id, record, now, None), id, status, 0, None, now), f, id, record,
                          now, faults, Err(code), Err(code))
  {
    var status := if code == OutcomeUnknown then Unknown else Failed;
    var after := FinishRows(WithRow(before, id, record, now, None), id, status, 0, None, now);
    assert after == WithRow(before, id, record.(status := status), now, None);
    RowAnswers(after, f, id, record);
  }

  lemma SuccessSettles(before: Rows, f: Formats, id: Text, record: Record, now: int, faults: Faults, source: MailSource,
                       r: Result<MutationResult, ErrorCode>)
    requires NewRecord(before, id, record) && source.Item? && !faults.finish
    requires ValidLocator(Locator(source.folderId, source.serverId))
    requires var encoded := EncodeMail(f, LocatedMail(record.account, Locator(source.folderId, source.serverId)));
             r == if encoded.Ok? then Ok(MutationResult(ToldSucceeded, Some(encoded.value))) else Err(OutcomeUnknown)
    ensures var l := Some(Locator(source.folderId, source.serverId));
            MutateOutcome(before, FinishRows(WithRow(before, id, record, now, None), id, Succeeded, 1, l, now), f, id, record,
                          now, faults, Ok(source), r)
  {
    var l := Some(Locator(source.folderId, source.serverId));
    var after := FinishRows(WithRow(before, id, record, now, None), id, Succeeded, 1, l, now);
    assert after == WithRow(before, id, record.(status := Succeeded, steps := 1), now, l);
    RowAnswers(after, f, id, record);
  }

  /** Stores the reply of an attempted write in the row just inserted for it. */
  method Settle(journal: Journal, f: Formats, id: Text, mail: MailItem, reply: Result<MailSource, ErrorCode>,
                ghost before: Rows, ghost record: Record)
    returns (r: Result<MutationResult, ErrorCode>)
    requires NewRecord(before, id, record) && mail.account == record.account
    requires journal.rows == WithRow(before, id, record, journal.now, None)
    modifies journal`rows
    ensures MutateOutcome(before, journal.rows, f, id, record, journal.now, FaultsOf(journal), reply, r)
  {
    WipeForgets(before, id, record, journal.now);
    UnknownSettles(before, f, id, record, journal.now);
    r := Finish(journal, f, id, mail, reply);
    if reply.Err? {
      if reply.error != RemoteWipe && !journal.failFinish {
        FailureSettles(before, f, id, record, journal.now, FaultsOf(journal), reply.error);
      }
    } else if reply.value.Item? && !journal.failFinish && ValidLocator(Locator(reply.value.folderId, reply.value.serverId)) {
      SuccessSettles(before, f, id, record, journal.now, FaultsOf(journal), reply.value, r);
    }
  }

  /**
   Runs one mail write. `admitted` is the outcome of the checks, the permission, the lock and the preview,
   `resolved` the message the backend resolves under the lock, `reply` its answer to the external request;
   all are arbitrary. The request is made exactly when the UUID is new, admitted and the message resolves. What
   the caller is told, what the row says and what every later replay is told follow from the reply and the
   local faults alone, and agree.
   */
  method Mutate(journal: Journal, f: Formats, id: Text, kind: Kind, payload: Text, account: Text,
                admitted: Result<(), ErrorCode>, resolved: Result<MailItem, ErrorCode>, reply: Result<MailSource, ErrorCode>)
    returns (r: Result<MutationResult, ErrorCode>, attempted: bool)
    requires resolved.Ok? ==> resolved.value.account == account
    requires LocatorsConfirmed(journal.rows)
    modifies journal`rows
    ensures LocatorsConfirmed(journal.rows)
    ensures attempted <==> id !in old(journal.rows) && admitted.Ok? && resolved.Ok?
    ensures id !in old(journal.rows) && admitted.Err? ==> r == Err(admitted.error) && journal.rows == old(journal.rows)
    ensures id !in old(journal.rows) && admitted.Ok? && resolved.Err? ==>
              if resolved.error != RemoteWipe then r == Err(resolved.error) && journal.rows == old(journal.rows)
              else r == Err(if Forgets(journal) then RemoteWipe else StorageError)
                   && journal.rows == PurgedRows(old(journal.rows), account, journal.failPurge)
    ensures id in old(journal.rows) ==>
              && journal.rows == old(journal.rows)
              && ReplayAnswer(old(journal.rows), f, id, Record(account, kind, payload, Pending, 0))
                 == match r
                    case Ok(known) => Ok(Some(known))
                    case Err(e) => Err(e)
    ensures attempted ==>
              MutateOutcome(old(journal.rows), journal.rows, f, id, Record(account, kind, payload, Pending, 0), journal.now,
                            FaultsOf(journal), reply, r)
  {
    attempted := false;
    var candidate := Record(account, kind, payload, Pending, 0);
    var answer := Replay(journal, f, id, candidate);
    if answer.Err? {
      return Err(answer.error), attempted;
    }
    if answer.value.Some? {
      return Ok(answer.value.value), attempted;
    }
    if admitted.Err? {
      return Err(admitted.error), attempted;
    }
    if resolved.Err? {
      r := AccountError(journal, account, resolved.error);
      return;
    }
    var begun := journal.Begin(id, candidate);
    attempted := true;
    r := Settle(journal, f, id, resolved.value, reply, old(journal.rows), candidate);
    OutcomeConfirmed(old(journal.rows), journal.rows, f, id, candidate, journal.now, FaultsOf(journal), reply, r);
  }

  lemma OutcomeConfirmed(before: Rows, after: Rows, f: Formats, id: Text, record: Record, now: int, faults: Faults,
                         reply: Result<MailSource, ErrorCode>, r: Result<MutationResult, ErrorCode>)
    requires LocatorsConfirmed(before) && NewRecord(before, id, record)
    requires MutateOutcome(before, after, f, id, record, now, faults, reply, r)
    ensures LocatorsConfirmed(after)
  {
  }
}
