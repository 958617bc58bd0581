# Verified model of the Exchange ActiveSync mail and calendar server

This project models the decision logic of the `app` and `eas` crates in Dafny and proves what that logic is
for. It has seven independent parts.

* **The idempotent write protocol** (`Journal`, `WriteProtocol`, `ProtocolSafety`, `ProtocolTruth`,
  `ProtocolJournal`, `ProtocolResults`, `ProtocolConflict`, `ProtocolRefusal`, `ProtocolReference`,
  `ProtocolProgress`, `SingleWrites`, `CalendarEdit`, `MailMutation`, `MailBatch`).
  `Journal` is the operation journal as a class. `WriteProtocol` is a labelled transition system: any number of
  calls in any number of processes share one journal and one write lock per account, requests travel through a
  network that may deliver late, and every call may crash or be cancelled between any two steps. The proofs
  hold for every run of every workload. Sending, automatic replies, calendar edits, mail changes, batches and
  orphan recovery are methods proved against the same journal functions.
* **Transport** (`Transport`): how often a command is sent and what its error says about its effect.
* **Cursors** (`References`, `Paging`): the bounded FIFO of one-shot pagination cursors, as a class and as a
  transition system of concurrent callers.
* **Availability** (`Intervals`, `Availability`): half-hour slots from several pages assembled into canonical
  status intervals.
* **Calendar translations** (`Gregorian`, `Recurrence`, `Occurrences`, `ZoneScan`, `ZoneEncoding`, `ZoneMeaning`):
  Exchange recurrence rules into the RRULE of section 3.3.10 of RFC 5545, the position of an occurrence in its
  series, and a zone's year into the TimeZone structure of section 2.7.6 of MS-ASDTYPE, read back by the
  repository's own reader.
* **Mail search** (`MailSearch`): the bounded search over an untrusted server and its completeness claim.
* **Portable references** (`Base64`, `ReferenceCodec`): the tagged, unpadded URL-safe base64 of section 5 of
  RFC 4648 around a JSON payload.

## Assumptions

* A backend error other than an unknown outcome means the step had no effect, except for the item steps of
  calendar plans, whose backend calls go on working after Exchange has accepted the change; for these the model
  lets an ordinary error follow an applied step. `Transport.MutationErrorsAreSound` proves the assumption of one
  transport call, given that a server which explicitly refuses a request has not carried it out. The backend
  between transport and journal repeats a mutation after an explicit HTTP 449 or an invalid SyncKey
  (crates/app/src/backend/eas_mailbox/calendar_write.rs:256-270), so "at most once" there is per transport call.
* Payloads are compared by a keyed hash; the model compares the payloads, so the hash is taken to be injective.
* A write lock is a mutex that is freed when its process dies or its call is cancelled. Lock waits end in success
  or not at all. One SQLite transaction is one atomic step.
* The backend returns items of the account whose lock is held.
* The steps of one plan carry pairwise distinct single bits, as the source's step constants do.
* One request is delivered to Exchange at most once.
* The JSON text of a valid payload reads back as the payload (`ReferenceCodec.Lossless`).
* Cursor ids are fresh.
* Clocks, identifiers, filters, server answers and the time-zone database are parameters or arbitrary values.

## What the code does not promise

* `finish` and `checkpoint` find their row by UUID alone, and an account purge takes no write lock. When one UUID is
  used for two accounts, a call that outlives the purge of its account can change the row of a live call on
  the other account. `ProtocolConflict.RowsSafeIffOneAccountPerUuid` proves that rows are safe in every run of a
  workload exactly when no UUID is used for two accounts; results that rely on it say so in their `requires`.
* A calendar row that says Failed, or Partial, can deny a step that took effect. `add_event`, `change_event` and
  `delete_event` do further fallible work after Exchange has accepted the change
  (crates/app/src/backend/eas_mailbox/calendar_write.rs:43-50,74-77,92: a missing ServerId or SyncKey, and a fresh
  scan for the new event, which also fails for an event outside the sync window,
  crates/app/src/backend/eas_mailbox/calendar_binding.rs:11-66), and an ordinary error of it is stored like a
  refusal (crates/app/src/runtime/calendar_writes.rs:224-249). `ProtocolRefusal.AppliedThenFailed` builds such a run
  for every item step of every workload; `ProtocolRefusal.RefusalsSafeIffNoItemSteps` proves that the Failed and
  Partial clauses hold in every run of a workload exactly when no request of it has an item step. Masks,
  prefixes, Succeeded, at-most-once and finality do not depend on this.
* After a remote wipe a purge of local data that fails is told as an unknown outcome, and the row may or may not be
  gone (`SingleWrites.FinishWrite`, `CalendarEdit.Fail`, `MailMutation.Finish`).
* `merge_status_intervals` on empty intervals: `Intervals.EmptyIntervalsDependOnOrder` is a pair of orders with
  different results, `Intervals.OrderMattersOnlyAtTies` proves that order can matter only when different intervals,
  an empty one among them, start at one instant, and `Intervals.FailsExactly` proves, for all inputs, that the merge
  fails exactly on a conflict or on an empty interval that begins inside an earlier one of another status. Its
  callers build only non-empty intervals (`Availability.SlotsStatus`), and for those the result is canonical.
* Why a participant has no intervals depends on the order of the pages: the last reason is reported
  (`Availability.ReasonIsTheLast`, `Availability.ReasonDependsOnOrder`).
* A regular zone whose total offset is its base plus its daylight saving, and whose changes belong to the UTC year
  exactly when they belong to the local one, is understood from its packed structure exactly when it ends the year
  on the offset it began with, and is on standard time when it never changes (`ZoneMeaning.StructureMeansZone`).
  The encoder never compares the first and the last regime, and encodes the base offset of a zone that spends the
  whole year in daylight time, as New York did in 1943 (`ZoneMeaning.PermanentDaylightIsMisread`).
* A yearly rule whose month comes before the first date's month numbers every occurrence one too low, the first of
  them 0 (crates/app/src/runtime/calendar_agenda/recurrence/pattern.rs:185-193 counts one cycle too few), so that a
  series of n occurrences keeps n + 1. `Occurrences.CountIsKeptIff` proves that this is the only case. Series the
  repository writes start on their first occurrence and are never of that kind (`Occurrences.OwnSeriesStartAtOne`);
  RFC 5545 leaves a first date that is not an occurrence undefined, and this model counts the rule's dates alone.

## Model

| member | source | states |
|---|---|---|
| JournalModel.Journal.Replay | crates/app/src/runtime/writes.rs:216-233 | the replay check answers with the stored row for equal kind and payload, a conflict for different input, nothing for a new UUID, and changes nothing |
| JournalModel.Journal.Begin | crates/app/src/journal/sqlite.rs:141-185 | inserts exactly one Pending row for a new UUID; otherwise leaves every row alone and reports the existing one or a conflict |
| JournalModel.Journal.Checkpoint | crates/app/src/journal/sqlite.rs:187-199 | sets the mask of exactly the one Pending row, or fails and changes nothing |
| JournalModel.Journal.Finish | crates/app/src/journal/sqlite.rs:201-220 | moves exactly one row to its final status and mask, with a locator only for a valid one on success, or fails and changes nothing |
| JournalModel.Journal.RecoverAccount | crates/app/src/journal/sqlite.rs:129-139 | the loop turns exactly the account's Pending rows to Unknown |
| JournalModel.Journal.Prune | crates/app/src/journal/sqlite.rs:222-232 | removes exactly the Succeeded and Failed rows last updated more than 90 days ago |
| JournalModel.KeptNinetyDays | crates/app/src/journal/sqlite.rs:222-232 | a finished row is pruned exactly when it is Succeeded or Failed and was finished more than 90 days ago |
| JournalModel.Journal.PurgeAccount | crates/app/src/journal/sqlite.rs:234-241 | removes exactly the account's rows, or fails and removes none |
| JournalModel.Journal.ForgetAccount | crates/app/src/runtime/mod.rs:269-277 | the runtime's purge tries every store: the rows are gone exactly when the journal's own purge worked, and it succeeds exactly when every store's did |
| ProtocolSafety.LockOwnership | crates/app/src/write_lock.rs:21-51 | in every reachable state a row whose owner can still act is protected by that owner's hold on the row's account lock, and no account lock has two holders |
| ProtocolSafety.RecoveryTouchesOrphansOnly | crates/app/src/runtime/mod.rs:127-131 | recovery, at startup or by a reader, changes exactly the account's Pending rows to Unknown, and only rows whose inserter can no longer act |
| ProtocolSafety.AtMostOnce | crates/app/src/runtime/writes.rs:97-125 | two attempts of one step of one UUID come from different insertions of its row, and between them the row was purged with its account or pruned as Succeeded or Failed after 90 days |
| ProtocolSafety.RemovedBetween | crates/app/src/journal/sqlite.rs:141-185 | between two insertions of one UUID its row was legitimately removed |
| ProtocolTruth.CallsTrueStep | crates/app/src/runtime/calendar_writes.rs:186-260 | every step keeps what each program counter claims about the effects of its call, an ordinary error after an applied calendar item step included |
| ProtocolJournal.SoundHolds | crates/app/src/runtime/mutation_journal.rs:11-76 | in every reachable state every row is true of the call that inserted it, its mask being the confirmed prefix's or one step behind; a refused step had no effect unless it is a calendar item step |
| ProtocolResults.RowsTellTheTruth | crates/app/src/runtime/calendar_writes.rs:186-260 | the applied steps are a prefix of the plan plus at most the step after it; Succeeded means all of it; Failed and Partial mean the confirmed prefix, empty for Failed and non-empty for Partial, and nothing now or later beyond it but a refused calendar item step; mail rows are never Partial |
| ProtocolResults.WritersAreOwners | crates/app/src/journal/sqlite.rs:187-220 | a row changes only by its owner's checkpoint or finish, or by recovery of an orphan |
| ProtocolResults.SettledRowsAreFinal | crates/app/src/runtime/auto_reply.rs:59-150 | Succeeded, Failed and Unknown are final; Partial can only become Succeeded, by its owner within the same lock tenure |
| ProtocolResults.ReportsTellTheTruth | crates/app/src/runtime/writes.rs:260-274 | a replay that says Succeeded means every step took effect, Failed none but possibly a refused calendar item step; its locator is the confirmed one; a call's own report is true in the same sense |
| ProtocolResults.RepliesHaveNoEffect | crates/app/src/runtime/writes.rs:216-233 | in every run a call that ends with a replay or a conflict has inserted no row, sent no request, and nothing of it can still take effect |
| ProtocolConflict.Overwrite | crates/app/src/journal/sqlite.rs:187-220 | a concrete run in which one UUID on two accounts lets a purged call overwrite a live call's row |
| ProtocolConflict.RowsSafeIffOneAccountPerUuid | crates/app/src/journal/sqlite.rs:187-241 | rows are safe in every run of a workload exactly when no UUID is used for two accounts |
| ProtocolRefusal.AppliedThenFailed | crates/app/src/backend/eas_mailbox/calendar_write.rs:32-51 | for every workload and every calendar item step in it, a run in which the step takes effect and the row then says Failed, or Partial without it |
| ProtocolRefusal.RefusalsSafeIffNoItemSteps | crates/app/src/runtime/calendar_writes.rs:209-260 | Failed means nothing took effect and Partial nothing beyond the confirmed prefix, for rows, reports and replays in every run of a workload, exactly when no request has a calendar item step |
| ProtocolReference.ReferenceSurvives | crates/app/src/runtime/mail_mutation.rs:194-226 | a reference that a call's row gives at one step is returned, the very same string, by any replay at any later step of the run with the row still the call's |
| ProtocolReference.ReplaysReportTheRow | crates/app/src/runtime/writes.rs:216-233 | a replay that a run makes later reports exactly the Succeeded row as it was |
| ProtocolProgress.EveryWriteCanSucceed | crates/app/src/runtime/calendar_edits.rs:87-128 | for every write of every workload there is a run in which all its steps take effect, its row says Succeeded with the full mask and the confirmed locator, and the call reports success and frees its lock |
| SingleWrites.Send | crates/app/src/runtime/writes.rs:97-125 | one request exactly for a new UUID that is admitted; for every reply and local fault, what the caller is told, the whole journal, and what every later replay is told; an acknowledged send without faults is told and stored as Succeeded |
| SingleWrites.FinishWrite | crates/app/src/runtime/mutation_journal.rs:32-75 | the reply decides what the caller is told and the row's status and mask; a finish that fails is told as unknown and changes nothing; a remote wipe purges the account, and a purge that fails is told as unknown |
| SingleWrites.SetAutoReply | crates/app/src/runtime/auto_reply.rs:59-150 | one request exactly for a new UUID that is admitted and previewed; after the acknowledgement the row already says Partial, so nothing is sent again; for every reply, read-back and local fault, what the caller is told, the whole journal, and what every later replay is told; a matching read-back without faults is told and stored as Succeeded |
| SingleWrites.VerifyAutoReply | crates/app/src/runtime/auto_reply.rs:105-140 | the read-back turns the Partial row into Succeeded exactly when the settings match and the journal works, otherwise leaves it, and purges the account on a wipe, told as unknown when that fails |
| SingleWrites.AccountError | crates/app/src/runtime/mod.rs:262-267 | an error before any request is passed on, a wipe only after the purge, whose own failure replaces it |
| SingleWrites.RecoverPending | crates/app/src/runtime/operation_reads.rs:60-73 | the loop marks Unknown exactly the Pending rows of the accounts asked for whose lock is free |
| CalendarEdit.Execute | crates/app/src/runtime/calendar_edits.rs:58-130 | a known UUID is answered from its row; a new one is run as far as replies and local faults let it: confirmed steps are a prefix of items then notices, the edit goes on exactly when the checkpoint works and a taken reference encodes, and caller, status, mask, reference and the whole journal follow from the replies and the faults |
| CalendarEdit.UnknownIffLocalFault | crates/app/src/runtime/mutation_journal.rs:7-29 | a begun edit is told as unknown exactly when a checkpoint or a finish fails, a taken reference does not encode, or a purge after a wipe fails; success exactly when the whole plan is confirmed and none of these happens |
| CalendarEdit.UndisturbedSucceeds | crates/app/src/runtime/calendar_edits.rs:58-129 | when every reply acknowledges and nothing fails locally, the whole plan is attempted, and caller and row say Succeeded with the full mask |
| CalendarEdit.RunItems | crates/app/src/runtime/calendar_edits.rs:87-112 | the item loop runs every item or ends the edit as its replies and faults decide, and leaves the reference the rule says |
| CalendarEdit.RunNotices | crates/app/src/runtime/calendar_edits.rs:113-125 | the notice loop runs every notice or ends the edit as its replies and faults decide, and leaves the reference alone |
| CalendarEdit.Fail | crates/app/src/runtime/calendar_writes.rs:209-260 | a refused step stores Unknown, Failed or Partial by its code and mask; a remote wipe purges the account, and a purge that fails is told as unknown |
| CalendarEdit.MaskHolds | crates/app/src/runtime/calendar_write_result.rs:6-30 | a prefix's mask has a step's bit exactly when the step is in the prefix |
| CalendarEdit.ReferenceStep | crates/app/src/runtime/calendar_edits.rs:98-110 | the mask test in the loop takes the reference of exactly the steps that create the new series or come before it |
| MailMutation.Mutate | crates/app/src/runtime/mail_mutation.rs:91-146 | one request exactly for a new UUID that is admitted and whose message resolves; for every reply and local fault, what the caller is told, the whole journal, and the answer of every later replay: an unknown outcome is stored and replayed as unknown, a refusal as failed, a confirmed place as that place's reference |
| MailMutation.Finish | crates/app/src/runtime/mail_mutation.rs:148-192 | success stores the confirmed locator, and the returned reference names that location; a purge that fails after a wipe is told as unknown |
| MailMutation.Replay | crates/app/src/runtime/mail_mutation.rs:194-226 | the replayed answer is a function of the stored row and changes nothing |
| MailMutation.LocatorsStayConfirmed | crates/app/src/journal/sqlite.rs:201-269 | no journal operation leaves a locator on a row that is not Succeeded, or an invalid one |
| MailBatch.RunBatch | crates/app/src/runtime/mail_batch.rs:113-152 | entries match the input in order and length; an entry is skipped exactly when an earlier write of its account answered, or an earlier refusal was, an unknown outcome, and names the first such UUID; every other entry reports its refusal or the very response of the one write made for its own item |
| Transport.ReadBody | crates/eas/src/transport.rs:152-165 | succeeds with the whole body exactly when no chunk broke and the body fits the limit; otherwise the error is that of the first chunk that broke or did not fit |
| Transport.Normalize | crates/eas/src/transport.rs:115-166 | the response tests in order, every unusable answer to a mutation becoming an unknown outcome |
| Transport.Command | crates/eas/src/transport.rs:224-244 | asks the gate once and sends exactly what it admits, again only while nothing was answered: three times, or once for a mutation, before it gives up, and only the last try can be answered |
| Transport.MutationErrorsAreSound | crates/eas/src/client.rs:357-410 | a client call for a mutation tries at most once; it fails with anything but an unknown outcome exactly when it was not sent or the server explicitly refused it, and succeeds exactly when the server accepted it |
| Transport.MutationAnswers | crates/eas/src/client.rs:357-419 | for every answer to a mutation, which error the caller gets, or whose value |
| Transport.ReadAnswers | crates/eas/src/client.rs:346-394 | for every answer to a repeatable command, which error the caller gets, or which body |
| CursorStore.References.StoreCursor | crates/app/src/references.rs:187-201 | prunes when due, evicts the oldest until 31 are left, appends the new cursor with a 15-minute life, and keeps the store valid |
| CursorStore.References.FirstPage | crates/app/src/references.rs:163-169 | returns the first items up to the limit and stores a cursor exactly when more remain |
| CursorStore.References.NextPage | crates/app/src/references.rs:171-185 | consumes an unexpired cursor once, returns its next items up to the limit and stores the next cursor, or reports it expired |
| CursorStore.References.PurgeAccount | crates/app/src/references.rs:116-121 | drops every cursor |
| CursorStore.StoredValid | crates/app/src/references.rs:187-201 | storing keeps the queue duplicate-free, equal to the stored ids and at most 32 long |
| CursorStore.TakenValid | crates/app/src/references.rs:171-178 | consuming removes the cursor and only it and expired ones |
| CursorStore.StaleForLessThanAMinute | crates/app/src/references.rs:254-272 | right after a cursor is stored no held cursor has been expired for a minute |
| CursorStore.EvictionIsFifo | crates/app/src/references.rs:192-196 | an unexpired cursor is dropped only when 32 are held, and every kept one is younger |
| CursorStore.LivesFifteenMinutes | crates/app/src/references.rs:187-201 | a stored cursor is found, as it was, for exactly 15 minutes |
| CursorStore.NothingDroppedInBetween | crates/app/src/references.rs:187-201 | within a minute of the last prune and below 32 cursors storing drops nothing |
| Paging.PagingIsExact | crates/app/src/references.rs:163-201 | under any interleaving with eviction, expiry and purge each listing has at most one cursor stored or in flight, and its delivered pages are together exactly a prefix of it |
| Paging.CursorsAreOneShot | crates/app/src/references.rs:171-178 | a consumed cursor is never found again |
| Paging.DrainIsComplete | crates/app/src/references.rs:171-185 | an undisturbed drain with positive limits ends and returns exactly the remaining items |
| Paging.ListingIsComplete | crates/app/src/references.rs:163-185 | first page and drain together return exactly the listing |
| Intervals.MergeStatusIntervals | crates/app/src/runtime/schedule.rs:238-258 | the loop computes the specified merge |
| Intervals.MergeIsCanonical | crates/app/src/runtime/schedule.rs:238-258 | fails exactly when overlapping intervals disagree; otherwise sorted, disjoint, maximal and equal to the input at every instant |
| Intervals.CanonicalIsUnique | crates/app/src/runtime/schedule.rs:238-258 | canonical lists that agree at every instant are equal |
| Intervals.PermutationMergesAlike | crates/app/src/runtime/schedule.rs:238-258 | any reordering of the input merges to the same result |
| Intervals.EmptyIntervalsDependOnOrder | crates/app/src/runtime/schedule.rs:238-258 | a concrete empty interval whose position decides between success and a conflict |
| Intervals.OrderMattersOnlyAtTies | crates/app/src/runtime/schedule.rs:238-258 | for all inputs, reordering changes nothing when different intervals start at different times or none is empty |
| Intervals.FailsExactly | crates/app/src/runtime/schedule.rs:238-258 | for all inputs, empty intervals included, the merge fails exactly on a conflict or on an empty interval that begins inside an earlier one of another status |
| Availability.Accumulator.MergeCandidateAvailability | crates/app/src/runtime/schedule.rs:149-179 | one page's slots become clipped intervals, and a page without slots clears them for good |
| Availability.Accumulator.MergeResponse | crates/app/src/runtime/schedule.rs:119-189 | accepts a page exactly when it agrees with the earlier ones on who was resolved, and then holds the resolution, the largest total, the merged candidates, the name and the availability |
| Availability.CandidatesAreDistinct | crates/app/src/runtime/schedule.rs:191-203 | candidates are only added, never one email twice whatever its case, at most ten, all of them from the page's first ten, every one of which is listed while there is room |
| Availability.SameIgnoringCase | crates/app/src/runtime/schedule.rs:181-195 | emails are compared up to the case of ASCII letters and nothing else |
| Availability.SlotsTile | crates/eas/src/client.rs:272-278 | the requested number of slots tiles the range exactly, the last one truncated |
| Availability.SlotsStatus | crates/app/src/runtime/schedule.rs:149-179 | a page's intervals give each working instant the status of its half-hour slot and nothing else, and are never empty |
| Availability.Prepare | crates/app/src/runtime/schedule.rs:60-84 | the loops over pages and participants give every participant the schedule specified for its own pages, and fail exactly on a wrong participant count, some participant's failure, or a result over the size limit |
| Availability.AvailabilityIsPointwise | crates/app/src/runtime/schedule.rs:119-236 | available exactly when every page of a consistently resolved participant gave slots, then canonical and pointwise right or failing exactly on disagreement; otherwise no intervals |
| Availability.ScheduleNames | crates/app/src/runtime/schedule.rs:119-236 | besides availability: the pages' resolution, the largest total, a resolved name's last name and email, and for any other name the candidates of the pages' first tens that come first with their emails, in order, at most ten |
| Availability.FirstsExact | crates/app/src/runtime/schedule.rs:191-203 | the places `ScheduleNames` lists are ascending and exactly those of candidates whose email has not come before |
| Availability.ColumnAt | crates/app/src/runtime/schedule.rs:102-117 | a participant's pages are, in order, its own responses with their ranges |
| Availability.PageOrderIsIrrelevant | crates/app/src/runtime/schedule.rs:149-179 | when every page gave slots, the intervals, availability, resolution and total, or the failure, are the same for every order of the pages |
| Availability.ReasonIsTheLast | crates/app/src/runtime/schedule.rs:149-179 | without intervals a resolved participant is told the reason of the last page without slots, an unresolved one Missing |
| Availability.ReasonDependsOnOrder | crates/app/src/runtime/schedule.rs:155-159 | of two pages without slots the later one's reason is told, whichever they are |
| Recurrence.NumberedDay | crates/app/src/runtime/calendar_mime_series.rs:149-161 | in every month a numbered-day rule selects exactly the date with that day or, in a shorter month, the last day |
| Recurrence.OrdinalWeekday | crates/app/src/runtime/calendar_mime_series.rs:135-147 | for every mask and week an ordinal rule selects exactly one date in every month: the n-th match, or the last for 5 |
| Recurrence.ShortcutEqualsGeneral | crates/app/src/runtime/calendar_mime_series.rs:135-147 | the all-days shortcut selects what the general form with all weekdays selects |
| Recurrence.CalendarDayClamps | crates/app/src/runtime/calendar_agenda/recurrence/pattern.rs:228-237 | the repository's numbered day clamps to the month's end |
| Recurrence.NthDate | crates/app/src/runtime/calendar_agenda/recurrence/pattern.rs:239-265 | the repository's loop finds the one n-th or last matching date; invalid selectors are rejected, except that with all weekdays a week outside 1-5 is taken as a day number |
| Recurrence.TranslationPreservesMeaning | crates/app/src/runtime/calendar_mime_series.rs:103-133 | for every valid rule, first date and date, the translated rule recurs on the date exactly when the repository's own expansion of the original does, interval and week start included |
| Gregorian.Epoch | crates/app/src/runtime/calendar_agenda/recurrence/pattern.rs:285-287 | weekday numbers are the real ones: 1970-01-01 is a Thursday |
| Occurrences.Ordinal | crates/app/src/runtime/calendar_agenda/recurrence/pattern.rs:59-76 | for every valid rule, first date and date: none when the rule does not expand to it, an error past 120000 cycles, and otherwise the number of occurrences up to it, one less for a yearly rule whose month comes before the first date's |
| Occurrences.WeeklyNumbers | crates/app/src/runtime/calendar_agenda/recurrence/pattern.rs:93-124 | the closed form over whole weeks is the count of selected days up to the asked one, for every mask, interval and week start |
| Occurrences.DailyNumbers | crates/app/src/runtime/calendar_agenda/recurrence/pattern.rs:82-91 | the quotient of days is the count of occurrences |
| Occurrences.CountCandidates | crates/app/src/runtime/calendar_agenda/recurrence/pattern.rs:190-220 | the loop counts exactly the cycles whose date is on or after the first date |
| Occurrences.CycleCount | crates/app/src/runtime/calendar_agenda/recurrence/pattern.rs:174-221 | a monthly or yearly rule falls once in every cycle: up to cycle k there are k occurrences, and one more when the first cycle's date is not before the first date |
| Occurrences.CountIsKeptIff | crates/app/src/runtime/calendar_agenda/recurrence/pattern.rs:78-80 | for every count and date the repository keeps the date exactly when the translated RRULE with that COUNT contains it, if and only if the rule is not a yearly one whose month comes before the first date's |
| Occurrences.OwnSeriesStartAtOne | crates/app/src/runtime/calendar_series/rule.rs:62-66 | a series that starts on its own first occurrence numbers it 1 and is never the exceptional kind |
| Occurrences.CountedIsNotTooFar | crates/app/src/runtime/calendar_agenda/recurrence/pattern.rs:185-189 | no date within a COUNT, at most 65535, is refused as too far away |
| ZoneScan.LocateTransition | crates/app/src/runtime/calendar_schedule.rs:177-193 | terminates with the old offset one second before its result and another at it |
| ZoneScan.Transitions | crates/app/src/runtime/calendar_schedule.rs:128-158 | for every regular zone returns, in order, exactly the changes whose old local time falls in the year |
| ZoneScan.NothingOutside | crates/app/src/runtime/calendar_schedule.rs:128-130 | the scanned range, two days wider than the year on both sides, misses no such change |
| ZoneEncoding.EncodeTimeZone | crates/app/src/runtime/calendar_schedule.rs:93-120 | succeeds exactly for no changes or one daylight and one standard change in whole minutes; the 172 bytes read back as exactly the expected fields |
| ZoneEncoding.ReadsBack | crates/app/src/runtime/calendar_schedule.rs:93-120 | the packed structure is 172 bytes whatever the names, and every field reads back, names cut to 31 units and NUL-terminated |
| ZoneEncoding.NamesAreTheirs | crates/app/src/runtime/calendar_schedule.rs:93-120 | each half of the structure carries its own transition's name, or Standard or Daylight when there is none |
| ZoneEncoding.NamesAreCut | crates/app/src/runtime/calendar_schedule.rs:195-202 | a name's field holds its first 31 units, then zeros |
| ZoneEncoding.LittleEndian | crates/app/src/runtime/calendar_schedule.rs:195-262 | numbers are little-endian, negative ones in two's complement |
| ZoneMeaning.DateIsItsRule | crates/app/src/runtime/calendar_agenda/timezone.rs:211-231 | every date is the one its packed month, weekday and week name in its year, as the reader resolves them |
| ZoneMeaning.WeekCountsWeekdays | crates/app/src/runtime/calendar_schedule.rs:225-230 | the packed week is the count of that weekday in the month, or 5 for the last |
| ZoneMeaning.FiveIsTheLast | crates/app/src/runtime/calendar_schedule.rs:225-230 | the packed week is 5 exactly when the weekday does not come again in the month |
| ZoneMeaning.SystemTimeResolves | crates/app/src/runtime/calendar_agenda/timezone.rs:211-234 | the packed system time resolves in its year to the very second |
| ZoneMeaning.StructureMeansZone | crates/app/src/runtime/calendar_agenda/timezone.rs:106-174 | for every regular additive zone whose changes agree on local and UTC year, the repository's reader gives every instant of the year the zone's own offset exactly when the zone ends the year as it began it, and is on standard time when it never changes |
| ZoneMeaning.PermanentDaylightIsMisread | crates/app/src/runtime/calendar_agenda/timezone.rs:106-174 | New York's offsets of 1943, all year in daylight time: encoded without complaint and read an hour off at every instant |
| ZoneMeaning.SummerTimeIsUnderstood | crates/app/src/runtime/calendar_schedule.rs:93-158 | a zone with one summer inside the year is scanned, encoded and read back right at every instant of the year |
| MailSearch.SearchCandidates | crates/app/src/runtime/mail_search.rs:57-104 | the loop makes the specified calls, at most ten, and returns what the answers determine |
| MailSearch.CoverageIsSound | crates/app/src/runtime/mail_search.rs:57-104 | against any server at most 1000 distinct candidates are examined, the result is their filter, and completeness implies the last reported total was examined |
| MailSearch.StopsExactly | crates/app/src/runtime/mail_search.rs:69-102 | a page fails the search exactly when it is over 100 items, starts elsewhere or repeats a candidate; makes it complete exactly when it is not truncated, not full and its total has been examined; lets it go on exactly when it is not truncated and is full or reports more; and the last total given is kept |
| MailSearch.CallErrorFails | crates/app/src/runtime/mail_search.rs:70 | a failed call fails the search with its own error |
| MailSearch.CallsStartAtExamined | crates/app/src/runtime/mail_search.rs:68-101 | every call starts where the examined candidates end |
| MailSearch.CompleteMeansAll | crates/app/src/runtime/mail_search.rs:92-95 | against a stable honest list in pages of any size, a complete search is the filter of the whole list |
| MailSearch.CompleteIffUnderThousand | crates/app/src/runtime/mail_search.rs:57-104 | against full pages the search never fails and is complete exactly below 1000 items |
| Base64.DecodeEncode | crates/app/src/references/object.rs:155-161 | decoding an encoding gives the bytes back |
| Base64.EncodeDecode | crates/app/src/references/object.rs:163-174 | accepted text is the encoding of its bytes, so a reference has one spelling |
| Base64.EncodedLength | crates/app/src/references/object.rs:155-161 | the encoded length, and that no dot occurs in it |
| Base64.GroupKeepsNumber | crates/app/src/references/object.rs:155-161 | every three bytes are four digits with the same 24 bits, most significant first |
| Base64.AlphabetIsUrlSafe | crates/app/src/references/object.rs:155-161 | the digits are written in the URL-safe alphabet of RFC 4648 |
| Base64.TestVectors | crates/app/src/references/object.rs:155-161 | the unpadded ends of the examples of RFC 4648 |
| ReferenceCodec.UnwrapWrap | crates/app/src/references/object.rs:155-186 | what is wrapped under a kind unwraps under that kind only, and never meets the size gate |
| ReferenceCodec.WrapUnwrap | crates/app/src/references/object.rs:155-186 | an accepted reference is the wrapping of what it unwraps to |
| ReferenceCodec.EncodesExactly | crates/app/src/references/object.rs:155-243 | what encodes at all, by the length, presence and characters of every field and the size of the JSON; a mail's text is ref1.mail. and its payload |
| ReferenceCodec.MailRoundTrip | crates/app/src/references/object.rs:65-91 | an encoded mail decodes to the same locator, and decoders of other kinds reject it |
| ReferenceCodec.EventRoundTrip | crates/app/src/references/object.rs:93-125 | an encoded event decodes to the same locator and occurrence, and decoders of other kinds reject it |
| ReferenceCodec.AttachmentRoundTrip | crates/app/src/references/object.rs:127-153 | an encoded attachment decodes to the same fields, and decoders of other kinds reject it |

## Left out

- HTTP, TLS, SQLite, file locks, keychain and file permissions: foreign calls, modelled as steps with arbitrary results.
- Lock waiting times, retry delays and admission: only success, failure or never.
- SHA-256, HMAC and JSON text: see the assumptions.
- WBXML, MIME building, HTML sanitizing and profile validation.
- Planning of calendar edits: the transition system and `CalendarEdit` take any valid plan.
- Creating and answering calendar events have no method of their own; they are plans of the transition system, like the items and notices of `CalendarEdit`. Reply, forward and mark read first resolve a source message and then proceed like `SingleWrites.Send`; they have no method either.
- The choice of calendar writes that answer before the lock (previews, capability and permission checks).
- UNTIL and exception dates of a rule, which the translation passes through, parsing of a received rule's fields, and the rendering of rule fields as text. A daily rule that carries a weekday mask proceeds as the weekly one.
- Alternative-time ranking and working-hours planning. The size of an availability result is an arbitrary function, its limit is modelled.
- Attachment cache, account setup, command line, wizard, MCP schemas and packaging.
- The final base64 text of the TimeZone structure, dates outside the range of the source's date type, and 32-bit overflow of positions, which no date in that range reaches.
- Validation of a batch before it runs: its failures are an arbitrary input of `MailBatch.RunBatch`. The warnings that repeat the entries' errors.
- The test journal's differences from SQLite: its prune removes nothing.
