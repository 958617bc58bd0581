/** Multi-step Calendar edits: checkpointed item changes, then notifications. */
module CalendarEdit {
  import opened Base
  import opened JournalModel
  import opened WriteProtocol

  datatype Event = Event(id: Text, occurrenceStart: Option<int>)

  /** A delete returns no event; a create or an update returns the stored one. */
  datatype StepReply = Acknowledged(event: Option<Event>) | Refused(code: ErrorCode)

  /** A request, with the mask the journal showed when it was sent. */
  datatype Attempt = Attempt(bit: bv32, journaled: bv32, reply: StepReply)

  datatype EditResult =
    | Finished(status: Status, steps: bv32, eventRef: Option<Text>)
    | Replayed(record: Record)
    | Error(code: ErrorCode)

  /** Exchange: any reply to any request. */
  class Backend {
    ghost var log: seq<Attempt>

    constructor ()
      ensures log == []
    {
      log := [];
    }

    method Perform(bit: bv32, ghost journaled: bv32) returns (reply: StepReply)
      modifies this
      ensures log == old(log) + [Attempt(bit, journaled, reply)]
    {
      reply := *;
      log := log + [Attempt(bit, journaled, reply)];
    }
  }

  // ----- What an edit promises -----

  /** One edit: the rows it found, its own row as it begins, and its plan, of which the first `items` are item steps. */
  datatype Edit = Edit(before: Rows, id: Text, record: Record, now: int, plan: seq<bv32>, items: nat,
                       encode: Event -> Option<Text>, occurrence: Option<int>, faults: Faults)

  ghost predicate ValidEdit(e: Edit) {
    ValidPlan(e.plan) && e.items <= |e.plan| && e.id !in e.before && e.record.status == Pending && e.record.steps == 0
  }

  /** The rows found, and the edit's own with this status and mask. */
  function RowsWith(e: Edit, status: Status, steps: bv32): Rows {
    WithRow(e.before, e.id, e.record.(status := status, steps := steps), e.now, None)
  }

  /** The request was sent when the journal already showed every step before it. */
  ghost predicate JournalLedAt(attempts: seq<Attempt>, plan: seq<bv32>, i: nat)
    requires i < |attempts| && i <= |plan|
  {
    attempts[i].journaled == MaskOf(plan[..i])
  }

  ghost predicate JournalLed(attempts: seq<Attempt>, plan: seq<bv32>) {
    forall i | 0 <= i < |attempts| && i <= |plan| :: JournalLedAt(attempts, plan, i)
  }

  lemma JournalLeads(attempts: seq<Attempt>, plan: seq<bv32>, next: Attempt)
    requires JournalLed(attempts, plan) && |attempts| <= |plan| && next.journaled == MaskOf(plan[..|attempts|])
    ensures JournalLed(attempts + [next], plan)
  {
    forall i | 0 <= i < |attempts + [next]| && i <= |plan|
      ensures JournalLedAt(attempts + [next], plan, i)
    {
      assert i < |attempts| ==> JournalLedAt(attempts, plan, i);
    }
  }

  /** The attempts follow the plan's order without gaps, and stop at the first refusal. */
  ghost predicate FollowsPlan(attempts: seq<Attempt>, plan: seq<bv32>) {
    && |attempts| <= |plan|
    && (forall i | 0 <= i < |attempts| :: attempts[i].bit == plan[i])
    && (forall i | 0 <= i < |attempts| - 1 :: attempts[i].reply.Acknowledged?)
  }

  /** The reference reported after `n` confirmed item steps: the new series' once it exists, else the last step's. */
  ghost predicate ReferenceAfter(attempts: seq<Attempt>, n: nat, encode: Event -> Option<Text>,
                                 occurrence: Option<int>, ref: Option<Text>)
    requires n <= |attempts| && forall i | 0 <= i < n :: attempts[i].reply.Acknowledged?
  {
    if exists i | 0 <= i < n :: attempts[i].bit == STEP_NEW_SERIES then
      exists i | 0 <= i < n :: attempts[i].bit == STEP_NEW_SERIES && ref == RefOf(attempts[i].reply.event, encode, occurrence)
    else
      ref == if n == 0 then None else RefOf(attempts[n-1].reply.event, encode, occurrence)
  }

  function RefOf(event: Option<Event>, encode: Event -> Option<Text>, occurrence: Option<int>): Option<Text> {
    if event.None? then None else encode(event.value.(occurrenceStart := occurrence))
  }

  function Min(a: nat, b: nat): nat {
    if a < b then a else b
  }

  /** The reference is taken from this step: it is the new series, or none has been created yet. */
  ghost predicate GivesReference(attempts: seq<Attempt>, i: nat)
    requires i < |attempts|
  {
    attempts[i].bit == STEP_NEW_SERIES || forall j | 0 <= j <= i :: attempts[j].bit != STEP_NEW_SERIES
  }

  /** A confirmed item step whose event the reference is taken from, and which does not encode. */
  ghost predicate EventLost(e: Edit, attempts: seq<Attempt>, i: nat)
    requires i < |attempts|
  {
    && i < e.items && GivesReference(attempts, i)
    && attempts[i].reply.Acknowledged? && attempts[i].reply.event.Some?
    && RefOf(attempts[i].reply.event, e.encode, e.occurrence).None?
  }

  ghost predicate NoneLost(e: Edit, attempts: seq<Attempt>, n: nat)
    requires n <= |attempts|
  {
    forall i | 0 <= i < n :: !EventLost(e, attempts, i)
  }

  /** The caller is told that the outcome is unknown; the row stays Pending. */
  ghost predicate Stopped(e: Edit, steps: bv32, after: Rows, r: EditResult) {
    r == Error(OutcomeUnknown) && after == RowsWith(e, Pending, steps)
  }

  /** The caller is told a status and a mask, and the row says the same. */
  ghost predicate Settled(e: Edit, attempts: seq<Attempt>, c: nat, status: Status, after: Rows, r: EditResult)
    requires c <= |attempts| && c <= |e.plan| && forall i | 0 <= i < c :: attempts[i].reply.Acknowledged?
  {
    && r.Finished? && r.status == status && r.steps == MaskOf(e.plan[..c])
    && ReferenceAfter(attempts, Min(c, e.items), e.encode, e.occurrence, r.eventRef)
    && after == RowsWith(e, status, MaskOf(e.plan[..c]))
  }

  /** The refusal of a step after `c` confirmed ones. */
  ghost predicate RefusedOutcome(e: Edit, attempts: seq<Attempt>, code: ErrorCode, after: Rows, r: EditResult)
    requires FollowsPlan(attempts, e.plan) && attempts != []
  {
    var c := |attempts| - 1;
    if code == RemoteWipe then
      r.Error? && WipeOutcome(e.before, after, e.id, e.record.(steps := MaskOf(e.plan[..c])), e.now, e.faults, r.code)
    else if e.faults.finish then Stopped(e, MaskOf(e.plan[..c]), after, r)
    else Settled(e, attempts, c, if code == OutcomeUnknown then Unknown else if c == 0 then Failed else Partial, after, r)
  }

  /** The end of an edit whose last step was confirmed: a local failure, or the plan is done. */
  ghost predicate ConfirmedOutcome(e: Edit, attempts: seq<Attempt>, after: Rows, r: EditResult)
    requires FollowsPlan(attempts, e.plan) && attempts != [] && attempts[|attempts|-1].reply.Acknowledged?
  {
    var c := |attempts|;
    if e.faults.checkpoint then Stopped(e, MaskOf(e.plan[..c-1]), after, r)
    else if EventLost(e, attempts, c - 1) then Stopped(e, MaskOf(e.plan[..c]), after, r)
    else c == |e.plan|
         && if e.faults.finish then Stopped(e, MaskOf(e.plan), after, r) else Settled(e, attempts, c, Succeeded, after, r)
  }

  /**
   How a begun edit ends, as its replies and the local faults decide it. An edit goes on after a confirmed step
   exactly when the checkpoint works and the event's reference, if it is taken, encodes.
   */
  ghost predicate RunOutcome(e: Edit, attempts: seq<Attempt>, after: Rows, r: EditResult) {
    && FollowsPlan(attempts, e.plan) && attempts != []
    && NoneLost(e, attempts, |attempts| - 1) && (|attempts| > 1 ==> !e.faults.checkpoint)
    && match attempts[|attempts|-1].reply
       case Refused(code) => RefusedOutcome(e, attempts, code, after, r)
       case Acknowledged(_) => ConfirmedOutcome(e, attempts, after, r)
  }

  /** A known UUID is answered from its row, or is a conflict, and nothing is sent; a new one is run. */
  ghost predicate EditOutcome(e: Edit, attempts: seq<Attempt>, after: Rows, r: EditResult) {
    if e.id in e.before then
      && attempts == [] && after == e.before
      && r == if SameOperation(e.before[e.id].record, e.record) then EditResult.Replayed(e.before[e.id].record) else Error(IdempotencyConflict)
    else RunOutcome(e, attempts, after, r)
  }

  /** What makes the outcome of an edit unknown to its caller. */
  ghost predicate Unknowable(e: Edit, attempts: seq<Attempt>)
    requires attempts != []
  {
    match attempts[|attempts|-1].reply
    case Refused(RemoteWipe) => e.faults.purge || e.faults.cleanup
    case Refused(_) => e.faults.finish
    case Acknowledged(_) => e.faults.checkpoint || EventLost(e, attempts, |attempts| - 1) || e.faults.finish
  }

  /**
   A begun edit is told as unknown exactly when a checkpoint or a finish fails, a reference the edit takes does not
   encode, or a purge after a wipe fails; any other outcome is told, and stored, as it is.
   */
  lemma UnknownIffLocalFault(e: Edit, attempts: seq<Attempt>, after: Rows, r: EditResult)
    requires ValidEdit(e) && RunOutcome(e, attempts, after, r)
    ensures r == Error(OutcomeUnknown) <==> Unknowable(e, attempts)
    ensures r == Error(RemoteWipe) <==> attempts[|attempts|-1].reply == Refused(RemoteWipe) && !Unknowable(e, attempts)
    ensures r.Finished? && r.status == Succeeded <==>
              |attempts| == |e.plan| && attempts[|attempts|-1].reply.Acknowledged? && !Unknowable(e, attempts)
  {
  }

  /** When every reply acknowledges, every taken event encodes and nothing fails locally, the plan is done and stored. */
  lemma UndisturbedSucceeds(e: Edit, attempts: seq<Attempt>, after: Rows, r: EditResult)
    requires ValidEdit(e) && RunOutcome(e, attempts, after, r)
    requires forall i | 0 <= i < |attempts| :: attempts[i].reply.Acknowledged?
    requires NoneLost(e, attempts, |attempts|) && !e.faults.checkpoint && !e.faults.finish
    ensures |attempts| == |e.plan| && r.Finished? && r.status == Succeeded && r.steps == MaskOf(e.plan)
    ensures after == RowsWith(e, Succeeded, MaskOf(e.plan))
  {
    assert e.plan[..|e.plan|] == e.plan;
  }

  // ----- Masks -----

  lemma OrIsZero(x: bv32, y: bv32)
    ensures x | y == 0 <==> x == 0 && y == 0
  {
  }

  lemma AndDistributes(m: bv32, p: bv32, b: bv32)
    ensures (m | p) & b == (m & b) | (p & b)
  {
  }

  lemma OrTest(m: bv32, p: bv32, b: bv32)
    ensures (m | p) & b == 0 <==> m & b == 0 && p & b == 0
  {
    AndDistributes(m, p, b);
    OrIsZero(m & b, p & b);
  }

  lemma ZeroTest(b: bv32)
    ensures 0 & b == 0
  {
  }

  lemma SingleBitsDisjoint(p: bv32, b: bv32)
    requires SingleBit(p) && SingleBit(b)
    ensures p & b == 0 <==> p != b
  {
    assert p == b ==> p & b == p;
  }

  /** The mask tells which steps of a prefix it holds. */
  lemma {:induction false} MaskHolds(plan: seq<bv32>, n: nat, b: bv32)
    requires ValidPlan(plan) && n <= |plan| && SingleBit(b)
    ensures MaskOf(plan[..n]) & b == 0 <==> forall i | 0 <= i < n :: plan[i] != b
  {
    if n == 0 {
      ZeroTest(b);
    } else {
      MaskHolds(plan, n - 1, b);
      MaskGrows(plan, n - 1);
      OrTest(MaskOf(plan[..n-1]), plan[n-1], b);
      SingleBitsDisjoint(plan[n-1], b);
    }
  }

  lemma MaskZeroIffNothing(plan: seq<bv32>, n: nat)
    requires ValidPlan(plan) && n <= |plan|
    ensures MaskOf(plan[..n]) == 0 <==> n == 0
  {
    if 0 < n {
      MaskNonZero(plan, n);
    }
  }

  // ----- The operation -----

  /** Everything attempted is confirmed and checkpointed. */
  ghost predicate Confirmed(e: Edit, rows: Rows, attempts: seq<Attempt>, completed: bv32) {
    && FollowsPlan(attempts, e.plan) && JournalLed(attempts, e.plan)
    && (forall i | 0 <= i < |attempts| :: attempts[i].reply.Acknowledged?)
    && completed == MaskOf(e.plan[..|attempts|]) && rows == RowsWith(e, Pending, completed)
    && (attempts != [] ==> !e.faults.checkpoint)
  }

  /** Between two steps. */
  ghost predicate InProgress(e: Edit, rows: Rows, attempts: seq<Attempt>, completed: bv32) {
    Confirmed(e, rows, attempts, completed) && NoneLost(e, attempts, |attempts|)
  }

  ghost predicate Referred(e: Edit, attempts: seq<Attempt>, n: nat, ref: Option<Text>) {
    n <= |attempts| && (forall i | 0 <= i < n :: attempts[i].reply.Acknowledged?)
    && ReferenceAfter(attempts, n, e.encode, e.occurrence, ref)
  }

  /** The journal and the row are the edit's. */
  ghost predicate Runs(e: Edit, journal: Journal, id: Text, record: Record)
    reads journal
  {
    ValidEdit(e) && e.id == id && e.record == record && e.now == journal.now && e.faults == FaultsOf(journal)
  }

  /** The rule the loop uses to keep or replace the reference, read off the mask. */
  lemma ReferenceStep(attempts: seq<Attempt>, plan: seq<bv32>, n: nat, encode: Event -> Option<Text>,
                      occurrence: Option<int>, ref: Option<Text>, completed: bv32)
    requires ValidPlan(plan) && FollowsPlan(attempts, plan) && |attempts| == n + 1
    requires forall i | 0 <= i < |attempts| :: attempts[i].reply.Acknowledged?
    requires ReferenceAfter(attempts, n, encode, occurrence, ref)
    requires completed == MaskOf(plan[..n+1])
    ensures GivesReference(attempts, n) <==> plan[n] == STEP_NEW_SERIES || completed & STEP_NEW_SERIES == 0
    ensures ReferenceAfter(attempts, n + 1, encode, occurrence,
                           if GivesReference(attempts, n) then RefOf(attempts[n].reply.event, encode, occurrence) else ref)
  {
    MaskHolds(plan, n + 1, STEP_NEW_SERIES);
    if attempts[n].bit != STEP_NEW_SERIES && !GivesReference(attempts, n) {
      var j :| 0 <= j <= n && attempts[j].bit == STEP_NEW_SERIES;
      assert j < n;
    }
  }

  lemma ReferenceKept(attempts: seq<Attempt>, n: nat, encode: Event -> Option<Text>, occurrence: Option<int>,
                      ref: Option<Text>, last: Attempt)
    requires n <= |attempts| && (forall i | 0 <= i < n :: attempts[i].reply.Acknowledged?)
    requires ReferenceAfter(attempts, n, encode, occurrence, ref)
    ensures ReferenceAfter(attempts + [last], n, encode, occurrence, ref)
  {
    var more := attempts + [last];
    assert forall i | 0 <= i < n :: more[i] == attempts[i];
    if exists i | 0 <= i < n :: attempts[i].bit == STEP_NEW_SERIES {
      var i :| 0 <= i < n && attempts[i].bit == STEP_NEW_SERIES && ref == RefOf(attempts[i].reply.event, encode, occurrence);
      assert more[i].bit == STEP_NEW_SERIES;
    }
  }

  lemma LostKept(e: Edit, attempts: seq<Attempt>, last: Attempt)
    requires NoneLost(e, attempts, |attempts|)
    ensures NoneLost(e, attempts + [last], |attempts|)
  {
    var more := attempts + [last];
    forall i | 0 <= i < |attempts| ensures !EventLost(e, more, i) {
      assert forall j | 0 <= j <= i :: more[j] == attempts[j];
      assert !EventLost(e, attempts, i);
    }
  }

  /** `calendar_failure`: classifies a refused step and stores the outcome. */
  method Fail(journal: Journal, id: Text, account: Text, steps: bv32, code: ErrorCode, ref: Option<Text>)
    returns (r: EditResult)
    modifies journal`rows
    ensures code == RemoteWipe ==>
              r == Error(WipeError(Forgets(journal))) && journal.rows == PurgedRows(old(journal.rows), account, journal.failPurge)
    ensures code != RemoteWipe ==>
              var status := if code == OutcomeUnknown then Unknown else if steps == 0 then Failed else Partial;
              if journal.failFinish || id !in old(journal.rows) then r == Error(OutcomeUnknown) && journal.rows == old(journal.rows)
              else r == Finished(status, steps, ref)
                   && journal.rows == FinishRows(old(journal.rows), id, status, steps, None, journal.now)
  {
    if code == RemoteWipe {
      var forgotten := journal.ForgetAccount(account);
      return Error(WipeError(forgotten));
    }
    var status := if code == OutcomeUnknown then Unknown else if steps == 0 then Failed else Partial;
    var stored := journal.Finish(id, status, steps, None);
    if stored.Err? {
      return Error(OutcomeUnknown);
    }
    return Finished(status, steps, ref);
  }

  /** An answered attempt after confirmed ones, whose row still shows only those. */
  ghost predicate Attempted(e: Edit, rows: Rows, attempts: seq<Attempt>, mask: bv32, ref: Option<Text>) {
    && FollowsPlan(attempts, e.plan) && JournalLed(attempts, e.plan) && attempts != []
    && NoneLost(e, attempts, |attempts| - 1) && (|attempts| > 1 ==> !e.faults.checkpoint)
    && Referred(e, attempts, Min(|attempts| - 1, e.items), ref)
    && mask == MaskOf(e.plan[..|attempts|-1]) && rows == RowsWith(e, Pending, mask)
  }

  lemma AttemptMade(e: Edit, rows: Rows, confirmed: seq<Attempt>, mask: bv32, ref: Option<Text>, next: Attempt)
    requires InProgress(e, rows, confirmed, mask) && Referred(e, confirmed, Min(|confirmed|, e.items), ref)
    requires |confirmed| < |e.plan| && next.bit == e.plan[|confirmed|] && next.journaled == mask
    ensures Attempted(e, rows, confirmed + [next], mask, ref)
  {
    JournalLeads(confirmed, e.plan, next);
    ReferenceKept(confirmed, Min(|confirmed|, e.items), e.encode, e.occurrence, ref, next);
    LostKept(e, confirmed, next);
  }

  /** The refusal of the step after the confirmed ones. */
  method Refuse(journal: Journal, id: Text, record: Record, mask: bv32, ref: Option<Text>, code: ErrorCode,
                ghost e: Edit, ghost attempts: seq<Attempt>)
    returns (r: EditResult)
    requires Runs(e, journal, id, record) && Attempted(e, journal.rows, attempts, mask, ref)
    requires attempts[|attempts|-1].reply == Refused(code)
    modifies journal`rows
    ensures RefusedOutcome(e, attempts, code, journal.rows, r)
  {
    if code == RemoteWipe {
      WipeForgets(e.before, id, record.(steps := mask), journal.now);
    } else {
      MaskZeroIffNothing(e.plan, |attempts| - 1);
      FinishedRow(e.before, id, record.(steps := mask), journal.now,
                  if code == OutcomeUnknown then Unknown else if mask == 0 then Failed else Partial, mask, None);
    }
    r := Fail(journal, id, record.account, mask, code, ref);
  }

  lemma CheckpointedRows(e: Edit, steps: bv32, completed: bv32)
    requires ValidEdit(e)
    ensures CheckpointRows(RowsWith(e, Pending, steps), e.id, completed, e.now) == RowsWith(e, Pending, completed)
  {
  }

  lemma CheckpointFailed(e: Edit, rows: Rows, attempts: seq<Attempt>, mask: bv32, ref: Option<Text>)
    requires Attempted(e, rows, attempts, mask, ref) && attempts[|attempts|-1].reply.Acknowledged? && e.faults.checkpoint
    ensures RunOutcome(e, attempts, rows, Error(OutcomeUnknown))
  {
  }

  lemma CheckpointWorked(e: Edit, rows: Rows, attempts: seq<Attempt>, mask: bv32, ref: Option<Text>, completed: bv32)
    requires ValidEdit(e) && Attempted(e, rows, attempts, mask, ref) && completed == MaskOf(e.plan[..|attempts|])
    requires attempts[|attempts|-1].reply.Acknowledged? && !e.faults.checkpoint
    ensures Confirmed(e, CheckpointRows(rows, e.id, completed, e.now), attempts, completed)
  {
    CheckpointedRows(e, mask, completed);
  }

  /** Adds the bit of a confirmed step and checkpoints it. */
  method Save(journal: Journal, id: Text, record: Record, bit: bv32, mask: bv32, ghost ref: Option<Text>, ghost e: Edit,
              ghost attempts: seq<Attempt>)
    returns (halt: Option<EditResult>, completed: bv32)
    requires Runs(e, journal, id, record) && Attempted(e, journal.rows, attempts, mask, ref)
    requires attempts[|attempts|-1].reply.Acknowledged? && mask | bit == MaskOf(e.plan[..|attempts|])
    modifies journal`rows
    ensures halt.Some? ==> RunOutcome(e, attempts, journal.rows, halt.value)
    ensures halt.None? ==> Confirmed(e, journal.rows, attempts, completed)
  {
    completed := mask | bit;
    if e.faults.checkpoint {
      CheckpointFailed(e, journal.rows, attempts, mask, ref);
    } else {
      CheckpointWorked(e, journal.rows, attempts, mask, ref, completed);
    }
    var saved := journal.Checkpoint(id, completed);
    halt := if saved then None else Some(Error(OutcomeUnknown));
  }

  /** One external step: attempt it, and on success add its bit and checkpoint. `halt` ends the edit. */
  method PerformStep(journal: Journal, backend: Backend, id: Text, record: Record, bit: bv32, mask: bv32, ref: Option<Text>,
                     ghost e: Edit, ghost base: seq<Attempt>, ghost confirmed: seq<Attempt>)
    returns (halt: Option<EditResult>, completed: bv32, event: Option<Event>, ghost attempts: seq<Attempt>)
    requires Runs(e, journal, id, record) && |confirmed| < |e.plan| && e.plan[|confirmed|] == bit
    requires InProgress(e, journal.rows, confirmed, mask) && Referred(e, confirmed, Min(|confirmed|, e.items), ref)
    requires backend.log == base + confirmed
    modifies journal`rows, backend
    ensures |attempts| == |confirmed| + 1 && backend.log == base + attempts
    ensures JournalLed(attempts, e.plan) && NoneLost(e, attempts, |confirmed|)
    ensures halt.Some? ==> RunOutcome(e, attempts, journal.rows, halt.value)
    ensures halt.None? ==> Confirmed(e, journal.rows, attempts, completed) && attempts[|confirmed|].reply == Acknowledged(event)
                           && Referred(e, attempts, Min(|confirmed|, e.items), ref)
  {
    var reply := backend.Perform(bit, journal.rows[id].record.steps);
    ghost var next := Attempt(bit, mask, reply);
    attempts := confirmed + [next];
    assert base + confirmed + [next] == base + attempts;
    AttemptMade(e, journal.rows, confirmed, mask, ref, next);
    if reply.Refused? {
      var r := Refuse(journal, id, record, mask, ref, reply.code, e, attempts);
      halt, completed, event := Some(r), mask, None;
    } else {
      event := reply.event;
      MaskGrows(e.plan, |confirmed|);
      halt, completed := Save(journal, id, record, bit, mask, ref, e, attempts);
    }
  }

  lemma ReferenceLost(e: Edit, rows: Rows, attempts: seq<Attempt>, completed: bv32)
    requires Confirmed(e, rows, attempts, completed) && attempts != [] && NoneLost(e, attempts, |attempts| - 1)
    requires EventLost(e, attempts, |attempts| - 1)
    ensures RunOutcome(e, attempts, rows, Error(OutcomeUnknown))
  {
  }

  lemma StepDone(e: Edit, rows: Rows, attempts: seq<Attempt>, completed: bv32)
    requires Confirmed(e, rows, attempts, completed) && attempts != [] && NoneLost(e, attempts, |attempts| - 1)
    requires !EventLost(e, attempts, |attempts| - 1)
    ensures InProgress(e, rows, attempts, completed)
  {
  }

  /** The reference of a stored event, at the edited occurrence. */
  method TakeReference(event: Option<Event>, encode: Event -> Option<Text>, occurrence: Option<int>) returns (ref: Option<Text>)
    ensures ref == RefOf(event, encode, occurrence)
    ensures event.Some? ==> ref == encode(Event(event.value.id, occurrence))
  {
    if event.None? {
      return None;
    }
    return encode(event.value.(occurrenceStart := occurrence));
  }

  method RunItems(journal: Journal, backend: Backend, encode: Event -> Option<Text>, id: Text, record: Record,
                  items: seq<bv32>, occurrence: Option<int>, ghost e: Edit, ghost base: seq<Attempt>)
    returns (halt: Option<EditResult>, completed: bv32, eventRef: Option<Text>, ghost attempts: seq<Attempt>)
    requires Runs(e, journal, id, record) && e.encode == encode && e.occurrence == occurrence
    requires items <= e.plan && e.items == |items| && backend.log == base && InProgress(e, journal.rows, [], 0)
    modifies journal`rows, backend
    ensures backend.log == base + attempts && JournalLed(attempts, e.plan)
    ensures halt.Some? ==> RunOutcome(e, attempts, journal.rows, halt.value)
    ensures halt.None? ==> |attempts| == |items| && InProgress(e, journal.rows, attempts, completed)
                           && Referred(e, attempts, |items|, eventRef)
  {
    halt, completed, eventRef, attempts := None, 0, None, [];
    var i := 0;
    while i < |items|
      invariant 0 <= i <= |items| && |attempts| == i && backend.log == base + attempts && halt.None?
      invariant InProgress(e, journal.rows, attempts, completed) && Referred(e, attempts, i, eventRef)
    {
      var bit, event := items[i], None;
      halt, completed, event, attempts := PerformStep(journal, backend, id, record, bit, completed, eventRef, e, base, attempts);
      if halt.Some? {
        return;
      }
      ReferenceStep(attempts, e.plan, i, encode, occurrence, eventRef, completed);
      if bit == STEP_NEW_SERIES || completed & STEP_NEW_SERIES == 0 {
        eventRef := TakeReference(event, encode, occurrence);
        if event.Some? && eventRef.None? {
          ReferenceLost(e, journal.rows, attempts, completed);
          halt := Some(Error(OutcomeUnknown));
          return;
        }
      }
      StepDone(e, journal.rows, attempts, completed);
      i := i + 1;
    }
  }

  method RunNotices(journal: Journal, backend: Backend, id: Text, record: Record, notices: seq<bv32>, mask: bv32,
                    eventRef: Option<Text>, ghost e: Edit, ghost base: seq<Attempt>, ghost done: seq<Attempt>)
    returns (halt: Option<EditResult>, completed: bv32, ghost attempts: seq<Attempt>)
    requires Runs(e, journal, id, record) && e.plan[e.items..] == notices && backend.log == base + done
    requires |done| == e.items && InProgress(e, journal.rows, done, mask) && Referred(e, done, e.items, eventRef)
    modifies journal`rows, backend
    ensures backend.log == base + attempts && JournalLed(attempts, e.plan)
    ensures halt.Some? ==> RunOutcome(e, attempts, journal.rows, halt.value)
    ensures halt.None? ==> |attempts| == |e.plan| && InProgress(e, journal.rows, attempts, completed)
                           && Referred(e, attempts, e.items, eventRef)
  {
    halt, completed, attempts := None, mask, done;
    var n := 0;
    while n < |notices|
      invariant 0 <= n <= |notices| && |attempts| == e.items + n && halt.None? && backend.log == base + attempts
      invariant InProgress(e, journal.rows, attempts, completed) && Referred(e, attempts, e.items, eventRef)
    {
      assert e.plan[e.items + n] == notices[n];
      var event;
      halt, completed, event, attempts := PerformStep(journal, backend, id, record, notices[n], completed, eventRef, e, base, attempts);
      if halt.Some? {
        return;
      }
      StepDone(e, journal.rows, attempts, completed);
      n := n + 1;
    }
  }

  lemma AllDone(e: Edit, rows: Rows, attempts: seq<Attempt>, completed: bv32, ref: Option<Text>, after: Rows, r: EditResult)
    requires ValidEdit(e) && InProgress(e, rows, attempts, completed) && |attempts| == |e.plan|
    requires Referred(e, attempts, e.items, ref)
    requires if e.faults.finish then after == rows && r == Error(OutcomeUnknown)
             else after == RowsWith(e, Succeeded, completed) && r == Finished(Succeeded, completed, ref)
    ensures RunOutcome(e, attempts, after, r)
  {
    assert e.plan[..|e.plan|] == e.plan;
    assert !EventLost(e, attempts, |attempts| - 1);
  }

  /** After `begin`: runs items, then notices, then stores success. */
  method RunPlan(journal: Journal, backend: Backend, encode: Event -> Option<Text>, id: Text, record: Record,
                 items: seq<bv32>, notices: seq<bv32>, occurrence: Option<int>, ghost e: Edit)
    returns (r: EditResult, ghost attempts: seq<Attempt>)
    requires Runs(e, journal, id, record) && e.encode == encode && e.occurrence == occurrence
    requires e.plan == items + notices && e.items == |items| && InProgress(e, journal.rows, [], 0)
    modifies journal`rows, backend
    ensures backend.log == old(backend.log) + attempts && JournalLed(attempts, e.plan)
    ensures RunOutcome(e, attempts, journal.rows, r)
  {
    ghost var base := backend.log;
    var halt, completed, eventRef;
    halt, completed, eventRef, attempts := RunItems(journal, backend, encode, id, record, items, occurrence, e, base);
    if halt.Some? {
      return halt.value, attempts;
    }
    halt, completed, attempts := RunNotices(journal, backend, id, record, notices, completed, eventRef, e, base, attempts);
    if halt.Some? {
      return halt.value, attempts;
    }
    ghost var rows := journal.rows;
    FinishedRow(e.before, id, record.(steps := completed), journal.now, Succeeded, completed, None);
    var stored := journal.Finish(id, Succeeded, completed, None);
    r := if stored.Err? then Error(OutcomeUnknown) else Finished(Succeeded, completed, eventRef);
    AllDone(e, rows, attempts, completed, eventRef, journal.rows, r);
  }

  /**
   Runs a planned edit once. Whatever the replies and local faults: the confirmed steps are a prefix of items
   followed by notices, the edit goes on as far as replies and faults let it, the stored mask is the prefix's or
   lags it by one step, the status says how far the plan got, and the reported reference is the new series' once
   it exists.
   */
  method Execute(journal: Journal, backend: Backend, encode: Event -> Option<Text>, id: Text, record: Record,
                 items: seq<bv32>, notices: seq<bv32>, occurrence: Option<int>)
    returns (r: EditResult, ghost attempts: seq<Attempt>)
    requires ValidPlan(items + notices) && record.steps == 0 && record.status == Pending
    modifies journal`rows, backend
    ensures backend.log == old(backend.log) + attempts && JournalLed(attempts, items + notices)
    ensures EditOutcome(Edit(old(journal.rows), id, record, journal.now, items + notices, |items|, encode, occurrence,
                             FaultsOf(journal)), attempts, journal.rows, r)
  {
    attempts := [];
    ghost var e := Edit(journal.rows, id, record, journal.now, items + notices, |items|, encode, occurrence, FaultsOf(journal));
    var begun := journal.Begin(id, record);
    if begun.Err? {
      return Error(IdempotencyConflict), attempts;
    }
    if !begun.value.inserted {
      return EditResult.Replayed(begun.value.record), attempts;
    }
    r, attempts := RunPlan(journal, backend, encode, id, record, items, notices, occurrence, e);
  }
}
