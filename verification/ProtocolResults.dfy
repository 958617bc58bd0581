/** The main results about the write protocol, over every run of a workload. */
module ProtocolResults {
  import opened Base
  import opened JournalModel
  import opened WriteProtocol
  import opened ProtocolSafety
  import opened ProtocolTruth
  import opened ProtocolJournal

  // ----- Rows tell the truth -----

  /** Exactly the first `count` steps of the call are known to have taken effect. */
  ghost predicate PrefixApplied(s: State, a: nat, count: nat) {
    forall k: nat | k < count :: (a, k) in s.applied
  }

  /** No request from step `count` on took effect or still can. */
  ghost predicate NothingFrom(s: State, a: nat, count: nat) {
    forall k: nat | count <= k :: !Outstanding(s, a, k)
  }

  /**
   In every reachable state, for every row: it belongs to the call that inserted it; the external
   steps that took effect are the confirmed prefix of that call's plan, plus at most the step in
   flight; and the mask is that prefix's mask or lags it by one step. Succeeded means the whole plan
   took effect. Failed and Partial mean that no later request can still take effect, and that the step
   after the confirmed prefix, the first one for Failed, did not, unless it is a calendar item step whose
   follow-up work failed; `ProtocolRefusal` shows that this exception is real. Mail writes are never Partial.
   */
  lemma RowsTellTheTruth(w: seq<Request>, states: seq<State>, labels: seq<Label>, n: nat, op: Text)
    requires Run(w, states, labels) && n < |states| && ValidWorkload(w) && OneAccountPerUuid(w)
    requires op in states[n].rows
    ensures op in states[n].owner && states[n].owner[op] < |w| && states[n].owner[op] < |states[n].calls|
    ensures var s, r, a := states[n], states[n].rows[op].record, states[n].owner[op];
            var c := s.calls[a].confirmed;
            && w[a].Write? && w[a].op == op && SameOperation(r, RecordOf(w[a])) && c <= |w[a].plan|
            && PrefixApplied(s, a, c) && NothingFrom(s, a, c + 1) && Writing(s, a)
            && (r.steps == MaskOf(w[a].plan[..c]) || (0 < c && r.steps == MaskOf(w[a].plan[..c-1])))
            && (r.status == Succeeded ==> c == |w[a].plan| && r.steps == MaskOf(w[a].plan))
            && (r.status == Failed ==> c == 0 && r.steps == 0 && GivenUp(s, a, 0))
            && (r.status == Partial ==> 0 < c && r.steps == MaskOf(w[a].plan[..c]) && GivenUp(s, a, c)
                                        && !r.kind.Mail? && (r.kind.Calendar? ==> c < |w[a].plan|))
  {
    SoundHolds(w, states, labels, n);
    var s, a := states[n], states[n].owner[op];
    assert RowOwned(s, op) && RowTrue(s, op);
    assert w[a].plan[..|w[a].plan|] == w[a].plan;
    NothingBeyond(s, a);
  }

  lemma NothingBeyond(s: State, a: nat)
    requires Network(s) && Writing(s, a)
    ensures NothingFrom(s, a, s.calls[a].confirmed + 1)
  {
    forall k: nat | s.calls[a].confirmed + 1 <= k
      ensures !Outstanding(s, a, k)
    {
    }
  }

  // ----- Which steps may change a row -----

  /** An existing row changes only by its owner's store or checkpoint, or by recovery of an orphan. */
  ghost predicate OnlyOwnersWrite(s: State, l: Label, s': State) {
    forall op | op in s.rows && op in s'.rows && op in s.owner && op in s'.owner && s'.owner[op] == s.owner[op]
                && s'.rows[op] != s.rows[op] ::
      (l.Recover? && !OwnerActive(s, op)) || ((l.Checkpoint? || l.Store?) && l.call == s.owner[op])
  }

  lemma WritersAreOwners(s: State, l: Label, s': State)
    requires Sound(s) && Step(s, l, s')
    ensures OnlyOwnersWrite(s, l, s')
  {
    forall op | op in s.rows && op in s'.rows && op in s.owner && op in s'.owner && s'.owner[op] == s.owner[op]
                && s'.rows[op] != s.rows[op]
      ensures (l.Recover? && !OwnerActive(s, op)) || ((l.Checkpoint? || l.Store?) && l.call == s.owner[op])
    {
      if LeavesRows(l) {
        LeavesRowsEffect(s, l, s', op);
      } else if l.Recover? {
        RecoverRowsEffect(s, l, s', op);
      } else if s.owner[op] != l.call {
        UpdatesOwnRow(s, l, s', op);
      }
    }
  }

  /**
   Succeeded, Failed and Unknown are final until the row is removed. Partial can only become
   Succeeded, by its owner and while that owner still holds the account's lock.
   */
  lemma SettledRowsAreFinal(w: seq<Request>, states: seq<State>, labels: seq<Label>, n: nat, op: Text)
    requires Run(w, states, labels) && n < |labels| && ValidWorkload(w) && OneAccountPerUuid(w)
    requires op in states[n].rows && op in states[n+1].rows
    ensures var s, s' := states[n], states[n+1];
            var before, after := s.rows[op].record, s'.rows[op].record;
            && op in s.owner && op in s'.owner && s'.owner[op] == s.owner[op]
            && (before.status in {Succeeded, Failed, Unknown} ==> s'.rows[op] == s.rows[op])
            && (before.status == Partial && s'.rows[op] != s.rows[op] ==>
                  && after.status == Succeeded && before.account in s.locks && s.locks[before.account] == s.owner[op]
                  && before.account in s'.locks && s'.locks[before.account] == s.owner[op])
  {
    SoundHolds(w, states, labels, n);
    SettledRowStays(states[n], labels[n], states[n+1], op);
  }

  lemma SettledRowStays(s: State, l: Label, s': State, op: Text)
    requires Sound(s) && op in s.rows && op in s'.rows
    requires Step(s, l, s')
    ensures op in s.owner && op in s'.owner && s'.owner[op] == s.owner[op]
    ensures s.rows[op].record.status in {Succeeded, Failed, Unknown} ==> s'.rows[op] == s.rows[op]
    ensures s.rows[op].record.status == Partial && s'.rows[op] != s.rows[op] ==>
              var account := s.rows[op].record.account;
              && s'.rows[op].record.status == Succeeded && account in s.locks && s.locks[account] == s.owner[op]
              && account in s'.locks && s'.locks[account] == s.owner[op]
  {
    assert RowOwned(s, op) && RowTrue(s, op);
    StepEffect(s, l, s');
    if s'.rows[op] != s.rows[op] && s.rows[op].record.status != Pending {
      if LeavesRows(l) {
        LeavesRowsEffect(s, l, s', op);
      } else if l.Recover? {
        RecoverRowsEffect(s, l, s', op);
      } else if s.owner[op] != l.call {
        UpdatesOwnRow(s, l, s', op);
      } else {
        OwnersOverwrite(s, l, s', op);
      }
    }
  }

  /** The only store on a row that is not Pending: a verified automatic reply. */
  lemma OwnersOverwrite(s: State, l: Label, s': State, op: Text)
    requires (l.Checkpoint? || l.Store?) && Sound(s) && op in s.rows && s.owner[op] == l.call
    requires s.rows[op].record.status != Pending && op in s'.rows && s'.rows[op] != s.rows[op]
    requires Step(s, l, s')
    ensures s.rows[op].record.status == Partial && s'.rows[op].record.status == Succeeded
    ensures var account := s.rows[op].record.account;
            account in s.locks && s.locks[account] == l.call && account in s'.locks && s'.locks[account] == l.call
  {
    assert RowOwned(s, op) && RowTrue(s, op);
    UpdateRows(s, l, s');
    LocalEffect(s, l, s');
    if l.Store? {
      StoreEffect(s, l, s');
    }
  }

  // ----- Replays tell the truth -----

  /** What a replayed entry says is true of the call that inserted the row. */
  ghost predicate ReplayTrue(s: State, a: nat) {
    Writing(s, a) && ReplayedPc(s.calls[a].pc) ==>
      var e, b := s.calls[a].pc.report.entry, s.calls[a].pc.report.source;
      && Writing(s, b) && s.calls[b].req.op == s.calls[a].req.op
      && SameInput(e.record, RecordOf(s.calls[a].req)) && SameOperation(e.record, RecordOf(s.calls[b].req))
      && (Settled(e.record.status) ==>
            && Quiescent(s.calls[b].pc) && s.calls[b].confirmed <= |s.calls[b].req.plan|
            && StatusTrue(s, b, e.record.status) && e.record.steps == CompletedMask(s.calls[b]))
      && (e.locator.Some? ==> e.record.status == Succeeded && e.locator == s.calls[b].result)
  }

  lemma ReplayMade(s: State, l: Label, s': State)
    requires (l.Lookup? || l.Recheck? || l.Begin?) && Sound(s) && Step(s, l, s')
    ensures ReplayTrue(s', l.call)
  {
    if l.Begin? {
      BeginEffect(s, s', l.call);
    } else {
      ReplayEffect(s, l, s');
    }
    if ReplayedPc(s'.calls[l.call].pc) {
      var op, b := s.calls[l.call].req.op, s'.calls[l.call].pc.report.source;
      assert RowOwned(s, op);
      BystanderUnchanged(s, l, s', b);
      ReplayFromRow(s, s', l.call);
    }
  }

  lemma ReplayFromRow(s: State, s': State, a: nat)
    requires Sound(s) && Writing(s, a) && At(s', a) && s'.calls[a].req == s.calls[a].req
    requires ReplayedPc(s'.calls[a].pc) && FreshReplay(s, a, s'.calls[a].pc.report)
    requires At(s', s'.calls[a].pc.report.source)
    requires At(s, s'.calls[a].pc.report.source)
    requires s'.calls[s'.calls[a].pc.report.source] == s.calls[s'.calls[a].pc.report.source]
    requires NothingNew(s, s', s'.calls[a].pc.report.source)
    ensures ReplayTrue(s', a)
  {
    assert RowOwned(s, s.calls[a].req.op) && RowTrue(s, s.calls[a].req.op);
  }

  lemma BystanderUnchanged(s: State, l: Label, s': State, b: nat)
    requires (l.Lookup? || l.Recheck? || l.Begin?) && Structure(s)
    requires At(s, b) && !NotInserted(s.calls[b].pc)
    requires Step(s, l, s')
    ensures At(s', b) && s'.calls[b] == s.calls[b] && NothingNew(s, s', b)
  {
    OwnerHasBegun(s, l, s');
    OthersStand(s, l, s', b);
    NothingNewStep(s, l, s', b);
  }

  lemma ReplayStays(s: State, l: Label, s': State, a: nat)
    requires Sound(s) && ReplayTrue(s, a) && At(s, a) && At(s', a)
    requires ReplayedPc(s'.calls[a].pc) ==> s'.calls[a].pc.report == (if ReplayedPc(s.calls[a].pc) then s.calls[a].pc.report else Unfinished)
    requires Step(s, l, s')
    ensures ReplayTrue(s', a)
  {
    StepEffect(s, l, s');
    assert Progress(s.calls[a], s'.calls[a]);
    if Writing(s', a) && ReplayedPc(s'.calls[a].pc) {
      var e, b := s.calls[a].pc.report.entry, s.calls[a].pc.report.source;
      assert Progress(s.calls[b], s'.calls[b]);
      if Settled(e.record.status) {
        SettledReplayStays(s, l, s', b, e.record.status);
      }
    }
  }

  lemma SettledReplayStays(s: State, l: Label, s': State, b: nat, status: Status)
    requires Structure(s) && Writing(s, b) && At(s', b) && Progress(s.calls[b], s'.calls[b])
    requires Quiescent(s.calls[b].pc) && StatusTrue(s, b, status)
    requires Step(s, l, s')
    ensures Writing(s', b) && StatusTrue(s', b, status)
  {
    if l.Send? {
      SendEffect(s, l, s');
    }
    NothingNewStep(s, l, s', b);
    StatusStays(s, s', b, status);
  }

  /** Only the replay checks and `begin` produce a replay report. */
  lemma NoReplayBefore(s: State, l: Label, s': State)
    requires (l.Send? || l.Answer? || l.Conclude? || l.Verify? || l.Acquire? || l.Recover?) && Step(s, l, s')
    ensures !ReplayedPc(s'.calls[l.call].pc)
  {
  }

  lemma NoReplayAfter(s: State, l: Label, s': State)
    requires (l.Checkpoint? || l.Store? || l.Wipe? || l.Return? || l.Abandon?) && Step(s, l, s')
    ensures ReplayedPc(s'.calls[l.call].pc) ==>
              ReplayedPc(s.calls[l.call].pc) && s'.calls[l.call].pc.report == s.calls[l.call].pc.report
  {
  }

  ghost predicate ReplaysTrue(s: State) {
    forall a | 0 <= a < |s.calls| :: ReplayTrue(s, a)
  }

  lemma ReplaysStep(s: State, l: Label, s': State)
    requires Sound(s) && ReplaysTrue(s) && Step(s, l, s')
    ensures ReplaysTrue(s')
  {
    StepEffect(s, l, s');
    forall a | 0 <= a < |s'.calls|
      ensures ReplayTrue(s', a)
    {
      assert ReplayTrue(s, a);
      if ByCall(l) && a == l.call {
        if l.Lookup? || l.Recheck? || l.Begin? {
          ReplayMade(s, l, s');
        } else {
          if l.Send? || l.Answer? || l.Conclude? || l.Verify? || l.Acquire? || l.Recover? {
            NoReplayBefore(s, l, s');
          } else {
            NoReplayAfter(s, l, s');
          }
          ReplayStays(s, l, s', a);
        }
      } else {
        OthersStand(s, l, s', a);
        ReplayStays(s, l, s', a);
      }
    }
  }

  lemma {:induction false} ReplaysHold(w: seq<Request>, states: seq<State>, labels: seq<Label>, n: nat)
    requires Run(w, states, labels) && n < |states| && ValidWorkload(w) && OneAccountPerUuid(w)
    ensures ReplaysTrue(states[n])
  {
    if n > 0 {
      ReplaysHold(w, states, labels, n - 1);
      SoundHolds(w, states, labels, n - 1);
      assert Step(states[n-1], labels[n-1], states[n]);
      ReplaysStep(states[n-1], labels[n-1], states[n]);
    }
  }

  /**
   A call answered from the journal reports the row another call inserted for the same UUID, kind and
   payload. If it reports Succeeded, every step of that call took effect; if Failed, none did or will,
   except a first calendar item step whose follow-up work failed; Partial is never reported of a mail write;
   a reported locator is the one that call confirmed. A call that reports its own status tells the truth in
   the same sense.
   */
  lemma ReportsTellTheTruth(w: seq<Request>, states: seq<State>, labels: seq<Label>, n: nat, a: nat)
    requires Run(w, states, labels) && n < |states| && ValidWorkload(w) && OneAccountPerUuid(w)
    requires a < |w| && a < |states[n].calls| && w[a].Write? && states[n].calls[a].pc.Done?
    ensures var s, report := states[n], states[n].calls[a].pc.report;
            match report
            case Replayed(e, b) =>
              && b < |w| && b < |s.calls| && w[b].Write? && w[b].op == w[a].op
              && SameInput(e.record, RecordOf(w[a])) && SameInput(e.record, RecordOf(w[b]))
              && (e.record.status == Succeeded ==> PrefixApplied(s, b, |w[b].plan|))
              && (e.record.status == Failed ==> Writing(s, b) && NothingFrom(s, b, 1) && GivenUp(s, b, 0))
              && (e.record.status == Partial ==>
                    !w[a].kind.Mail? && Writing(s, b) && 0 < s.calls[b].confirmed && PrefixApplied(s, b, s.calls[b].confirmed)
                    && NothingFrom(s, b, s.calls[b].confirmed + 1) && GivenUp(s, b, s.calls[b].confirmed))
              && (e.locator.Some? ==> e.record.status == Succeeded && e.locator == s.calls[b].result)
            case Reported(status) =>
              && (status == Succeeded ==> PrefixApplied(s, a, |w[a].plan|))
              && (status == Failed ==> Writing(s, a) && NothingFrom(s, a, 1) && GivenUp(s, a, 0))
              && (status == Partial ==>
                    Writing(s, a) && 0 < s.calls[a].confirmed && PrefixApplied(s, a, s.calls[a].confirmed)
                    && NothingFrom(s, a, s.calls[a].confirmed + 1) && GivenUp(s, a, s.calls[a].confirmed))
            case _ => true
  {
    SoundHolds(w, states, labels, n);
    ReplaysHold(w, states, labels, n);
    var s := states[n];
    assert PcTrue(s, a) && ReplayTrue(s, a);
    if s.calls[a].pc.report.Replayed? {
      NothingBeyond(s, s.calls[a].pc.report.source);
    } else {
      NothingBeyond(s, a);
    }
  }

  /**
   A replay check writes nothing and sends nothing, and answers with a conflict exactly when the UUID's
   row has another kind or payload.
   */
  lemma ReplayWritesNothing(s: State, l: Label, s': State)
    requires (l.Lookup? || l.Recheck?)
    requires Step(s, l, s')
    ensures s' == s.(calls := s'.calls)
    ensures var c, pc' := s.calls[l.call], s'.calls[l.call].pc;
            && (pc' == Returning(Conflict) || pc' == Done(Conflict) <==>
                  c.req.op in s.rows && (s.rows[c.req.op].record.kind != c.req.kind || s.rows[c.req.op].record.payload != c.req.payload))
            && (ReplayedPc(pc') <==> c.req.op in s.rows && s.rows[c.req.op].record.kind == c.req.kind
                                     && s.rows[c.req.op].record.payload == c.req.payload)
  {
  }

  // ----- Replays and conflicts have no effect -----

  /** The call is answered from the journal, or refused for different input. */
  predicate Answered(pc: Pc) {
    (pc.Returning? || pc.Done?) && (pc.report.Replayed? || pc.report.Conflict?)
  }

  predicate Untouched(pc: Pc) {
    NotInserted(pc) || Answered(pc)
  }

  predicate CausedBy(e: Event, a: nat) {
    (e.Inserted? || e.Attempted?) && e.call == a
  }

  /** The call has inserted nothing, sent nothing, and has no request on its way or applied. */
  ghost predicate NoTrace(s: State, a: nat) {
    && (forall i | 0 <= i < |s.history| :: !CausedBy(s.history[i], a))
    && (forall k: nat :: !Outstanding(s, a, k))
  }

  /** The steps after which a call has left a trace, or reports something else. */
  predicate Telling(l: Label) {
    l.Send? || l.Answer? || l.Conclude? || l.Verify? || l.Checkpoint? || l.Store? || l.Wipe? || l.Recover?
  }

  lemma TellingTouches(s: State, l: Label, s': State)
    requires Telling(l) && Step(s, l, s')
    ensures At(s', l.call) && !Untouched(s'.calls[l.call].pc)
  {
    if l.Checkpoint? || l.Store? {
      StoringTouches(s, l, s');
    } else if l.Wipe? || l.Recover? {
      CleaningTouches(s, l, s');
    } else {
      TalkingTouches(s, l, s');
    }
  }

  lemma StoringTouches(s: State, l: Label, s': State)
    requires (l.Checkpoint? || l.Store?) && Step(s, l, s')
    ensures At(s', l.call) && !Untouched(s'.calls[l.call].pc)
  {
  }

  lemma CleaningTouches(s: State, l: Label, s': State)
    requires (l.Wipe? || l.Recover?) && Step(s, l, s')
    ensures At(s', l.call) && !Untouched(s'.calls[l.call].pc)
  {
  }

  lemma TalkingTouches(s: State, l: Label, s': State)
    requires (l.Send? || l.Answer? || l.Conclude? || l.Verify?) && Step(s, l, s')
    ensures At(s', l.call) && !Untouched(s'.calls[l.call].pc)
  {
  }

  /** A call that moves and stays untouched only looks, waits, or returns. */
  lemma UntouchedMove(s: State, l: Label, s': State, a: nat)
    requires Structure(s) && ByCall(l) && l.call == a && At(s', a) && Untouched(s'.calls[a].pc)
    requires Step(s, l, s')
    ensures At(s, a) && Untouched(s.calls[a].pc) && s'.history == s.history && !l.Send?
  {
    if Telling(l) {
      TellingTouches(s, l, s');
    } else if l.Begin? {
      BeginEffect(s, s', a);
    } else if l.Lookup? || l.Recheck? {
      ReplayWritesNothing(s, l, s');
      OwnerHasBegun(s, l, s');
    } else if l.Acquire? {
      AcquireEffect(s, l, s');
      OwnerHasBegun(s, l, s');
    } else {
      ReleaseEffect(s, l, s');
      ReleaseReports(s, l, s');
    }
  }

  lemma ReleaseReports(s: State, l: Label, s': State)
    requires (l.Return? || l.Abandon?) && Step(s, l, s')
    ensures Answered(s'.calls[l.call].pc) ==> Answered(s.calls[l.call].pc)
  {
  }

  lemma StrangersEvent(s: State, l: Label, s': State, a: nat)
    requires Structure(s) && (ByCall(l) ==> l.call != a)
    requires Step(s, l, s')
    ensures s.history <= s'.history
    ensures forall i | |s.history| <= i < |s'.history| :: !CausedBy(s'.history[i], a)
  {
    if l.Send? {
      SendEffect(s, l, s');
    } else if Local(l) {
      LocalEffect(s, l, s');
    } else if l.Wipe? {
      WipeEffect(s, l, s');
    } else if l.Return? || l.Abandon? {
      ReleaseEffect(s, l, s');
    } else if l.Acquire? {
      AcquireEffect(s, l, s');
    } else if l.Begin? {
      BeginEffect(s, s', l.call);
    } else {
      EnvironmentEffect(s, l, s');
    }
  }

  lemma NoTraceStep(s: State, l: Label, s': State, a: nat)
    requires Structure(s) && At(s, a) && At(s', a) && Untouched(s'.calls[a].pc)
    requires Step(s, l, s')
    ensures Untouched(s.calls[a].pc) && (NoTrace(s, a) ==> NoTrace(s', a))
  {
    if ByCall(l) && l.call == a {
      UntouchedMove(s, l, s', a);
    } else {
      OthersStand(s, l, s', a);
      StrangersEvent(s, l, s', a);
    }
    NothingNewStep(s, l, s', a);
    if NoTrace(s, a) {
      forall k: nat ensures !Outstanding(s', a, k) {
        assert !Outstanding(s, a, k);
      }
    }
  }

  /**
   In every run a call that ends with a replay or a conflict has inserted no row, sent no request, and
   nothing of it can still take effect.
   */
  lemma {:induction false} RepliesHaveNoEffect(w: seq<Request>, states: seq<State>, labels: seq<Label>, n: nat, a: nat)
    requires Run(w, states, labels) && n < |states| && a < |w|
    ensures At(states[n], a) && (Untouched(states[n].calls[a].pc) ==> NoTrace(states[n], a))
    decreases n
  {
    if n > 0 {
      RepliesHaveNoEffect(w, states, labels, n - 1, a);
      var s, l, s' := states[n-1], labels[n-1], states[n];
      StructureHolds(w, states, labels, n - 1);
      assert Step(s, l, s');
      StepEffect(s, l, s');
      if Untouched(s'.calls[a].pc) {
        NoTraceStep(s, l, s', a);
      }
    }
  }
}
