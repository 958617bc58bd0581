/**
 Safety of the write protocol over every run of every workload: lock ownership, recovery of
 orphans only, and at-most-once execution of each external step while its row exists.
 */
module ProtocolSafety {
  import opened Base
  import opened JournalModel
  import opened WriteProtocol

  // ----- The structural invariant -----

  ghost predicate CallShape(c: Call) {
    if c.req.Write? then
      c.confirmed <= |c.req.plan| && (c.pc.Sent? ==> c.confirmed < |c.req.plan|)
    else
      c.pc.Idle? || c.pc.Locked? || c.pc.Returning? || c.pc.Done?
  }

  ghost predicate LocksHeld(s: State) {
    && (forall a | 0 <= a < |s.calls| && HoldsLock(s.calls[a].pc) ::
          s.calls[a].req.account in s.locks && s.locks[s.calls[a].req.account] == a)
    && (forall account | account in s.locks ::
          && At(s, s.locks[account])
          && HoldsLock(s.calls[s.locks[account]].pc)
          && s.calls[s.locks[account]].req.account == account)
  }

  ghost predicate RowOwned(s: State, op: Text)
    requires op in s.rows && op in s.owner
  {
    var a := s.owner[op];
    && Writing(s, a) && !NotInserted(s.calls[a].pc)
    && s.calls[a].req.op == op
    && SameOperation(s.rows[op].record, RecordOf(s.calls[a].req))
  }

  ghost predicate Structure(s: State) {
    && (forall a | 0 <= a < |s.calls| :: CallShape(s.calls[a]))
    && LocksHeld(s)
    && s.owner.Keys == s.rows.Keys
    && (forall op | op in s.rows :: RowOwned(s, op))
  }

  // ----- What a step can change, without any invariant -----

  /** The call may have sent its step number `confirmed`. */
  predicate PastSend(pc: Pc) {
    !NotInserted(pc) && !pc.Running? && !pc.Confirmed?
  }

  /** Past sending and confirming for good. */
  predicate Quiescent(pc: Pc) {
    PastSend(pc) && !pc.Sent?
  }

  /** A call never moves back before something it did. */
  ghost predicate Progress(c: Call, c': Call) {
    && c'.req == c.req
    && (Quiescent(c.pc) ==> Quiescent(c'.pc) && c'.confirmed == c.confirmed && c'.result == c.result)
    && (NotInserted(c'.pc) ==> NotInserted(c.pc))
    && (c'.confirmed > c.confirmed || (c'.confirmed == c.confirmed && (PastSend(c.pc) ==> PastSend(c'.pc))))
  }

  /** Only call `a` moves. */
  ghost predicate Moves(s: State, s': State, a: nat) {
    && At(s, a) && |s'.calls| == |s.calls|
    && (forall b | 0 <= b < |s.calls| && b != a :: s'.calls[b] == s.calls[b])
    && Progress(s.calls[a], s'.calls[a])
    && CallShape(s'.calls[a])
  }

  /** Nothing is sent, delivered or confirmed. */
  ghost predicate SameNetwork(s: State, s': State, a: nat)
    requires At(s, a) && At(s', a)
  {
    && s'.flying == s.flying && s'.applied == s.applied
    && s'.calls[a].confirmed == s.calls[a].confirmed && s'.calls[a].result == s.calls[a].result
  }

  ghost predicate SameHold(s: State, s': State, a: nat)
    requires At(s, a) && At(s', a)
  {
    s'.locks == s.locks && HoldsLock(s'.calls[a].pc) == HoldsLock(s.calls[a].pc)
  }

  /** The call neither acts on its row any more nor reports a status it stored. */
  predicate Claimless(pc: Pc) {
    !Begun(pc) && !((pc.Returning? || pc.Done?) && pc.report.Reported?)
  }

  predicate ReplayedPc(pc: Pc) {
    (pc.Returning? || pc.Done?) && pc.report.Replayed?
  }

  /** The report is the stored row of the call's UUID, and the row has the call's kind and payload. */
  ghost predicate FreshReplay(s: State, a: nat, report: Report)
    requires Writing(s, a) && report.Replayed?
  {
    var op := s.calls[a].req.op;
    && op in s.rows && report.entry == s.rows[op] && report.source == OwnerOf(s, op)
    && SameInput(s.rows[op].record, RecordOf(s.calls[a].req))
  }

  ghost predicate SameJournal(s: State, s': State) {
    s'.rows == s.rows && s'.owner == s.owner
  }

  /** Rows may go and may change state, but keep their owner, account and input. */
  ghost predicate RowsShrink(s: State, s': State) {
    && s'.rows.Keys == s'.owner.Keys && s'.rows.Keys <= s.rows.Keys && s.rows.Keys == s.owner.Keys
    && (forall op | op in s'.rows :: s'.owner[op] == s.owner[op] && SameOperation(s'.rows[op].record, s.rows[op].record))
  }

  /** There is such a call, and its program counter fits its confirmed steps. */
  ghost predicate Shaped(s: State, a: nat) {
    At(s, a) && CallShape(s.calls[a])
  }

  lemma ReplayEffect(s: State, l: Label, s': State)
    requires (l.Lookup? || l.Recheck?) && Shaped(s, l.call)
    requires Step(s, l, s')
    ensures Moves(s, s', l.call) && SameHold(s, s', l.call) && SameJournal(s, s') && s'.history == s.history
    ensures Claimless(s'.calls[l.call].pc)
    ensures SameNetwork(s, s', l.call)
    ensures ReplayedPc(s'.calls[l.call].pc) ==> s.calls[l.call].req.Write? && FreshReplay(s, l.call, s'.calls[l.call].pc.report)
  {
  }

  lemma ProgressEffect(s: State, l: Label, s': State)
    requires (l.Conclude? || l.Verify?) && Shaped(s, l.call)
    requires Step(s, l, s')
    ensures Moves(s, s', l.call) && SameHold(s, s', l.call) && SameJournal(s, s') && s'.history == s.history
    ensures Begun(s.calls[l.call].pc)
    ensures SameNetwork(s, s', l.call)
  {
  }

  lemma SendEffect(s: State, l: Label, s': State)
    requires l.Send? && Shaped(s, l.call)
    requires Step(s, l, s')
    ensures Moves(s, s', l.call) && SameHold(s, s', l.call) && SameJournal(s, s')
    ensures s.calls[l.call].pc.Running? && s'.calls[l.call] == s.calls[l.call].(pc := Sent)
    ensures s'.history == s.history + [Attempted(s.calls[l.call].req.op, l.call, s.calls[l.call].confirmed)]
    ensures s'.applied == s.applied && s'.flying == s.flying + {(l.call, s.calls[l.call].confirmed)}
    ensures s.calls[l.call].confirmed < |s.calls[l.call].req.plan|
  {
  }

  lemma AnswerEffect(s: State, l: Label, s': State)
    requires l.Answer? && Shaped(s, l.call)
    requires Step(s, l, s')
    ensures Moves(s, s', l.call) && SameHold(s, s', l.call) && SameJournal(s, s') && s'.history == s.history
    ensures s.calls[l.call].pc.Sent? && s'.applied == s.applied
    ensures if l.reply.Accepted?
            then s'.flying == s.flying && s'.calls[l.call] == AcceptedCall(s.calls[l.call], l.reply.moved)
                 && (l.call, s.calls[l.call].confirmed) in s.applied
            else s'.calls[l.call].confirmed == s.calls[l.call].confirmed && s'.calls[l.call].result == s.calls[l.call].result
                 && s'.flying == if l.reply.Ambiguous? then s.flying else s.flying - {(l.call, s.calls[l.call].confirmed)}
    ensures l.reply.Rejected? || l.reply.Wiped? ==> MayReportError(s, l.call)
  {
  }

  lemma StoreEffect(s: State, l: Label, s': State)
    requires l.Store? && Shaped(s, l.call)
    requires s.owner.Keys == s.rows.Keys
    requires Step(s, l, s')
    ensures Moves(s, s', l.call) && SameHold(s, s', l.call) && RowsShrink(s, s')
    ensures s'.history == s.history && s'.owner == s.owner
    ensures s.calls[l.call].pc.Finishing?
    ensures SameNetwork(s, s', l.call)
    ensures var c, pc' := s.calls[l.call], s'.calls[l.call].pc;
            if FinishResult(s.rows, c.req.op, c.pc.status, c.pc.locator).Err?
            then pc' == Returning(Unfinished) && s'.rows == s.rows
            else (pc' == if c.req.kind.AutoReply? && c.pc.status == Partial then Verifying else Returning(Reported(c.pc.status)))
                 && s'.rows == FinishRows(s.rows, c.req.op, c.pc.status, c.pc.steps, c.pc.locator, s.now)
  {
  }

  lemma UpdateEffect(s: State, l: Label, s': State)
    requires (l.Checkpoint? || l.Recover?) && Shaped(s, l.call)
    requires s.owner.Keys == s.rows.Keys
    requires Step(s, l, s')
    ensures Moves(s, s', l.call) && SameHold(s, s', l.call) && RowsShrink(s, s')
    ensures s'.history == s.history && s'.owner == s.owner
    ensures Begun(s'.calls[l.call].pc) ==> Begun(s.calls[l.call].pc)
    ensures SameNetwork(s, s', l.call)
  {
  }

  lemma WipeEffect(s: State, l: Label, s': State)
    requires l.Wipe? && Shaped(s, l.call)
    requires Step(s, l, s')
    ensures Moves(s, s', l.call) && SameHold(s, s', l.call) && Claimless(s'.calls[l.call].pc)
    ensures IsRemoval(s, s')
    ensures SameNetwork(s, s', l.call)
  {
  }

  lemma ReleaseEffect(s: State, l: Label, s': State)
    requires (l.Return? || l.Abandon?) && Shaped(s, l.call)
    requires Step(s, l, s')
    ensures Moves(s, s', l.call) && SameJournal(s, s') && s'.history == s.history
    ensures s'.calls[l.call].pc.Done? && s'.locks == Unlock(s, l.call).locks
    ensures SameNetwork(s, s', l.call)
  {
  }

  lemma AcquireEffect(s: State, l: Label, s': State)
    requires l.Acquire? && Shaped(s, l.call)
    requires Step(s, l, s')
    ensures Moves(s, s', l.call) && SameJournal(s, s') && s'.history == s.history
    ensures s'.calls[l.call].pc.Locked? && s'.locks == s.locks[s.calls[l.call].req.account := l.call]
    ensures s.calls[l.call].req.account !in s.locks
    ensures SameNetwork(s, s', l.call)
  {
  }

  lemma BeginEffect(s: State, s': State, a: nat)
    requires Step(s, Begin(a), s') && CallShape(s.calls[a])
    ensures Moves(s, s', a) && SameHold(s, s', a) && !NotInserted(s'.calls[a].pc) && s.calls[a].pc.Locked?
    ensures if s.calls[a].req.op in s.rows
            then SameJournal(s, s') && s'.history == s.history && Claimless(s'.calls[a].pc)
            else s'.calls[a].pc.Running? && Inserts(s, s', a)
    ensures ReplayedPc(s'.calls[a].pc) ==> s.calls[a].req.Write? && FreshReplay(s, a, s'.calls[a].pc.report)
    ensures SameNetwork(s, s', a)
  {
  }

  ghost predicate Inserts(s: State, s': State, a: nat)
    requires At(s, a)
  {
    && s.calls[a].req.Write? && s.calls[a].req.op !in s.rows
    && s'.rows == s.rows[s.calls[a].req.op := Entry(RecordOf(s.calls[a].req), s.now, s.now, None)]
    && s'.owner == s.owner[s.calls[a].req.op := a]
    && s'.history == s.history + [Inserted(s.calls[a].req.op, a)]
  }

  ghost predicate IsRemoval(s: State, s': State) {
    && |s'.history| == |s.history| + 1 && s.history <= s'.history
    && var e := s'.history[|s.history|];
    && (e.Purged? || e.Expired?)
    && s'.rows == s.rows - e.removed.Keys && s'.owner == s.owner - e.removed.Keys
    && LegitimateRemoval(e)
  }

  lemma EnvironmentEffect(s: State, l: Label, s': State)
    requires (l.Deliver? || l.Purge? || l.Prune? || l.Tick?)
    requires Step(s, l, s')
    ensures s'.calls == s.calls && s'.locks == s.locks
    ensures if l.Purge? || l.Prune? then IsRemoval(s, s') else SameJournal(s, s') && s'.history == s.history
    ensures !l.Deliver? ==> s'.flying == s.flying && s'.applied == s.applied
  {
  }

  // ----- Every step keeps the structural invariant -----

  lemma ShrinkKeepsRows(s: State, s': State)
    requires forall op | op in s.rows && op in s.owner :: RowOwned(s, op)
    requires RowsShrink(s, s') && AllProgress(s, s')
    ensures forall op | op in s'.rows :: RowOwned(s', op)
  {
    forall op | op in s'.rows
      ensures RowOwned(s', op)
    {
      assert RowOwned(s, op);
    }
  }

  lemma GrowthKeepsRows(s: State, s': State, a: nat)
    requires s.owner.Keys == s.rows.Keys && (forall op | op in s.rows :: RowOwned(s, op))
    requires AllProgress(s, s') && At(s, a) && Inserts(s, s', a) && !NotInserted(s'.calls[a].pc)
    ensures s'.owner.Keys == s'.rows.Keys
    ensures forall op | op in s'.rows :: RowOwned(s', op)
  {
    forall op | op in s'.rows
      ensures RowOwned(s', op)
    {
      if op in s.rows {
        assert RowOwned(s, op);
      }
    }
  }

  ghost predicate AllProgress(s: State, s': State) {
    |s'.calls| == |s.calls| && forall a | 0 <= a < |s.calls| :: Progress(s.calls[a], s'.calls[a])
  }

  lemma SameLocks(s: State, s': State, a: nat)
    requires LocksHeld(s) && Moves(s, s', a) && SameHold(s, s', a)
    ensures LocksHeld(s')
  {
  }

  lemma TakeLock(s: State, s': State, a: nat)
    requires LocksHeld(s) && Moves(s, s', a) && s'.calls[a].pc.Locked?
    requires s.calls[a].req.account !in s.locks && s'.locks == s.locks[s.calls[a].req.account := a]
    ensures LocksHeld(s')
  {
  }

  lemma DropLock(s: State, s': State, a: nat)
    requires LocksHeld(s) && Moves(s, s', a) && s'.calls[a].pc.Done? && s'.locks == Unlock(s, a).locks
    ensures LocksHeld(s')
  {
  }

  /** The steps of one call that leave the set of rows and every lock alone. */
  ghost predicate Local(l: Label) {
    l.Lookup? || l.Recheck? || l.Conclude? || l.Verify? || l.Send? || l.Answer? || l.Checkpoint? || l.Store? || l.Recover?
  }

  lemma LocalEffect(s: State, l: Label, s': State)
    requires Local(l) && Shaped(s, l.call) && s.owner.Keys == s.rows.Keys
    requires Step(s, l, s')
    ensures Moves(s, s', l.call) && SameHold(s, s', l.call) && RowsShrink(s, s') && s'.owner == s.owner
    ensures Begun(s'.calls[l.call].pc) ==> Begun(s.calls[l.call].pc)
    ensures !l.Send? ==> s'.history == s.history
  {
    if l.Lookup? || l.Recheck? {
      ReplayEffect(s, l, s');
    } else if l.Conclude? || l.Verify? {
      ProgressEffect(s, l, s');
    } else if l.Send? {
      SendEffect(s, l, s');
    } else if l.Answer? {
      AnswerEffect(s, l, s');
    } else if l.Store? {
      StoreEffect(s, l, s');
    } else {
      UpdateEffect(s, l, s');
    }
  }

  lemma RemovalShrinks(s: State, s': State)
    requires s.owner.Keys == s.rows.Keys && IsRemoval(s, s')
    ensures RowsShrink(s, s')
  {
  }

  ghost predicate Advances(s: State, s': State) {
    AllProgress(s, s') && forall a | 0 <= a < |s'.calls| :: CallShape(s'.calls[a])
  }

  lemma MoveAdvances(s: State, s': State, a: nat)
    requires (forall b | 0 <= b < |s.calls| :: CallShape(s.calls[b])) && Moves(s, s', a)
    ensures Advances(s, s')
  {
  }

  lemma StandAdvances(s: State, s': State)
    requires (forall b | 0 <= b < |s.calls| :: CallShape(s.calls[b])) && s'.calls == s.calls
    ensures Advances(s, s')
  {
  }

  /** The step's effect on the calls and the rows, whatever the step. */
  lemma StepEffect(s: State, l: Label, s': State)
    requires Structure(s) && Step(s, l, s')
    ensures Advances(s, s')
    ensures RowsShrink(s, s') || (l.Begin? && Inserts(s, s', l.call) && !NotInserted(s'.calls[l.call].pc))
  {
    if Local(l) {
      LocalEffect(s, l, s');
      MoveAdvances(s, s', l.call);
    } else if l.Wipe? {
      WipeEffect(s, l, s');
      MoveAdvances(s, s', l.call);
      RemovalShrinks(s, s');
    } else if l.Return? || l.Abandon? {
      ReleaseEffect(s, l, s');
      MoveAdvances(s, s', l.call);
      JournalStands(s, s');
    } else if l.Acquire? {
      AcquireEffect(s, l, s');
      MoveAdvances(s, s', l.call);
      JournalStands(s, s');
    } else if l.Begin? {
      BeginEffect(s, s', l.call);
      MoveAdvances(s, s', l.call);
      if s.calls[l.call].req.op in s.rows {
        JournalStands(s, s');
      }
    } else {
      EnvironmentEffect(s, l, s');
      StandAdvances(s, s');
      if l.Purge? || l.Prune? {
        RemovalShrinks(s, s');
      } else {
        JournalStands(s, s');
      }
    }
  }

  lemma JournalStands(s: State, s': State)
    requires SameJournal(s, s') && s.owner.Keys == s.rows.Keys
    ensures RowsShrink(s, s')
  {
  }

  /** The steps of one call, as against deliveries, purges, pruning and the clock. */
  ghost predicate ByCall(l: Label) {
    Local(l) || l.Wipe? || l.Return? || l.Abandon? || l.Acquire? || l.Begin?
  }

  lemma OthersStand(s: State, l: Label, s': State, b: nat)
    requires Structure(s) && At(s, b) && (ByCall(l) ==> b != l.call)
    requires Step(s, l, s')
    ensures At(s', b) && s'.calls[b] == s.calls[b]
  {
    if Local(l) {
      LocalEffect(s, l, s');
    } else if l.Wipe? {
      WipeEffect(s, l, s');
    } else if l.Return? || l.Abandon? {
      ReleaseEffect(s, l, s');
    } else if l.Acquire? {
      AcquireEffect(s, l, s');
    } else if l.Begin? {
      BeginEffect(s, s', l.call);
    } else {
      EnvironmentEffect(s, l, s');
    }
  }

  lemma LocksStep(s: State, l: Label, s': State)
    requires Structure(s) && Step(s, l, s')
    ensures LocksHeld(s')
  {
    if Local(l) {
      LocalEffect(s, l, s');
      SameLocks(s, s', l.call);
    } else if l.Wipe? {
      WipeEffect(s, l, s');
      SameLocks(s, s', l.call);
    } else if l.Return? || l.Abandon? {
      ReleaseEffect(s, l, s');
      DropLock(s, s', l.call);
    } else if l.Acquire? {
      AcquireEffect(s, l, s');
      TakeLock(s, s', l.call);
    } else if l.Begin? {
      BeginEffect(s, s', l.call);
      SameLocks(s, s', l.call);
    } else {
      EnvironmentEffect(s, l, s');
    }
  }

  lemma StructureStep(s: State, l: Label, s': State)
    requires Structure(s) && Step(s, l, s')
    ensures Structure(s')
  {
    StepEffect(s, l, s');
    LocksStep(s, l, s');
    if RowsShrink(s, s') {
      ShrinkKeepsRows(s, s');
    } else {
      GrowthKeepsRows(s, s', l.call);
    }
  }

  lemma {:induction false} StructureHolds(w: seq<Request>, states: seq<State>, labels: seq<Label>, n: nat)
    requires Run(w, states, labels) && n < |states|
    ensures Structure(states[n])
  {
    if n == 0 {
      assert forall a | 0 <= a < |w| :: Init(w).calls[a].pc.Idle?;
    } else {
      StructureHolds(w, states, labels, n - 1);
      assert Step(states[n-1], labels[n-1], states[n]);
      StructureStep(states[n-1], labels[n-1], states[n]);
    }
  }

  // ----- Lock ownership -----

  /** The call that inserted the row may still change it. */
  ghost predicate OwnerActive(s: State, op: Text) {
    op in s.owner && At(s, s.owner[op]) && Begun(s.calls[s.owner[op]].pc)
  }

  /**
   In every reachable state: a row whose owner can still act is protected by that owner's hold
   on the row's account lock, and two calls never hold one account's lock together.
   */
  lemma LockOwnership(w: seq<Request>, states: seq<State>, labels: seq<Label>, n: nat)
    requires Run(w, states, labels) && n < |states|
    ensures forall op | op in states[n].rows && OwnerActive(states[n], op) ::
              && states[n].rows[op].record.account in states[n].locks
              && states[n].locks[states[n].rows[op].record.account] == states[n].owner[op]
    ensures forall a, b | 0 <= a < |states[n].calls| && 0 <= b < |states[n].calls|
                          && HoldsLock(states[n].calls[a].pc) && HoldsLock(states[n].calls[b].pc)
                          && states[n].calls[a].req.account == states[n].calls[b].req.account :: a == b
  {
    StructureHolds(w, states, labels, n);
    forall op | op in states[n].rows && OwnerActive(states[n], op)
      ensures && states[n].rows[op].record.account in states[n].locks
              && states[n].locks[states[n].rows[op].record.account] == states[n].owner[op]
    {
      assert RowOwned(states[n], op);
    }
  }

  /**
   Recovery, by a reader or at startup, turns exactly the account's pending rows to Unknown, and
   the call that inserted such a row can no longer act on it.
   */
  lemma RecoveryTouchesOrphansOnly(w: seq<Request>, states: seq<State>, labels: seq<Label>, n: nat, op: Text)
    requires Run(w, states, labels) && n < |labels| && labels[n].Recover? && op in states[n].rows
    ensures op in states[n+1].rows
    ensures var account := states[n].calls[labels[n].call].req.account;
            var before := states[n].rows[op];
            if before.record.account == account && before.record.status == Pending
            then states[n+1].rows[op].record == before.record.(status := Unknown)
                 && states[n+1].rows[op].locator == before.locator
                 && !OwnerActive(states[n], op)
            else states[n+1].rows[op] == before
  {
    StructureHolds(w, states, labels, n);
    assert Step(states[n], labels[n], states[n+1]);
    assert RowOwned(states[n], op);
  }

  // ----- At most once -----

  ghost predicate Removes(e: Event, op: Text) {
    (e.Purged? || e.Expired?) && op in e.removed
  }

  /** Rows leave the journal only by an account purge, or by pruning a settled row past its retention. */
  ghost predicate LegitimateRemoval(e: Event) {
    e.Expired? ==>
      forall op | op in e.removed ::
        && (e.removed[op].record.status == Succeeded || e.removed[op].record.status == Failed)
        && e.removed[op].updatedAt < e.at - 90 * 24 * 60 * 60
  }

  /** The call whose row for `op` is stored after history `h`. */
  ghost function Current(h: seq<Event>, op: Text): Option<nat> {
    if h == [] then None
    else
      var e := h[|h|-1];
      if e.Inserted? && e.op == op then Some(e.call)
      else if Removes(e, op) then None
      else Current(h[..|h|-1], op)
  }

  ghost predicate InsertedBefore(h: seq<Event>, n: nat, op: Text, a: nat) {
    exists i | 0 <= i < n && i < |h| :: h[i] == Inserted(op, a)
  }

  /** The journal is what its history says, and a row is inserted only when there is none. */
  ghost predicate RowsFollowHistory(s: State) {
    && (forall i | 0 <= i < |s.history| && s.history[i].Inserted? :: Current(s.history[..i], s.history[i].op) == None)
    && (forall op :: Current(s.history, op) == if op in s.rows && op in s.owner then Some(s.owner[op]) else None)
    && (forall i | 0 <= i < |s.history| :: LegitimateRemoval(s.history[i]))
  }

  lemma AppendEvent(s: State, s': State, e: Event)
    requires RowsFollowHistory(s) && s'.history == s.history + [e] && LegitimateRemoval(e)
    requires e.Inserted? ==> Current(s.history, e.op) == None
    requires forall op :: (if op in s'.rows && op in s'.owner then Some(s'.owner[op]) else None)
                          == if e.Inserted? && e.op == op then Some(e.call)
                             else if Removes(e, op) then None
                             else if op in s.rows && op in s.owner then Some(s.owner[op]) else None
    ensures RowsFollowHistory(s')
  {
    var h, h' := s.history, s'.history;
    assert h'[..|h'|-1] == h && h'[|h'|-1] == e;
    forall i | 0 <= i < |h'| && h'[i].Inserted?
      ensures Current(h'[..i], h'[i].op) == None
    {
      assert i < |h| ==> h'[..i] == h[..i];
    }
    forall op
      ensures Current(h', op) == if op in s'.rows && op in s'.owner then Some(s'.owner[op]) else None
    {
      assert Current(h, op) == if op in s.rows && op in s.owner then Some(s.owner[op]) else None;
    }
  }

  lemma KeepsFollow(s: State, s': State)
    requires RowsFollowHistory(s) && s'.history == s.history && s'.owner == s.owner && s'.rows.Keys == s.rows.Keys
    ensures RowsFollowHistory(s')
  {
  }

  lemma AttemptFollows(s: State, s': State, e: Event)
    requires RowsFollowHistory(s) && e.Attempted? && s'.history == s.history + [e] && SameJournal(s, s')
    ensures RowsFollowHistory(s')
  {
    AppendEvent(s, s', e);
  }

  lemma RemovalFollows(s: State, s': State)
    requires RowsFollowHistory(s) && IsRemoval(s, s') && s.owner.Keys == s.rows.Keys
    ensures RowsFollowHistory(s')
  {
    assert s'.history == s.history + [s'.history[|s.history|]];
    AppendEvent(s, s', s'.history[|s.history|]);
  }

  lemma InsertionFollows(s: State, s': State, a: nat)
    requires RowsFollowHistory(s) && At(s, a) && Inserts(s, s', a)
    ensures RowsFollowHistory(s')
  {
    AppendEvent(s, s', Inserted(s.calls[a].req.op, a));
  }

  lemma RowsFollowStep(s: State, l: Label, s': State)
    requires Structure(s) && RowsFollowHistory(s) && Step(s, l, s')
    ensures RowsFollowHistory(s')
  {
    if l.Send? {
      SendEffect(s, l, s');
      AttemptFollows(s, s', Attempted(s.calls[l.call].req.op, l.call, s.calls[l.call].confirmed));
    } else if Local(l) {
      LocalEffect(s, l, s');
      KeepsFollow(s, s');
    } else if l.Wipe? {
      WipeEffect(s, l, s');
      RemovalFollows(s, s');
    } else if l.Return? || l.Abandon? {
      ReleaseEffect(s, l, s');
      KeepsFollow(s, s');
    } else if l.Acquire? {
      AcquireEffect(s, l, s');
      KeepsFollow(s, s');
    } else if l.Begin? {
      BeginEffect(s, s', l.call);
      if s.calls[l.call].req.op !in s.rows {
        InsertionFollows(s, s', l.call);
      } else {
        KeepsFollow(s, s');
      }
    } else {
      EnvironmentEffect(s, l, s');
      if l.Purge? || l.Prune? {
        RemovalFollows(s, s');
      } else {
        KeepsFollow(s, s');
      }
    }
  }

  /** Between two insertions of one UUID its row was removed. */
  lemma {:induction false} RemovedBetween(h: seq<Event>, i: nat, j: nat, op: Text)
    requires i < j <= |h| && h[i].Inserted? && h[i].op == op
    requires Current(h[..j], op) == None
    ensures exists k | i < k < j :: Removes(h[k], op)
  {
    var e := h[j-1];
    assert h[..j][..j-1] == h[..j-1];
    if i < j - 1 && !Removes(e, op) {
      RemovedBetween(h, i, j - 1, op);
    }
  }

  // Which events a call can have caused.

  /** Step `k` of the call is one it may already have sent. */
  ghost predicate MayHaveSent(c: Call, k: nat) {
    k < c.confirmed || (k == c.confirmed && PastSend(c.pc))
  }

  ghost predicate EventBacked(s: State, i: nat)
    requires i < |s.history|
  {
    match s.history[i]
    case Inserted(op, a) => Writing(s, a) && s.calls[a].req.op == op && !NotInserted(s.calls[a].pc)
    case Attempted(op, a, k) =>
      Writing(s, a) && s.calls[a].req.op == op && MayHaveSent(s.calls[a], k) && InsertedBefore(s.history, i, op, a)
    case Purged(_) => true
    case Expired(_, _) => true
  }

  ghost predicate EventsDistinct(h: seq<Event>) {
    && (forall i, j | 0 <= i < j < |h| && h[i].Attempted? && h[j].Attempted? && h[i].call == h[j].call :: h[i].step != h[j].step)
    && (forall i, j | 0 <= i < j < |h| && h[i].Inserted? && h[j].Inserted? :: h[i].call != h[j].call)
  }

  ghost predicate CallsFollowHistory(s: State) {
    && (forall i | 0 <= i < |s.history| :: EventBacked(s, i))
    && EventsDistinct(s.history)
    && (forall a | 0 <= a < |s.calls| && Begun(s.calls[a].pc) ::
          Writing(s, a) && InsertedBefore(s.history, |s.history|, s.calls[a].req.op, a))
  }

  lemma EventsStayBacked(s: State, s': State)
    requires AllProgress(s, s') && s.history <= s'.history
    requires forall i | 0 <= i < |s.history| :: EventBacked(s, i)
    ensures forall i | 0 <= i < |s.history| :: EventBacked(s', i)
  {
    forall i | 0 <= i < |s.history|
      ensures EventBacked(s', i)
    {
      assert EventBacked(s, i) && s'.history[i] == s.history[i];
      if s.history[i].Attempted? {
        var j :| 0 <= j < i && s.history[j] == Inserted(s.history[i].op, s.history[i].call);
        assert s'.history[j] == s.history[j];
      }
    }
  }

  ghost predicate NoneBegins(s: State, s': State) {
    forall a | 0 <= a < |s.calls| && a < |s'.calls| && Begun(s'.calls[a].pc) :: Begun(s.calls[a].pc)
  }

  /** Steps that insert nothing and send nothing. */
  lemma QuietHistory(s: State, s': State)
    requires CallsFollowHistory(s) && AllProgress(s, s') && NoneBegins(s, s')
    requires s'.history == s.history || (IsRemoval(s, s') && s'.history == s.history + [s'.history[|s.history|]])
    ensures CallsFollowHistory(s')
  {
    EventsStayBacked(s, s');
    InsertionsRemain(s, s');
  }

  lemma InsertionsRemain(s: State, s': State)
    requires s.history <= s'.history && AllProgress(s, s')
    requires forall a | 0 <= a < |s.calls| && Begun(s.calls[a].pc) ::
               Writing(s, a) && InsertedBefore(s.history, |s.history|, s.calls[a].req.op, a)
    ensures forall a | 0 <= a < |s.calls| && Begun(s.calls[a].pc) ::
              Writing(s', a) && InsertedBefore(s'.history, |s'.history|, s'.calls[a].req.op, a)
  {
    forall a | 0 <= a < |s.calls| && Begun(s.calls[a].pc)
      ensures Writing(s', a) && InsertedBefore(s'.history, |s'.history|, s'.calls[a].req.op, a)
    {
      var j :| 0 <= j < |s.history| && s.history[j] == Inserted(s.calls[a].req.op, a);
      assert s'.history[j] == s.history[j];
    }
  }

  lemma SendHistory(s: State, s': State, a: nat)
    requires CallsFollowHistory(s) && AllProgress(s, s') && NoneBegins(s, s')
    requires At(s, a) && s.calls[a].pc.Running? && s'.calls[a] == s.calls[a].(pc := Sent) && s.calls[a].req.Write?
    requires s'.history == s.history + [Attempted(s.calls[a].req.op, a, s.calls[a].confirmed)]
    ensures CallsFollowHistory(s')
  {
    EventsStayBacked(s, s');
    InsertionsRemain(s, s');
    var n := |s.history|;
    var i :| 0 <= i < n && s.history[i] == Inserted(s.calls[a].req.op, a);
    assert s'.history[i] == s.history[i];
    assert EventBacked(s', n);
    forall i | 0 <= i < n && s'.history[i].Attempted? && s'.history[i].call == a
      ensures s'.history[i].step != s.calls[a].confirmed
    {
      assert EventBacked(s, i);
    }
  }

  lemma InsertHistory(s: State, s': State, a: nat)
    requires CallsFollowHistory(s) && AllProgress(s, s') && At(s, a) && Inserts(s, s', a)
    requires NotInserted(s.calls[a].pc) && !NotInserted(s'.calls[a].pc)
    requires forall b | 0 <= b < |s.calls| && b != a :: s'.calls[b] == s.calls[b]
    ensures CallsFollowHistory(s')
  {
    EventsStayBacked(s, s');
    InsertionsRemain(s, s');
    var n := |s.history|;
    assert s'.history[n] == Inserted(s.calls[a].req.op, a);
    assert EventBacked(s', n);
    forall i | 0 <= i < n && s'.history[i].Inserted?
      ensures s'.history[i].call != a
    {
      assert EventBacked(s, i);
    }
  }

  lemma CallsFollowStep(s: State, l: Label, s': State)
    requires Structure(s) && CallsFollowHistory(s) && Step(s, l, s')
    ensures CallsFollowHistory(s')
  {
    StepEffect(s, l, s');
    if l.Send? {
      SendEffect(s, l, s');
      SendHistory(s, s', l.call);
    } else if Local(l) {
      LocalEffect(s, l, s');
      QuietHistory(s, s');
    } else if l.Wipe? {
      WipeEffect(s, l, s');
      QuietHistory(s, s');
    } else if l.Return? || l.Abandon? {
      ReleaseEffect(s, l, s');
      QuietHistory(s, s');
    } else if l.Acquire? {
      AcquireEffect(s, l, s');
      QuietHistory(s, s');
    } else if l.Begin? {
      BeginEffect(s, s', l.call);
      if s.calls[l.call].req.op in s.rows {
        QuietHistory(s, s');
      } else {
        InsertHistory(s, s', l.call);
      }
    } else {
      EnvironmentEffect(s, l, s');
      QuietHistory(s, s');
    }
  }

  lemma {:induction false} HistoryHolds(w: seq<Request>, states: seq<State>, labels: seq<Label>, n: nat)
    requires Run(w, states, labels) && n < |states|
    ensures RowsFollowHistory(states[n]) && CallsFollowHistory(states[n])
  {
    if n > 0 {
      HistoryHolds(w, states, labels, n - 1);
      StructureHolds(w, states, labels, n - 1);
      assert Step(states[n-1], labels[n-1], states[n]);
      RowsFollowStep(states[n-1], labels[n-1], states[n]);
      CallsFollowStep(states[n-1], labels[n-1], states[n]);
    }
  }

  /** Rows of calls `a` and `b` for one UUID were inserted in turn, with a legitimate removal between. */
  ghost predicate Reinserted(h: seq<Event>, op: Text, a: nat, b: nat, limit: nat) {
    exists p, k, q | 0 <= p < k < q < limit && q < |h| ::
      && h[p] == Inserted(op, a) && h[q] == Inserted(op, b)
      && Removes(h[k], op) && LegitimateRemoval(h[k])
  }

  lemma ReinsertedInOrder(s: State, op: Text, p: nat, q: nat, limit: nat)
    requires RowsFollowHistory(s) && p < q < limit <= |s.history|
    requires s.history[p].Inserted? && s.history[p].op == op && s.history[q].Inserted? && s.history[q].op == op
    ensures Reinserted(s.history, op, s.history[p].call, s.history[q].call, limit)
  {
    RemovedBetween(s.history, p, q, op);
    var k :| p < k < q && Removes(s.history[k], op);
    assert LegitimateRemoval(s.history[k]);
  }

  /**
   At most once, over every interleaving with crashes, replays and recoveries: if one external
   step of a UUID was attempted twice, then two different calls inserted its row, and between the
   two insertions the row was removed, by an account purge or by pruning a Succeeded or Failed row
   last updated more than 90 days before.
   */
  lemma AtMostOnce(w: seq<Request>, states: seq<State>, labels: seq<Label>, n: nat, i: nat, j: nat)
    requires Run(w, states, labels) && n < |states|
    requires i < j < |states[n].history|
    requires states[n].history[i].Attempted? && states[n].history[j].Attempted?
    requires states[n].history[i].op == states[n].history[j].op && states[n].history[i].step == states[n].history[j].step
    ensures var h := states[n].history;
            && h[i].call != h[j].call
            && (Reinserted(h, h[i].op, h[i].call, h[j].call, j) || Reinserted(h, h[i].op, h[j].call, h[i].call, j))
  {
    HistoryHolds(w, states, labels, n);
    var s := states[n];
    var h, op := s.history, s.history[i].op;
    assert EventBacked(s, i) && EventBacked(s, j);
    var x :| 0 <= x < i && h[x] == Inserted(op, h[i].call);
    var y :| 0 <= y < j && h[y] == Inserted(op, h[j].call);
    if x < y {
      ReinsertedInOrder(s, op, x, y, j);
    } else {
      ReinsertedInOrder(s, op, y, x, j);
    }
  }
}
