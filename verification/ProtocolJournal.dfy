/**
 What the stored rows mean. Everything here needs one condition on the workload: a UUID is used for
 one account only. `ProtocolConflict` shows that without it a call can overwrite another call's row.
 */
module ProtocolJournal {
  import opened Base
  import opened JournalModel
  import opened WriteProtocol
  import opened ProtocolSafety
  import opened ProtocolTruth

  /** No two writes use one UUID for different accounts. */
  predicate OneAccountPerUuid(w: seq<Request>) {
    forall a, b | 0 <= a < |w| && 0 <= b < |w| && w[a].Write? && w[b].Write? && w[a].op == w[b].op ::
      w[a].account == w[b].account
  }

  ghost predicate UuidsBound(s: State) {
    forall a, b | 0 <= a < |s.calls| && 0 <= b < |s.calls| && Writing(s, a) && Writing(s, b)
                  && s.calls[a].req.op == s.calls[b].req.op ::
      s.calls[a].req.account == s.calls[b].req.account
  }

  /** The row a call may checkpoint or finish, if it still exists, is the one that call inserted. */
  ghost predicate OwnRow(s: State, a: nat) {
    Writing(s, a) && Begun(s.calls[a].pc) && s.calls[a].req.op in s.rows ==>
      s.calls[a].req.op in s.owner && s.owner[s.calls[a].req.op] == a
  }

  ghost predicate OwnRows(s: State) {
    forall a | 0 <= a < |s.calls| :: OwnRow(s, a)
  }

  lemma OwnRowsStep(s: State, l: Label, s': State)
    requires Structure(s) && UuidsBound(s) && OwnRows(s) && Step(s, l, s')
    ensures OwnRows(s')
  {
    StepEffect(s, l, s');
    forall b | 0 <= b < |s'.calls|
      ensures OwnRow(s', b)
    {
      assert OwnRow(s, b);
      if ByCall(l) && b == l.call {
        OwnRowOfMover(s, l, s');
      } else {
        OthersStand(s, l, s', b);
        if l.Begin? {
          BeginEffect(s, s', l.call);
        }
      }
    }
  }

  lemma OwnRowOfMover(s: State, l: Label, s': State)
    requires ByCall(l) && Structure(s) && OwnRow(s, l.call)
    requires Step(s, l, s')
    ensures OwnRow(s', l.call)
  {
    if Local(l) {
      LocalEffect(s, l, s');
    } else if l.Wipe? {
      WipeEffect(s, l, s');
    } else if l.Return? || l.Abandon? {
      ReleaseEffect(s, l, s');
    } else if l.Acquire? {
      AcquireEffect(s, l, s');
    } else {
      BeginEffect(s, s', l.call);
    }
  }

  /** The mask stored for a call is its confirmed prefix, or lags it by exactly one step. */
  ghost predicate PrefixOrOneBehind(c: Call, steps: bv32) {
    && c.req.Write? && c.confirmed <= |c.req.plan|
    && (steps == CompletedMask(c) || (0 < c.confirmed && steps == MaskOf(c.req.plan[..c.confirmed-1])))
  }

  /** A row whose owner can still act: Pending, or Partial while an automatic reply is verified. */
  ghost predicate ActiveRow(c: Call, r: Record)
    requires c.req.Write? && c.confirmed <= |c.req.plan|
  {
    if c.pc.Verifying? || (c.req.kind.AutoReply? && c.pc.Finishing? && c.pc.status == Succeeded) then r.status == Partial
    else r.status == Pending && (c.pc.Running? || c.pc.Sent? ==> r.steps == CompletedMask(c))
  }

  ghost predicate Settled(st: Status) {
    st == Succeeded || st == Failed || st == Partial
  }

  /** What a row says is true of the call that inserted it. */
  ghost predicate RowTrue(s: State, op: Text) {
    op in s.rows && op in s.owner && Writing(s, s.owner[op]) ==>
      var a, e := s.owner[op], s.rows[op];
      var c, r := s.calls[a], e.record;
      && PrefixOrOneBehind(c, r.steps)
      && (Settled(r.status) ==> StatusTrue(s, a, r.status) && r.steps == CompletedMask(c) && Quiescent(c.pc))
      && (Begun(c.pc) ==> ActiveRow(c, r))
      && (e.locator.Some? ==> r.status == Succeeded && c.req.kind.Mail? && e.locator == c.result)
  }

  ghost predicate RowsTrue(s: State) {
    forall op :: RowTrue(s, op)
  }

  /** A row nobody touches stays true if its owner does not begin anything new. */
  lemma RowStands(s: State, s': State, op: Text)
    requires RowTrue(s, op) && op in s.rows && op in s.owner && Writing(s, s.owner[op])
    requires op in s'.rows && op in s'.owner && s'.rows[op] == s.rows[op] && s'.owner[op] == s.owner[op]
    requires At(s', s.owner[op]) && Progress(s.calls[s.owner[op]], s'.calls[s.owner[op]])
    requires s'.calls[s.owner[op]].confirmed == s.calls[s.owner[op]].confirmed
    requires s'.calls[s.owner[op]].result == s.calls[s.owner[op]].result || s'.rows[op].locator.None?
    requires Settled(s.rows[op].record.status) ==> NothingNew(s, s', s.owner[op])
    requires Begun(s'.calls[s.owner[op]].pc) ==> ActiveRow(s'.calls[s.owner[op]], s.rows[op].record)
    ensures RowTrue(s', op)
  {
    var a := s.owner[op];
    if Settled(s.rows[op].record.status) {
      StatusStays(s, s', a, s.rows[op].record.status);
    }
  }

  /** What every invariant so far says of one state. */
  ghost predicate Sound(s: State) {
    Structure(s) && Network(s) && CallsTrue(s) && UuidsBound(s) && OwnRows(s) && RowsTrue(s)
  }

  /** The row is the call's before the step and still there after it. */
  ghost predicate OwnRowStays(s: State, s': State, op: Text, a: nat) {
    op in s.rows && op in s'.rows && op in s.owner && s.owner[op] == a
  }

  /** Steps that leave every surviving row as it was. */
  ghost predicate LeavesRows(l: Label) {
    !l.Checkpoint? && !l.Store? && !l.Recover?
  }

  lemma LeavesRowsEffect(s: State, l: Label, s': State, op: Text)
    requires LeavesRows(l) && Structure(s) && op in s.rows && op in s'.rows
    requires Step(s, l, s')
    ensures op in s'.owner && s'.rows[op] == s.rows[op] && s'.owner[op] == s.owner[op]
  {
    if Local(l) {
      if l.Lookup? || l.Recheck? {
        ReplayEffect(s, l, s');
      } else if l.Conclude? || l.Verify? {
        ProgressEffect(s, l, s');
      } else if l.Send? {
        SendEffect(s, l, s');
      } else {
        AnswerEffect(s, l, s');
      }
    } else if l.Wipe? {
      WipeEffect(s, l, s');
    } else if l.Return? || l.Abandon? {
      ReleaseEffect(s, l, s');
    } else if l.Acquire? {
      AcquireEffect(s, l, s');
    } else if l.Begin? {
      BeginEffect(s, s', l.call);
    } else {
      EnvironmentEffect(s, l, s');
    }
  }

  /** A checkpoint or a final store reaches the caller's own row only. */
  lemma UpdatesOwnRow(s: State, l: Label, s': State, op: Text)
    requires (l.Checkpoint? || l.Store?) && Structure(s) && OwnRows(s) && op in s.rows
    requires s.owner[op] != l.call
    requires Step(s, l, s')
    ensures op in s'.rows && op in s'.owner && s'.rows[op] == s.rows[op] && s'.owner[op] == s.owner[op]
  {
    UpdateRows(s, l, s');
    assert OwnRow(s, l.call);
  }

  lemma UpdateRows(s: State, l: Label, s': State)
    requires (l.Checkpoint? || l.Store?) && Step(s, l, s')
    ensures Begun(s.calls[l.call].pc) && s.calls[l.call].req.Write?
    ensures s'.rows == s.rows || (s.calls[l.call].req.op in s.rows && s.calls[l.call].req.op in s'.rows
                                  && s'.rows == s.rows[s.calls[l.call].req.op := s'.rows[s.calls[l.call].req.op]])
    ensures s'.owner == s.owner
  {
  }

  lemma RowOfOther(s: State, l: Label, s': State, op: Text)
    requires Sound(s) && !l.Recover? && op in s.rows && op in s'.rows
    requires ByCall(l) ==> l.call != s.owner[op]
    requires Step(s, l, s')
    ensures RowTrue(s', op)
  {
    var a := s.owner[op];
    assert RowOwned(s, op) && RowTrue(s, op);
    StepEffect(s, l, s');
    OthersStand(s, l, s', a);
    NothingNewStep(s, l, s', a);
    if LeavesRows(l) {
      LeavesRowsEffect(s, l, s', op);
    } else {
      UpdatesOwnRow(s, l, s', op);
    }
    RowStands(s, s', op);
  }

  /** Recovery finds only rows whose owner cannot act, and takes no promise back. */
  lemma RowRecovered(s: State, l: Label, s': State, op: Text)
    requires Sound(s) && l.Recover? && op in s.rows && op in s'.rows
    requires Step(s, l, s')
    ensures RowTrue(s', op)
  {
    var a := s.owner[op];
    assert RowOwned(s, op) && RowTrue(s, op);
    RecoverRowsEffect(s, l, s', op);
    StepEffect(s, l, s');
    OthersStand(s, l, s', a);
    NothingNewStep(s, l, s', a);
    if s'.rows[op] == s.rows[op] {
      RowStands(s, s', op);
    } else {
      RowOrphaned(s, s', op);
    }
  }

  lemma RowOrphaned(s: State, s': State, op: Text)
    requires RowTrue(s, op) && op in s.rows && op in s.owner && Writing(s, s.owner[op])
    requires op in s'.rows && op in s'.owner && s'.owner[op] == s.owner[op]
    requires At(s', s.owner[op]) && s'.calls[s.owner[op]] == s.calls[s.owner[op]]
    requires s.rows[op].record.status == Pending && s'.rows[op].locator == s.rows[op].locator
    requires s'.rows[op].record == s.rows[op].record.(status := Unknown) && !OwnerActive(s, op)
    ensures RowTrue(s', op)
  {
  }

  lemma RecoverRowsEffect(s: State, l: Label, s': State, op: Text)
    requires Structure(s) && l.Recover? && op in s.rows
    requires Step(s, l, s')
    ensures op in s'.rows && op in s'.owner && s'.owner[op] == s.owner[op] && s.owner[op] != l.call
    ensures s'.rows[op] == RecoverEntry(s.rows[op], s.calls[l.call].req.account, s.now)
    ensures s'.rows[op] != s.rows[op] ==> !OwnerActive(s, op)
  {
    assert RowOwned(s, op);
  }

  lemma RowInserted(s: State, l: Label, s': State, op: Text)
    requires Sound(s) && op !in s.rows && op in s'.rows
    requires Step(s, l, s')
    ensures RowTrue(s', op)
  {
    StepEffect(s, l, s');
    BeginEffect(s, s', l.call);
    assert PcTrue(s, l.call);
    assert s.calls[l.call].req.plan[..0] == [];
  }

  // The row of the call that moves.

  lemma RowOfSender(s: State, l: Label, s': State, op: Text)
    requires (l.Send? || l.Conclude? || l.Verify?) && Sound(s)
    requires OwnRowStays(s, s', op, l.call)
    requires Step(s, l, s')
    ensures RowTrue(s', op)
  {
    assert RowOwned(s, op) && RowTrue(s, op) && PcTrue(s, l.call);
    LeavesRowsEffect(s, l, s', op);
    if l.Send? {
      SendEffect(s, l, s');
    } else {
      ProgressEffect(s, l, s');
      NothingNewStep(s, l, s', l.call);
      VerifyOrConclude(s, l, s');
    }
    RowStands(s, s', op);
  }

  lemma VerifyOrConclude(s: State, l: Label, s': State)
    requires (l.Conclude? || l.Verify?) && Step(s, l, s')
    ensures if l.Conclude? then s.calls[l.call].pc.Running? && s.calls[l.call].confirmed == |s.calls[l.call].req.plan|
                                && s'.calls[l.call].pc.Finishing?
            else s.calls[l.call].pc.Verifying?
                 && (s'.calls[l.call].pc == Finishing(Succeeded, 1, None) || !Begun(s'.calls[l.call].pc))
  {
  }

  lemma RowOfAnswered(s: State, l: Label, s': State, op: Text)
    requires l.Answer? && Sound(s)
    requires OwnRowStays(s, s', op, l.call)
    requires Step(s, l, s')
    ensures RowTrue(s', op)
  {
    var a := l.call;
    assert RowOwned(s, op) && RowTrue(s, op) && PcTrue(s, a);
    LeavesRowsEffect(s, l, s', op);
    AnswerEffect(s, l, s');
    if l.reply.Accepted? {
      RowOneBehind(s, s', op);
    } else {
      NothingNewStep(s, l, s', a);
      RejectedShape(s, l, s');
      RowStands(s, s', op);
    }
  }

  /** A confirmed step the row does not show yet. */
  lemma RowOneBehind(s: State, s': State, op: Text)
    requires RowTrue(s, op) && op in s.rows && op in s.owner && Writing(s, s.owner[op]) && s.calls[s.owner[op]].pc.Sent?
    requires op in s'.rows && op in s'.owner && s'.owner[op] == s.owner[op] && s'.rows[op] == s.rows[op]
    requires At(s', s.owner[op]) && s.calls[s.owner[op]].confirmed < |s.calls[s.owner[op]].req.plan|
    requires exists moved :: s'.calls[s.owner[op]] == AcceptedCall(s.calls[s.owner[op]], moved)
    ensures RowTrue(s', op)
  {
  }

  lemma RejectedShape(s: State, l: Label, s': State)
    requires l.Answer? && !l.reply.Accepted? && Step(s, l, s')
    ensures s'.calls[l.call].pc == Wiping || (s'.calls[l.call].pc.Finishing? && s'.calls[l.call].pc.status != Succeeded)
  {
  }

  /** A wipe removes the rows of its own account, the wiping call's among them. */
  lemma WiperLeavesNoRow(s: State, l: Label, s': State, op: Text)
    requires l.Wipe? && op in s.rows && op in s.owner && RowOwned(s, op) && s.owner[op] == l.call
    requires Step(s, l, s')
    ensures op !in s'.rows
  {
  }

  lemma RowOfLeaver(s: State, l: Label, s': State, op: Text)
    requires (l.Return? || l.Abandon?) && Sound(s)
    requires OwnRowStays(s, s', op, l.call)
    requires Step(s, l, s')
    ensures RowTrue(s', op)
  {
    assert RowOwned(s, op) && RowTrue(s, op);
    LeavesRowsEffect(s, l, s', op);
    NothingNewStep(s, l, s', l.call);
    ReleaseEffect(s, l, s');
    RowStands(s, s', op);
  }

  lemma RowCheckpointed(s: State, l: Label, s': State, op: Text)
    requires l.Checkpoint? && Sound(s)
    requires OwnRowStays(s, s', op, l.call)
    requires Step(s, l, s')
    ensures RowTrue(s', op)
  {
    assert RowOwned(s, op) && RowTrue(s, op);
    UpdateEffect(s, l, s');
    CheckpointEffect(s, l, s');
    RowAdvanced(s, s', op);
  }

  lemma CheckpointEffect(s: State, l: Label, s': State)
    requires l.Checkpoint? && Step(s, l, s') && s.calls[l.call].req.op in s.rows
    requires s.rows[s.calls[l.call].req.op].record.status == Pending
    ensures var op := s.calls[l.call].req.op;
            && s'.calls[l.call] == s.calls[l.call].(pc := Running) && s.calls[l.call].pc.Confirmed?
            && op in s'.rows && s'.rows[op].locator == s.rows[op].locator
            && s'.rows[op].record == s.rows[op].record.(steps := CompletedMask(s.calls[l.call]))
  {
  }

  lemma RowAdvanced(s: State, s': State, op: Text)
    requires RowTrue(s, op) && op in s.rows && op in s.owner && Writing(s, s.owner[op])
    requires op in s'.rows && op in s'.owner && s'.owner[op] == s.owner[op] && At(s', s.owner[op])
    requires s'.calls[s.owner[op]] == s.calls[s.owner[op]].(pc := Running)
    requires s.rows[op].record.status == Pending && s'.rows[op].locator == s.rows[op].locator
    requires s.calls[s.owner[op]].confirmed <= |s.calls[s.owner[op]].req.plan|
    requires s'.rows[op].record == s.rows[op].record.(steps := CompletedMask(s.calls[s.owner[op]]))
    ensures RowTrue(s', op)
  {
  }

  lemma RowStored(s: State, l: Label, s': State, op: Text)
    requires l.Store? && Sound(s)
    requires OwnRowStays(s, s', op, l.call)
    requires Step(s, l, s')
    ensures RowTrue(s', op)
  {
    var a := l.call;
    assert RowOwned(s, op) && RowTrue(s, op) && PcTrue(s, a);
    StoreEffect(s, l, s');
    NothingNewStep(s, l, s', a);
    StatusStays(s, s', a, s.calls[a].pc.status);
    if s'.rows == s.rows {
      RowStands(s, s', op);
    }
  }

  lemma RowsTrueStep(s: State, l: Label, s': State)
    requires Sound(s) && Step(s, l, s')
    ensures RowsTrue(s')
  {
    StepEffect(s, l, s');
    forall op
      ensures RowTrue(s', op)
    {
      if op in s'.rows && op in s'.owner {
        if op !in s.rows {
          RowInserted(s, l, s', op);
        } else if l.Recover? {
          RowRecovered(s, l, s', op);
        } else if ByCall(l) && l.call == s.owner[op] {
          RowOfMover(s, l, s', op);
        } else {
          RowOfOther(s, l, s', op);
        }
      }
    }
  }

  lemma RowOfMover(s: State, l: Label, s': State, op: Text)
    requires ByCall(l) && !l.Recover? && Sound(s)
    requires OwnRowStays(s, s', op, l.call)
    requires Step(s, l, s')
    ensures RowTrue(s', op)
  {
    if l.Send? || l.Conclude? || l.Verify? {
      RowOfSender(s, l, s', op);
    } else if l.Answer? {
      RowOfAnswered(s, l, s', op);
    } else if l.Wipe? {
      assert RowOwned(s, op);
      WiperLeavesNoRow(s, l, s', op);
    } else if l.Return? || l.Abandon? {
      RowOfLeaver(s, l, s', op);
    } else if l.Checkpoint? {
      RowCheckpointed(s, l, s', op);
    } else if l.Store? {
      RowStored(s, l, s', op);
    } else {
      assert RowOwned(s, op);
      OwnerHasBegun(s, l, s');
    }
  }

  lemma OwnerHasBegun(s: State, l: Label, s': State)
    requires (l.Lookup? || l.Recheck? || l.Acquire? || l.Begin?) && Step(s, l, s')
    ensures NotInserted(s.calls[l.call].pc)
  {
  }

  lemma {:induction false} SoundHolds(w: seq<Request>, states: seq<State>, labels: seq<Label>, n: nat)
    requires Run(w, states, labels) && n < |states| && ValidWorkload(w) && OneAccountPerUuid(w)
    ensures Sound(states[n]) && |states[n].calls| == |w|
    ensures forall a | 0 <= a < |w| :: states[n].calls[a].req == w[a]
  {
    if n == 0 {
      assert forall a | 0 <= a < |w| :: Init(w).calls[a] == Call(w[a], Idle, 0, None);
    } else {
      SoundHolds(w, states, labels, n - 1);
      var s, l, s' := states[n-1], labels[n-1], states[n];
      assert Step(s, l, s');
      StepEffect(s, l, s');
      assert forall a | 0 <= a < |w| :: Progress(s.calls[a], s'.calls[a]);
      StructureStep(s, l, s');
      NetworkStep(s, l, s');
      CallsTrueStep(s, l, s');
      OwnRowsStep(s, l, s');
      RowsTrueStep(s, l, s');
    }
  }
}
