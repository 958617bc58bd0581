/** A reference once returned is returned again by every replay, over whole runs. */
module ProtocolReference {
  import opened Base
  import opened JournalModel
  import opened WriteProtocol
  import opened ProtocolSafety
  import opened ProtocolJournal
  import opened ProtocolResults
  import opened ReferenceCodec
  import opened SingleWrites
  import opened MailMutation

  /** The row of the UUID, if there is one, was inserted by call `a`. */
  predicate OwnedBy(s: State, op: Text, a: nat) {
    op in s.rows && op in s.owner && s.owner[op] == a
  }

  /** The call has inserted its row, or gone past that. */
  predicate PastBegin(s: State, a: nat) {
    At(s, a) && !NotInserted(s.calls[a].pc)
  }

  /** A row that is gone never comes back under the same owner: a call inserts at most once. */
  lemma OwnerNeverReturns(s: State, l: Label, s': State, op: Text, a: nat)
    requires Structure(s) && PastBegin(s, a)
    requires Step(s, l, s')
    ensures PastBegin(s', a)
    ensures OwnedBy(s', op, a) ==> OwnedBy(s, op, a)
  {
    StepEffect(s, l, s');
    assert Progress(s.calls[a], s'.calls[a]);
    if l.Begin? {
      BeginEffect(s, s', l.call);
    }
  }

  lemma OwnersAreInserters(s: State, op: Text, a: nat)
    requires Structure(s) && OwnedBy(s, op, a)
    ensures PastBegin(s, a)
  {
    assert RowOwned(s, op);
  }

  lemma OwnerNeverReturnsAt(w: seq<Request>, states: seq<State>, labels: seq<Label>, n: nat, op: Text, a: nat)
    requires Run(w, states, labels) && 0 < n < |states| && PastBegin(states[n-1], a)
    ensures PastBegin(states[n], a)
    ensures OwnedBy(states[n], op, a) ==> OwnedBy(states[n-1], op, a)
  {
    StructureHolds(w, states, labels, n - 1);
    assert Step(states[n-1], labels[n-1], states[n]);
    OwnerNeverReturns(states[n-1], labels[n-1], states[n], op, a);
  }

  lemma {:induction false} InserterStays(w: seq<Request>, states: seq<State>, labels: seq<Label>, n: nat, m: nat, a: nat)
    requires Run(w, states, labels) && n <= m < |states| && PastBegin(states[n], a)
    ensures PastBegin(states[m], a)
    decreases m
  {
    if n < m {
      InserterStays(w, states, labels, n, m - 1, a);
      OwnerNeverReturnsAt(w, states, labels, m, [], a);
    }
  }

  /** If the row is still the call's at `m`, it was so one step before. */
  lemma OwnedBefore(w: seq<Request>, states: seq<State>, labels: seq<Label>, n: nat, m: nat, op: Text, a: nat)
    requires Run(w, states, labels) && n < m < |states| && PastBegin(states[n], a) && OwnedBy(states[m], op, a)
    ensures OwnedBy(states[m-1], op, a)
  {
    InserterStays(w, states, labels, n, m - 1, a);
    OwnerNeverReturnsAt(w, states, labels, m, op, a);
  }

  lemma OwnerPastBegin(w: seq<Request>, states: seq<State>, labels: seq<Label>, n: nat, op: Text, a: nat)
    requires Run(w, states, labels) && n < |states| && OwnedBy(states[n], op, a)
    ensures PastBegin(states[n], a)
  {
    StructureHolds(w, states, labels, n);
    OwnersAreInserters(states[n], op, a);
  }

  /** A Succeeded row stays the same entry for as long as it is the same call's. */
  lemma {:induction false} SucceededRowStays(w: seq<Request>, states: seq<State>, labels: seq<Label>, n: nat, m: nat,
                                             op: Text, a: nat)
    requires Run(w, states, labels) && n <= m < |states| && ValidWorkload(w) && OneAccountPerUuid(w)
    requires OwnedBy(states[n], op, a) && OwnedBy(states[m], op, a) && states[n].rows[op].record.status == Succeeded
    ensures states[m].rows[op] == states[n].rows[op]
    decreases m
  {
    if n < m {
      OwnerPastBegin(w, states, labels, n, op, a);
      OwnedBefore(w, states, labels, n, m, op, a);
      SucceededRowStays(w, states, labels, n, m - 1, op, a);
      SettledRowsAreFinal(w, states, labels, m - 1, op);
    }
  }

  /**
   If the row stored by a call at step `n` gives a reference, as it does when the call returned one, then
   any replay at a later step with the row still the same call's returns that very string.
   */
  lemma ReferenceSurvives(w: seq<Request>, states: seq<State>, labels: seq<Label>, n: nat, m: nat, op: Text, a: nat,
                          f: Formats, ref: string, asker: Record)
    requires Run(w, states, labels) && n <= m < |states| && ValidWorkload(w) && OneAccountPerUuid(w)
    requires OwnedBy(states[n], op, a) && OwnedBy(states[m], op, a)
    requires var e := states[n].rows[op];
             e.locator.Some? && EncodeMail(f, LocatedMail(e.record.account, e.locator.value)) == Ok(ref)
    requires SameInput(states[n].rows[op].record, asker)
    ensures ReplayAnswer(states[m].rows, f, op, asker) == Ok(Some(MutationResult(ToldSucceeded, Some(ref))))
  {
    SoundHolds(w, states, labels, n);
    assert RowOwned(states[n], op) && RowTrue(states[n], op);
    SucceededRowStays(w, states, labels, n, m, op, a);
  }

  /** And a replay that a run actually makes at a later step reports that row. */
  lemma ReplaysReportTheRow(w: seq<Request>, states: seq<State>, labels: seq<Label>, n: nat, m: nat, a: nat)
    requires Run(w, states, labels) && n <= m < |labels| && ValidWorkload(w) && OneAccountPerUuid(w)
    requires (labels[m].Lookup? || labels[m].Recheck? || labels[m].Begin?) && At(states[m], labels[m].call)
    requires At(states[m+1], labels[m].call) && ReplayedPc(states[m+1].calls[labels[m].call].pc)
    requires var op := states[m].calls[labels[m].call].req.op;
             states[m].calls[labels[m].call].req.Write? && OwnedBy(states[n], op, a) && OwnedBy(states[m], op, a)
             && states[n].rows[op].record.status == Succeeded
    ensures states[m+1].calls[labels[m].call].pc.report
            == Replayed(states[n].rows[states[m].calls[labels[m].call].req.op], a)
  {
    var l, op := labels[m], states[m].calls[labels[m].call].req.op;
    SoundHolds(w, states, labels, m);
    assert Step(states[m], l, states[m+1]);
    SucceededRowStays(w, states, labels, n, m, op, a);
    if l.Begin? {
      BeginEffect(states[m], states[m+1], l.call);
    } else {
      ReplayEffect(states[m], l, states[m+1]);
    }
  }
}
