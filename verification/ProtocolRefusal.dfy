/**
 What a Failed or Partial row is worth. A calendar item step goes on working after Exchange has accepted
 it, and an ordinary error of that work is stored like a refusal. So such a row may deny a step that took
 effect, and exactly the workloads without item steps are free of that.
 */
module ProtocolRefusal {
  import opened Base
  import opened JournalModel
  import opened WriteProtocol
  import opened ProtocolSafety
  import opened ProtocolTruth
  import opened ProtocolJournal
  import opened ProtocolResults
  import opened ProtocolConflict

  /** Failed says that no step took effect or will; Partial says so of every step from the confirmed prefix on. */
  ghost predicate RefusalTrue(s: State, a: nat, status: Status) {
    && (status == Failed ==> NothingFrom(s, a, 0))
    && (status == Partial && At(s, a) ==> NothingFrom(s, a, s.calls[a].confirmed))
  }

  /** Every row, and every status a call reports or replays, is true in that sense. */
  ghost predicate RefusalsTrue(s: State) {
    && (forall op | op in s.rows && op in s.owner :: RefusalTrue(s, s.owner[op], s.rows[op].record.status))
    && (forall a: nat | Writing(s, a) && s.calls[a].pc.Done? :: ReportedRefusalTrue(s, a))
  }

  ghost predicate ReportedRefusalTrue(s: State, a: nat)
    requires At(s, a) && s.calls[a].pc.Done?
  {
    match s.calls[a].pc.report
    case Replayed(e, b) => RefusalTrue(s, b, e.record.status)
    case Reported(status) => RefusalTrue(s, a, status)
    case _ => true
  }

  ghost predicate RefusalsSafe(w: seq<Request>) {
    forall states: seq<State>, labels: seq<Label>, n: nat | Run(w, states, labels) && n < |states| ::
      RefusalsTrue(states[n])
  }

  /** No request of the workload has a calendar item step. */
  ghost predicate NoItemSteps(w: seq<Request>) {
    forall a: nat, k: nat | a < |w| :: !FollowUp(w[a], k)
  }

  // ----- Without item steps -----

  lemma GivenUpMeansNothing(s: State, a: nat, k: nat)
    requires Writing(s, a) && GivenUp(s, a, k) && NothingFrom(s, a, k + 1) && !FollowUp(s.calls[a].req, k)
    ensures NothingFrom(s, a, k)
  {
    forall j: nat | k <= j ensures !Outstanding(s, a, j) {
      assert j == k || k + 1 <= j;
    }
  }

  lemma SafeWithoutItemSteps(w: seq<Request>, states: seq<State>, labels: seq<Label>, n: nat)
    requires Run(w, states, labels) && n < |states| && ValidWorkload(w) && OneAccountPerUuid(w) && NoItemSteps(w)
    ensures RefusalsTrue(states[n])
  {
    var s := states[n];
    SoundHolds(w, states, labels, n);
    forall op | op in s.rows && op in s.owner
      ensures RefusalTrue(s, s.owner[op], s.rows[op].record.status)
    {
      RowsTellTheTruth(w, states, labels, n, op);
      var a := s.owner[op];
      if s.rows[op].record.status in {Failed, Partial} {
        GivenUpMeansNothing(s, a, s.calls[a].confirmed);
      }
    }
    forall a: nat | Writing(s, a) && s.calls[a].pc.Done?
      ensures ReportedRefusalTrue(s, a)
    {
      ReportsTellTheTruth(w, states, labels, n, a);
      match s.calls[a].pc.report
      case Replayed(e, b) =>
        if e.record.status == Failed {
          GivenUpMeansNothing(s, b, 0);
        } else if e.record.status == Partial {
          GivenUpMeansNothing(s, b, s.calls[b].confirmed);
        }
      case Reported(status) =>
        if status == Failed {
          GivenUpMeansNothing(s, a, 0);
        } else if status == Partial {
          GivenUpMeansNothing(s, a, s.calls[a].confirmed);
        }
      case _ =>
    }
  }

  // ----- With an item step -----

  /** Call `a` runs with its first `k` steps confirmed, checkpointed and nothing else going on in its row. */
  ghost predicate Ready(w: seq<Request>, s: State, a: nat, k: nat) {
    && |s.calls| == |w| && a < |w| && w[a].Write? && w[a].kind.Calendar? && k <= |w[a].plan|
    && s.calls[a] == Call(w[a], Running, k, None)
    && w[a].op in s.rows && s.rows[w[a].op].record.status == Pending
    && w[a].op in s.owner && s.owner[w[a].op] == a
  }

  /** The next step is sent and takes effect. */
  lemma TakeEffect(w: seq<Request>, states: seq<State>, labels: seq<Label>, a: nat, k: nat)
    returns (states': seq<State>, labels': seq<Label>)
    requires Run(w, states, labels) && Ready(w, states[|labels|], a, k) && k < |w[a].plan|
    ensures Run(w, states', labels')
    ensures var s, s' := states[|labels|], states'[|labels'|];
            && s'.calls == s.calls[a := Call(w[a], Sent, k, None)] && s'.rows == s.rows && s'.owner == s.owner
            && (a, k) in s'.applied
  {
    states', labels' := Extend(w, states, labels, Send(a));
    states', labels' := Extend(w, states', labels', Deliver(a, k));
  }

  lemma ConfirmStep(w: seq<Request>, states: seq<State>, labels: seq<Label>, a: nat, k: nat)
    returns (states': seq<State>, labels': seq<Label>)
    requires Run(w, states, labels) && Ready(w, states[|labels|], a, k) && k < |w[a].plan|
    ensures Run(w, states', labels') && Ready(w, states'[|labels'|], a, k + 1)
  {
    states', labels' := TakeEffect(w, states, labels, a, k);
    states', labels' := Extend(w, states', labels', Answer(a, Accepted(None)));
    states', labels' := Extend(w, states', labels', Checkpoint(a));
  }

  lemma {:induction false} ReachStep(w: seq<Request>, a: nat, k: nat) returns (states: seq<State>, labels: seq<Label>)
    requires a < |w| && w[a].Write? && w[a].kind.Calendar? && k <= |w[a].plan|
    ensures Run(w, states, labels) && Ready(w, states[|labels|], a, k)
  {
    if k == 0 {
      states, labels := OpenWrite(w, [Init(w)], [], a);
    } else {
      states, labels := ReachStep(w, a, k - 1);
      states, labels := ConfirmStep(w, states, labels, a, k - 1);
    }
  }

  /**
   Step `k` of call `a`, a calendar item step, takes effect; then its follow-up work fails. The row says
   Failed when it was the first step and Partial otherwise, with the mask of the steps before it.
   */
  lemma AppliedThenFailed(w: seq<Request>, a: nat, k: nat) returns (states: seq<State>, labels: seq<Label>)
    requires ValidWorkload(w) && a < |w| && FollowUp(w[a], k)
    ensures Run(w, states, labels)
    ensures var s, op := states[|labels|], w[a].op;
            && op in s.rows && op in s.owner && s.owner[op] == a && At(s, a) && s.calls[a].confirmed == k
            && s.rows[op].record.status == (if k == 0 then Failed else Partial)
            && s.rows[op].record.steps == MaskOf(w[a].plan[..k])
            && (a, k) in s.applied
  {
    states, labels := ReachStep(w, a, k);
    states, labels := TakeEffect(w, states, labels, a, k);
    states, labels := Extend(w, states, labels, Answer(a, Rejected));
    assert ValidRequest(w[a]);
    if k > 0 {
      MaskNonZero(w[a].plan, k);
    } else {
      assert w[a].plan[..k] == [];
    }
    states, labels := Extend(w, states, labels, Store(a));
  }

  /**
   The Failed and Partial clauses hold in every run of a workload exactly when no request of it has a
   calendar item step.
   */
  lemma RefusalsSafeIffNoItemSteps(w: seq<Request>)
    requires ValidWorkload(w) && OneAccountPerUuid(w)
    ensures RefusalsSafe(w) <==> NoItemSteps(w)
  {
    if NoItemSteps(w) {
      forall states: seq<State>, labels: seq<Label>, n: nat | Run(w, states, labels) && n < |states|
        ensures RefusalsTrue(states[n])
      {
        SafeWithoutItemSteps(w, states, labels, n);
      }
    } else {
      var a: nat, k: nat :| a < |w| && FollowUp(w[a], k);
      var states, labels := AppliedThenFailed(w, a, k);
      var s := states[|labels|];
      assert Outstanding(s, a, k);
      assert !RefusalTrue(s, a, s.rows[w[a].op].record.status);
      assert !RefusalsTrue(states[|labels|]);
    }
  }
}
