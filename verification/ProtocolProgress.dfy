/** The protocol is not safe by doing nothing: every write can be carried out and stored in full. */
module ProtocolProgress {
  import opened Base
  import opened JournalModel
  import opened WriteProtocol
  import opened ProtocolConflict
  import opened ProtocolTruth

  /** Call `a` alone has run: all its steps took effect, its row says so, its lock is free, and it reports success. */
  ghost predicate Accomplished(w: seq<Request>, s: State, a: nat, moved: Option<Locator>)
    requires a < |w| && w[a].Write?
  {
    && At(s, a) && s.calls[a].pc == Done(Reported(Succeeded)) && s.locks == map[]
    && (forall k: nat | k < |w[a].plan| :: (a, k) in s.applied)
    && w[a].op in s.rows && s.rows[w[a].op].locator == moved
    && s.rows[w[a].op].record == RecordOf(w[a]).(status := Succeeded, steps := MaskOf(w[a].plan))
  }

  /** Call `a` alone has run: `k` steps took effect, and its row shows `status` and `steps`. */
  ghost predicate Underway(w: seq<Request>, s: State, a: nat, k: nat, call: Call, status: Status, steps: bv32) {
    && |s.calls| == |w| && a < |w| && w[a].Write? && s.calls[a] == call && s.locks == map[w[a].account := a]
    && (forall j: nat | j < k :: (a, j) in s.applied)
    && w[a].op in s.rows && s.rows[w[a].op].locator == None
    && s.rows[w[a].op].record == RecordOf(w[a]).(status := status, steps := steps)
  }

  lemma Open(w: seq<Request>, a: nat) returns (states: seq<State>, labels: seq<Label>)
    requires a < |w| && w[a].Write?
    ensures Run(w, states, labels) && Underway(w, states[|labels|], a, 0, Call(w[a], Running, 0, None), Pending, 0)
  {
    states, labels := OpenWrite(w, [Init(w)], [], a);
  }

  /** One more step is sent, takes effect, and is acknowledged. */
  lemma Acknowledge(w: seq<Request>, states: seq<State>, labels: seq<Label>, a: nat, k: nat, mask: bv32, moved: Option<Locator>)
    returns (states': seq<State>, labels': seq<Label>)
    requires a < |w| && w[a].Write? && Run(w, states, labels)
    requires Underway(w, states[|labels|], a, k, Call(w[a], Running, k, None), Pending, mask)
    requires k < |w[a].plan| && (moved.Some? ==> w[a].kind.Mail?)
    ensures Run(w, states', labels')
    ensures Underway(w, states'[|labels'|], a, k + 1, AcceptedCall(Call(w[a], Sent, k, None), moved), Pending, mask)
  {
    states', labels' := Extend(w, states, labels, Send(a));
    states', labels' := Extend(w, states', labels', Deliver(a, k));
    states', labels' := Extend(w, states', labels', Answer(a, Accepted(moved)));
  }

  lemma {:induction false} Proceed(w: seq<Request>, a: nat, k: nat) returns (states: seq<State>, labels: seq<Label>)
    requires a < |w| && w[a].Write? && w[a].kind.Calendar? && k <= |w[a].plan|
    ensures Run(w, states, labels)
    ensures Underway(w, states[|labels|], a, k, Call(w[a], Running, k, None), Pending, MaskOf(w[a].plan[..k]))
    decreases k
  {
    if k == 0 {
      states, labels := Open(w, a);
    } else {
      states, labels := Proceed(w, a, k - 1);
      states, labels := Acknowledge(w, states, labels, a, k - 1, MaskOf(w[a].plan[..k-1]), None);
      states, labels := Extend(w, states, labels, Checkpoint(a));
    }
  }

  /** Storing the success and returning. */
  lemma StoreSuccess(w: seq<Request>, states: seq<State>, labels: seq<Label>, a: nat, status: Status, steps: bv32, call: Call)
    returns (states': seq<State>, labels': seq<Label>)
    requires a < |w| && w[a].Write? && Run(w, states, labels)
    requires Underway(w, states[|labels|], a, |w[a].plan|, call, status, steps)
    requires call.req == w[a] && call.pc.Finishing? && call.pc.status == Succeeded && call.pc.steps == MaskOf(w[a].plan)
    requires LocatorAccepted(Succeeded, call.pc.locator)
    ensures Run(w, states', labels') && Accomplished(w, states'[|labels'|], a, call.pc.locator)
  {
    states', labels' := Extend(w, states, labels, Store(a));
    states', labels' := Extend(w, states', labels', Return(a));
  }

  /**
   For every write of every workload there is a run in which all its steps take effect, its row says Succeeded with
   the full mask and the confirmed locator, and the call reports success and frees its lock.
   */
  lemma EveryWriteCanSucceed(w: seq<Request>, a: nat, moved: Option<Locator>) returns (states: seq<State>, labels: seq<Label>)
    requires ValidWorkload(w) && a < |w| && w[a].Write?
    requires moved.Some? ==> w[a].kind.Mail? && ValidLocator(moved.value)
    ensures Run(w, states, labels) && Accomplished(w, states[|labels|], a, moved)
  {
    assert ValidRequest(w[a]);
    var n := |w[a].plan|;
    assert w[a].plan[..n] == w[a].plan;
    if w[a].kind.Calendar? {
      states, labels := Proceed(w, a, n);
      states, labels := Extend(w, states, labels, Conclude(a));
      states, labels := StoreSuccess(w, states, labels, a, Pending, MaskOf(w[a].plan), states[|labels|].calls[a]);
    } else {
      SingleStepMask(w[a].plan);
      states, labels := Open(w, a);
      states, labels := Acknowledge(w, states, labels, a, 0, 0, moved);
      if w[a].kind.AutoReply? {
        states, labels := Extend(w, states, labels, Store(a));
        states, labels := Extend(w, states, labels, Verify(a, Matches));
        states, labels := StoreSuccess(w, states, labels, a, Partial, 1, states[|labels|].calls[a]);
      } else {
        states, labels := StoreSuccess(w, states, labels, a, Pending, 0, states[|labels|].calls[a]);
      }
    }
  }
}
