/**
 The condition the journal's guarantees rest on. `finish` and `checkpoint` find their row by UUID
 alone, and an account purge takes no lock. So when one UUID is used for two accounts, a call that
 outlives a purge of its account can overwrite the row of a live call on the other account.
 */
module ProtocolConflict {
  import opened Base
  import opened JournalModel
  import opened WriteProtocol
  import opened ProtocolSafety
  import opened ProtocolTruth
  import opened ProtocolJournal
  import opened ProtocolResults

  /** In every run of the workload, rows change only by their owners or by recovery of orphans. */
  ghost predicate RowsSafe(w: seq<Request>) {
    forall states: seq<State>, labels: seq<Label>, n: nat | Run(w, states, labels) && n < |labels| ::
      OnlyOwnersWrite(states[n], labels[n], states[n+1])
  }

  lemma Extend(w: seq<Request>, states: seq<State>, labels: seq<Label>, l: Label)
    returns (states': seq<State>, labels': seq<Label>)
    requires Run(w, states, labels) && Enabled(states[|labels|], l)
    ensures labels' == labels + [l] && states' == states + [Apply(states[|labels|], l)]
    ensures Run(w, states', labels') && states'[|labels'|] == Apply(states[|labels|], l)
  {
    labels', states' := labels + [l], states + [Apply(states[|labels|], l)];
    forall i | 0 <= i < |labels'|
      ensures Step(states'[i], labels'[i], states'[i+1])
    {
      if i < |labels| {
        assert Step(states[i], labels[i], states[i+1]);
      }
    }
  }

  ghost predicate Clash(w: seq<Request>, a: nat, b: nat) {
    && a < |w| && b < |w| && w[a].Write? && w[b].Write? && w[a].op == w[b].op && w[a].account != w[b].account
  }

  /** Call `x` looks its UUID up, takes its lock and inserts its row. */
  lemma OpenWrite(w: seq<Request>, states: seq<State>, labels: seq<Label>, x: nat)
    returns (states': seq<State>, labels': seq<Label>)
    requires Run(w, states, labels) && x < |w| && w[x].Write?
    requires var s := states[|labels|];
             && |s.calls| == |w| && s.calls[x] == Call(w[x], Idle, 0, None)
             && w[x].op !in s.rows && w[x].account !in s.locks
    ensures Run(w, states', labels')
    ensures var s, s' := states[|labels|], states'[|labels'|];
            && s'.now == s.now
            && s'.calls == s.calls[x := Call(w[x], Running, 0, None)]
            && s'.rows == s.rows[w[x].op := Entry(RecordOf(w[x]), s.now, s.now, None)]
            && s'.owner == s.owner[w[x].op := x]
            && s'.locks == s.locks[w[x].account := x]
  {
    states', labels' := Extend(w, states, labels, Lookup(x));
    states', labels' := Extend(w, states', labels', Acquire(x));
    states', labels' := Extend(w, states', labels', Begin(x));
    var s, s' := states[|labels|], states'[|labels'|];
    assert s'.calls == s.calls[x := Call(w[x], Running, 0, None)];
  }

  /** The purge empties the journal under call `a`; call `b` then inserts the UUID for its own account. */
  lemma Intrude(w: seq<Request>, a: nat, b: nat) returns (states: seq<State>, labels: seq<Label>)
    requires Clash(w, a, b)
    ensures Run(w, states, labels)
    ensures var s := states[|labels|];
            && |s.calls| == |w| && s.calls[a] == Call(w[a], Running, 0, None) && s.calls[b] == Call(w[b], Running, 0, None)
            && s.rows == map[w[a].op := Entry(RecordOf(w[b]), s.now, s.now, None)] && s.owner == map[w[a].op := b]
  {
    states, labels := [Init(w)], [];
    states, labels := OpenWrite(w, states, labels, a);
    var first := states[|labels|];
    assert AccountRows(first.rows, w[a].account) == first.rows;
    states, labels := Extend(w, states, labels, Purge(w[a].account));
    var purged := states[|labels|];
    assert purged.rows == map[] && purged.owner == map[] && purged.calls == first.calls && purged.locks == first.locks;
    assert a != b;
    states, labels := OpenWrite(w, states, labels, b);
    var s := states[|labels|];
    assert s.rows == map[w[a].op := Entry(RecordOf(w[b]), s.now, s.now, None)];
    assert s.owner == map[w[a].op := b];
  }

  /** Call `a` then stores its unknown outcome over the live row of call `b`. */
  lemma Overwrite(w: seq<Request>, a: nat, b: nat)
    requires ValidWorkload(w) && Clash(w, a, b)
    ensures !RowsSafe(w)
  {
    var states, labels := Intrude(w, a, b);
    var s, op := states[|labels|], w[a].op;
    assert ValidRequest(w[a]);
    states, labels := Extend(w, states, labels, Send(a));
    states, labels := Extend(w, states, labels, Answer(a, Ambiguous));
    var before := states[|labels|];
    assert before.rows == s.rows && before.owner == s.owner;
    assert before.calls[a].pc == AmbiguousPc(Call(w[a], Sent, 0, None));
    states, labels := Extend(w, states, labels, Store(a));
    var n := |labels| - 1;
    var after := states[n+1];
    assert states[n] == before;
    assert after.owner[op] == b && after.rows[op].record.status == Unknown && before.rows[op].record.status == Pending;
    assert !OnlyOwnersWrite(states[n], labels[n], states[n+1]);
  }

  /**
   Rows are safe in every run of a workload exactly when no UUID is used for two accounts.
   */
  lemma RowsSafeIffOneAccountPerUuid(w: seq<Request>)
    requires ValidWorkload(w)
    ensures RowsSafe(w) <==> OneAccountPerUuid(w)
  {
    if OneAccountPerUuid(w) {
      forall states: seq<State>, labels: seq<Label>, n: nat | Run(w, states, labels) && n < |labels|
        ensures OnlyOwnersWrite(states[n], labels[n], states[n+1])
      {
        SoundHolds(w, states, labels, n);
        assert Step(states[n], labels[n], states[n+1]);
        WritersAreOwners(states[n], labels[n], states[n+1]);
      }
    } else {
      var a, b :| 0 <= a < |w| && 0 <= b < |w| && w[a].Write? && w[b].Write? && w[a].op == w[b].op
                  && w[a].account != w[b].account;
      Overwrite(w, a, b);
    }
  }
}
