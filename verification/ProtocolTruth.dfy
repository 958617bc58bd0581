/**
 Truthfulness of the journal: what each stored status and mask says about the external steps.
 */
module ProtocolTruth {
  import opened Base
  import opened JournalModel
  import opened WriteProtocol
  import opened ProtocolSafety

  // ----- The network -----

  /** The request of step `k` is on its way or has taken effect. */
  ghost predicate Outstanding(s: State, a: nat, k: nat) {
    (a, k) in s.flying || (a, k) in s.applied
  }

  /** Confirmed steps took effect, and only sent steps are outstanding. */
  ghost predicate Network(s: State) {
    && s.flying !! s.applied
    && (forall a: nat, k: nat | Outstanding(s, a, k) :: Writing(s, a) && MayHaveSent(s.calls[a], k))
    && (forall a: nat, k: nat | Writing(s, a) && k < s.calls[a].confirmed :: (a, k) in s.applied)
  }

  /** Everything but sending, answering and delivering leaves the network alone. */
  lemma OffNetwork(s: State, l: Label, s': State)
    requires Structure(s) && !l.Send? && !l.Answer? && !l.Deliver?
    requires Step(s, l, s')
    ensures s'.flying == s.flying && s'.applied == s.applied && SameCounts(s, s')
  {
    if l.Lookup? || l.Recheck? {
      ReplayEffect(s, l, s');
    } else if l.Conclude? || l.Verify? {
      ProgressEffect(s, l, s');
    } else if l.Store? {
      StoreEffect(s, l, s');
    } else if l.Checkpoint? || l.Recover? {
      UpdateEffect(s, l, s');
    } else if l.Wipe? {
      WipeEffect(s, l, s');
    } else if l.Return? || l.Abandon? {
      ReleaseEffect(s, l, s');
    } else if l.Acquire? {
      AcquireEffect(s, l, s');
    } else if l.Begin? {
      BeginEffect(s, s', l.call);
    } else {
      EnvironmentEffect(s, l, s');
    }
  }

  ghost predicate SameCounts(s: State, s': State) {
    && |s'.calls| == |s.calls|
    && forall b | 0 <= b < |s.calls| ::
         s'.calls[b].confirmed == s.calls[b].confirmed && s'.calls[b].result == s.calls[b].result
  }

  lemma SendNetwork(s: State, l: Label, s': State)
    requires Structure(s) && Network(s) && l.Send?
    requires Step(s, l, s')
    ensures Network(s')
  {
    SendEffect(s, l, s');
    assert !MayHaveSent(s.calls[l.call], s.calls[l.call].confirmed);
    assert !Outstanding(s, l.call, s.calls[l.call].confirmed);
    NetworkFollows(s, s');
  }

  /** The network facts survive any progress that confirms only applied steps. */
  lemma NetworkFollows(s: State, s': State)
    requires Network(s) && AllProgress(s, s') && s'.flying !! s'.applied && s.applied <= s'.applied
    requires forall b: nat, k: nat | Outstanding(s', b, k) ::
               Outstanding(s, b, k) || (Writing(s', b) && MayHaveSent(s'.calls[b], k))
    requires forall b: nat, k: nat | Writing(s, b) && k < s'.calls[b].confirmed :: k < s.calls[b].confirmed || (b, k) in s'.applied
    ensures Network(s')
  {
    forall b: nat, k: nat | Outstanding(s', b, k)
      ensures Writing(s', b) && MayHaveSent(s'.calls[b], k)
    {
      if Outstanding(s, b, k) {
        assert Writing(s, b) && MayHaveSent(s.calls[b], k);
        assert Progress(s.calls[b], s'.calls[b]);
      }
    }
    forall b: nat, k: nat | Writing(s', b) && k < s'.calls[b].confirmed
      ensures (b, k) in s'.applied
    {
      assert Progress(s.calls[b], s'.calls[b]);
    }
  }

  lemma AnswerNetwork(s: State, l: Label, s': State)
    requires Structure(s) && Network(s) && l.Answer?
    requires Step(s, l, s')
    ensures Network(s')
  {
    AnswerEffect(s, l, s');
    NetworkFollows(s, s');
  }

  lemma DeliverNetwork(s: State, l: Label, s': State)
    requires Network(s) && l.Deliver?
    requires Step(s, l, s')
    ensures Network(s')
  {
    forall b: nat, k: nat | Outstanding(s', b, k)
      ensures Outstanding(s, b, k)
    {
    }
    EnvironmentEffect(s, l, s');
    NetworkFollows(s, s');
  }

  lemma NetworkStep(s: State, l: Label, s': State)
    requires Structure(s) && Network(s) && Step(s, l, s')
    ensures Network(s')
  {
    if l.Send? {
      SendNetwork(s, l, s');
    } else if l.Answer? {
      AnswerNetwork(s, l, s');
    } else if l.Deliver? {
      DeliverNetwork(s, l, s');
    } else {
      OffNetwork(s, l, s');
      StepEffect(s, l, s');
      NetworkFollows(s, s');
    }
  }

  /** No step makes a request outstanding, except the one a Send step sends. */
  lemma OutstandingStep(s: State, l: Label, s': State, b: nat, k: nat)
    requires Structure(s) && Outstanding(s', b, k)
    requires Step(s, l, s')
    ensures Outstanding(s, b, k) || (l.Send? && b == l.call && k == s.calls[b].confirmed)
    ensures (b, k) in s'.flying && !l.Send? ==> (b, k) in s.flying
    ensures (b, k) in s'.applied ==> Outstanding(s, b, k)
  {
    if l.Send? {
      SendEffect(s, l, s');
    } else if l.Answer? {
      AnswerEffect(s, l, s');
    } else if !l.Deliver? {
      OffNetwork(s, l, s');
    }
  }

  // ----- Masks -----

  lemma SingleStepMask(plan: seq<bv32>)
    requires plan == [1]
    ensures MaskOf(plan[..0]) == 0 && MaskOf(plan[..1]) == 1 && plan[..1] == plan
  {
    MaskGrows(plan, 0);
  }

  // ----- What each status promises about the steps of the call that owns the row -----

  /** The request of step `k` cannot take effect any more, and has not unless work follows such a step. */
  ghost predicate GivenUp(s: State, a: nat, k: nat)
    requires Writing(s, a)
  {
    (a, k) !in s.flying && ((a, k) in s.applied ==> FollowUp(s.calls[a].req, k))
  }

  ghost predicate StatusTrue(s: State, a: nat, status: Status)
    requires Writing(s, a)
  {
    var c := s.calls[a];
    match status
    case Succeeded => c.confirmed == |c.req.plan|
    case Failed => c.confirmed == 0 && GivenUp(s, a, 0)
    case Partial =>
      && !c.req.kind.Mail? && 0 < c.confirmed && GivenUp(s, a, c.confirmed)
      && (c.req.kind.Calendar? ==> c.confirmed < |c.req.plan|)
    case Unknown => true
    case Pending => true
  }

  /** What a call about to store, or still running, knows. */
  ghost predicate PcTrue(s: State, a: nat) {
    Writing(s, a) ==>
      var c := s.calls[a];
      && ValidRequest(c.req) && c.confirmed <= |c.req.plan|
      && (NotInserted(c.pc) ==> c.confirmed == 0 && c.result.None?)
      && (!c.req.kind.Calendar? && (c.pc.Running? || c.pc.Sent?) ==> c.confirmed == 0)
      && (c.pc.Confirmed? ==> c.req.kind.Calendar? && 0 < c.confirmed)
      && (c.pc.Verifying? ==> c.req.kind.AutoReply? && c.confirmed == 1 && StatusTrue(s, a, Partial))
      && (c.pc.Finishing? ==>
            && c.pc.status != Pending && StatusTrue(s, a, c.pc.status) && c.pc.steps == CompletedMask(c)
            && (c.pc.locator.Some? ==> c.pc.status == Succeeded && c.req.kind.Mail? && c.pc.locator == c.result))
      && ((c.pc.Returning? || c.pc.Done?) && c.pc.report.Reported? ==> StatusTrue(s, a, c.pc.report.status))
  }

  ghost predicate CallsTrue(s: State) {
    forall a | 0 <= a < |s.calls| :: PcTrue(s, a)
  }

  /** No request of the call is sent, and only requests on their way take effect. */
  ghost predicate NothingNew(s: State, s': State, b: nat) {
    && (forall k: nat | (b, k) in s'.flying :: (b, k) in s.flying)
    && (forall k: nat | (b, k) in s'.applied :: Outstanding(s, b, k))
  }

  lemma NothingNewStep(s: State, l: Label, s': State, b: nat)
    requires Structure(s) && (l.Send? ==> b != l.call)
    requires Step(s, l, s')
    ensures NothingNew(s, s', b)
  {
    forall k: nat | Outstanding(s', b, k)
      ensures (b, k) in s'.flying ==> (b, k) in s.flying
      ensures (b, k) in s'.applied ==> Outstanding(s, b, k)
    {
      OutstandingStep(s, l, s', b, k);
    }
    assert forall k: nat | (b, k) in s'.flying || (b, k) in s'.applied :: Outstanding(s', b, k);
  }

  /** A quiescent call keeps what a status says of it. */
  lemma StatusStays(s: State, s': State, b: nat, status: Status)
    requires Writing(s, b) && At(s', b) && Progress(s.calls[b], s'.calls[b]) && NothingNew(s, s', b)
    requires Quiescent(s.calls[b].pc) && StatusTrue(s, b, status)
    ensures Writing(s', b) && StatusTrue(s', b, status)
  {
  }

  lemma ClaimlessTrue(s: State, s': State, a: nat)
    requires PcTrue(s, a) && Moves(s, s', a) && SameNetwork(s, s', a) && Claimless(s'.calls[a].pc)
    ensures PcTrue(s', a)
  {
  }

  lemma AcceptedTrue(s: State, l: Label, s': State)
    requires Structure(s) && Network(s) && l.Answer? && l.reply.Accepted? && PcTrue(s, l.call)
    requires Step(s, l, s')
    ensures PcTrue(s', l.call)
  {
    AnswerEffect(s, l, s');
    var c, a := s.calls[l.call], l.call;
    if !c.req.kind.Calendar? {
      SingleStepMask(c.req.plan);
    }
    assert !MayHaveSent(c, c.confirmed + 1);
    assert !Outstanding(s', a, c.confirmed + 1);
  }

  lemma RejectedTrue(s: State, l: Label, s': State)
    requires Structure(s) && Network(s) && l.Answer? && l.reply.Rejected? && PcTrue(s, l.call)
    requires Step(s, l, s')
    ensures PcTrue(s', l.call)
  {
    AnswerEffect(s, l, s');
    var c, a := s.calls[l.call], l.call;
    assert s'.calls[a].pc == RejectedPc(c);
    assert GivenUp(s', a, c.confirmed);
    if c.confirmed > 0 {
      MaskNonZero(c.req.plan, c.confirmed);
    }
  }

  lemma AmbiguousTrue(s: State, l: Label, s': State)
    requires Structure(s) && l.Answer? && (l.reply.Ambiguous? || l.reply.Wiped?) && PcTrue(s, l.call)
    requires Step(s, l, s')
    ensures PcTrue(s', l.call)
  {
    AnswerEffect(s, l, s');
    assert s'.calls[l.call].pc == if l.reply.Ambiguous? then AmbiguousPc(s.calls[l.call]) else Wiping;
  }

  /** Before the row exists, and when the call gives its row up. */
  lemma EdgeTrue(s: State, l: Label, s': State)
    requires l.Lookup? || l.Recheck? || l.Begin? || l.Acquire? || l.Wipe?
    requires Structure(s) && PcTrue(s, l.call)
    requires Step(s, l, s')
    ensures PcTrue(s', l.call)
  {
    if l.Lookup? || l.Recheck? {
      ReplayEffect(s, l, s');
    } else if l.Begin? {
      BeginEffect(s, s', l.call);
    } else if l.Acquire? {
      AcquireEffect(s, l, s');
    } else {
      WipeEffect(s, l, s');
    }
    if Claimless(s'.calls[l.call].pc) {
      ClaimlessTrue(s, s', l.call);
    }
  }

  lemma MiddleTrue(s: State, l: Label, s': State)
    requires l.Send? || l.Conclude? || l.Checkpoint?
    requires Structure(s) && PcTrue(s, l.call)
    requires Step(s, l, s')
    ensures PcTrue(s', l.call)
  {
    var c := s.calls[l.call];
    assert c.req.plan[..|c.req.plan|] == c.req.plan;
  }

  lemma StoreTrue(s: State, s': State, a: nat)
    requires Writing(s, a) && s.calls[a].pc.Finishing? && PcTrue(s, a) && Moves(s, s', a) && SameNetwork(s, s', a)
    requires s'.calls[a].pc == Returning(Unfinished) || s'.calls[a].pc == Returning(Reported(s.calls[a].pc.status))
             || (s'.calls[a].pc == Verifying && s.calls[a].req.kind.AutoReply? && s.calls[a].pc.status == Partial)
    ensures PcTrue(s', a)
  {
    StatusStays(s, s', a, s.calls[a].pc.status);
  }

  lemma VerifyTrue(s: State, l: Label, s': State)
    requires Structure(s) && l.Verify? && PcTrue(s, l.call)
    requires Step(s, l, s')
    ensures PcTrue(s', l.call)
  {
    ProgressEffect(s, l, s');
    SingleStepMask(s.calls[l.call].req.plan);
    StatusStays(s, s', l.call, Partial);
  }

  lemma ReleaseTrue(s: State, l: Label, s': State)
    requires (l.Return? || l.Abandon?) && Structure(s) && PcTrue(s, l.call)
    requires Step(s, l, s')
    ensures PcTrue(s', l.call)
  {
    ReleaseEffect(s, l, s');
    if Claimless(s'.calls[l.call].pc) {
      ClaimlessTrue(s, s', l.call);
    } else if s.calls[l.call].req.Write? {
      StatusStays(s, s', l.call, s.calls[l.call].pc.report.status);
    }
  }

  lemma OwnTrue(s: State, l: Label, s': State)
    requires ByCall(l) && !l.Recover? && Structure(s) && Network(s) && PcTrue(s, l.call)
    requires Step(s, l, s')
    ensures PcTrue(s', l.call)
  {
    if l.Answer? {
      if l.reply.Accepted? {
        AcceptedTrue(s, l, s');
      } else if l.reply.Rejected? {
        RejectedTrue(s, l, s');
      } else {
        AmbiguousTrue(s, l, s');
      }
    } else if l.Store? {
      StoreEffect(s, l, s');
      StoreTrue(s, s', l.call);
    } else if l.Verify? {
      VerifyTrue(s, l, s');
    } else if l.Return? || l.Abandon? {
      ReleaseTrue(s, l, s');
    } else if l.Send? || l.Conclude? || l.Checkpoint? {
      MiddleTrue(s, l, s');
    } else {
      EdgeTrue(s, l, s');
    }
  }

  lemma CallsTrueStep(s: State, l: Label, s': State)
    requires Structure(s) && Network(s) && CallsTrue(s) && Step(s, l, s')
    ensures CallsTrue(s')
  {
    StepEffect(s, l, s');
    forall b | 0 <= b < |s'.calls|
      ensures PcTrue(s', b)
    {
      assert Progress(s.calls[b], s'.calls[b]) && PcTrue(s, b);
      if ByCall(l) && b == l.call {
        if !l.Recover? {
          OwnTrue(s, l, s');
        }
      } else {
        OthersStand(s, l, s', b);
        NothingNewStep(s, l, s', b);
      }
    }
  }
}
