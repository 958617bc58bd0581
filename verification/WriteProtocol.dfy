/**
 The idempotent write protocol as a labelled transition system.

 Any number of calls, in any number of processes, share one journal and one write lock per
 account. A call is one attempt of a client to run a write, or one reader recovering an account.
 External requests travel through a network that may deliver them late, also after the call
 that sent them has died.
 */
module WriteProtocol {
  import opened Base
  import opened JournalModel

  datatype Request =
    | Write(op: Text, account: Text, kind: Kind, payload: Text, plan: seq<bv32>)
    | Recovery(account: Text)

  /** How a call ended. `source` is the call that inserted the row a replay reported. */
  datatype Report =
    | Replayed(entry: Entry, source: nat)
    | Reported(status: Status)
    | Conflict
    | Recovered
    | Unfinished

  /** Program counter of one call. */
  datatype Pc =
    | Idle
    | Queued
    | Locked
    | Running
    | Sent
    | Confirmed
    | Finishing(status: Status, steps: bv32, locator: Option<Locator>)
    | Verifying
    | Wiping
    | Returning(report: Report)
    | Done(report: Report)

  /** `confirmed` counts the external steps acknowledged so far; `result` is the last confirmed move target. */
  datatype Call = Call(req: Request, pc: Pc, confirmed: nat, result: Option<Locator>)

  datatype Event =
    | Inserted(op: Text, call: nat)
    | Attempted(op: Text, call: nat, step: nat)
    | Purged(removed: Rows)
    | Expired(removed: Rows, at: int)

  /** `owner`, `flying`, `applied` and `history` are observations the program itself does not keep. */
  datatype State = State(
    calls: seq<Call>,
    locks: map<Text, nat>,
    rows: Rows,
    owner: map<Text, nat>,
    flying: set<(nat, nat)>,
    applied: set<(nat, nat)>,
    history: seq<Event>,
    now: int)

  /**
   What the backend reports of a step. An ordinary error or a remote wipe means that the request was
   refused, or, for a step with follow-up work, that it took effect and the work after it failed.
   */
  datatype Reply = Accepted(moved: Option<Locator>) | Rejected | Ambiguous | Wiped

  datatype Verification = Matches | Differs | WipedOnRead

  datatype Label =
    | Lookup(call: nat)
    | Acquire(call: nat)
    | Recheck(call: nat)
    | Begin(call: nat)
    | Send(call: nat)
    | Deliver(call: nat, step: nat)
    | Answer(call: nat, reply: Reply)
    | Checkpoint(call: nat)
    | Conclude(call: nat)
    | Store(call: nat)
    | Verify(call: nat, outcome: Verification)
    | Wipe(call: nat)
    | Recover(call: nat)
    | Return(call: nat)
    | Abandon(call: nat)
    | Purge(account: Text)
    | Prune
    | Tick(seconds: nat)

  /** The mask `completed |= bit` builds over a plan. */
  function MaskOf(bits: seq<bv32>): bv32 {
    if bits == [] then 0 else MaskOf(bits[..|bits|-1]) | bits[|bits|-1]
  }

  predicate SingleBit(b: bv32) {
    b != 0 && b & (b - 1) == 0
  }

  predicate ValidPlan(plan: seq<bv32>) {
    && plan != []
    && (forall i | 0 <= i < |plan| :: SingleBit(plan[i]))
    && (forall i, j | 0 <= i < j < |plan| :: plan[i] != plan[j])
  }

  lemma MaskGrows(plan: seq<bv32>, n: nat)
    requires n < |plan|
    ensures MaskOf(plan[..n+1]) == MaskOf(plan[..n]) | plan[n]
  {
    assert plan[..n+1][..n] == plan[..n];
  }

  lemma OrNonZero(a: bv32, b: bv32)
    requires b != 0
    ensures a | b != 0
  {
    assert a | b == 0 ==> b == 0;
  }

  lemma MaskNonZero(plan: seq<bv32>, n: nat)
    requires ValidPlan(plan) && 0 < n <= |plan|
    ensures MaskOf(plan[..n]) != 0
  {
    MaskGrows(plan, n - 1);
    OrNonZero(MaskOf(plan[..n-1]), plan[n-1]);
  }

  // ----- Steps with follow-up work -----

  const STEP_ITEM: bv32 := 0x01
  const STEP_NEW_SERIES: bv32 := 0x20
  const STEP_TRUNCATE_SERIES: bv32 := 0x40

  /** Creates, changes or deletes a calendar item. */
  predicate ItemStep(bit: bv32) {
    bit == STEP_ITEM || bit == STEP_NEW_SERIES || bit == STEP_TRUNCATE_SERIES
  }

  /**
   After Exchange has accepted such a step the backend still reads identifiers and keys, and after a
   create reads the new item back; any of that may fail with an ordinary error.
   */
  predicate FollowUp(r: Request, k: nat) {
    r.Write? && r.kind.Calendar? && k < |r.plan| && ItemStep(r.plan[k])
  }

  /** Mail and automatic-reply writes have one external step, journaled as mask 1. */
  predicate ValidRequest(r: Request) {
    r.Write? ==> ValidPlan(r.plan) && (!r.kind.Calendar? ==> r.plan == [1])
  }

  predicate ValidWorkload(w: seq<Request>) {
    forall a | 0 <= a < |w| :: ValidRequest(w[a])
  }

  predicate HoldsLock(pc: Pc) {
    pc.Locked? || Begun(pc) || pc.Wiping? || pc.Returning?
  }

  /** The call inserted its row and may still change it. */
  predicate Begun(pc: Pc) {
    pc.Running? || pc.Sent? || pc.Confirmed? || pc.Finishing? || pc.Verifying?
  }

  predicate NotInserted(pc: Pc) {
    pc.Idle? || pc.Queued? || pc.Locked?
  }

  function RecordOf(r: Request): Record
    requires r.Write?
  {
    Record(r.account, r.kind, r.payload, Pending, 0)
  }

  function CompletedMask(c: Call): bv32
    requires c.req.Write? && c.confirmed <= |c.req.plan|
  {
    MaskOf(c.req.plan[..c.confirmed])
  }

  function Init(w: seq<Request>): State {
    State(seq(|w|, a requires 0 <= a < |w| => Call(w[a], Idle, 0, None)),
          map[], map[], map[], {}, {}, [], 0)
  }

  function SetPc(s: State, a: nat, pc: Pc): State
    requires a < |s.calls|
  {
    s.(calls := s.calls[a := s.calls[a].(pc := pc)])
  }

  predicate At(s: State, a: nat) {
    a < |s.calls|
  }

  predicate Writing(s: State, a: nat) {
    At(s, a) && s.calls[a].req.Write?
  }

  predicate MayReportError(s: State, a: nat)
    requires Writing(s, a)
  {
    var k := s.calls[a].confirmed;
    (a, k) in s.flying || ((a, k) in s.applied && FollowUp(s.calls[a].req, k))
  }

  predicate Enabled(s: State, l: Label) {
    match l
    case Lookup(a) => Writing(s, a) && s.calls[a].pc.Idle?
    case Acquire(a) =>
      && At(s, a) && s.calls[a].req.account !in s.locks
      && (if s.calls[a].req.Write? then s.calls[a].pc.Queued? else s.calls[a].pc.Idle?)
    case Recheck(a) => Writing(s, a) && s.calls[a].pc.Locked?
    case Begin(a) => Writing(s, a) && s.calls[a].pc.Locked?
    case Send(a) => Writing(s, a) && s.calls[a].pc.Running? && s.calls[a].confirmed < |s.calls[a].req.plan|
    case Deliver(a, k) => (a, k) in s.flying
    case Answer(a, reply) =>
      && Writing(s, a) && s.calls[a].pc.Sent? && s.calls[a].confirmed < |s.calls[a].req.plan|
      && (match reply
          case Accepted(moved) => (a, s.calls[a].confirmed) in s.applied && (moved.Some? ==> s.calls[a].req.kind.Mail?)
          case Rejected => MayReportError(s, a)
          case Wiped => MayReportError(s, a)
          case Ambiguous => true)
    case Checkpoint(a) => Writing(s, a) && s.calls[a].pc.Confirmed? && s.calls[a].confirmed <= |s.calls[a].req.plan|
    case Conclude(a) => Writing(s, a) && s.calls[a].pc.Running? && s.calls[a].confirmed == |s.calls[a].req.plan|
    case Store(a) => Writing(s, a) && s.calls[a].pc.Finishing?
    case Verify(a, _) => Writing(s, a) && s.calls[a].pc.Verifying?
    case Wipe(a) => Writing(s, a) && s.calls[a].pc.Wiping?
    case Recover(a) => At(s, a) && s.calls[a].req.Recovery? && s.calls[a].pc.Locked?
    case Return(a) => At(s, a) && s.calls[a].pc.Returning?
    case Abandon(a) => At(s, a) && !s.calls[a].pc.Done?
    case Purge(_) => true
    case Prune => true
    case Tick(_) => true
  }

  /** The call that inserted the row; `|s.calls|`, which is no call, when there is none. */
  function OwnerOf(s: State, op: Text): nat {
    if op in s.owner then s.owner[op] else |s.calls|
  }

  /** Outcome of a replay check or of `begin` on an existing row. */
  function ReplayReport(s: State, a: nat): Report
    requires Writing(s, a) && s.calls[a].req.op in s.rows
  {
    Replayed(s.rows[s.calls[a].req.op], OwnerOf(s, s.calls[a].req.op))
  }

  /** Status and mask stored after an ordinary error. */
  function RejectedPc(c: Call): Pc
    requires c.req.Write? && c.confirmed <= |c.req.plan|
  {
    if !c.req.kind.Calendar? then Finishing(Failed, 0, None)
    else if CompletedMask(c) == 0 then Finishing(Failed, CompletedMask(c), None)
    else Finishing(Partial, CompletedMask(c), None)
  }

  function AmbiguousPc(c: Call): Pc
    requires c.req.Write? && c.confirmed <= |c.req.plan|
  {
    Finishing(Unknown, if c.req.kind.Calendar? then CompletedMask(c) else 0, None)
  }

  function AcceptedCall(c: Call, moved: Option<Locator>): Call
    requires c.req.Write?
  {
    var pc := match c.req.kind
      case Calendar(_) => Confirmed
      case Mail(_) => Finishing(Succeeded, 1, moved)
      case AutoReply => Finishing(Partial, 1, None);
    Call(c.req, pc, c.confirmed + 1, moved)
  }

  function Unlock(s: State, a: nat): State
    requires At(s, a)
  {
    if s.calls[a].req.account in s.locks && s.locks[s.calls[a].req.account] == a
    then s.(locks := s.locks - {s.calls[a].req.account}) else s
  }

  function RemoveRows(s: State, gone: Rows, e: Event): State {
    s.(rows := s.rows - gone.Keys, owner := s.owner - gone.Keys, history := s.history + [e])
  }

  function PurgeAccount(s: State, account: Text): State {
    RemoveRows(s, AccountRows(s.rows, account), Purged(AccountRows(s.rows, account)))
  }

  function ApplyBegin(s: State, a: nat): State
    requires Writing(s, a)
  {
    var op := s.calls[a].req.op;
    match BeginResult(s.rows, op, RecordOf(s.calls[a].req))
    case Err(_) => SetPc(s, a, Returning(Conflict))
    case Ok(reply) =>
      if reply.inserted then
        SetPc(s, a, Running).(rows := BeginRows(s.rows, op, RecordOf(s.calls[a].req), s.now),
                              owner := s.owner[op := a],
                              history := s.history + [Inserted(op, a)])
      else SetPc(s, a, Returning(ReplayReport(s, a)))
  }

  /** The replay check before the lock (`Done`) or under it (`Returning`). */
  function ApplyReplay(s: State, a: nat, locked: bool): State
    requires Writing(s, a)
  {
    match ReplayResult(s.rows, s.calls[a].req.op, RecordOf(s.calls[a].req))
    case Err(_) => SetPc(s, a, if locked then Returning(Conflict) else Done(Conflict))
    case Ok(None) => if locked then s else SetPc(s, a, Queued)
    case Ok(Some(_)) =>
      SetPc(s, a, if locked then Returning(ReplayReport(s, a)) else Done(ReplayReport(s, a)))
  }

  function ApplyAnswer(s: State, a: nat, reply: Reply): State
    requires Enabled(s, Answer(a, reply))
  {
    var c := s.calls[a];
    match reply
    case Accepted(moved) => s.(calls := s.calls[a := AcceptedCall(c, moved)])
    case Rejected => SetPc(s, a, RejectedPc(c)).(flying := s.flying - {(a, c.confirmed)})
    case Wiped => SetPc(s, a, Wiping).(flying := s.flying - {(a, c.confirmed)})
    case Ambiguous => SetPc(s, a, AmbiguousPc(c))
  }

  function ApplyStore(s: State, a: nat): State
    requires Enabled(s, Store(a))
  {
    var c := s.calls[a];
    if FinishResult(s.rows, c.req.op, c.pc.status, c.pc.locator).Ok? then
      SetPc(s, a, if c.req.kind.AutoReply? && c.pc.status == Partial then Verifying else Returning(Reported(c.pc.status)))
        .(rows := FinishRows(s.rows, c.req.op, c.pc.status, c.pc.steps, c.pc.locator, s.now))
    else SetPc(s, a, Returning(Unfinished))
  }

  function ApplyVerify(s: State, a: nat, outcome: Verification): State
    requires Enabled(s, Verify(a, outcome))
  {
    SetPc(s, a,
          match outcome
          case Matches => Finishing(Succeeded, 1, None)
          case Differs => Returning(Reported(Partial))
          case WipedOnRead => Wiping)
  }

  function Apply(s: State, l: Label): State
    requires Enabled(s, l)
  {
    match l
    case Lookup(a) => ApplyReplay(s, a, false)
    case Acquire(a) => SetPc(s, a, Locked).(locks := s.locks[s.calls[a].req.account := a])
    case Recheck(a) => ApplyReplay(s, a, true)
    case Begin(a) => ApplyBegin(s, a)
    case Send(a) =>
      SetPc(s, a, Sent).(flying := s.flying + {(a, s.calls[a].confirmed)},
                         history := s.history + [Attempted(s.calls[a].req.op, a, s.calls[a].confirmed)])
    case Deliver(a, k) => s.(flying := s.flying - {(a, k)}, applied := s.applied + {(a, k)})
    case Answer(a, reply) => ApplyAnswer(s, a, reply)
    case Checkpoint(a) =>
      if CanCheckpoint(s.rows, s.calls[a].req.op) then
        SetPc(s, a, Running).(rows := CheckpointRows(s.rows, s.calls[a].req.op, CompletedMask(s.calls[a]), s.now))
      else SetPc(s, a, Returning(Unfinished))
    case Conclude(a) => SetPc(s, a, Finishing(Succeeded, CompletedMask(s.calls[a]), None))
    case Store(a) => ApplyStore(s, a)
    case Verify(a, outcome) => ApplyVerify(s, a, outcome)
    case Wipe(a) => SetPc(PurgeAccount(s, s.calls[a].req.account), a, Returning(Unfinished))
    case Recover(a) => SetPc(s, a, Returning(Recovered)).(rows := RecoverRows(s.rows, s.calls[a].req.account, s.now))
    case Return(a) => SetPc(Unlock(s, a), a, Done(s.calls[a].pc.report))
    case Abandon(a) => SetPc(Unlock(s, a), a, Done(Unfinished))
    case Purge(account) => PurgeAccount(s, account)
    case Prune => RemoveRows(s, PrunableRows(s.rows, s.now), Expired(PrunableRows(s.rows, s.now), s.now))
    case Tick(seconds) => s.(now := s.now + seconds)
  }

  predicate Step(s: State, l: Label, s': State) {
    Enabled(s, l) && s' == Apply(s, l)
  }

  /** A finite run of workload `w`: any interleaving, crash and delivery order. */
  predicate Run(w: seq<Request>, states: seq<State>, labels: seq<Label>) {
    && |states| == |labels| + 1
    && states[0] == Init(w)
    && forall i | 0 <= i < |labels| :: Step(states[i], labels[i], states[i+1])
  }
}
